/** Client code in the style of the store's and the server's tests: what a caller can conclude
    from the contracts alone. Instants are in milliseconds from an arbitrary `t`. Each scenario
    fills its store in a separate method, so that only the resulting contents carry over. */
module Scenarios {
  import opened Wrappers
  import opened Entries
  import opened SortedIndex
  import opened DataStore
  import opened Reaper
  import opened Server

  /** Three one-minute items (the fixture of datastore/datastore_test.go:61-87). */
  method ThreeItems(t: int) returns (store: Store)
    ensures fresh(store) && store.Valid()
    ensures store.entries == map["key 1" := NewString("value 1", 60000, t),
                                 "key 2" := NewString("value 2", 60000, t),
                                 "key 3" := NewString("value 3", 60000, t)]
  {
    store := new Store();
    store.Set("key 1", NewString("value 1", 60000, t));
    store.Set("key 2", NewString("value 2", 60000, t));
    store.Set("key 3", NewString("value 3", 60000, t));
  }

  /** A new store is empty (datastore/datastore_test.go:12-15, 143-146). */
  method NewStoreScenario() {
    var store := new Store();
    var n := store.Count();
    var keys := store.GetKeys();
    assert n == 0 && keys == [];
  }

  /** Two one-minute items (the fixture of datastore/datastore_test.go:38-47 and 99-105). */
  method TwoItems(t: int) returns (store: Store)
    ensures fresh(store) && store.Valid()
    ensures store.entries == map["key 1" := NewString("value 1", 60000, t),
                                 "key 2" := NewString("value 2", 60000, t)]
  {
    store := new Store();
    store.Set("key 1", NewString("value 1", 60000, t));
    store.Set("key 2", NewString("value 2", 60000, t));
  }

  /** The two items of TwoItems are two distinct keys. */
  lemma TwoItemsCount(m: map<string, Entry>, t: int)
    requires m == map["key 1" := NewString("value 1", 60000, t),
                      "key 2" := NewString("value 2", 60000, t)]
    ensures "key 1" in m && "key 2" in m && |m| == 2
  {
    assert m.Keys == {"key 1"} + {"key 2"};
  }

  /** GetKeys lists both keys, and Count counts them (datastore/datastore_test.go:38-47,
      99-105, 143-155, 179-185). */
  method GetKeysAndCountScenario(t: int) {
    var store := TwoItems(t);
    TwoItemsCount(store.entries, t);
    var keys := store.GetKeys();
    var n := store.Count();
    assert "key 1" in Elements(keys) && "key 2" in Elements(keys);
    assert |keys| == 2 && "key 1" in keys && "key 2" in keys && n == 2;
  }

  /** Contains on a stored and an absent key (datastore/datastore_test.go:89-97, 169-177). */
  method ContainsScenario(t: int) {
    var store := new Store();
    store.Set("Some key", NewString("Some value", 60000, t));
    var present := store.Contains("Some key");
    var absent := store.Contains("another key");
    assert present && !absent;
  }

  /** A one-minute item dies before a two-minute item created at the same instant
      (datastore/datastore_test.go:196-200). */
  lemma CompareScenario(t: int)
    ensures DiesBefore(NewString("value 1", 60000, t), NewString("value 2", 120000, t))
  {
  }

  /** A batch delete with two present and two absent keys reports which were deleted
      (datastore/datastore_test.go:61-73). */
  method BatchDeleteScenario(t: int) {
    var store := ThreeItems(t);
    var batch := ["key 1", "key N", "key 2", "key Z"];
    var results := store.BatchDelete(batch);
    assert batch[..2] == ["key 1", "key N"];
    assert results[0] && !results[1] && results[2] && !results[3];
  }

  /** The keys of a four-key batch. */
  lemma FourKeys(a: string, b: string, c: string, d: string)
    ensures Elements([a, b, c, d]) == {a, b, c, d}
  {
    assert [a, b, c, d][0] == a && [a, b, c, d][1] == b;
    assert [a, b, c, d][2] == c && [a, b, c, d][3] == d;
  }

  /** What the four-key batch leaves of the three items. */
  lemma ThreeItemsLessBatch(m: map<string, Entry>, t: int)
    requires m == map["key 1" := NewString("value 1", 60000, t),
                      "key 2" := NewString("value 2", 60000, t),
                      "key 3" := NewString("value 3", 60000, t)]
    ensures m - {"key 1", "key N", "key 2", "key Z"} == map["key 3" := NewString("value 3", 60000, t)]
  {
  }

  /** After that batch delete one item is left. */
  method BatchDeleteLeavesOne(t: int) {
    var store := ThreeItems(t);
    ghost var m0 := store.entries;
    var batch := ["key 1", "key N", "key 2", "key Z"];
    FourKeys("key 1", "key N", "key 2", "key Z");
    ThreeItemsLessBatch(m0, t);
    var _ := store.BatchDelete(batch);
    var n := store.Count();
    var kept := store.Contains("key 3");
    assert n == 1 && kept;
  }

  /** A key listed twice in one batch is deleted once: its second position reports false. */
  method RepeatedKeyScenario(t: int) {
    var store := ThreeItems(t);
    var batch := ["key 1", "key 1"];
    var results := store.BatchDelete(batch);
    assert batch[..1] == ["key 1"];
    assert results == [true, false];
  }

  /** Deleting a key twice, then an absent key (datastore/datastore_test.go:49-59). */
  method DeleteScenario(t: int) {
    var store := new Store();
    store.Set("Some key", NewString("Some value", 60000, t));
    var first := store.Delete("Some key");
    var n := store.Count();
    var second := store.Delete("Some key");
    var third := store.Delete("another key");
    assert first && n == 0 && !second && !third;
  }

  /** Set, get and replace (datastore/datastore_test.go:116-141). */
  method SetGetScenario(t: int) {
    var store := new Store();
    var v1 := NewString("Some value", 60000, t);
    var v2 := NewList([Str("Xiaomi"), Str("Samsung")], 120000, t);
    store.Set("Some key", v1);
    var got, ok := store.Get("Some key");
    assert ok && got == Some(v1);
    store.Set("Some key", v2);
    got, ok := store.Get("Some key");
    assert ok && got == Some(v2);
    got, ok := store.Get("another key");
    assert !ok && got == None;
  }

  /** Clear empties a non-empty store (datastore/datastore_test.go:187-194). */
  method ClearScenario(t: int) {
    var store := ThreeItems(t);
    store.Clear();
    var n := store.Count();
    var keys := store.GetKeys();
    assert n == 0 && keys == [];
  }

  /** Items that die at t-2s, t-1s, t+1s and t+2s, written in a shuffled order. */
  method FourItems(t: int) returns (store: Store)
    ensures fresh(store) && store.Valid()
    ensures store.entries == map["c" := NewString("c", 1000, t), "a" := NewString("a", -2000, t),
                                 "d" := NewString("d", 2000, t), "b" := NewString("b", -1000, t)]
  {
    store := new Store();
    store.Set("c", NewString("c", 1000, t));
    store.Set("a", NewString("a", -2000, t));
    store.Set("d", NewString("d", 2000, t));
    store.Set("b", NewString("b", -1000, t));
  }

  /** The items of FourItems alive at `t`: "c" and "d". */
  lemma FourItemsSurvivors(m: map<string, Entry>, t: int)
    requires m == map["c" := NewString("c", 1000, t), "a" := NewString("a", -2000, t),
                      "d" := NewString("d", 2000, t), "b" := NewString("b", -1000, t)]
    ensures "a" !in Survivors(m, t) && "b" !in Survivors(m, t)
    ensures "c" in Survivors(m, t) && "d" in Survivors(m, t) && |Survivors(m, t)| == 2
  {
    var r := Survivors(m, t);
    assert r.Keys == {"c", "d"} by {
      forall k ensures k in r <==> k == "c" || k == "d" {
        assert k in m <==> k == "c" || k == "a" || k == "d" || k == "b";
      }
    }
    assert |r.Keys| == 2;
  }

  /** A sweep at `t` removes exactly the two items that died before `t`. */
  method SweepScenario(t: int) {
    var store := FourItems(t);
    ghost var m0 := store.entries;
    FourItemsSurvivors(m0, t);
    CleanupExpiredItems(store, t);
    var a := store.Contains("a");
    var b := store.Contains("b");
    var c := store.Contains("c");
    var d := store.Contains("d");
    var n := store.Count();
    assert !a && !b && c && d && n == 2;
  }

  /** Once nothing stored is expired at `t`, a sweep at `t` changes nothing. */
  method SweepAgainScenario(store: Store, t: int)
    requires store.Valid()
    requires forall k :: k in store.entries ==> !Expired(store.entries[k], t)
    modifies store
  {
    var keys := store.GetKeys();
    ghost var before := store.entries;
    assert Survivors(before, t) == before;
    CleanupExpiredItems(store, t);
    var keysAgain := store.GetKeys();
    assert keysAgain == keys && store.entries == before;
  }

  /** Items of one and five seconds. */
  method ShortAndLong(t: int) returns (store: Store)
    ensures fresh(store) && store.Valid()
    ensures store.entries == map["a" := NewString("x", 1000, t), "b" := NewString("y", 5000, t)]
  {
    store := new Store();
    store.Set("a", NewString("x", 1000, t));
    store.Set("b", NewString("y", 5000, t));
  }

  /** The items of ShortAndLong alive two seconds after `t`. */
  lemma ShortAndLongSurvivors(m: map<string, Entry>, t: int)
    requires m == map["a" := NewString("x", 1000, t), "b" := NewString("y", 5000, t)]
    ensures Survivors(m, t + 2000) == map["b" := NewString("y", 5000, t)]
    ensures "a" !in Survivors(m, t + 2000) && |Survivors(m, t + 2000)| == 1
  {
  }

  /** A sweep two seconds later removes the one-second item only. */
  method ShortAndLongScenario(t: int) {
    var store := ShortAndLong(t);
    ghost var m0 := store.entries;
    ShortAndLongSurvivors(m0, t);
    CleanupExpiredItems(store, t + 2000);
    var n := store.Count();
    var a := store.Contains("a");
    assert n == 1 && !a;
  }
}
