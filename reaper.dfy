/** The reaper's cutoff (cleanupExpiredItems in main/web_server.go and web_server.go): the run
    of expired keys at the front of the store's death-ordered key list, found by the source's
    linear scan and by a binary search over the same list, and what deleting that run leaves. */
module Reaper {
  import opened Entries
  import opened SortedIndex
  import opened DataStore

  /** An item is expired at `now` when its death time is strictly before `now`. */
  predicate Expired(e: Entry, now: int) {
    e.deathTime < now
  }

  /** The number of keys at the front of `ks` whose items are expired at `now`: every key before
      that position is expired and the key at it, if any, is not. */
  function ExpiredPrefixLength(ks: seq<string>, m: map<string, Entry>, now: int): (n: nat)
    requires Indexed(ks, m)
    ensures n <= |ks|
    ensures forall j :: 0 <= j < n ==> Expired(m[ks[j]], now)
    ensures n < |ks| ==> !Expired(m[ks[n]], now)
  {
    if ks == [] || !Expired(m[ks[0]], now) then 0
    else 1 + ExpiredPrefixLength(ks[1..], m, now)
  }

  /** The prefix length is the one position before which everything is expired and at which
      nothing is: any `k` with that property is the prefix length. */
  lemma ExpiredPrefixLengthUnique(ks: seq<string>, m: map<string, Entry>, now: int, k: nat)
    requires Indexed(ks, m) && k <= |ks|
    requires forall j :: 0 <= j < k ==> Expired(m[ks[j]], now)
    requires k < |ks| ==> !Expired(m[ks[k]], now)
    ensures ExpiredPrefixLength(ks, m, now) == k
  {
  }

  /** The items still alive at `now`. */
  function Survivors(m: map<string, Entry>, now: int): (r: map<string, Entry>)
    ensures forall k :: k in r <==> k in m && !Expired(m[k], now)
    ensures forall k :: k in r ==> r[k] == m[k]
  {
    map k | k in m && !Expired(m[k], now) :: m[k]
  }

  /** On a death-ordered key list the expired prefix, of length `n`, holds exactly the expired
      keys: deleting it leaves the items alive at `now`, and the key list keeps its suffix. */
  lemma ExpiredPrefixIsExactlyExpired(ks: seq<string>, m: map<string, Entry>, now: int, n: nat)
    requires OrderedIndex(ks, m)
    requires n == ExpiredPrefixLength(ks, m, now)
    ensures m - Elements(ks[..n]) == Survivors(m, now)
    ensures Omit(ks, Elements(ks[..n])) == ks[n..]
  {
    var p := Elements(ks[..n]);
    forall k | k in m ensures k in p <==> Expired(m[k], now) {
      assert k in Elements(ks);
      var i :| 0 <= i < |ks| && ks[i] == k;
      if i < n {
        assert ks[..n][i] == k;
      } else {
        assert !DiesBefore(m[ks[i]], m[ks[n]]) by {
          if i > n {
            assert 0 <= n < i < |ks|;
          }
        }
        assert forall j :: 0 <= j < n ==> ks[..n][j] != k;
      }
    }
    assert m - p == Survivors(m, now);
    OmitPrefix(ks, n);
  }

  /** With nothing expired at the front, nothing is expired at all and no item is removed. */
  lemma NothingExpired(ks: seq<string>, m: map<string, Entry>, now: int)
    requires OrderedIndex(ks, m)
    requires ExpiredPrefixLength(ks, m, now) == 0
    ensures Survivors(m, now) == m
  {
    ExpiredPrefixIsExactlyExpired(ks, m, now, 0);
    assert Elements(ks[..0]) == {};
    assert m - {} == m;
  }

  /** After the expired prefix is deleted nothing expired is left at the same instant, so a
      second cleanup at `now` finds an empty prefix and keeps every item. */
  lemma {:induction false} CleanupIdempotent(ks: seq<string>, m: map<string, Entry>, now: int)
    requires OrderedIndex(ks, m)
    ensures var n := ExpiredPrefixLength(ks, m, now);
      && Indexed(ks[n..], Survivors(m, now))
      && ExpiredPrefixLength(ks[n..], Survivors(m, now), now) == 0
      && Survivors(Survivors(m, now), now) == Survivors(m, now)
  {
    var n := ExpiredPrefixLength(ks, m, now);
    ExpiredPrefixIsExactlyExpired(ks, m, now, n);
    OmitKeepsIndex(ks, m, Elements(ks[..n]));
    var rest := ks[n..];
    assert Indexed(rest, Survivors(m, now));
    if rest != [] {
      assert rest[0] == ks[n];
    }
  }

  /** The loop of cleanupExpiredItems: walks `keys` from the front, looking each item up in the
      store, and records the index of the last expired item before the first one that is not
      (the scan stops there). -1 when the first item is not expired or there is none. The
      source reads the clock afresh for every item; here one instant `now` serves the scan. */
  method ScanCutoff(store: Store, keys: seq<string>, now: int) returns (mostRightIndex: int)
    requires Indexed(keys, store.entries)
    ensures mostRightIndex == ExpiredPrefixLength(keys, store.entries, now) - 1
    ensures -1 <= mostRightIndex < |keys|
    ensures forall j :: 0 <= j <= mostRightIndex ==> Expired(store.entries[keys[j]], now)
    ensures mostRightIndex + 1 < |keys| ==> !Expired(store.entries[keys[mostRightIndex + 1]], now)
  {
    mostRightIndex := -1;
    var index := 0;
    while index < |keys|
      invariant 0 <= index <= |keys|
      invariant mostRightIndex == index - 1
      invariant forall j :: 0 <= j < index ==> Expired(store.entries[keys[j]], now)
    {
      var value, _ := store.Get(keys[index]);
      var dataTypeItem := value.value;
      if dataTypeItem.deathTime < now {
        mostRightIndex := index;
      } else {
        break;
      }
      index := index + 1;
    }
  }

  /** isBefore: whether the item stored under `key` dies strictly before `t`; a key that is no
      longer stored counts as not expired. */
  method IsBefore(store: Store, key: string, t: int) returns (before: bool)
    ensures before <==> key in store.entries && Expired(store.entries[key], t)
  {
    var value, ok := store.Get(key);
    before := ok && value.value.deathTime < t;
  }

  /** determineIndexForCleanup: the same cutoff as the linear scan, found by binary search over
      the death-ordered key list. */
  method DetermineIndexForCleanup(store: Store, keys: seq<string>, t: int) returns (index: int)
    requires Indexed(keys, store.entries) && SortedByDeath(keys, store.entries)
    ensures index == ExpiredPrefixLength(keys, store.entries, t) - 1
  {
    var lo, hi := 0, |keys|;
    while lo < hi
      invariant 0 <= lo <= hi <= |keys|
      invariant forall j :: 0 <= j < lo ==> Expired(store.entries[keys[j]], t)
      invariant forall j :: hi <= j < |keys| ==> !Expired(store.entries[keys[j]], t)
    {
      var mid := (lo + hi) / 2;
      var expired := IsBefore(store, keys[mid], t);
      if expired {
        lo := mid + 1;
      } else {
        hi := mid;
      }
    }
    ExpiredPrefixLengthUnique(keys, store.entries, t, lo);
    index := lo - 1;
  }

  /** The cleanup examples of the server tests: items with ttls of 1 to 7 seconds created at
      `now` (in milliseconds), listed by death time; the cutoff is -1 at `now`, 1 at
      `now + 2500` and 2 at `now + 3500`; at `now + 2500` the first two items are expired and the
      next three are not. */
  lemma CutoffExamples(now: int)
    ensures var ks := ["name1", "name2", "name3", "name4", "name5", "name6", "name7"];
      var m := map["name1" := NewString("Ivan", 1000, now), "name2" := NewString("Ivan", 2000, now),
                   "name3" := NewString("Ivan", 3000, now), "name4" := NewString("Ivan", 4000, now),
                   "name5" := NewString("Ivan", 5000, now), "name6" := NewString("Ivan", 6000, now),
                   "name7" := NewString("Ivan", 7000, now)];
      && ExpiredPrefixLength(ks, m, now) - 1 == -1
      && ExpiredPrefixLength(ks, m, now + 2500) - 1 == 1
      && ExpiredPrefixLength(ks, m, now + 3500) - 1 == 2
      && Expired(m["name1"], now + 2500) && Expired(m["name2"], now + 2500)
      && !Expired(m["name3"], now + 2500) && !Expired(m["name4"], now + 2500)
      && !Expired(m["name5"], now + 2500)
  {
    var ks := ["name1", "name2", "name3", "name4", "name5", "name6", "name7"];
    var m := map["name1" := NewString("Ivan", 1000, now), "name2" := NewString("Ivan", 2000, now),
                 "name3" := NewString("Ivan", 3000, now), "name4" := NewString("Ivan", 4000, now),
                 "name5" := NewString("Ivan", 5000, now), "name6" := NewString("Ivan", 6000, now),
                 "name7" := NewString("Ivan", 7000, now)];
    ExpiredPrefixLengthUnique(ks, m, now, 0);
    ExpiredPrefixLengthUnique(ks, m, now + 2500, 2);
    ExpiredPrefixLengthUnique(ks, m, now + 3500, 3);
  }
}
