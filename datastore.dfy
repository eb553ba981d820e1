/** The DataStore of datastore/datastore.go: a map from keys to items that also lists its keys
    by ascending death time. The source keeps both in one sorted-map field guarded by a
    reader/writer lock; here the two halves are the fields `entries` and `order`, every
    operation runs alone, and the locked public methods and the private methods they delegate
    to are one method each. */
module DataStore {
  import opened Wrappers
  import opened Entries
  import opened SortedIndex

  /** One step of a batch delete: once the keys before position `i` are gone, deleting
      `keys[i]` leaves the store without the keys up to and including `i`, and finds `keys[i]`
      exactly when it was stored and did not occur earlier in the batch. */
  lemma BatchStep(m0: map<string, Entry>, s0: seq<string>, keys: seq<string>, i: nat)
    requires i < |keys|
    ensures (m0 - Elements(keys[..i])) - {keys[i]} == m0 - Elements(keys[..i + 1])
    ensures Omit(Omit(s0, Elements(keys[..i])), {keys[i]}) == Omit(s0, Elements(keys[..i + 1]))
    ensures keys[i] in m0 - Elements(keys[..i]) <==> keys[i] in m0 && keys[i] !in keys[..i]
  {
    var done := Elements(keys[..i]);
    ElementsSnoc(keys, i);
    OmitTwice(s0, done, {keys[i]});
    assert (m0 - done) - {keys[i]} == m0 - (done + {keys[i]});
  }

  class Store {
    var entries: map<string, Entry>
    var order: seq<string>

    /** The sorted map's invariant: `order` lists exactly the stored keys, each once, by
        non-decreasing death time. */
    ghost predicate Valid()
      reads this
    {
      OrderedIndex(order, entries)
    }

    /** New (and buildSortedMap): an empty store. */
    constructor ()
      ensures Valid()
      ensures entries == map[] && order == []
    {
      entries := map[];
      order := [];
    }

    /** Set: upserts `key`; the previous item, if any, is replaced in full and the key moves to
        the place the new death time calls for. */
    method Set(key: string, value: Entry)
      requires Valid()
      modifies this
      ensures Valid()
      ensures entries == old(entries)[key := value]
      ensures order == Reindex(old(order), old(entries), key, value)
    {
      order := Reindex(order, entries, key, value);
      entries := entries[key := value];
    }

    /** Get: the item stored under `key` and whether there is one; nothing (nil) when absent. */
    method Get(key: string) returns (value: Option<Entry>, ok: bool)
      ensures ok <==> key in entries
      ensures ok ==> value == Some(entries[key])
      ensures !ok ==> value == None
    {
      if key in entries {
        value, ok := Some(entries[key]), true;
      } else {
        value, ok := None, false;
      }
    }

    /** GetKeys: every stored key once, by non-decreasing death time. */
    method GetKeys() returns (keys: seq<string>)
      requires Valid()
      ensures keys == order
      ensures Elements(keys) == entries.Keys && |keys| == |entries|
      ensures Distinct(keys)
      ensures Indexed(keys, entries) && SortedByDeath(keys, entries)
    {
      keys := order;
      IndexCount(order, entries);
    }

    /** Delete: removes `key`; reports whether it was stored. */
    method Delete(key: string) returns (ok: bool)
      requires Valid()
      modifies this
      ensures Valid()
      ensures ok <==> key in old(entries)
      ensures entries == old(entries) - {key}
      ensures order == Omit(old(order), {key})
      ensures !ok ==> entries == old(entries) && order == old(order)
    {
      ok := key in entries;
      if !ok {
        OmitAbsent(order, entries, key);
      }
      OmitKeepsIndex(order, entries, {key});
      entries := entries - {key};
      order := Omit(order, {key});
    }

    /** BatchDelete: deletes the keys one after the other in one step; result `i` says whether
        `keys[i]` was still stored when its turn came, that is, stored before the batch and not
        already deleted by an earlier position of the batch. */
    method BatchDelete(keys: seq<string>) returns (results: seq<bool>)
      requires Valid()
      modifies this
      ensures Valid()
      ensures |results| == |keys|
      ensures forall i :: 0 <= i < |keys| ==>
                results[i] == (keys[i] in old(entries) && keys[i] !in keys[..i])
      ensures entries == old(entries) - Elements(keys)
      ensures order == Omit(old(order), Elements(keys))
    {
      ghost var m0, s0 := entries, order;
      results := [];
      var i := 0;
      OmitNoneListed(s0, Elements(keys[..0]));
      while i < |keys|
        invariant 0 <= i <= |keys|
        invariant Valid()
        invariant |results| == i
        invariant forall j :: 0 <= j < i ==>
                    results[j] == (keys[j] in m0 && keys[j] !in keys[..j])
        invariant entries == m0 - Elements(keys[..i])
        invariant order == Omit(s0, Elements(keys[..i]))
      {
        BatchStep(m0, s0, keys, i);
        var ok := Delete(keys[i]);
        forall j | 0 <= j < i + 1
          ensures (results + [ok])[j] == (keys[j] in m0 && keys[j] !in keys[..j])
        {
          if j < i {
            assert (results + [ok])[j] == results[j];
          }
        }
        results := results + [ok];
        i := i + 1;
      }
      assert keys[..i] == keys;
    }

    /** Contains: whether `key` is stored. */
    method Contains(key: string) returns (found: bool)
      ensures found <==> key in entries
    {
      var _, ok := Get(key);
      found := ok;
    }

    /** Count: the number of stored keys, which is also the length of the key list. */
    method Count() returns (n: nat)
      requires Valid()
      ensures n == |entries| && n == |order|
    {
      IndexCount(order, entries);
      n := |entries|;
    }

    /** Clear: replaces the contents with a new, empty sorted map. */
    method Clear()
      requires Valid()
      modifies this
      ensures Valid()
      ensures entries == map[] && order == []
    {
      entries := map[];
      order := [];
    }
  }
}
