/** The store-facing part of the server in main/web_server.go: the periodic cleanup and the
    death-time rule of CreateItem. Request decoding, routing and responses are not modelled;
    the decoded request body arrives as an `Entry` and the clock as `now`. */
module Server {
  import opened Entries
  import opened SortedIndex
  import opened DataStore
  import opened Reaper

  /** cleanupExpiredItems: finds the expired prefix of the death-ordered keys and, if it is not
      empty, deletes it with one batch delete. Exactly the expired items go; every item alive
      at `now` stays, and the key list keeps its unexpired suffix. */
  method CleanupExpiredItems(storage: Store, now: int)
    requires storage.Valid()
    modifies storage
    ensures storage.Valid()
    ensures storage.entries == Survivors(old(storage.entries), now)
    ensures storage.order
         == old(storage.order)[ExpiredPrefixLength(old(storage.order), old(storage.entries), now)..]
    ensures ExpiredPrefixLength(old(storage.order), old(storage.entries), now) == 0 ==>
              storage.entries == old(storage.entries) && storage.order == old(storage.order)
  {
    var keys := storage.GetKeys();
    var mostRightIndex := ScanCutoff(storage, keys, now);
    if mostRightIndex != -1 {
      ExpiredPrefixIsExactlyExpired(keys, storage.entries, now, mostRightIndex + 1);
      var _ := storage.BatchDelete(keys[..mostRightIndex + 1]);
    } else {
      NothingExpired(keys, storage.entries, now);
    }
  }

  /** The item CreateItem stores: the decoded value and ttl, with the death time recomputed
      from the ttl at `now`. */
  function Stamped(decoded: Entry, now: int): (e: Entry)
    ensures e.value == decoded.value && e.ttl == decoded.ttl
    ensures e.deathTime == now + decoded.ttl
  {
    decoded.(deathTime := now + decoded.ttl)
  }

  /** The death time a client sends is never used: requests that agree on value and ttl store
      the same item. */
  lemma StampedIgnoresClientDeathTime(d1: Entry, d2: Entry, now: int)
    requires d1.value == d2.value && d1.ttl == d2.ttl
    ensures Stamped(d1, now) == Stamped(d2, now)
  {
  }

  /** A stamped string item is the item NewString builds at the same instant. */
  lemma StampedAgreesWithNewString(s: string, ttl: int, clientDeathTime: int, now: int)
    ensures Stamped(Entry(Str(s), ttl, clientDeathTime), now) == NewString(s, ttl, now)
  {
  }

  /** CreateItem: stores the decoded item under `key` with its death time recomputed as
      `now + ttl`, and returns the stored item (the response body). */
  method CreateItem(storage: Store, key: string, decoded: Entry, now: int) returns (stored: Entry)
    requires storage.Valid()
    modifies storage
    ensures storage.Valid()
    ensures stored == Stamped(decoded, now)
    ensures storage.entries == old(storage.entries)[key := stored]
    ensures storage.order == Reindex(old(storage.order), old(storage.entries), key, stored)
  {
    var value := decoded;
    value := value.(deathTime := now + value.ttl);
    storage.Set(key, value);
    stored := value;
  }
}
