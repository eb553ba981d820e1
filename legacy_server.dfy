/** The store-facing part of the older server in web_server.go: the same cleanup loop as
    main/web_server.go, and CreateString, which stores the decoded item as it arrives. */
module LegacyServer {
  import opened Entries
  import opened SortedIndex
  import opened DataStore
  import opened Reaper

  /** cleanupExpiredItems (the copy in web_server.go): deletes the expired prefix of the
      death-ordered keys with one batch delete when it is not empty. */
  method CleanupExpiredItems(storage: Store, now: int)
    requires storage.Valid()
    modifies storage
    ensures storage.Valid()
    ensures storage.entries == Survivors(old(storage.entries), now)
    ensures storage.order
         == old(storage.order)[ExpiredPrefixLength(old(storage.order), old(storage.entries), now)..]
    ensures ExpiredPrefixLength(old(storage.order), old(storage.entries), now) == 0 ==>
              storage.entries == old(storage.entries) && storage.order == old(storage.order)
  {
    var keys := storage.GetKeys();
    var mostRightIndex := ScanCutoff(storage, keys, now);
    if mostRightIndex != -1 {
      ExpiredPrefixIsExactlyExpired(keys, storage.entries, now, mostRightIndex + 1);
      var _ := storage.BatchDelete(keys[..mostRightIndex + 1]);
    } else {
      NothingExpired(keys, storage.entries, now);
    }
  }

  /** CreateString: stores the decoded item under `key` unchanged, death time included, and
      returns it. */
  method CreateString(storage: Store, key: string, decoded: Entry) returns (stored: Entry)
    requires storage.Valid()
    modifies storage
    ensures storage.Valid()
    ensures stored == decoded
    ensures storage.entries == old(storage.entries)[key := decoded]
    ensures storage.order == Reindex(old(storage.order), old(storage.entries), key, decoded)
  {
    storage.Set(key, decoded);
    stored := decoded;
  }
}
