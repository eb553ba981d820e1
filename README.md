# go-cache: the TTL store and its reaper, in Dafny

go-cache is a small key-value cache behind an HTTP API. Each item carries a time to live (TTL)
and expires at a fixed instant, its *death time*. The project models the parts of it that hold
the logic:

- **The item** (`datatype/datatype.go`). An item is a value, a TTL and a death time. The
  constructors `NewString`, `NewList` and `NewDict` set the death time to now + TTL. They are
  pure functions with the current instant passed in as `now` (module `Entries`, file
  `entries.dfy`).
- **The store** (`datastore/datastore.go`). The store is a map from string keys to items, and
  it also lists its keys in ascending death-time order.
  - The source builds this on a third-party sorted map with a strict `Before` comparator. Here
    it is the class `DataStore.Store`, with two fields: `entries`, a `map<string, Entry>`, and
    `order`, a `seq<string>`.
  - The invariant `Valid()` says that `order` lists exactly the stored keys, each once, and
    never puts a key that dies strictly earlier after one that dies later.
  - What the sorted map does to that pair on insert and delete is written as pure functions in
    `SortedIndex` (`sorted_index.dfy`), with lemmas showing that each keeps the invariant.
  - The locked public methods and the private methods they call become one method each.
- **The reaper** (`cleanupExpiredItems` in `main/web_server.go`, with a copy in `web_server.go`).
  - The reaper walks the death-ordered keys and stops at the first item that has not expired.
    It then removes the expired prefix with one batch delete.
  - `Reaper` (`reaper.dfy`) defines that prefix as a function and models the source's loop as a
    method proved equal to it. It proves that deleting the prefix leaves exactly the items alive
    at `now`, and that a second sweep at the same instant changes nothing.
  - `Reaper` also models `determineIndexForCleanup` and `isBefore`, which the root server tests
    call. The model implements that cutoff as a binary search and proves it equal to the linear
    scan on the sorted key list.
  - `Server` (`server.dfy`) and `LegacyServer` (`legacy_server.dfy`) hold the two copies of the
    reaper and the two item-creating handlers:
    - `CreateItem` recomputes the death time from the TTL;
    - `CreateString` stores the decoded item unchanged.
- **The list converters** (`util/util.go`). These are loops that fill an array position by
  position. They are proved against element-wise specification functions, and the round trips
  are proved about those functions (`util.dfy`).

`scenarios.dfy` replays the tests of `datastore/datastore_test.go` as client code: New, Set and
Get, GetKeys, Count, Contains, Delete, BatchDelete, Clear and the death-time comparator. It also
adds two sweep scenarios for the reaper. Each scenario shows what a caller can conclude from
the contracts alone. `wrappers.dfy` holds the `Option` type that `Get` returns.

The handler's cutoff scans linearly from the front and stops at the first unexpired item
(main/web_server.go:42-50; its TODO at line 39 asks for a better method). `Reaper.ScanCutoff`
is that scan. The root tests call `determineIndexForCleanup` and `isBefore`
(web_server_test.go:157-185), which neither web_server.go nor main/web_server.go defines; the
tests fix only their signatures and results. The model implements that cutoff as a binary
search, `Reaper.DetermineIndexForCleanup`, and proves it gives the same cutoff as
`Reaper.ScanCutoff`.

## Model

| member | source | states |
|---|---|---|
| Entries.NewString | datatype/datatype.go:12-16 | the item holds the string and the TTL unchanged and dies exactly `ttl` after `now` |
| Entries.NewList | datatype/datatype.go:18-22 | the item holds the list and the TTL unchanged and dies exactly `ttl` after `now` |
| Entries.NewDict | datatype/datatype.go:24-28 | the item holds the dictionary and the TTL unchanged and dies exactly `ttl` after `now` |
| Entries.ConstructorsShareTiming | datatype/datatype.go:14-28 | at the same TTL and instant the three constructors agree on the TTL and the death time; each result is the same item with only the kind of value changed |
| Entries.LongerTtlDiesLater | datatype/datatype.go:15 | created at the same instant, an item with a strictly longer TTL dies strictly later |
| Entries.NonNegativeTtlNotBeforeNow | datatype/datatype.go:15 | a non-negative TTL never gives a death time before the creation instant, for every kind of value; a zero TTL dies at its creation instant |
| SortedIndex.DiesBefore | datastore/datastore.go:22-26 | compareDataTypesByDeathTime: the first item's death time is strictly earlier than the second's; its properties as an order are stated by DiesBeforeIsStrict |
| SortedIndex.DiesBeforeIsStrict | datastore/datastore.go:22-26 | the comparator holds exactly when the first death time is strictly earlier; it is irreflexive, asymmetric and transitive, and equal death times compare false both ways |
| SortedIndex.Omit | datastore/datastore.go:45-51 | removing keys from the key list leaves exactly the other listed keys and never lengthens the list |
| SortedIndex.InsertByDeath | datastore/datastore.go:29-31 | placing a key into the list by death time adds exactly that key, one position longer, and every listed key still has an item |
| SortedIndex.OmitKeepsOrder | datastore/datastore.go:45-51 | removing keys keeps the list duplicate-free, indexed and sorted by death time |
| SortedIndex.InsertKeepsOrder | datastore/datastore.go:29-31 | placing a new key by its death time keeps the list duplicate-free and sorted by death time |
| SortedIndex.IndexCount | datastore/datastore.go:58-60 | when the invariant holds, the key list has as many positions as the store has items |
| SortedIndex.OmitKeepsIndex | datastore/datastore.go:45-47 | deleting keys from both the map and its key list keeps the sorted map's invariant |
| SortedIndex.Reindex | datastore/datastore.go:33-35 | after a replace, the key list is again exactly the keys of the updated map, each once, sorted by death time, with the replaced key placed by its new death time |
| SortedIndex.OmitTwice | datastore/datastore.go:49-51 | removing two batches of keys one after the other equals removing their union in one step |
| SortedIndex.OmitNoneListed | datastore/datastore.go:49-51 | removing keys none of which is listed leaves the key list unchanged |
| SortedIndex.OmitAbsent | datastore/datastore.go:45-47 | deleting a key that is not stored leaves the key list unchanged |
| SortedIndex.OmitPrefix | datastore/datastore.go:49-51 | in a duplicate-free list, removing the keys of the first `n` positions leaves exactly the positions from `n` on |
| DataStore.BatchStep | datastore/datastore.go:49-51 | one step of a batch delete: after the earlier keys are gone, deleting the next key leaves the store without all keys up to it, and finds that key exactly when it was stored and had not appeared earlier in the batch |
| DataStore.Store.constructor | datastore/datastore.go:17-19 | a new store is empty and satisfies the invariant |
| DataStore.Store.Set | datastore/datastore.go:33-35 | the key's item is replaced in full, every other key keeps its item, the key moves to the place its new death time calls for, and the invariant is kept |
| DataStore.Store.Get | datastore/datastore.go:37-39 | the lookup succeeds exactly when the key is stored and then yields its item; an absent key yields nothing and false |
| DataStore.Store.GetKeys | datastore/datastore.go:41-43 | the keys come back each once, exactly the stored keys, as many as there are items, never a later key dying strictly before an earlier one; an empty store gives an empty list |
| DataStore.Store.Delete | datastore/datastore.go:45-47 | the result is true exactly when the key was stored; the key and its item are gone; an absent key changes nothing |
| DataStore.Store.BatchDelete | datastore/datastore.go:49-51 | one result per input key, in order, true exactly when that key was stored and not already deleted by an earlier position; the batch's keys are removed and every other item stays |
| DataStore.Store.Contains | datastore/datastore.go:53-56 | true exactly when the key is stored |
| DataStore.Store.Count | datastore/datastore.go:58-60 | the number of stored items, which is also the length of the key list that GetKeys returns |
| DataStore.Store.Clear | datastore/datastore.go:118-120 | the store is empty again and satisfies the invariant |
| Reaper.Expired | main/web_server.go:45 | the loop's test: an item is expired at `now` exactly when its death time is strictly before `now` |
| Reaper.ExpiredPrefixLength | main/web_server.go:42-50 | every key before the returned position is expired and the key at it, if any, is not |
| Reaper.ExpiredPrefixLengthUnique | main/web_server.go:42-50 | the cutoff is the only position before which everything is expired and at which nothing is |
| Reaper.Survivors | main/web_server.go:38-54 | the map keeps exactly the stored keys whose items are not expired at `now`, with their items |
| Reaper.ExpiredPrefixIsExactlyExpired | main/web_server.go:51-53 | on a death-ordered key list, deleting the expired prefix leaves exactly the items alive at `now`, and the key list keeps its suffix |
| Reaper.NothingExpired | main/web_server.go:51 | when the first key is not expired, no stored item is expired |
| Reaper.CleanupIdempotent | main/web_server.go:38-54 | after the expired prefix is deleted, the rest has an empty expired prefix at the same instant and nothing more would be removed |
| Reaper.ScanCutoff | main/web_server.go:40-50 | the loop's `mostRightIndex` is the last index of the expired run at the front, -1 when the first key is not expired or there are none; every key up to it is expired and the next one is not |
| Reaper.IsBefore | web_server_test.go:172-185 | true exactly when the key is stored and its item dies strictly before `t` |
| Reaper.DetermineIndexForCleanup | web_server_test.go:157-170 | the binary search over a death-ordered key list returns the same cutoff as the linear scan |
| Reaper.CutoffExamples | web_server_test.go:157-185 | for TTLs of 1 to 7 seconds the cutoff is -1 at `now`, 1 at `now + 2.5s` and 2 at `now + 3.5s`; at `now + 2.5s` the first two items are expired and the next three are not |
| Server.CleanupExpiredItems | main/web_server.go:38-54 | exactly the expired items are removed and every item alive at `now` stays; the key list loses its expired prefix; with an empty prefix nothing changes; the invariant is kept |
| Server.Stamped | main/web_server.go:64 | the stored item keeps the decoded value and TTL and dies `ttl` after `now` |
| Server.StampedIgnoresClientDeathTime | main/web_server.go:64 | two requests that agree on value and TTL store the same item, whatever death time each client sent |
| Server.StampedAgreesWithNewString | main/web_server.go:64 | a stamped string item is the item NewString builds at the same instant |
| Server.CreateItem | main/web_server.go:57-68 | the stored and returned item has its death time recomputed from the TTL at `now`; it is stored under the key like any Set |
| LegacyServer.CleanupExpiredItems | web_server.go:34-50 | the same guarantees as the main server's cleanup: exactly the expired items go, and an empty prefix changes nothing |
| LegacyServer.CreateString | web_server.go:52-62 | the decoded item is stored and returned unchanged, including its death time |
| Util.AsValues | util/util.go:13-19 | the strings as values, same length, element `i` being string `i` |
| Util.AsStrings | util/util.go:5-11 | the values printed, same length, element `i` being value `i` printed |
| Util.StringListToInterfaceList | util/util.go:13-19 | same length as the input, and element `i` of the result is the string at position `i` of the input |
| Util.InterfaceListToStringList | util/util.go:5-11 | same length as the input, and element `i` of the result is value `i` printed; a string element is copied as it is |
| Util.RoundTrip | util/util_test.go:8-22 | converting strings to values and back gives the same strings |
| Util.RoundTripValues | util/util.go:5-11 | on a list of string values, converting to strings and back gives the same list |
| Scenarios.ThreeItems | datastore/datastore_test.go:61-65 | three one-minute items written with Set leave exactly those three in a valid store |
| Scenarios.FourItemsSurvivors | main/web_server.go:38-54 | of items that die 2 s and 1 s before and 1 s and 2 s after `t`, exactly the two later ones are alive at `t` |
| Scenarios.ShortAndLongSurvivors | main/web_server.go:38-54 | two seconds after creation only the five-second item is alive |

## Left out

- HTTP handling, JSON encoding and decoding, routing, status codes and `populateResponseWriter` are not modelled. A decoded request body arrives as an `Entry`. A key from the URL arrives as a string.
- The `sync.RWMutex` locking is not modelled. Every operation runs alone, and each locked public method is merged with the private method it calls.
- The vanished-key case in the reaper is not modelled. In the source, a key deleted between `GetKeys` and `Get` makes the type assertion at main/web_server.go:44 panic. A sequential model cannot reach that case.
- `time.Now()` is not modelled; instants and durations are integers and the current instant is the parameter `now`. The signed 64-bit nanosecond range of `time.Duration`, and overflow in `Add`, are not modelled either.
- Reaper.ScanCutoff: reads one instant `now` for the whole scan, where the source reads the clock again for every key.
- The scheduler that runs the reaper every 10 seconds, `determinePort` and `http.ListenAndServe` are process wiring and are not modelled.
- The internals of the third-party sorted map (`github.com/umpc/go-sortedmap`) are not modelled; only its observable behaviour is, as a map plus a death-ordered key list.
  - SortedIndex.InsertByDeath: places a new key after every key with an equal death time. The placement among equal death times is decided inside go-sortedmap, whose code is not part of go-cache.
  - A concrete order among equal death times is therefore not promised. What is promised is the invariant: no later key dies strictly before an earlier one.
- Entries.Value: numbers, booleans and null are not represented. Lists and dictionaries are values, not references shared with the caller, so a later change the caller makes to a stored slice or map is not seen through `Get`.
- DataStore.Store.GetKeys: the key list is returned as a copied value. The cleanup batch-deletes a subslice of the slice that go-sortedmap's `Keys()` returns (main/web_server.go:40,52; web_server.go:36,48), and the model treats that slice as a copy. Whether the library shares the slice with its own storage, so that each delete would shift it under the running batch, is decided in go-sortedmap, whose code is not part of go-cache.
- Util.InterfaceListToStringList: `fmt.Sprint` on a non-string value is a parameter `sprint`, not a model of Go's formatting. A string element is modelled exactly, since it prints as itself.
- The `determineIndexForCleanup` and `isBefore` functions that the root server tests call are defined in neither web_server.go nor main/web_server.go. `Reaper.DetermineIndexForCleanup` and `Reaper.IsBefore` model them from those tests.
- `datatype/stub_resp_writer.go` is a test double for the HTTP response writer and is not modelled.
- The stale tests in `datatype/datatype_test.go` and `main/web_server_test.go` are not modelled. They call `datatype.New` and handlers such as `CreateString`, which datatype/datatype.go and main/web_server.go do not define.
