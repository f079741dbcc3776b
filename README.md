# Transactional remove-all of the Hazelcast multimap, in Dafny

This project models `TxnRemoveAllOperation`, the step of a multimap transaction that
removes the records the transaction reserved on one key. It then proves what that step
promises.

- **Run.** The operation gets or creates the key's collection wrapper. It checks that every
  reserved record id is still present. If one is missing, the run fails and nothing is
  removed. Otherwise each id removes the first record that carries it, in order. The
  wrapper is dropped if its collection is now empty, and the transaction's lock on the key
  is released.
- **Follow-up hooks.** `afterRun` counts one remove with its elapsed time. When
  `removed` is set, i.e. some run of this operation object succeeded, it also bumps the
  container's modification counter and publishes one REMOVED event per removed record.
  `shouldBackup` and `shouldNotify` are true iff `removed` is set. The backup operation carries the full reservation and the lock
  owner.
- **Wire form.** The operation's own part of its wire form is the id count followed by the
  ids.

Modules:

- `Common`: Java `int`/`long` ranges, `long` subtraction with wrap-around, `Option`.
- `Collection`: records and the specification of the removal (`RemoveEach`), with the
  lemmas about it: conservation, which records remain, which are removed, and re-run.
- `Containers`: the per-partition container (`CollectionContainer`). It holds the
  key-to-collection map, the lock table and the two counters.
- `Wire`: token streams, `EncodeIds`/`DecodeIds` and the round trip.
- `MultiMapTx`: the operation class `TxnRemoveAllOperation`, with the two loops of `run`
  as methods proved against `AllPresent` and `RemoveEach`.

Two consequences of the code's order of steps are modelled as they are:

- **No unlock on failure.** A run that finds a reserved id missing returns at
  `TxnRemoveAllOperation.java:67`, before the unlock at `:86`. So a failed run keeps the
  transaction's lock on the key, and the lock table is unchanged.
- **Empty wrapper left behind.** The wrapper is got or created at
  `TxnRemoveAllOperation.java:62`, before the check. The only drop of a wrapper is at
  `:83-85`, on the success path. So a failed run on a key with no wrapper leaves an empty
  wrapper in the container.
- **A failed re-run keeps the earlier result.** `removed` is assigned only at
  `TxnRemoveAllOperation.java:71`, after the early return at `:67`. So when an operation
  object that already succeeded is run again and fails, `removed` still holds the first
  run's records. The object then still backs up and notifies, and `afterRun` bumps the
  modification counter and publishes the same REMOVED events again.

## Model

| member | source | states |
|---|---|---|
| `MultiMapTx.TxnRemoveAllOperation.constructor` | hazelcast/src/main/java/com/hazelcast/collection/multimap/tx/TxnRemoveAllOperation.java:51-57 | the reserved ids are the given records' ids: same length, same order, position by position; `begin` is -1 and nothing is removed yet |
| `MultiMapTx.TxnRemoveAllOperation.Run` | hazelcast/src/main/java/com/hazelcast/collection/multimap/tx/TxnRemoveAllOperation.java:59-88 | `begin` is the start time; the response is true iff every reserved id is present in the key's collection (an absent key counts as empty). On failure `removed` is unchanged, the locks are unchanged and the key maps to its (possibly newly created, empty) collection. On success `removed` is the `RemoveEach` outcome, the key is absent iff the remaining collection is empty (otherwise it maps to that collection), no other key changes, and exactly this caller/thread's lock on the key is released. The counters are untouched. A container whose collections have unique record ids keeps them unique (`Valid()`) |
| `MultiMapTx.AllReservedPresent` | hazelcast/src/main/java/com/hazelcast/collection/multimap/tx/TxnRemoveAllOperation.java:63-69 | the check loop answers true iff every reserved id is contained in the collection |
| `MultiMapTx.RemoveReserved` | hazelcast/src/main/java/com/hazelcast/collection/multimap/tx/TxnRemoveAllOperation.java:70-82 | the nested iterator loops leave exactly the `RemoveEach` outcome: the remaining collection and the removed records in removal order |
| `Collection.IdsOf` | hazelcast/src/main/java/com/hazelcast/collection/multimap/tx/TxnRemoveAllOperation.java:54-56 | the id list has one entry per record, and entry i is record i's id |
| `Collection.FirstIndexOf` | hazelcast/src/main/java/com/hazelcast/collection/multimap/tx/TxnRemoveAllOperation.java:73-80 | the iterator stops at the first record carrying the id, with no earlier record carrying it; it finds none iff the collection does not contain the id |
| `Collection.RemoveEachConserves` | hazelcast/src/main/java/com/hazelcast/collection/multimap/tx/TxnRemoveAllOperation.java:72-82 | remaining and removed records together are exactly the original collection, as a multiset (nothing is lost or duplicated) |
| `Collection.RemovedComeFromCollection` | hazelcast/src/main/java/com/hazelcast/collection/multimap/tx/TxnRemoveAllOperation.java:72-82 | every removed record was in the collection, and the collection shrinks by exactly the number of removed records |
| `Collection.RemoveEachKeepsOthers` | hazelcast/src/main/java/com/hazelcast/collection/multimap/tx/TxnRemoveAllOperation.java:72-82 | with unique record ids, the remaining records are exactly those whose ids were not reserved, in their original relative order |
| `Collection.RemovedIdsAreDistinctReserved` | hazelcast/src/main/java/com/hazelcast/collection/multimap/tx/TxnRemoveAllOperation.java:63-82 | on the success path (all ids present, unique record ids), the removed records carry the distinct reserved ids in order of first occurrence, so a repeated id removes nothing more and, as `Dedup` has no repeats, the number removed is the number of distinct ids |
| `Collection.RerunFails` | hazelcast/src/main/java/com/hazelcast/collection/multimap/tx/TxnRemoveAllOperation.java:63-82 | after a success, running the same non-empty reservation again fails its presence check, so a retry is not idempotent at the run level |
| `Collection.RemainingUnique` | hazelcast/src/main/java/com/hazelcast/collection/multimap/tx/TxnRemoveAllOperation.java:72-82 | removal keeps the record ids of the collection unique |
| `Collection.EmptiedIffAllReserved` | hazelcast/src/main/java/com/hazelcast/collection/multimap/tx/TxnRemoveAllOperation.java:83-85 | with unique record ids, a successful run empties the collection, and so drops the wrapper, exactly when every record in it was reserved |
| `MultiMapTx.RemovalKeepsUniquePerKey` | hazelcast/src/main/java/com/hazelcast/collection/multimap/tx/TxnRemoveAllOperation.java:70-85 | if no collection holds two records with the same id, that stays true after a successful run's removal, write-back and drop of an emptied wrapper |
| `MultiMapTx.FailedRunKeepsUniquePerKey` | hazelcast/src/main/java/com/hazelcast/collection/multimap/tx/TxnRemoveAllOperation.java:62-68 | if no collection holds two records with the same id, that stays true after a failed run, which may have added an empty wrapper |
| `Containers.CollectionContainer.GetOrCreateCollectionWrapper` | hazelcast/src/main/java/com/hazelcast/collection/multimap/tx/TxnRemoveAllOperation.java:62 | returns the key's collection; a key without one gets an empty one and no other key changes |
| `Containers.CollectionContainer.SetCollection` | hazelcast/src/main/java/com/hazelcast/collection/multimap/tx/TxnRemoveAllOperation.java:72-82 | the records removed through the wrapper's iterator leave the key mapped to the remaining collection, and no other key changes |
| `Containers.CollectionContainer.RemoveCollection` | hazelcast/src/main/java/com/hazelcast/collection/multimap/tx/TxnRemoveAllOperation.java:83-85 | the key's wrapper is gone and no other key changes |
| `Containers.CollectionContainer.Unlock` | hazelcast/src/main/java/com/hazelcast/collection/multimap/tx/TxnRemoveAllOperation.java:86 | exactly the lock of this key, caller and thread is released; releasing a lock not held changes nothing |
| `Containers.CollectionContainer.Update` | hazelcast/src/main/java/com/hazelcast/collection/multimap/tx/TxnRemoveAllOperation.java:94 | the modification counter goes up by one |
| `Containers.CollectionContainer.IncrementRemoves` | hazelcast/src/main/java/com/hazelcast/collection/multimap/tx/TxnRemoveAllOperation.java:92 | one more remove is counted and its elapsed time is added to the total |
| `MultiMapTx.TxnRemoveAllOperation.PublishEvent` | hazelcast/src/main/java/com/hazelcast/collection/multimap/tx/TxnRemoveAllOperation.java:96 | the event is appended to the events published so far |
| `MultiMapTx.TxnRemoveAllOperation.AfterRun` | hazelcast/src/main/java/com/hazelcast/collection/multimap/tx/TxnRemoveAllOperation.java:90-99 | always counts one remove with elapsed time `Elapsed(now, begin)`; the modification counter goes up by one iff `removed` is set, i.e. some earlier run of this object succeeded; in that case one REMOVED event per removed record is published, in removal order, with that record's value; otherwise no event |
| `MultiMapTx.Elapsed` | hazelcast/src/main/java/com/hazelcast/collection/multimap/tx/TxnRemoveAllOperation.java:91 | the elapsed time is never negative; it is the true difference when that is non-negative and fits a `long`; zero when the start is later and the difference fits a `long`; zero when `now - begin` overflows upward; and the difference plus 2^64 when it overflows downward |
| `Common.LongSub` | hazelcast/src/main/java/com/hazelcast/collection/multimap/tx/TxnRemoveAllOperation.java:91 | `long` subtraction: the result always differs from the true difference by a multiple of 2^64; it is the true difference when that fits, otherwise the difference wrapped by 2^64 (negative on upward overflow, non-negative on downward) |
| `MultiMapTx.TxnRemoveAllOperation.GetBackupOperation` | hazelcast/src/main/java/com/hazelcast/collection/multimap/tx/TxnRemoveAllOperation.java:101-103 | the backup operation carries the full reserved id list, duplicates included, with the collection, key, caller and thread |
| `MultiMapTx.TxnRemoveAllOperation.ShouldNotify` | hazelcast/src/main/java/com/hazelcast/collection/multimap/tx/TxnRemoveAllOperation.java:105-107 | true iff `removed` is set, i.e. some earlier run of this object succeeded, including a success with no reserved ids |
| `MultiMapTx.TxnRemoveAllOperation.ShouldBackup` | hazelcast/src/main/java/com/hazelcast/collection/multimap/tx/TxnRemoveAllOperation.java:109-111 | true iff `removed` is set, i.e. some earlier run of this object succeeded, so it always agrees with `ShouldNotify` |
| `MultiMapTx.TxnRemoveAllOperation.GetNotifiedKey` | hazelcast/src/main/java/com/hazelcast/collection/multimap/tx/TxnRemoveAllOperation.java:113-115 | the wait key is made of the collection and the key only |
| `MultiMapTx.TxnRemoveAllOperation.WriteInternal` | hazelcast/src/main/java/com/hazelcast/collection/multimap/tx/TxnRemoveAllOperation.java:117-123 | appends exactly `EncodeIds(recordIds)` (the count, then each id in order) to what was already written |
| `MultiMapTx.TxnRemoveAllOperation.ReadInternal` | hazelcast/src/main/java/com/hazelcast/collection/multimap/tx/TxnRemoveAllOperation.java:125-132 | reads as `DecodeIds` says. A missing count leaves the id list unchanged. Otherwise the list holds the ids read, at most the count (none for a negative count). The read succeeds iff all counted ids were read. The stream advances by exactly the tokens consumed |
| `MultiMapTx.TxnRemoveAllOperation.ReadRecordIds` | hazelcast/src/main/java/com/hazelcast/collection/multimap/tx/TxnRemoveAllOperation.java:128-131 | the counting loop starts a new list and leaves it equal to `LeadingLongs` of the unread tokens: the ids read, at most the count (none for a negative count). It succeeds iff all counted ids were read, and the stream advances by one token per id read |
| `Wire.ObjectDataOutput.WriteInt` | hazelcast/src/main/java/com/hazelcast/collection/multimap/tx/TxnRemoveAllOperation.java:119 | appends one `int` |
| `Wire.ObjectDataOutput.WriteLong` | hazelcast/src/main/java/com/hazelcast/collection/multimap/tx/TxnRemoveAllOperation.java:121 | appends one `long` |
| `Wire.ObjectDataInput.ReadInt` | hazelcast/src/main/java/com/hazelcast/collection/multimap/tx/TxnRemoveAllOperation.java:127 | yields the next token and advances iff it is an `int`; otherwise fails without advancing |
| `Wire.ObjectDataInput.ReadLong` | hazelcast/src/main/java/com/hazelcast/collection/multimap/tx/TxnRemoveAllOperation.java:130 | yields the next token and advances iff it is a `long`; otherwise fails without advancing |
| `Wire.LeadingLongs` | hazelcast/src/main/java/com/hazelcast/collection/multimap/tx/TxnRemoveAllOperation.java:129-131 | the counting loop reads at most the count, each read id is the stream's next `long`, and it stops early only at the end of the stream or at a token that is not a `long` |
| `Wire.RoundTrip` | hazelcast/src/main/java/com/hazelcast/collection/multimap/tx/TxnRemoveAllOperation.java:117-132 | reading what was written gives back every id in order, completely, and consumes exactly the written tokens whatever follows them |
| `Wire.DecodedIsEncoding` | hazelcast/src/main/java/com/hazelcast/collection/multimap/tx/TxnRemoveAllOperation.java:117-132 | conversely, a complete read with a non-negative count consumed exactly the encoding of the ids it returned |

## Left out

- The split-brain cache test (`hazelcast/src/test/java/com/hazelcast/cache/merge/CacheSplitBrainTest.java`) and the merge policies it exercises are not part of this model. It is an end-to-end test of split-brain merging over real cluster instances and does not exercise the transactional remove-all.
- `Clock.currentTimeMillis()` is a parameter (`now`) of `Run` and `AfterRun`, not a real clock.
- `getOrCreateContainer()` and the partition lookup behind it are not modelled; the container is passed to `Run` and `AfterRun`.
- `MultiMapTx.TxnRemoveAllOperation.Run`: the wrapper's collection is changed on a local copy and written back once, not through an iterator on the shared wrapper object. Aliasing of that object outside the operation is not captured. Nothing else reads the collection during a run, so the final state is the same.
- The internals of `CollectionContainer`, `CollectionWrapper.containsRecordId` and `removeCollection` are not part of this model. They are specified as map and sequence operations: `Containers.CollectionContainer` and `Collection.ContainsRecordId`.
- `Containers.CollectionContainer.Unlock`: the lock table is a set of (key, caller, thread) owners. The lock store's re-entrant hold counts are not part of this model.
- `Containers.CollectionContainer.IncrementRemoves`: the operations counter is an unbounded count and total; overflow of its `long` fields is not modelled.
- `publishEvent`, the notifier/wait-key wake-up machinery and the dispatch of the backup operation to replicas are cluster plumbing. They appear only as the ghost list of published events, the boolean from `ShouldNotify` and the `TxnRemoveAllBackupOperation` value. What a replica does with that value is not modelled.
- The superclass fields written and read by `super.writeInternal`/`super.readInternal` (proxy id, key, thread id) are not modelled. Only this class's count-prefixed id list is.
- Streams are sequences of typed `int`/`long` tokens, not bytes. A read that meets a token of the other kind fails, where a byte stream would reinterpret the bytes. An `IOException` is the `false` result of `ReadInternal`.
- The no-argument constructor used before deserialisation is not modelled; `ReadInternal` is applied to an existing operation.
- The caller's uuid, set on the operation by the invocation system, is a constructor argument here.
- `response` is `false` before the first run, where the source's field is `null`.
- `CollectionProxyId` is reduced to a collection name; `getWaitKey()` of the superclass is not part of this model; the wait key is the pair of collection and key.
- `Collection.RemoveEachKeepsOthers`, `Collection.RemovedIdsAreDistinctReserved`, `Collection.RerunFails`, `Collection.RemainingUnique` and `Collection.EmptiedIffAllReserved` assume that record ids are unique within a collection. This is the container's invariant `Containers.CollectionContainer.Valid()`, which `Run` preserves; the operation itself does not check it.
