/**
 * The per-partition multimap container, as far as the transactional
 * remove-all step uses it: the key-to-collection table, the transactional
 * lock table, the structural-modification counter and the removes counter.
 */
module Containers {
  import opened Common
  import opened Collection

  /** A lock held on `key` by the transaction of caller `callerUuid` on thread `threadId`. */
  datatype LockOwner = LockOwner(key: Data, callerUuid: string, threadId: Int32)

  /** No collection of `m` holds two records with the same id. */
  ghost predicate UniquePerKey(m: map<Data, seq<CollectionRecord>>) {
    forall k | k in m :: UniqueIds(m[k])
  }

  class CollectionContainer {
    /** Each key's collection wrapper, given by its records in iteration order. */
    var wrappers: map<Data, seq<CollectionRecord>>
    /** The transactional locks currently held. */
    var locks: set<LockOwner>
    /** Bumped by `update()` on every structural change. */
    var modCount: nat
    /** The operations counter's removes: how many, and their total latency in milliseconds. */
    var removeCount: nat
    var removeLatency: nat

    /** Record ids are never reused, so no collection holds two records with the same id. */
    ghost predicate Valid()
      reads this`wrappers
    {
      UniquePerKey(wrappers)
    }

    constructor ()
      ensures Valid()
      ensures wrappers == map[] && locks == {}
      ensures modCount == 0 && removeCount == 0 && removeLatency == 0
    {
      wrappers := map[];
      locks := {};
      modCount, removeCount, removeLatency := 0, 0, 0;
    }

    /** The wrapper of `key`, created empty when the key has none. */
    method GetOrCreateCollectionWrapper(key: Data) returns (coll: seq<CollectionRecord>)
      modifies this`wrappers
      ensures old(Valid()) ==> Valid()
      ensures key in wrappers && coll == wrappers[key]
      ensures key in old(wrappers) ==> wrappers == old(wrappers)
      ensures key !in old(wrappers) ==> wrappers == old(wrappers)[key := []]
    {
      if key !in wrappers {
        wrappers := wrappers[key := []];
      }
      coll := wrappers[key];
    }

    /**
     * The wrapper of `key` now holds `coll`: the state the source reaches by
     * removing records through the wrapper's iterator. No other key is touched.
     */
    method SetCollection(key: Data, coll: seq<CollectionRecord>)
      modifies this`wrappers
      ensures wrappers == old(wrappers)[key := coll]
    {
      wrappers := wrappers[key := coll];
    }

    /** Drops the wrapper of `key`; no other key is touched. */
    method RemoveCollection(key: Data)
      modifies this`wrappers
      ensures wrappers == old(wrappers) - {key}
    {
      wrappers := wrappers - {key};
    }

    /** Releases the lock of this caller and thread on `key`; a lock not held is a no-op. */
    method Unlock(key: Data, callerUuid: string, threadId: Int32)
      modifies this`locks
      ensures locks == old(locks) - {LockOwner(key, callerUuid, threadId)}
      ensures LockOwner(key, callerUuid, threadId) !in locks
    {
      locks := locks - {LockOwner(key, callerUuid, threadId)};
    }

    /** `update()`: one more structural modification. */
    method Update()
      modifies this`modCount
      ensures modCount == old(modCount) + 1
    {
      modCount := modCount + 1;
    }

    /** `getOperationsCounter().incrementRemoves(elapsed)`. */
    method IncrementRemoves(elapsed: nat)
      modifies this`removeCount, this`removeLatency
      ensures removeCount == old(removeCount) + 1
      ensures removeLatency == old(removeLatency) + elapsed
    {
      removeCount := removeCount + 1;
      removeLatency := removeLatency + elapsed;
    }
  }
}
