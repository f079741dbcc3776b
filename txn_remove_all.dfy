/**
 * The transactional remove-all operation of the multimap: it removes the
 * records a transaction reserved on one key, all or nothing, then releases
 * the transaction's lock; its follow-up hooks record statistics, publish
 * one REMOVED event per removed record and decide on backup and wake-up.
 */
module MultiMapTx {
  import opened Common
  import opened Collection
  import opened Containers
  import opened Wire

  datatype CollectionProxyId = CollectionProxyId(name: string)

  datatype EntryEventType = Added | Removed

  /** One event handed to the event service: its type, the key and the record's value. */
  datatype EntryEvent = EntryEvent(eventType: EntryEventType, key: Data, value: Data)

  /** Waiters are matched on the collection and the key only, never on record ids. */
  datatype WaitNotifyKey = WaitNotifyKey(proxyId: CollectionProxyId, key: Data)

  /** The replica's operation: the same reservation and the same lock owner, no record values. */
  datatype TxnRemoveAllBackupOperation = TxnRemoveAllBackupOperation(
    proxyId: CollectionProxyId, dataKey: Data, callerUuid: string, threadId: Int32, recordIds: seq<Int64>)

  /** The collection `key` maps to, or the empty one `getOrCreateCollectionWrapper` would create. */
  function CollectionOf(m: map<Data, seq<CollectionRecord>>, key: Data): seq<CollectionRecord> {
    if key in m then m[key] else []
  }

  /**
   * The wrappers a successful run leaves: the key's collection after the
   * removal, or no wrapper for the key once that collection is empty.
   */
  function AfterRemoval(m: map<Data, seq<CollectionRecord>>, key: Data, ids: seq<Int64>)
    : map<Data, seq<CollectionRecord>>
  {
    var o := RemoveEach(CollectionOf(m, key), ids);
    if o.remaining == [] then m - {key} else m[key := o.remaining]
  }

  /** A failed run, which may only add an empty wrapper, keeps record ids unique in every collection. */
  lemma FailedRunKeepsUniquePerKey(m: map<Data, seq<CollectionRecord>>, key: Data)
    requires UniquePerKey(m)
    ensures UniquePerKey(m[key := CollectionOf(m, key)])
  {
  }

  /** A successful run keeps record ids unique in every collection. */
  lemma RemovalKeepsUniquePerKey(m: map<Data, seq<CollectionRecord>>, key: Data, ids: seq<Int64>)
    requires UniquePerKey(m)
    ensures UniquePerKey(AfterRemoval(m, key, ids))
  {
    assert UniqueIds(CollectionOf(m, key));
    RemainingUnique(CollectionOf(m, key), ids);
  }

  /**
   * `Math.max(0, now - begin)` with Java's `long` subtraction: never negative;
   * the true difference when it fits in a `long`; zero when it overflows upward;
   * the wrapped, positive difference when it overflows downward.
   */
  function Elapsed(now: Int64, begin: Int64): (e: Int64)
    ensures e >= 0
    ensures LongMin <= now - begin <= LongMax ==> e == (if now >= begin then now - begin else 0)
    ensures now - begin > LongMax ==> e == 0
    ensures now - begin < LongMin ==> e == now - begin + 0x1_0000_0000_0000_0000
  {
    var d := LongSub(now, begin);
    if d > 0 then d else 0
  }

  /** One REMOVED event per removed record, in removal order, each with that record's value. */
  function RemovedEvents(key: Data, records: seq<CollectionRecord>): seq<EntryEvent> {
    seq(|records|, i requires 0 <= i < |records| => EntryEvent(Removed, key, records[i].value))
  }

  /** The check loop of `run`: is every reserved id still in the collection? */
  method AllReservedPresent(coll: seq<CollectionRecord>, ids: seq<Int64>) returns (ok: bool)
    ensures ok == AllPresent(coll, ids)
  {
    var i := 0;
    while i < |ids|
      invariant 0 <= i <= |ids|
      invariant forall k :: 0 <= k < i ==> ContainsRecordId(coll, ids[k])
    {
      if !ContainsRecordId(coll, ids[i]) {
        return false;
      }
      i := i + 1;
    }
    return true;
  }

  /**
   * The removal loop of `run`: for each id in order, an iterator walks the
   * collection and removes the first record carrying it.
   */
  method RemoveReserved(coll: seq<CollectionRecord>, ids: seq<Int64>)
    returns (rest: seq<CollectionRecord>, out: seq<CollectionRecord>)
    ensures Outcome(rest, out) == RemoveEach(coll, ids)
  {
    rest, out := coll, [];
    var i := 0;
    while i < |ids|
      invariant 0 <= i <= |ids|
      invariant Outcome(rest, out) == RemoveEach(coll, ids[..i])
    {
      var id := ids[i];
      var j := 0;
      while j < |rest| && rest[j].recordId != id
        invariant 0 <= j <= |rest|
        invariant forall k :: 0 <= k < j ==> rest[k].recordId != id
      {
        j := j + 1;
      }
      RemoveEachSnoc(coll, ids, i);
      FirstIndexAt(rest, id, j);
      if j < |rest| {
        out := out + [rest[j]];
        rest := rest[..j] + rest[j + 1..];
      }
      i := i + 1;
    }
    assert ids[..|ids|] == ids;
  }

  class TxnRemoveAllOperation {
    const proxyId: CollectionProxyId
    const dataKey: Data
    const threadId: Int32
    const callerUuid: string

    /** The ids of the records the transaction reserved, duplicates included. */
    var recordIds: seq<Int64>
    var response: bool
    /** Start time of `run`; -1 before it. */
    var begin: Int64
    /** The records `run` removed; None unless `run` succeeded. */
    var removed: Option<seq<CollectionRecord>>
    /** The events published so far. */
    ghost var published: seq<EntryEvent>

    /** The id list is a Java collection, so its size fits in an `int`. */
    ghost predicate Valid()
      reads this
    {
      |recordIds| <= IntMax
    }

    /** Reserves the ids of `records`, in their iteration order. */
    constructor (proxyId: CollectionProxyId, dataKey: Data, threadId: Int32, callerUuid: string,
                 records: seq<CollectionRecord>)
      requires |records| <= IntMax
      ensures Valid()
      ensures recordIds == IdsOf(records)
      ensures |recordIds| == |records| && forall i :: 0 <= i < |records| ==> recordIds[i] == records[i].recordId
      ensures this.proxyId == proxyId && this.dataKey == dataKey
      ensures this.threadId == threadId && this.callerUuid == callerUuid
      ensures !response && begin == -1 && removed == None && published == []
    {
      var ids: seq<Int64> := [];
      var i := 0;
      while i < |records|
        invariant 0 <= i <= |records|
        invariant |ids| == i
        invariant forall k :: 0 <= k < i ==> ids[k] == records[k].recordId
      {
        ids := ids + [records[i].recordId];
        i := i + 1;
      }
      assert ids == IdsOf(records);
      this.proxyId, this.dataKey, this.threadId, this.callerUuid := proxyId, dataKey, threadId, callerUuid;
      recordIds := ids;
      response := false;
      begin := -1;
      removed := None;
      published := [];
    }

    /**
     * Checks that every reserved id is still present; if one is missing,
     * fails without removing anything and without releasing the lock (the
     * wrapper created on the way stays). Otherwise removes, id by id, the
     * first record carrying it, drops the wrapper if it is now empty and
     * releases the caller's lock.
     */
    method Run(container: CollectionContainer, now: Int64)
      modifies this`begin, this`response, this`removed, container`wrappers, container`locks
      ensures old(container.Valid()) ==> container.Valid()
      ensures begin == now
      ensures response == AllPresent(CollectionOf(old(container.wrappers), dataKey), recordIds)
      ensures !response ==>
        removed == old(removed) &&
        container.wrappers == old(container.wrappers)[dataKey := CollectionOf(old(container.wrappers), dataKey)] &&
        container.locks == old(container.locks)
      ensures response ==>
        removed == Some(RemoveEach(CollectionOf(old(container.wrappers), dataKey), recordIds).removed) &&
        container.wrappers == AfterRemoval(old(container.wrappers), dataKey, recordIds) &&
        container.locks == old(container.locks) - {LockOwner(dataKey, callerUuid, threadId)}
      ensures container.modCount == old(container.modCount)
      ensures container.removeCount == old(container.removeCount)
      ensures container.removeLatency == old(container.removeLatency)
    {
      begin := now;
      var coll := container.GetOrCreateCollectionWrapper(dataKey);
      assert coll == CollectionOf(old(container.wrappers), dataKey);
      response := AllReservedPresent(coll, recordIds);
      if !response {
        assert container.wrappers == old(container.wrappers)[dataKey := coll];
        if old(container.Valid()) {
          FailedRunKeepsUniquePerKey(old(container.wrappers), dataKey);
        }
        return;
      }
      var rest, out := RemoveReserved(coll, recordIds);
      assert container.wrappers[dataKey := rest] == old(container.wrappers)[dataKey := rest];
      removed := Some(out);
      container.SetCollection(dataKey, rest);
      if rest == [] {
        container.RemoveCollection(dataKey);
      }
      container.Unlock(dataKey, callerUuid, threadId);
      assert container.wrappers == AfterRemoval(old(container.wrappers), dataKey, recordIds);
      if old(container.Valid()) {
        RemovalKeepsUniquePerKey(old(container.wrappers), dataKey, recordIds);
      }
    }

    /** Hands one event to the event service. */
    method PublishEvent(eventType: EntryEventType, key: Data, value: Data)
      modifies this`published
      ensures published == old(published) + [EntryEvent(eventType, key, value)]
    {
      published := published + [EntryEvent(eventType, key, value)];
    }

    /**
     * Always counts one remove with its non-negative elapsed time; only after
     * a successful run bumps the modification counter once and publishes one
     * REMOVED event per removed record, in removal order.
     */
    method AfterRun(container: CollectionContainer, now: Int64)
      modifies container`removeCount, container`removeLatency, container`modCount, this`published
      ensures container.removeCount == old(container.removeCount) + 1
      ensures container.removeLatency == old(container.removeLatency) + Elapsed(now, begin)
      ensures container.modCount == old(container.modCount) + (if removed.Some? then 1 else 0)
      ensures published == old(published) + (if removed.Some? then RemovedEvents(dataKey, removed.value) else [])
    {
      var elapsed := Elapsed(now, begin);
      container.IncrementRemoves(elapsed);
      if removed.Some? {
        container.Update();
        var records := removed.value;
        var i := 0;
        while i < |records|
          invariant 0 <= i <= |records|
          invariant published == old(published) + RemovedEvents(dataKey, records[..i])
          invariant container.removeCount == old(container.removeCount) + 1
          invariant container.removeLatency == old(container.removeLatency) + elapsed
          invariant container.modCount == old(container.modCount) + 1
        {
          PublishEvent(Removed, dataKey, records[i].value);
          i := i + 1;
        }
        assert records[..|records|] == records;
      }
    }

    /** A backup goes out exactly when the run succeeded. */
    method ShouldBackup() returns (b: bool)
      ensures b <==> removed.Some?
    {
      b := removed.Some?;
    }

    /** Waiters are woken exactly when the run succeeded. */
    method ShouldNotify() returns (b: bool)
      ensures b <==> removed.Some?
    {
      b := removed.Some?;
    }

    /** The replica's operation: the full reservation, duplicates included, and the lock owner. */
    method GetBackupOperation() returns (op: TxnRemoveAllBackupOperation)
      ensures op.recordIds == recordIds
      ensures op.callerUuid == callerUuid && op.threadId == threadId
      ensures op.proxyId == proxyId && op.dataKey == dataKey
    {
      op := TxnRemoveAllBackupOperation(proxyId, dataKey, callerUuid, threadId, recordIds);
    }

    /** The key waiters on this collection key are parked under. */
    method GetNotifiedKey() returns (k: WaitNotifyKey)
      ensures k.proxyId == proxyId && k.key == dataKey
    {
      k := WaitNotifyKey(proxyId, dataKey);
    }

    /** Appends the count of reserved ids, then each id. */
    method WriteInternal(output: ObjectDataOutput)
      requires Valid()
      modifies output
      ensures output.tokens == old(output.tokens) + EncodeIds(recordIds)
    {
      output.WriteInt(|recordIds|);
      var i := 0;
      while i < |recordIds|
        invariant 0 <= i <= |recordIds|
        invariant output.tokens == old(output.tokens) + [IntToken(|recordIds|)] + LongTokens(recordIds[..i])
      {
        output.WriteLong(recordIds[i]);
        assert LongTokens(recordIds[..i + 1]) == LongTokens(recordIds[..i]) + [LongToken(recordIds[i])];
        i := i + 1;
      }
      assert recordIds[..|recordIds|] == recordIds;
    }

    /**
     * Reads a count and then that many ids into a new id list. A failed read
     * of the count leaves the list as it was; a failed read of an id leaves
     * the ids read before it.
     */
    method ReadInternal(input: ObjectDataInput) returns (ok: bool)
      requires input.Valid() && Valid()
      modifies this`recordIds, input`pos
      ensures input.Valid() && Valid()
      ensures var o := DecodeIds(old(input.Unread()));
        ok == (o.Read? && o.complete) &&
        input.pos == old(input.pos) + Consumed(o) &&
        recordIds == (if o.Read? then o.ids else old(recordIds))
    {
      ghost var s := input.Unread();
      var size := input.ReadInt();
      if size.None? {
        ok := false;
        return;
      }
      assert input.Unread() == s[1..];
      ok := ReadRecordIds(input, size.value);
    }

    /**
     * The counting loop of `readInternal`: a fresh list, then one `long` per
     * turn until `size` ids are read or a read fails.
     */
    method ReadRecordIds(input: ObjectDataInput, size: Int32) returns (ok: bool)
      requires input.Valid()
      modifies this`recordIds, input`pos
      ensures input.Valid() && |recordIds| <= IntMax
      ensures var m := if size < 0 then 0 else size;
        recordIds == LeadingLongs(old(input.Unread()), m) &&
        ok == (|recordIds| == m) &&
        input.pos == old(input.pos) + |recordIds|
    {
      ghost var m: nat := if size < 0 then 0 else size;
      ghost var t := input.Unread();
      ghost var p0 := input.pos;
      recordIds := [];
      var i := 0;
      while i < size
        invariant i <= m
        invariant input.pos == p0 + i <= |input.tokens|
        invariant recordIds == LeadingLongs(t, i) && |recordIds| == i
      {
        LeadingLongsStep(t, i, m);
        var v := input.ReadLong();
        if v.None? {
          ok := false;
          return;
        }
        assert i < |t| && t[i] == LongToken(v.value);
        recordIds := recordIds + [v.value];
        i := i + 1;
      }
      ok := true;
    }
  }
}
