/**
 * Records of a multimap key and the specification of the transactional
 * remove-all step: for each reserved id in turn, take out the first record
 * that carries it.
 */
module Collection {
  import opened Common

  /** One element of a key's collection: its record id and its value. */
  datatype CollectionRecord = CollectionRecord(recordId: Int64, value: Data)

  /** The ids of `c`, position by position. */
  function IdsOf(c: seq<CollectionRecord>): (ids: seq<Int64>)
    ensures |ids| == |c|
    ensures forall i :: 0 <= i < |c| ==> ids[i] == c[i].recordId
  {
    if c == [] then [] else [c[0].recordId] + IdsOf(c[1..])
  }

  /** The wrapper's `containsRecordId`: some record of `c` carries `id`. */
  predicate ContainsRecordId(c: seq<CollectionRecord>, id: Int64) {
    id in IdsOf(c)
  }

  /** Every reserved id is still present: the guard of the remove-all step. */
  predicate AllPresent(c: seq<CollectionRecord>, ids: seq<Int64>) {
    forall i :: 0 <= i < |ids| ==> ContainsRecordId(c, ids[i])
  }

  /** No two records of `c` share an id (record ids are never reused). */
  predicate UniqueIds(c: seq<CollectionRecord>) {
    c == [] || (c[0].recordId !in IdsOf(c[1..]) && UniqueIds(c[1..]))
  }

  /** Position of the first record carrying `id`, if any: where the source's iterator stops. */
  function FirstIndexOf(c: seq<CollectionRecord>, id: Int64): (r: Option<nat>)
    ensures r.Some? ==> r.value < |c| && c[r.value].recordId == id
    ensures r.Some? ==> forall k :: 0 <= k < r.value ==> c[k].recordId != id
    ensures r.None? <==> !ContainsRecordId(c, id)
  {
    if c == [] then None
    else if c[0].recordId == id then Some(0)
    else match FirstIndexOf(c[1..], id)
      case None => None
      case Some(j) => Some(j + 1)
  }

  /** The records of `c` whose ids are not in `ids`, in their original order. */
  function Keep(c: seq<CollectionRecord>, ids: seq<Int64>): seq<CollectionRecord> {
    if c == [] then []
    else (if c[0].recordId in ids then [] else [c[0]]) + Keep(c[1..], ids)
  }

  /** The ids of `ids` without repeats, each at its first occurrence. */
  function Dedup(ids: seq<Int64>): (d: seq<Int64>)
    ensures forall i, j :: 0 <= i < j < |d| ==> d[i] != d[j]
  {
    if ids == [] then []
    else
      var d := Dedup(ids[..|ids| - 1]);
      if ids[|ids| - 1] in d then d else d + [ids[|ids| - 1]]
  }

  /** What is left of a collection and what was taken out of it. */
  datatype Outcome = Outcome(remaining: seq<CollectionRecord>, removed: seq<CollectionRecord>)

  /** One turn of the removal loop: take out the first record still carrying `id`, if any. */
  function RemoveFirst(o: Outcome, id: Int64): Outcome {
    match FirstIndexOf(o.remaining, id)
    case None => o
    case Some(j) => Outcome(o.remaining[..j] + o.remaining[j + 1..], o.removed + [o.remaining[j]])
  }

  /**
   * The removal loop of the remove-all step: the ids are handled in order,
   * each takes out the first record still carrying it (if any), and the
   * records taken out are listed in removal order.
   */
  function RemoveEach(c: seq<CollectionRecord>, ids: seq<Int64>): Outcome
    decreases |ids|
  {
    if ids == [] then Outcome(c, [])
    else RemoveFirst(RemoveEach(c, ids[..|ids| - 1]), ids[|ids| - 1])
  }

  /** Where a left-to-right search stops is the first index carrying `id`. */
  lemma FirstIndexAt(c: seq<CollectionRecord>, id: Int64, j: nat)
    requires j <= |c|
    requires forall k :: 0 <= k < j ==> c[k].recordId != id
    requires j < |c| ==> c[j].recordId == id
    ensures j < |c| ==> FirstIndexOf(c, id) == Some(j)
    ensures j == |c| ==> FirstIndexOf(c, id) == None
  {
    if j == |c| {
      assert forall k :: 0 <= k < |c| ==> IdsOf(c)[k] != id;
    }
  }

  /** Handling one more id extends the loop by one turn. */
  lemma RemoveEachSnoc(c: seq<CollectionRecord>, ids: seq<Int64>, i: nat)
    requires i < |ids|
    ensures RemoveEach(c, ids[..i + 1]) == RemoveFirst(RemoveEach(c, ids[..i]), ids[i])
  {
    assert ids[..i + 1][..i] == ids[..i];
  }

  // ---------------------------------------------------------------------
  // Facts about the specification
  // ---------------------------------------------------------------------

  lemma {:induction false} IdsOfAppend(a: seq<CollectionRecord>, b: seq<CollectionRecord>)
    ensures IdsOf(a + b) == IdsOf(a) + IdsOf(b)
  {
    assert forall i :: 0 <= i < |a + b| ==> IdsOf(a + b)[i] == (IdsOf(a) + IdsOf(b))[i];
  }

  /** Splitting out position `j` keeps every record: nothing is lost or duplicated. */
  lemma SplitAt(s: seq<CollectionRecord>, j: nat)
    requires j < |s|
    ensures multiset(s[..j] + s[j + 1..]) + multiset{s[j]} == multiset(s)
  {
    assert s == s[..j] + [s[j]] + s[j + 1..];
  }

  /** Conservation: every record of the collection ends up either remaining or removed, once. */
  lemma {:induction false} RemoveEachConserves(c: seq<CollectionRecord>, ids: seq<Int64>)
    ensures multiset(RemoveEach(c, ids).remaining) + multiset(RemoveEach(c, ids).removed) == multiset(c)
    decreases |ids|
  {
    if ids != [] {
      var prev := RemoveEach(c, ids[..|ids| - 1]);
      RemoveEachConserves(c, ids[..|ids| - 1]);
      match FirstIndexOf(prev.remaining, ids[|ids| - 1])
      case None =>
      case Some(j) => SplitAt(prev.remaining, j);
    }
  }

  /** Every removed record was in the collection, and the collection shrank by exactly that many. */
  lemma RemovedComeFromCollection(c: seq<CollectionRecord>, ids: seq<Int64>)
    ensures forall r :: r in RemoveEach(c, ids).removed ==> r in c
    ensures |RemoveEach(c, ids).remaining| + |RemoveEach(c, ids).removed| == |c|
  {
    var o := RemoveEach(c, ids);
    RemoveEachConserves(c, ids);
    var m1, m2 := multiset(o.remaining), multiset(o.removed);
    assert |m1 + m2| == |m1| + |m2|;
    forall r | r in o.removed ensures r in c {
      assert r in m2;
      assert r in m1 + m2;
    }
  }

  lemma {:induction false} KeepMembers(c: seq<CollectionRecord>, ids: seq<Int64>, x: Int64)
    ensures x in IdsOf(Keep(c, ids)) <==> x in IdsOf(c) && x !in ids
  {
    if c != [] {
      KeepMembers(c[1..], ids, x);
      var head := if c[0].recordId in ids then [] else [c[0]];
      IdsOfAppend(head, Keep(c[1..], ids));
      assert IdsOf(c) == [c[0].recordId] + IdsOf(c[1..]);
    }
  }

  lemma {:induction false} KeepUnique(c: seq<CollectionRecord>, ids: seq<Int64>)
    requires UniqueIds(c)
    ensures UniqueIds(Keep(c, ids))
  {
    if c != [] {
      KeepUnique(c[1..], ids);
      var rest := Keep(c[1..], ids);
      if c[0].recordId !in ids {
        KeepMembers(c[1..], ids, c[0].recordId);
        var k := Keep(c, ids);
        assert k == [c[0]] + rest;
        assert k[0] == c[0] && k[1..] == rest;
      } else {
        assert Keep(c, ids) == rest;
      }
    }
  }

  /** Keeping the ids outside `ids`, then outside `[x]`, keeps the ids outside `ids + [x]`. */
  lemma {:induction false} KeepCompose(c: seq<CollectionRecord>, ids: seq<Int64>, x: Int64)
    ensures Keep(Keep(c, ids), [x]) == Keep(c, ids + [x])
  {
    if c != [] {
      KeepCompose(c[1..], ids, x);
      var id := c[0].recordId;
      assert id in ids + [x] <==> id in ids || id == x;
      if id in ids {
        assert Keep(c, ids) == Keep(c[1..], ids);
      } else {
        assert Keep(c, ids) == [c[0]] + Keep(c[1..], ids);
        assert Keep(c, ids)[1..] == Keep(c[1..], ids);
      }
    }
  }

  /** In a collection with unique ids, removing the first record with `x` removes every record with `x`. */
  lemma {:induction false} RemoveFirstUnique(s: seq<CollectionRecord>, x: Int64)
    requires UniqueIds(s)
    ensures FirstIndexOf(s, x).None? ==> Keep(s, [x]) == s
    ensures FirstIndexOf(s, x).Some? ==>
      var j := FirstIndexOf(s, x).value; Keep(s, [x]) == s[..j] + s[j + 1..]
  {
    if s != [] {
      var tail := s[1..];
      assert UniqueIds(tail);
      if s[0].recordId == x {
        assert x !in IdsOf(tail);
        KeepAbsent(tail, [x]);
        assert Keep(s, [x]) == Keep(tail, [x]);
        assert FirstIndexOf(s, x) == Some(0);
        assert s[..0] + s[1..] == tail;
      } else {
        RemoveFirstUnique(tail, x);
        assert Keep(s, [x]) == [s[0]] + Keep(tail, [x]);
        FirstIndexOfTail(s, x);
        if FirstIndexOf(tail, x).Some? {
          CutBehindHead(s, FirstIndexOf(tail, x).value);
        }
      }
    }
  }

  /** When the head does not carry `x`, the first `x` is one further on than in the tail. */
  lemma FirstIndexOfTail(s: seq<CollectionRecord>, x: Int64)
    requires s != [] && s[0].recordId != x
    ensures FirstIndexOf(s, x).None? <==> FirstIndexOf(s[1..], x).None?
    ensures FirstIndexOf(s, x).Some? ==> FirstIndexOf(s, x).value == FirstIndexOf(s[1..], x).value + 1
  {
  }

  /** Cutting out position `j + 1` of `s` is putting the head back in front of the tail with `j` cut out. */
  lemma CutBehindHead(s: seq<CollectionRecord>, j: nat)
    requires j + 1 < |s|
    ensures s[..j + 1] + s[j + 2..] == [s[0]] + (s[1..][..j] + s[1..][j + 1..])
  {
    assert s[..j + 1] == [s[0]] + s[1..][..j];
    assert s[j + 2..] == s[1..][j + 1..];
  }

  /** Keep changes nothing when no id of the collection is excluded. */
  lemma {:induction false} KeepAbsent(c: seq<CollectionRecord>, ids: seq<Int64>)
    requires forall i :: 0 <= i < |ids| ==> ids[i] !in IdsOf(c)
    ensures Keep(c, ids) == c
  {
    if c != [] {
      assert IdsOf(c) == [c[0].recordId] + IdsOf(c[1..]);
      KeepAbsent(c[1..], ids);
      assert c[0].recordId !in ids;
    }
  }

  /**
   * Nothing else changes: with unique record ids, exactly the records whose
   * ids were reserved are gone, and all others remain in their original order.
   */
  lemma {:induction false} RemoveEachKeepsOthers(c: seq<CollectionRecord>, ids: seq<Int64>)
    requires UniqueIds(c)
    ensures RemoveEach(c, ids).remaining == Keep(c, ids)
    decreases |ids|
  {
    if ids == [] {
      KeepAbsent(c, ids);
    } else {
      var pre, x := ids[..|ids| - 1], ids[|ids| - 1];
      assert ids == pre + [x];
      RemoveEachKeepsOthers(c, pre);
      KeepUnique(c, pre);
      RemoveFirstUnique(Keep(c, pre), x);
      KeepCompose(c, pre, x);
    }
  }

  lemma {:induction false} DedupMembers(ids: seq<Int64>, x: Int64)
    ensures x in Dedup(ids) <==> x in ids
  {
    if ids != [] {
      var pre := ids[..|ids| - 1];
      DedupMembers(pre, x);
      assert ids == pre + [ids[|ids| - 1]];
    }
  }

  /**
   * On the success path (every reserved id present, record ids unique) the
   * records removed carry exactly the distinct reserved ids, in the order in
   * which each id first occurs; a repeated id removes nothing more.
   */
  lemma {:induction false} RemovedIdsAreDistinctReserved(c: seq<CollectionRecord>, ids: seq<Int64>)
    requires UniqueIds(c) && AllPresent(c, ids)
    ensures IdsOf(RemoveEach(c, ids).removed) == Dedup(ids)
    ensures |RemoveEach(c, ids).removed| == |Dedup(ids)|
    decreases |ids|
  {
    if ids != [] {
      var pre, x := ids[..|ids| - 1], ids[|ids| - 1];
      assert AllPresent(c, pre) by {
        forall i | 0 <= i < |pre| ensures ContainsRecordId(c, pre[i]) {
          assert pre[i] == ids[i];
        }
      }
      RemovedIdsAreDistinctReserved(c, pre);
      RemoveEachKeepsOthers(c, pre);
      var prev := RemoveEach(c, pre);
      KeepMembers(c, pre, x);
      DedupMembers(pre, x);
      assert ContainsRecordId(c, ids[|ids| - 1]);
      match FirstIndexOf(prev.remaining, x)
      case None =>
      case Some(j) =>
        IdsOfAppend(prev.removed, [prev.remaining[j]]);
    }
  }

  /**
   * Re-running after a success is refused: once the reserved records are
   * gone, a non-empty reservation can no longer be met.
   */
  lemma RerunFails(c: seq<CollectionRecord>, ids: seq<Int64>)
    requires UniqueIds(c) && |ids| > 0
    ensures !AllPresent(RemoveEach(c, ids).remaining, ids)
  {
    RemoveEachKeepsOthers(c, ids);
    KeepMembers(c, ids, ids[0]);
  }

  /** The remaining records still carry unique ids. */
  lemma RemainingUnique(c: seq<CollectionRecord>, ids: seq<Int64>)
    requires UniqueIds(c)
    ensures UniqueIds(RemoveEach(c, ids).remaining)
  {
    RemoveEachKeepsOthers(c, ids);
    KeepUnique(c, ids);
  }

  lemma {:induction false} KeepEmpty(c: seq<CollectionRecord>, ids: seq<Int64>)
    ensures Keep(c, ids) == [] <==> forall k :: 0 <= k < |c| ==> c[k].recordId in ids
  {
    if c != [] {
      KeepEmpty(c[1..], ids);
      assert forall k :: 1 <= k < |c| ==> c[k] == c[1..][k - 1];
    }
  }

  /**
   * A successful run empties the collection, and so drops its wrapper,
   * exactly when every record of the collection was reserved.
   */
  lemma EmptiedIffAllReserved(c: seq<CollectionRecord>, ids: seq<Int64>)
    requires UniqueIds(c)
    ensures RemoveEach(c, ids).remaining == [] <==> forall k :: 0 <= k < |c| ==> c[k].recordId in ids
  {
    RemoveEachKeepsOthers(c, ids);
    KeepEmpty(c, ids);
  }
}
