/**
 * The operation's own part of its wire form: the number of record ids as an
 * `int`, then each id as a `long`. Streams are sequences of typed tokens
 * rather than bytes.
 */
module Wire {
  import opened Common

  datatype Token = IntToken(i: Int32) | LongToken(l: Int64)

  /** An output stream: everything written so far. */
  class ObjectDataOutput {
    var tokens: seq<Token>

    constructor ()
      ensures tokens == []
    {
      tokens := [];
    }

    method WriteInt(v: Int32)
      modifies this
      ensures tokens == old(tokens) + [IntToken(v)]
    {
      tokens := tokens + [IntToken(v)];
    }

    method WriteLong(v: Int64)
      modifies this
      ensures tokens == old(tokens) + [LongToken(v)]
    {
      tokens := tokens + [LongToken(v)];
    }
  }

  /** An input stream: its tokens and the position of the next read. */
  class ObjectDataInput {
    const tokens: seq<Token>
    var pos: nat

    ghost predicate Valid()
      reads this
    {
      pos <= |tokens|
    }

    /** The tokens not read yet. */
    ghost function Unread(): seq<Token>
      reads this
      requires Valid()
    {
      tokens[pos..]
    }

    constructor (s: seq<Token>)
      ensures Valid() && tokens == s && pos == 0
    {
      tokens := s;
      pos := 0;
    }

    /** Reads an `int`; at the end of the stream, or on a token of another kind, the read fails. */
    method ReadInt() returns (r: Option<Int32>)
      requires Valid()
      modifies this`pos
      ensures Valid()
      ensures old(pos) < |tokens| && tokens[old(pos)].IntToken? ==>
        r == Some(tokens[old(pos)].i) && pos == old(pos) + 1
      ensures !(old(pos) < |tokens| && tokens[old(pos)].IntToken?) ==> r.None? && pos == old(pos)
    {
      if pos < |tokens| && tokens[pos].IntToken? {
        r := Some(tokens[pos].i);
        pos := pos + 1;
      } else {
        r := None;
      }
    }

    /** Reads a `long`; at the end of the stream, or on a token of another kind, the read fails. */
    method ReadLong() returns (r: Option<Int64>)
      requires Valid()
      modifies this`pos
      ensures Valid()
      ensures old(pos) < |tokens| && tokens[old(pos)].LongToken? ==>
        r == Some(tokens[old(pos)].l) && pos == old(pos) + 1
      ensures !(old(pos) < |tokens| && tokens[old(pos)].LongToken?) ==> r.None? && pos == old(pos)
    {
      if pos < |tokens| && tokens[pos].LongToken? {
        r := Some(tokens[pos].l);
        pos := pos + 1;
      } else {
        r := None;
      }
    }
  }

  /** The ids as `long` tokens, in order. */
  function LongTokens(ids: seq<Int64>): seq<Token> {
    seq(|ids|, k requires 0 <= k < |ids| => LongToken(ids[k]))
  }

  /** What `writeInternal` appends: the count, then the ids. */
  function EncodeIds(ids: seq<Int64>): seq<Token>
    requires |ids| <= IntMax
  {
    [IntToken(|ids|)] + LongTokens(ids)
  }

  /**
   * The ids read by a counting loop that wants `n` longs from `s` and stops
   * at the first read that fails.
   */
  function LeadingLongs(s: seq<Token>, n: nat): (r: seq<Int64>)
    ensures |r| <= n && |r| <= |s|
    ensures forall k :: 0 <= k < |r| ==> s[k] == LongToken(r[k])
    ensures |r| < n ==> |r| == |s| || !s[|r|].LongToken?
  {
    if n == 0 || s == [] || !s[0].LongToken? then []
    else [s[0].l] + LeadingLongs(s[1..], n - 1)
  }

  /** The outcome of `readInternal`: the count could not be read, or some ids were read. */
  datatype ReadOutcome =
    | SizeMissing
    | Read(ids: seq<Int64>, complete: bool)

  /**
   * `readInternal` on the unread tokens `s`: a count, then up to that many
   * longs (none for a negative count). `complete` is false when a long is
   * missing, in which case the ids read before the failure are kept.
   */
  function DecodeIds(s: seq<Token>): ReadOutcome {
    if s == [] || !s[0].IntToken? then SizeMissing
    else
      var n := if s[0].i < 0 then 0 else s[0].i;
      var ids := LeadingLongs(s[1..], n);
      Read(ids, |ids| == n)
  }

  /** How many tokens a read consumes. */
  function Consumed(o: ReadOutcome): nat {
    match o
    case SizeMissing => 0
    case Read(ids, _) => 1 + |ids|
  }

  /** One more turn of the counting loop: either one more id, or the loop's final result. */
  lemma {:induction false} LeadingLongsStep(s: seq<Token>, i: nat, n: nat)
    requires i < n && |LeadingLongs(s, i)| == i
    ensures i < |s| && s[i].LongToken? ==> LeadingLongs(s, i + 1) == LeadingLongs(s, i) + [s[i].l]
    ensures !(i < |s| && s[i].LongToken?) ==> LeadingLongs(s, n) == LeadingLongs(s, i)
  {
    if i > 0 {
      LeadingLongsStep(s[1..], i - 1, n - 1);
    }
  }

  lemma {:induction false} LeadingLongsOfEncoded(ids: seq<Int64>, rest: seq<Token>)
    ensures LeadingLongs(LongTokens(ids) + rest, |ids|) == ids
  {
    if ids != [] {
      var s := LongTokens(ids) + rest;
      assert s[1..] == LongTokens(ids[1..]) + rest;
      LeadingLongsOfEncoded(ids[1..], rest);
      assert ids == [ids[0]] + ids[1..];
    }
  }

  /**
   * Round trip: reading what `writeInternal` wrote gives back every id, in
   * order, and consumes exactly the written tokens, whatever follows them.
   */
  lemma RoundTrip(ids: seq<Int64>, rest: seq<Token>)
    requires |ids| <= IntMax
    ensures DecodeIds(EncodeIds(ids) + rest) == Read(ids, true)
    ensures Consumed(DecodeIds(EncodeIds(ids) + rest)) == |EncodeIds(ids)|
  {
    var s := EncodeIds(ids) + rest;
    assert s[1..] == LongTokens(ids) + rest;
    LeadingLongsOfEncoded(ids, rest);
  }

  /**
   * The other direction: a complete read of a non-negative count consumed
   * exactly the encoding of the ids it returned.
   */
  lemma DecodedIsEncoding(s: seq<Token>)
    requires DecodeIds(s).Read? && DecodeIds(s).complete
    requires s[0].i >= 0
    ensures |DecodeIds(s).ids| <= IntMax
    ensures s[..Consumed(DecodeIds(s))] == EncodeIds(DecodeIds(s).ids)
  {
    var ids := DecodeIds(s).ids;
    var e := EncodeIds(ids);
    assert |e| == 1 + |ids|;
    forall k | 0 <= k < |e| ensures s[k] == e[k] {
      if k > 0 {
        assert s[1..][k - 1] == LongToken(ids[k - 1]);
      }
    }
  }
}
