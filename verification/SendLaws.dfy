/** What the send buffer's operations guarantee: when freeing is sound, what
    `Get` returns, and how much of a packet a polled range may take. */
module SendLaws {
  import opened Core
  import opened VarInt
  import L = RangeList
  import opened SendBuffer

  // ---------------------------------------------------------------- freeing

  ghost predicate Covered(acks: seq<Range>, lo: nat, hi: nat) {
    forall x: nat :: lo <= x < hi ==> L.Has(acks, x)
  }

  /** One acknowledged range reaches from `lo` to `hi`. */
  predicate OneRange(acks: seq<Range>, lo: nat, hi: nat) {
    exists i :: 0 <= i < |acks| && acks[i].start <= lo && hi <= acks[i].end
  }

  /** Every segment that the endpoint test frees has both ends in the same
      acknowledged range. */
  predicate EndsShareRange(segments: seq<Bytes>, start: nat, acks: seq<Range>)
    decreases |segments|
  {
    segments != [] && EndsAcked(segments[0], start, acks) ==>
      && OneRange(acks, start, start + |segments[0]|)
      && EndsShareRange(segments[1..], start + |segments[0]|, acks)
  }

  lemma CoveredIsOneRange(acks: seq<Range>, lo: nat, hi: nat)
    requires L.Canonical(acks) && lo < hi
    ensures Covered(acks, lo, hi) <==> OneRange(acks, lo, hi)
  {
    if Covered(acks, lo, hi) {
      assert L.Has(acks, lo);
      var i :| 0 <= i < |acks| && acks[i].Contains(lo);
      assert !L.Has(acks, acks[i].end);
    }
    if OneRange(acks, lo, hi) {
      var i :| 0 <= i < |acks| && acks[i].start <= lo && hi <= acks[i].end;
      assert forall x: nat :: lo <= x < hi ==> acks[i].Contains(x);
    }
  }

  lemma PointIsOneRange(acks: seq<Range>, x: nat)
    requires L.Has(acks, x)
    ensures OneRange(acks, x, x)
  {
    var i :| 0 <= i < |acks| && acks[i].Contains(x);
  }

  lemma {:induction false} DrainsOnlyAcked(segments: seq<Bytes>, start: nat, acks: seq<Range>)
    requires L.Canonical(acks)
    ensures Covered(acks, start, start + Total(segments[..Drainable(segments, start, acks)]))
       <==> EndsShareRange(segments, start, acks)
    decreases |segments|
  {
    hide L.Has, L.Canonical, OneRange;
    if segments != [] && EndsAcked(segments[0], start, acks) {
      var rest, mid := segments[1..], start + |segments[0]|;
      var k := Drainable(rest, mid, acks);
      DrainsOnlyAcked(rest, mid, acks);
      assert segments[..k + 1][0] == segments[0] && segments[..k + 1][1..] == rest[..k];
      if segments[0] == [] {
        PointIsOneRange(acks, start);
      } else {
        CoveredIsOneRange(acks, start, mid);
      }
      var end := mid + Total(rest[..k]);
      assert Covered(acks, start, end) <==> Covered(acks, start, mid) && Covered(acks, mid, end);
    }
  }

  /** `Ack` frees acknowledged bytes only, if and only if the endpoint test is
      met inside single acknowledged ranges. */
  lemma AckFreesOnlyAcked(b: SendBuf, r: Range)
    requires b.Valid()
    ensures b.Base() <= b.Ack(r).Base()
    ensures Covered(L.Insert(b.acks, r), b.Base(), b.Ack(r).Base())
       <==> EndsShareRange(b.segments, b.Base(), L.Insert(b.acks, r))
  {
    hide L.Insert, L.Remove, Drainable, Total, EndsShareRange;
    AckParts(b, r);
    L.InsertCanonical(b.acks, r);
    DrainsOnlyAcked(b.segments, b.Base(), L.Insert(b.acks, r));
  }

  /** A buffer of one segment: `Ack` frees all or nothing. */
  lemma AckOneSegment(b: SendBuf, segment: Bytes, r: Range)
    requires b.Valid() && b.segments == [segment] && segment != []
    ensures var acked := L.Insert(b.acks, r);
            b.Ack(r) == if EndsAcked(segment, b.Base(), acked)
                        then b.(segments := [], unackedLen := 0,
                                acks := L.Remove(acked, Range(b.Base(), b.Base() + |segment|)))
                        else b.(acks := acked)
  {
    hide L.Insert, L.Remove, L.Has, L.Canonical, EndsAcked;
    AckParts(b, r);
    assert [segment][1..] == [] && [segment][..1] == [segment] && [segment][..0] == [] && [segment][0..] == [segment];
    assert Total([segment]) == |segment|;
  }

  lemma RemoveEverything(s: seq<Range>, r: Range)
    requires L.Canonical(s) && forall x: nat :: L.Has(s, x) ==> r.Contains(x)
    ensures L.Remove(s, r) == []
  {
    L.RemoveSpec(s, r);
    if L.Remove(s, r) != [] {
      L.HasStart(L.Remove(s, r), 0);
      assert false;
    }
  }

  // ------------------------------------------------------------ buffered data

  /** The buffer holds everything written from its base on. */
  ghost predicate Holds(b: SendBuf, written: Bytes) {
    b.unackedLen <= b.offset == |written| && Joined(b.segments) == written[b.Base()..]
  }

  lemma WriteHolds(b: SendBuf, written: Bytes, data: Bytes)
    requires b.Valid() && Holds(b, written)
    ensures b.Write(data).Valid() && Holds(b.Write(data), written + data)
  {
    hide L.Has, L.Canonical, Total, Joined;
    TotalConcat(b.segments, [data]);
    JoinedOne(data);
    assert (written + data)[b.Base()..] == written[b.Base()..] + data;
  }

  lemma JoinedOne(data: Bytes)
    ensures Joined([data]) == data
  {
    assert [data][1..] == [] && data + [] == data;
  }

  lemma AckHolds(b: SendBuf, written: Bytes, r: Range)
    requires b.Valid() && Holds(b, written)
    ensures b.Ack(r).Valid() && Holds(b.Ack(r), written)
  {
    hide L.Insert, L.Remove, L.Has, L.Canonical, Drainable, Total, Joined;
    AckParts(b, r);
    var k := Drainable(b.segments, b.Base(), L.Insert(b.acks, r));
    TotalConcat(b.segments[..k], b.segments[k..]);
    Rejoin(b.segments, k);
    Spliced([], Joined(b.segments[..k]), Joined(b.segments[k..]));
    assert Joined(b.segments)[|Joined(b.segments[..k])|..] == Joined(b.segments[k..]);
    assert written[b.Base()..][|Joined(b.segments[..k])|..] == written[b.Ack(r).Base()..];
  }

  /** `pos..end` lies within a single segment. */
  predicate InOneSegment(segments: seq<Bytes>, pos: nat, end: nat)
    decreases |segments|
  {
    segments != [] &&
    if pos < |segments[0]| then end <= |segments[0]|
    else end >= |segments[0]| && InOneSegment(segments[1..], pos - |segments[0]|, end - |segments[0]|)
  }

  lemma {:induction false} SliceIsPrefix(segments: seq<Bytes>, pos: nat, len: nat)
    requires pos < Total(segments) && len > 0
    ensures var d := Slice(segments, pos, len);
            && 0 < |d| <= len && pos + |d| <= Total(segments) && d == Joined(segments)[pos..pos + |d|]
            && (|d| == len <==> InOneSegment(segments, pos, pos + len))
    decreases |segments|
  {
    var first, rest := segments[0], segments[1..];
    if pos < |first| {
      SliceConcat(first, Joined(rest), pos, pos + Min(len, |first| - pos));
    } else {
      SliceIsPrefix(rest, pos - |first|, len);
      SliceConcat(first, Joined(rest), pos, pos + |Slice(rest, pos - |first|, len)|);
    }
  }

  /** `Get` on a range that is still buffered returns a non-empty prefix of the
      bytes written there: all of them exactly when one segment holds them. */
  lemma GetIsPrefix(b: SendBuf, written: Bytes, r: Range)
    requires b.Valid() && Holds(b, written) && b.Base() <= r.start < r.end <= b.offset
    ensures var d := b.Get(r);
            && 0 < |d| <= r.end - r.start && d == written[r.start..r.start + |d|]
            && (|d| == r.end - r.start <==> InOneSegment(b.segments, r.start - b.Base(), r.end - b.Base()))
  {
    hide Total, Joined, Slice, InOneSegment, L.Has, L.Canonical;
    var pos, len := r.start - b.Base(), r.end - r.start;
    SliceIsPrefix(b.segments, pos, len);
    var d := b.Get(r);
    SliceOfSuffix(written, b.Base(), pos, pos + |d|);
  }

  // ---------------------------------------------------------- transmit budget

  /** Bytes that a polled range takes of the budget: offset, length if it is
      encoded, and data. */
  function Cost(r: Range, encodeLength: bool): nat
    requires r.start <= r.end <= VARINT_MAX
  {
    (if r.start != 0 then VarintLen(r.start) else 0)
    + (if encodeLength then VarintLen(r.end - r.start) else 0)
    + (r.end - r.start)
  }

  /** Offsets waiting to be sent or sent again. */
  function Size(s: seq<Range>): int
    decreases |s|
  {
    if s == [] then 0 else s[0].end - s[0].start + Size(s[1..])
  }

  function Outstanding(b: SendBuf): int {
    b.offset - b.unsent + Size(b.retransmits)
  }

  /** The budget is never exceeded, and it is used up whenever the length is
      left out. */
  lemma PollBudget(b: SendBuf, maxLen: nat)
    requires b.Valid() && maxLen >= 16 && b.offset <= VARINT_MAX
    ensures var (b', r, encodeLength) := b.PollTransmit(maxLen);
            && r.start <= r.end <= VARINT_MAX
            && Cost(r, encodeLength) <= maxLen
            && (!encodeLength ==> Cost(r, encodeLength) == maxLen)
  {
    hide L.Insert, L.Has;
    PollKeeps(b, maxLen);
    PollBounds(b);
  }

  /** Something is pending exactly while offsets wait to be sent, or sent again. */
  lemma WaitsExactly(b: SendBuf)
    requires b.Valid()
    ensures b.HasUnsentData() <==> Outstanding(b) > 0
  {
    hide L.Has;
    QueuedSize(b.retransmits);
  }

  lemma {:induction false} QueuedSize(s: seq<Range>)
    requires L.Canonical(s)
    ensures Size(s) >= |s|
    decreases |s|
  {
    if s != [] {
      assert s[0].start < s[0].end;
      QueuedSize(s[1..]);
    }
  }

  /** What is polled: the beginning of the first range to be sent again, or else of
      what was not sent yet. The length goes along exactly if all of that would fit
      without it; then either all of it is taken, or eight bytes are left for the
      length, and otherwise the budget is used up. */
  lemma PollExact(b: SendBuf, maxLen: nat)
    requires b.Valid() && maxLen >= 16 && b.offset <= VARINT_MAX
    ensures var (b', r, encodeLength) := b.PollTransmit(maxLen);
            var wanted := if b.retransmits != [] then b.retransmits[0] else Range(b.unsent, b.offset);
            wanted.start <= VARINT_MAX &&
            var offset := if wanted.start == 0 then 0 else VarintLen(wanted.start);
            && r.start == wanted.start <= r.end <= wanted.end
            && (encodeLength <==> offset + (wanted.end - wanted.start) < maxLen)
            && (encodeLength ==> r.end == wanted.end || offset + (r.end - r.start) + 8 == maxLen)
            && (!encodeLength ==> offset + (r.end - r.start) == maxLen)
  {
    hide L.Insert, L.Has;
    PollKeeps(b, maxLen);
    PollBounds(b);
  }

  /** What remains to be sent shrinks by exactly the polled range. */
  lemma PollShrinks(b: SendBuf, maxLen: nat)
    requires b.Valid() && maxLen >= 16 && b.offset <= VARINT_MAX
    ensures var (b', r, _) := b.PollTransmit(maxLen);
            r.start <= r.end && Outstanding(b') == Outstanding(b) - (r.end - r.start)
  {
    PollKeeps(b, maxLen);
    if b.retransmits != [] {
      var q := b.retransmits;
      var (b', r, _) := b.PollTransmit(maxLen);
      if r.end < q[0].end {
        assert b'.retransmits == [Range(r.end, q[0].end)] + q[1..];
        assert b'.retransmits[1..] == q[1..];
      }
    }
  }

  /** With data waiting, the polled range is empty in one case only: sixteen
      bytes of budget, an eight-byte offset and fewer than eight bytes to go. */
  lemma PollStalls(b: SendBuf, maxLen: nat)
    requires b.Valid() && maxLen >= 16 && b.offset <= VARINT_MAX && b.HasUnsentData()
    ensures var (b', r, _) := b.PollTransmit(maxLen);
            var wanted := if b.retransmits != [] then b.retransmits[0] else Range(b.unsent, b.offset);
            r.Empty() <==> maxLen == 16 && wanted.start > VARINT_MAX_4 && wanted.end - wanted.start < 8
  {
    hide L.Insert, L.Has;
    PollBounds(b);
  }
}
