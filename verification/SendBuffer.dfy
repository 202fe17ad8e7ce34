/** The buffer of outgoing stream data
    (core/src/connection/stream/send.rs). `SendBuf` is its value with the
    operations as functions, on which the protocol arguments reason; the class
    `SendBuffer` is the object itself, whose methods compute those functions. */
module SendBuffer {
  import opened Core
  import opened VarInt
  import L = RangeList
  import opened BTreeRangeSet

  /** Combined length of a list of segments. */
  function Total(segments: seq<Bytes>): nat
    decreases |segments|
  {
    if segments == [] then 0 else |segments[0]| + Total(segments[1..])
  }

  /** The bytes of a list of segments, in order. */
  function Joined(segments: seq<Bytes>): (bs: Bytes)
    ensures |bs| == Total(segments)
    decreases |segments|
  {
    if segments == [] then [] else segments[0] + Joined(segments[1..])
  }

  lemma {:induction false} TotalConcat(a: seq<Bytes>, b: seq<Bytes>)
    ensures Total(a + b) == Total(a) + Total(b)
    ensures Joined(a + b) == Joined(a) + Joined(b)
    decreases |a|
  {
    if a == [] {
      assert a + b == b && Joined([]) + Joined(b) == Joined(b);
    } else {
      TotalConcat(a[1..], b);
      assert (a + b)[1..] == a[1..] + b;
      assert a[0] + (Joined(a[1..]) + Joined(b)) == Joined(a) + Joined(b);
    }
  }

  /** The test by which `ack` decides that a segment at offset `start` is
      acknowledged: its first and last byte are. */
  predicate EndsAcked(segment: Bytes, start: nat, acks: seq<Range>) {
    && L.Has(acks, start)
    && start + |segment| > 0 && L.Has(acks, start + |segment| - 1)
  }

  /** How many segments from the front pass that test. */
  function Drainable(segments: seq<Bytes>, start: nat, acks: seq<Range>): (k: nat)
    ensures k <= |segments|
    decreases |segments|
  {
    if segments == [] || !EndsAcked(segments[0], start, acks) then 0
    else 1 + Drainable(segments[1..], start + |segments[0]|, acks)
  }

  /** The bytes at position `pos` of a list of segments, up to `len` of them and
      no further than the end of the segment that holds `pos`. */
  function Slice(segments: seq<Bytes>, pos: nat, len: nat): Bytes
    decreases |segments|
  {
    if segments == [] then []
    else if pos < |segments[0]| then segments[0][pos..pos + Min(len, |segments[0]| - pos)]
    else Slice(segments[1..], pos - |segments[0]|, len)
  }

  /** Space left for data once the offset, and the length if `data` is short,
      have been written. */
  function Room(maxLen: nat, start: nat, data: nat): (r: (nat, bool))
    requires maxLen >= 16 && start <= VARINT_MAX
  {
    var m := if start != 0 then maxLen - VarintLen(start) else maxLen;
    if data < m then (m - 8, true) else (m, false)
  }

  datatype SendBuf = SendBuf(
    segments: seq<Bytes>,
    unackedLen: nat,
    offset: nat,
    unsent: nat,
    acks: seq<Range>,
    retransmits: seq<Range>)
  {
    ghost predicate Valid() {
      && unackedLen == Total(segments) && unackedLen <= offset
      && unsent <= offset
      && L.Canonical(acks) && L.Canonical(retransmits)
      && forall x: nat :: L.Has(retransmits, x) ==> x < unsent
    }

    /** Offset of the first byte still buffered. */
    function Base(): nat
      requires unackedLen <= offset
    {
      offset - unackedLen
    }

    function Write(data: Bytes): SendBuf {
      this.(segments := segments + [data], unackedLen := unackedLen + |data|, offset := offset + |data|)
    }

    /** `seg_end - 1` underflows only for an empty segment at offset zero, and
        only if its first byte counts as acknowledged. */
    predicate AckDefined(r: Range)
      requires unackedLen <= offset
    {
      Base() > 0 || segments == [] || segments[0] != [] || !L.Has(L.Insert(acks, r), 0)
    }

    function Ack(r: Range): SendBuf
      requires Valid()
    {
      var acked := L.Insert(acks, r);
      var k := Drainable(segments, Base(), acked);
      assert Total(segments[..k]) <= unackedLen by {
        TotalConcat(segments[..k], segments[k..]);
        assert segments == segments[..k] + segments[k..];
      }
      var freed := Total(segments[..k]);
      this.(segments := segments[k..],
            unackedLen := unackedLen - freed,
            acks := if freed > 0 then L.Remove(acked, Range(Base(), Base() + freed)) else acked)
    }

    /** The next range to transmit, and whether its length must be encoded. */
    function PollTransmit(maxLen: nat): (SendBuf, Range, bool)
      requires maxLen >= 16 && Valid() && offset <= VARINT_MAX
    {
      if retransmits != [] then
        var r := retransmits[0];
        L.HasStart(retransmits, 0);
        var (room, encodeLength) := Room(maxLen, r.start, r.end - r.start);
        var end := Min(r.end, r.start + room);
        var rest := if end < r.end then L.Insert(retransmits[1..], Range(end, r.end)) else retransmits[1..];
        (this.(retransmits := rest), Range(r.start, end), encodeLength)
      else
        var (room, encodeLength) := Room(maxLen, unsent, offset - unsent);
        var end := Min(offset, unsent + room);
        (this.(unsent := end), Range(unsent, end), encodeLength)
    }

    function Get(r: Range): Bytes
      requires unackedLen <= offset && Base() <= r.start <= r.end
    {
      Slice(segments, r.start - Base(), r.end - r.start)
    }

    function Retransmit(r: Range): SendBuf {
      this.(retransmits := L.Insert(retransmits, r))
    }

    predicate FullyAcked() {
      unackedLen == 0
    }

    predicate HasUnsentData() {
      unsent != offset || retransmits != []
    }
  }

  const EMPTY: SendBuf := SendBuf([], 0, 0, 0, [], [])

  class SendBuffer {
    var segments: seq<Bytes>
    var unackedLen: nat
    var offset: nat
    var unsent: nat
    const acks: RangeSet
    const retransmits: RangeSet

    ghost predicate Shaped()
      reads this, acks, retransmits
    {
      acks != retransmits && acks.Valid() && retransmits.Valid()
    }

    ghost function View(): SendBuf
      requires Shaped()
      reads this, acks, retransmits
    {
      SendBuf(segments, unackedLen, offset, unsent, acks.Ranges(), retransmits.Ranges())
    }

    ghost predicate Valid()
      reads this, acks, retransmits
    {
      Shaped() && View().Valid()
    }

    constructor ()
      ensures Valid() && View() == EMPTY
      ensures fresh(acks) && fresh(retransmits)
    {
      segments, unackedLen, offset, unsent := [], 0, 0, 0;
      acks := new RangeSet();
      retransmits := new RangeSet();
    }

    method Write(data: Bytes)
      requires Valid()
      modifies this
      ensures Valid() && View() == old(View()).Write(data)
    {
      TotalConcat(segments, [data]);
      unackedLen := unackedLen + |data|;
      offset := offset + |data|;
      segments := segments + [data];
    }

    method Ack(r: Range)
      requires Valid() && View().AckDefined(r)
      modifies this, acks
      ensures Valid() && View() == old(View()).Ack(r)
    {
      hide L.Insert, L.Remove, L.Has, L.Canonical, L.Differ, List, Separated, Drainable, Total, SendBuf.Ack;
      AckParts(View(), r);
      var _ := acks.Insert(r);
      var base := offset - unackedLen;
      var freed := Drain(base);
      unackedLen := unackedLen - freed;
      if freed > 0 {
        var _ := acks.Remove(Range(base, base + freed));
      }
    }

    /** Drop the segments at the front, the first of them at offset `base`,
        whose ends are acknowledged; returns how many bytes they held. */
    method Drain(base: nat) returns (freed: nat)
      requires acks.Valid()
      requires base > 0 || segments == [] || segments[0] != [] || !L.Has(acks.Ranges(), 0)
      modifies this`segments
      ensures var k := Drainable(old(segments), base, acks.Ranges());
              segments == old(segments)[k..] && freed == Total(old(segments)[..k])
    {
      hide L.Has, L.Canonical, Separated, List, Total;
      ghost var all, acked, k := segments, acks.Ranges(), 0;
      freed := 0;
      DrainStart(all);
      while segments != []
        invariant k <= |all| && segments == all[k..]
        invariant freed == Total(all[..k]) && (k > 0 ==> base + freed > 0)
        invariant base > 0 || k > 0 || segments == [] || segments[0] != [] || !L.Has(acked, 0)
        invariant Drainable(all, base, acked) == k + Drainable(segments, base + freed, acked)
        decreases |segments|
      {
        var start := base + freed;
        var first := acks.Contains(start);
        if !first {
          break;
        }
        var last := acks.Contains(start + |segments[0]| - 1);
        if !last {
          break;
        }
        DrainStep(all, k);
        freed := freed + |segments[0]|;
        segments := segments[1..];
        k := k + 1;
      }
    }

    method PollTransmit(maxLen: nat) returns (r: Range, encodeLength: bool)
      requires Valid() && maxLen >= 16 && offset <= VARINT_MAX
      modifies this, retransmits
      ensures Valid() && (View(), r, encodeLength) == old(View()).PollTransmit(maxLen)
    {
      hide L.Insert, L.Has, L.Canonical, L.Differ, Separated, List, Total;
      PollKeeps(View(), maxLen);
      PollBounds(View());
      var room := maxLen;
      encodeLength := false;
      var queued := retransmits.PopMin();
      if queued.Some? {
        var q := queued.value;
        if q.start != 0 {
          room := room - VarintLen(q.start);
        }
        if q.end - q.start < room {
          encodeLength := true;
          room := room - 8;
        }
        var end := Min(q.end, q.start + room);
        if end < q.end {
          var _ := retransmits.Insert(Range(end, q.end));
        }
        return Range(q.start, end), encodeLength;
      }
      if unsent != 0 {
        room := room - VarintLen(unsent);
      }
      if offset - unsent < room {
        encodeLength := true;
        room := room - 8;
      }
      var end := Min(offset, room + unsent);
      r := Range(unsent, end);
      unsent := end;
    }

    method Get(r: Range) returns (data: Bytes)
      requires Valid() && View().Base() <= r.start <= r.end
      ensures data == View().Get(r)
    {
      var base := offset - unackedLen;
      var start := r.start - base;
      var end := r.end - base;
      var pos := 0;
      for i := 0 to |segments|
        invariant pos <= start
        invariant Slice(segments[i..], start - pos, end - start) == Slice(segments, start, end - start)
      {
        SplitAt(segments, i);
        var segEnd := pos + |segments[i]|;
        if start < segEnd {
          var segStart := start - pos;
          var len := Min(end - start, |segments[i]| - segStart);
          return segments[i][segStart..segStart + len];
        }
        pos := segEnd;
      }
      return [];
    }

    method Retransmit(r: Range)
      requires Valid() && r.end <= unsent
      modifies retransmits
      ensures Valid() && View() == old(View()).Retransmit(r)
    {
      L.InsertSpec(retransmits.Ranges(), r);
      var _ := retransmits.Insert(r);
    }
  }

  /** The range at the head of the retransmission queue has been sent. */
  lemma PollBounds(b: SendBuf)
    requires b.Valid()
    ensures b.retransmits != [] ==> b.retransmits[0].start < b.retransmits[0].end && b.retransmits[0].start < b.unsent
  {
    if b.retransmits != [] { L.HasStart(b.retransmits, 0); }
  }

  lemma DrainStart(segments: seq<Bytes>)
    ensures Total(segments[..0]) == 0 && segments[0..] == segments
  {}

  lemma DrainStep(segments: seq<Bytes>, k: nat)
    requires k < |segments|
    ensures Total(segments[..k + 1]) == Total(segments[..k]) + |segments[k]|
    ensures segments[k..][0] == segments[k] && segments[k..][1..] == segments[k + 1..]
  {
    SplitAt(segments, k);
    TotalConcat(segments[..k], [segments[k]]);
  }

  /** Dropping the drainable segments keeps the buffer's own accounting. */
  lemma AckKeeps(b: SendBuf, r: Range)
    requires b.Valid()
    ensures var k := Drainable(b.segments, b.Base(), L.Insert(b.acks, r));
            Total(b.segments[..k]) + Total(b.segments[k..]) == b.unackedLen
    ensures b.Ack(r).Valid()
  {
    hide L.Insert, L.Remove, Drainable, Total;
    var acked := L.Insert(b.acks, r);
    var k := Drainable(b.segments, b.Base(), acked);
    TotalConcat(b.segments[..k], b.segments[k..]);
    Rejoin(b.segments, k);
    L.InsertCanonical(b.acks, r);
    L.RemoveCanonical(acked, Range(b.Base(), b.Base() + Total(b.segments[..k])));
  }

  /** The fields of the buffer after `Ack`. */
  lemma AckParts(b: SendBuf, r: Range)
    requires b.Valid()
    ensures var acked := L.Insert(b.acks, r);
            var k := Drainable(b.segments, b.Base(), acked);
            var freed := Total(b.segments[..k]);
            && freed <= b.unackedLen
            && b.Ack(r) == SendBuf(b.segments[k..], b.unackedLen - freed, b.offset, b.unsent,
                                   if freed > 0 then L.Remove(acked, Range(b.Base(), b.Base() + freed)) else acked,
                                   b.retransmits)
            && b.Ack(r).Valid()
  {
    hide L.Insert, L.Remove, L.Has, L.Canonical, Drainable, Total;
    AckKeeps(b, r);
  }

  /** Polling keeps the buffer valid; it moves offsets out of the retransmission
      queue, or else the send point, and touches nothing else. */
  lemma PollKeeps(b: SendBuf, maxLen: nat)
    requires b.Valid() && maxLen >= 16 && b.offset <= VARINT_MAX
    ensures var (b', r, _) := b.PollTransmit(maxLen);
            && b'.Valid() && r.start <= r.end <= b'.unsent
            && b' == b.(unsent := b'.unsent, retransmits := b'.retransmits)
            && (if b.retransmits != []
                then && b'.unsent == b.unsent
                     && forall x: nat :: L.Has(b.retransmits, x) <==> L.Has(b'.retransmits, x) || r.Contains(x)
                else && b'.retransmits == b.retransmits
                     && r == Range(b.unsent, b'.unsent))
            && forall x: nat :: r.Contains(x) ==> !L.Has(b'.retransmits, x)
  {
    if b.retransmits != [] {
      var q := b.retransmits;
      L.HasStart(q, 0);
      assert q[0].Contains(q[0].end - 1);
      assert L.Has(q, q[0].end - 1);
      var (b', r, _) := b.PollTransmit(maxLen);
      L.InsertSpec(q[1..], Range(r.end, q[0].end));
      forall x: nat ensures L.Has(q, x) <==> L.Has(b'.retransmits, x) || r.Contains(x) {
        L.HasSplit(q, x);
      }
      forall x: nat | r.Contains(x) ensures !L.Has(b'.retransmits, x) {
        L.HasAfterHead(q, x);
      }
    }
  }
}
