/** ACK frames: packet number ranges as gaps and block lengths, largest first
    (proto/src/frame.rs; section 19.3 of RFC 9000). */
module AckFrame {
  import opened Core
  import opened VarInt
  import L = RangeList

  const ACK_TYPE: nat := 2
  const ACK_ECN_TYPE: nat := 3

  datatype Ecn = Ecn(ect0: nat, ect1: nat, ce: nat)

  predicate EcnFits(ecn: Option<Ecn>) {
    ecn.Some? ==> ecn.value.ect0 <= VARINT_MAX && ecn.value.ect1 <= VARINT_MAX && ecn.value.ce <= VARINT_MAX
  }

  function EcnFields(ecn: Option<Ecn>): Bytes
    requires EcnFits(ecn)
  {
    if ecn.None? then [] else PutVarint(ecn.value.ect0) + PutVarint(ecn.value.ect1) + PutVarint(ecn.value.ce)
  }

  function TypeOf(ecn: Option<Ecn>): nat {
    if ecn.Some? then ACK_ECN_TYPE else ACK_TYPE
  }

  /** Ranges that an ACK frame can carry. */
  ghost predicate Encodable(s: seq<Range>) {
    s != [] && L.Canonical(s) && s[|s| - 1].end <= VARINT_MAX + 1
  }

  function Last(s: seq<Range>): Range
    requires s != []
  {
    s[|s| - 1]
  }

  function Front(s: seq<Range>): seq<Range>
    requires s != []
  {
    s[..|s| - 1]
  }

  lemma FrontEncodable(s: seq<Range>)
    requires Encodable(s) && |s| > 1
    ensures Encodable(Front(s)) && Last(Front(s)).end < Last(s).start
  {}

  /** The block and gap fields of an ACK frame. */
  function Blocks(s: seq<Range>): Bytes
    requires Encodable(s)
    decreases |s|
  {
    var block := PutVarint(Last(s).end - Last(s).start - 1);
    if |s| == 1 then block
    else
      FrontEncodable(s);
      block + PutVarint(Last(s).start - Last(Front(s)).end - 1) + Blocks(Front(s))
  }

  function Encode(delay: nat, s: seq<Range>, ecn: Option<Ecn>): Bytes
    requires Encodable(s) && delay <= VARINT_MAX && |s| <= VARINT_MAX && EcnFits(ecn)
  {
    PutVarint(TypeOf(ecn)) + PutVarint(Last(s).end - 1) + PutVarint(delay) + PutVarint(|s| - 1) + Blocks(s)
    + EcnFields(ecn)
  }

  datatype Scanned = Accepted(rest: Bytes) | TooShort | Malformed

  /** Validate one block and `n` further gap and block pairs. */
  function Scan(bs: Bytes, largest: nat, n: nat): Scanned
    decreases n
  {
    match GetVarint(bs)
    case Short => TooShort
    case Got(block, afterBlock) =>
      if largest < block then Malformed
      else if n == 0 then Accepted(afterBlock)
      else
        match GetVarint(afterBlock)
        case Short => TooShort
        case Got(gap, afterGap) =>
          if largest - block < gap + 2 then Malformed
          else Scan(afterGap, largest - block - gap - 2, n - 1)
  }

  /** What iterating an `Ack` yields, or `None` if it panics: the unwrap of a
      missing block, or an underflow. */
  function Ranges(largest: nat, data: Bytes): Option<seq<Range>>
    decreases |data|
  {
    if data == [] then Some([])
    else
      match GetVarint(data)
      case Short => None
      case Got(block, afterBlock) =>
        if largest < block then None
        else
          var first := Range(largest - block, largest + 1);
          match GetVarint(afterBlock)
          case Short =>
            (match Ranges(largest, afterBlock) case None => None case Some(more) => Some([first] + more))
          case Got(gap, afterGap) =>
            if largest < block + gap + 2 then None
            else
              match Ranges(largest - block - gap - 2, afterGap)
              case None => None
              case Some(more) => Some([first] + more)
  }

  // One level of the two recursive definitions, for proofs that hide them.

  lemma ScanLast(bs: Bytes, largest: nat, block: nat, rest: Bytes)
    requires GetVarint(bs) == Got(block, rest) && block <= largest
    ensures Scan(bs, largest, 0) == Accepted(rest)
  {}

  lemma ScanMore(bs: Bytes, largest: nat, n: nat, block: nat, afterBlock: Bytes, gap: nat, afterGap: Bytes)
    requires GetVarint(bs) == Got(block, afterBlock) && GetVarint(afterBlock) == Got(gap, afterGap)
    requires n > 0 && block + gap + 2 <= largest
    ensures Scan(bs, largest, n) == Scan(afterGap, largest - block - gap - 2, n - 1)
  {
    hide GetVarint;
  }

  /** What an accepted scan has read. */
  lemma ScanRead(bs: Bytes, largest: nat, n: nat)
    requires Scan(bs, largest, n).Accepted?
    ensures var first := GetVarint(bs);
            && first.Got? && first.value <= largest
            && (n == 0 ==> Scan(bs, largest, n) == Accepted(first.rest))
            && (n > 0 ==>
                  var second := GetVarint(first.rest);
                  && second.Got? && first.value + second.value + 2 <= largest
                  && Scan(bs, largest, n) == Scan(second.rest, largest - first.value - second.value - 2, n - 1))
  {
    hide GetVarint;
  }

  lemma RangesLast(largest: nat, data: Bytes, block: nat)
    requires GetVarint(data) == Got(block, []) && block <= largest
    ensures Ranges(largest, data) == Some([Range(largest - block, largest + 1)])
  {
    NothingToGet();
    hide GetVarint;
    assert [Range(largest - block, largest + 1)] + [] == [Range(largest - block, largest + 1)];
  }

  lemma RangesMore(largest: nat, data: Bytes, block: nat, afterBlock: Bytes, gap: nat, afterGap: Bytes)
    requires GetVarint(data) == Got(block, afterBlock) && GetVarint(afterBlock) == Got(gap, afterGap)
    requires block + gap + 2 <= largest
    requires Ranges(largest - block - gap - 2, afterGap).Some?
    ensures Ranges(largest, data)
         == Some([Range(largest - block, largest + 1)] + Ranges(largest - block - gap - 2, afterGap).value)
  {
    hide GetVarint;
    NotEmpty(data);
  }

  lemma NotEmpty(data: Bytes)
    requires GetVarint(data).Got?
    ensures data != []
  {}

  lemma GetVarintSuffix(bs: Bytes)
    requires GetVarint(bs).Got?
    ensures var rest := GetVarint(bs).rest; |rest| < |bs| && rest == bs[|bs| - |rest|..]
  {}

  // --------------------------------------------------------- the loops themselves

  /** The fields that follow a block starting at `prev`. */
  ghost function Gaps(s: seq<Range>, prev: nat): Bytes
    requires s != [] ==> Encodable(s) && Last(s).end < prev <= VARINT_MAX + 1
  {
    if s == [] then [] else PutVarint(prev - Last(s).end - 1) + Blocks(s)
  }

  lemma BlocksGaps(s: seq<Range>)
    requires Encodable(s)
    ensures Front(s) != [] ==> Encodable(Front(s)) && Last(Front(s)).end < Last(s).start
    ensures Blocks(s) == PutVarint(Last(s).end - Last(s).start - 1) + Gaps(Front(s), Last(s).start)
  {
    if |s| > 1 { FrontEncodable(s); }
  }

  lemma GapsStep(s: seq<Range>, prev: nat)
    requires s != [] && Encodable(s) && Last(s).end < prev <= VARINT_MAX + 1
    ensures Last(s).start < Last(s).end
    ensures Front(s) != [] ==> Encodable(Front(s)) && Last(Front(s)).end < Last(s).start
    ensures var fields := PutVarint(prev - Last(s).end - 1) + PutVarint(Last(s).end - Last(s).start - 1);
            Gaps(s, prev) == fields + Gaps(Front(s), Last(s).start)
  {
    hide PutVarint, Blocks;
    EncodableLast(s);
    BlocksGaps(s);
    Spliced(PutVarint(prev - Last(s).end - 1), PutVarint(Last(s).end - Last(s).start - 1),
            Gaps(Front(s), Last(s).start));
  }

  method EncodeInto(delay: nat, s: seq<Range>, ecn: Option<Ecn>) returns (out: Bytes)
    requires Encodable(s) && delay <= VARINT_MAX && |s| <= VARINT_MAX && EcnFits(ecn)
    ensures out == Encode(delay, s, ecn)
  {
    hide PutVarint, Blocks, Gaps, L.Canonical, EcnFields;
    EncodableLast(s);
    var first := s[|s| - 1];
    out := PutVarint(if ecn.Some? then ACK_ECN_TYPE else ACK_TYPE) + PutVarint(first.end - 1) + PutVarint(delay) + PutVarint(|s| - 1);
    BlocksGaps(s);
    Spliced(out, PutVarint(first.end - first.start - 1), Gaps(s[..|s| - 1], first.start));
    out := out + PutVarint(first.end - first.start - 1);
    var prev := first.start;
    var i := |s| - 1;
    while i > 0
      invariant 0 <= i < |s| && prev == s[i].start <= VARINT_MAX + 1
      invariant i > 0 ==> Encodable(s[..i]) && Last(s[..i]).end < prev
      invariant out + Gaps(s[..i], prev) + EcnFields(ecn) == Encode(delay, s, ecn)
    {
      var block := s[i - 1];
      ghost var t := s[..i];
      assert Last(t) == block && Front(t) == s[..i - 1];
      GapsStep(t, prev);
      var fields := PutVarint(prev - block.end - 1) + PutVarint(block.end - block.start - 1);
      Spliced(out, fields, Gaps(Front(t), block.start));
      out := out + fields;
      prev := block.start;
      i := i - 1;
    }
    NoGaps(s[..0], prev);
    assert out + [] == out;
    out := out + EcnFields(ecn);
  }

  lemma NoGaps(s: seq<Range>, prev: nat)
    requires s == []
    ensures Gaps(s, prev) == []
  {}

  /** The number of bytes that the block and gap fields take, if they are
      well formed. */
  method ScanAckBlocks(bs: Bytes, largest: nat, n: nat) returns (len: nat, r: Scanned)
    ensures r == Scan(bs, largest, n)
    ensures r.Accepted? ==> len <= |bs| && r.rest == bs[len..]
  {
    hide GetVarint;
    len := 0;
    if Scan(bs, largest, n).Accepted? { ScanSuffix(bs, largest, n); }
    var first := GetVarint(bs);
    if first.Short? {
      return 0, TooShort;
    }
    if largest < first.value {
      return 0, Malformed;
    }
    var smallest: nat := largest - first.value;
    var buf := first.rest;
    var i := 0;
    while i < n
      invariant 0 <= i <= n
      invariant AfterBlock(buf, smallest, n - i) == Scan(bs, largest, n)
    {
      var gap := GetVarint(buf);
      if gap.Short? {
        return 0, TooShort;
      }
      if smallest < gap.value + 2 {
        return 0, Malformed;
      }
      smallest := smallest - gap.value - 2;
      var block := GetVarint(gap.rest);
      if block.Short? {
        return 0, TooShort;
      }
      if smallest < block.value {
        return 0, Malformed;
      }
      smallest := smallest - block.value;
      buf := block.rest;
      i := i + 1;
    }
    return |bs| - |buf|, Accepted(buf);
  }

  /** The rest of a scan once a block that ends at `smallest` has been read. */
  ghost function AfterBlock(bs: Bytes, smallest: nat, n: nat): Scanned {
    if n == 0 then Accepted(bs)
    else
      match GetVarint(bs)
      case Short => TooShort
      case Got(gap, rest) => if smallest < gap + 2 then Malformed else Scan(rest, smallest - gap - 2, n - 1)
  }

  lemma {:induction false} ScanSuffix(bs: Bytes, largest: nat, n: nat)
    requires Scan(bs, largest, n).Accepted?
    ensures var rest := Scan(bs, largest, n).rest; |rest| < |bs| && rest == bs[|bs| - |rest|..]
    decreases n
  {
    hide GetVarint, Scan;
    ScanRead(bs, largest, n);
    GetVarintSuffix(bs);
    if n > 0 {
      var first := GetVarint(bs);
      var second := GetVarint(first.rest);
      GetVarintSuffix(first.rest);
      ScanSuffix(second.rest, largest - first.value - second.value - 2, n - 1);
    }
  }

  /** The iterator over the ranges of a received ACK frame. */
  class AckIter {
    var largest: nat
    var data: Bytes

    constructor (largest: nat, data: Bytes)
      ensures this.largest == largest && this.data == data
    {
      this.largest := largest;
      this.data := data;
    }

    method Next() returns (r: Option<Range>)
      requires Ranges(largest, data).Some?
      modifies this
      ensures Ranges(largest, data).Some?
      ensures r.None? <==> old(data) == []
      ensures r.None? ==> old(Ranges(largest, data)).value == []
      ensures r.Some? ==> |data| < |old(data)| && old(Ranges(largest, data)).value == [r.value] + Ranges(largest, data).value
    {
      hide GetVarint;
      if data == [] {
        return None;
      }
      var block := GetVarint(data);
      data := block.rest;
      var top := largest;
      var gap := GetVarint(data);
      if gap.Got? {
        largest := largest - (block.value + gap.value + 2);
        data := gap.rest;
      }
      return Some(Range(top - block.value, top + 1));
    }
  }

  // ------------------------------------------------------------------- theorems

  function Reversed(s: seq<Range>): seq<Range>
    decreases |s|
  {
    if s == [] then [] else [Last(s)] + Reversed(Front(s))
  }

  /** The fields of an encoding one after the other. */
  lemma BlocksThen(s: seq<Range>, tail: Bytes)
    requires Encodable(s)
    ensures Last(s).start < Last(s).end
    ensures |s| == 1 ==> Blocks(s) + tail == PutVarint(Last(s).end - Last(s).start - 1) + tail
    ensures |s| > 1 ==>
              && Encodable(Front(s)) && Last(Front(s)).end < Last(s).start
              && Blocks(s) + tail == PutVarint(Last(s).end - Last(s).start - 1)
                                     + (PutVarint(Last(s).start - Last(Front(s)).end - 1) + (Blocks(Front(s)) + tail))
  {
    hide PutVarint;
    EncodableLast(s);
    if |s| > 1 {
      FrontEncodable(s);
      var b, g := PutVarint(Last(s).end - Last(s).start - 1), PutVarint(Last(s).start - Last(Front(s)).end - 1);
      Spliced(b, g, Blocks(Front(s)));
      Spliced(b, g + Blocks(Front(s)), tail);
      Spliced(g, Blocks(Front(s)), tail);
    }
  }

  /** The scan accepts an encoding with exactly its own bytes, whatever
      follows. */
  lemma {:induction false} ScanAccepts(s: seq<Range>, tail: Bytes)
    requires Encodable(s)
    ensures Scan(Blocks(s) + tail, Last(s).end - 1, |s| - 1) == Accepted(tail)
    decreases |s|
  {
    hide PutVarint, GetVarint, Scan, L.Canonical, Blocks;
    EncodableLast(s);
    BlocksThen(s, tail);
    var b := Last(s).end - Last(s).start - 1;
    if |s| == 1 {
      VarintRoundTrip(b, tail);
      ScanLast(Blocks(s) + tail, Last(s).end - 1, b, tail);
    } else {
      FrontEncodable(s);
      EncodableLast(Front(s));
      var g := Last(s).start - Last(Front(s)).end - 1;
      var more := Blocks(Front(s)) + tail;
      VarintRoundTrip(b, PutVarint(g) + more);
      VarintRoundTrip(g, more);
      ScanMore(Blocks(s) + tail, Last(s).end - 1, |s| - 1, b, PutVarint(g) + more, g, more);
      ScanAccepts(Front(s), tail);
    }
  }

  lemma EncodableLast(s: seq<Range>)
    requires Encodable(s)
    ensures Last(s).start < Last(s).end <= VARINT_MAX + 1
  {}

  /** Iterating an encoding gives the ranges back, largest first. */
  lemma {:induction false} RangesRoundTrip(s: seq<Range>)
    requires Encodable(s)
    ensures Ranges(Last(s).end - 1, Blocks(s)) == Some(Reversed(s))
    decreases |s|
  {
    hide PutVarint, GetVarint, Ranges, L.Canonical;
    EncodableLast(s);
    var b := Last(s).end - Last(s).start - 1;
    if |s| == 1 {
      VarintRoundTrip(b, []);
      assert PutVarint(b) + [] == PutVarint(b);
      assert Front(s) == [] && Reversed(s) == [Last(s)] + [] == [Last(s)];
      RangesLast(Last(s).end - 1, Blocks(s), b);
    } else {
      FrontEncodable(s);
      EncodableLast(Front(s));
      var g := Last(s).start - Last(Front(s)).end - 1;
      var more := Blocks(Front(s));
      Spliced(PutVarint(b), PutVarint(g), more);
      VarintRoundTrip(b, PutVarint(g) + more);
      VarintRoundTrip(g, more);
      RangesRoundTrip(Front(s));
      RangesMore(Last(s).end - 1, Blocks(s), b, PutVarint(g) + more, g, more);
    }
  }

  lemma NothingToGet()
    ensures GetVarint([]) == Short
  {}

  /** `r` above everything in a list of ranges in decreasing order. */
  predicate Descending(ranges: seq<Range>, below: nat)
    decreases |ranges|
  {
    ranges != [] ==>
      && ranges[0].start < ranges[0].end <= below
      && Descending(ranges[1..], if ranges[0].start == 0 then 0 else ranges[0].start - 1)
  }

  /** On any bytes that the scan accepts and consumes, iteration never panics: it
      yields one range more than there are gaps, decreasing, not adjacent, the
      first ending at `largest`. */
  lemma {:induction false} AcceptedIterates(data: Bytes, largest: nat, n: nat)
    requires Scan(data, largest, n) == Accepted([])
    ensures var r := Ranges(largest, data);
            && r.Some? && |r.value| == n + 1
            && r.value[0].end == largest + 1 && Descending(r.value, largest + 1)
    decreases n
  {
    hide GetVarint, Scan, Ranges;
    ScanRead(data, largest, n);
    var first := GetVarint(data);
    var block := Range(largest - first.value, largest + 1);
    if n == 0 {
      RangesLast(largest, data, first.value);
      assert [block][1..] == [];
    } else {
      var gap := GetVarint(first.rest);
      var below := largest - first.value - gap.value - 2;
      AcceptedIterates(gap.rest, below, n - 1);
      RangesMore(largest, data, first.value, first.rest, gap.value, gap.rest);
      var more := Ranges(below, gap.rest).value;
      assert ([block] + more)[1..] == more;
      DescendingBelow(more, below + 1, block.start - 1);
    }
  }

  lemma DescendingBelow(ranges: seq<Range>, a: nat, b: nat)
    requires Descending(ranges, a) && a <= b
    ensures Descending(ranges, b)
  {}

  /** The scan of the accepted bytes alone leaves nothing over: this is the
      `additional` slice that the parser keeps. */
  lemma {:induction false} ScanExact(bs: Bytes, largest: nat, n: nat)
    requires Scan(bs, largest, n).Accepted?
    ensures var rest := Scan(bs, largest, n).rest;
            |rest| <= |bs| && Scan(bs[..|bs| - |rest|], largest, n) == Accepted([])
    decreases n
  {
    hide GetVarint, Scan;
    ScanSuffix(bs, largest, n);
    ScanRead(bs, largest, n);
    var k := |bs| - |Scan(bs, largest, n).rest|;
    var first := GetVarint(bs);
    if n == 0 {
      GetVarintCut(bs, k);
      ScanLast(bs[..k], largest, first.value, []);
    } else {
      var gap := GetVarint(first.rest);
      var below := largest - first.value - gap.value - 2;
      ScanSuffix(gap.rest, below, n - 1);
      ScanExact(gap.rest, below, n - 1);
      var k1 := k - (|bs| - |first.rest|);
      var k2 := k1 - (|first.rest| - |gap.rest|);
      GetVarintCut(bs, k);
      GetVarintCut(first.rest, k1);
      ScanMore(bs[..k], largest, n, first.value, first.rest[..k1], gap.value, gap.rest[..k2]);
    }
  }

  /** Reading from a prefix that still holds the whole integer. */
  lemma GetVarintCut(bs: Bytes, k: nat)
    requires GetVarint(bs).Got? && |bs| - |GetVarint(bs).rest| <= k <= |bs|
    ensures var r := GetVarint(bs);
            |r.rest| < |bs| && GetVarint(bs[..k]) == Got(r.value, r.rest[..k - (|bs| - |r.rest|)])
  {
    var n := ParseLen(bs[0]);
    assert bs[..k][..n] == bs[..n] && bs[..k][n..] == bs[n..][..k - n];
  }

  /** With at most 64 ranges a frame without ECN counts fits in 1034 bytes. */
  lemma AckFrameBound(delay: nat, s: seq<Range>)
    requires Encodable(s) && delay <= VARINT_MAX && |s| <= 64
    ensures |Encode(delay, s, None)| <= 1034
  {
    hide PutVarint, Blocks;
    BlocksBound(s);
    assert VarintLen(ACK_TYPE) == 1 && VarintLen(|s| - 1) == 1;
  }

  lemma {:induction false} BlocksBound(s: seq<Range>)
    requires Encodable(s)
    ensures |Blocks(s)| <= 8 + 16 * (|s| - 1)
    decreases |s|
  {
    hide PutVarint;
    EncodableLast(s);
    if |s| > 1 {
      FrontEncodable(s);
      BlocksBound(Front(s));
    }
  }
}
