/** QUIC frames on the wire (proto/src/frame.rs; section 19 of RFC 9000). */
module Frames {
  import opened Core
  import opened VarInt
  import A = AckFrame

  const MAX_CID_SIZE: nat := 20
  const RESET_TOKEN_SIZE: nat := 16

  /** A frame as the parser returns it. */
  datatype Frame =
    | Padding
    | Ping
    | Ack(largest: nat, delay: nat, additional: Bytes, ecn: Option<A.Ecn>)
    | ResetStream(id: nat, errorCode: nat, finalOffset: nat)
    | StopSending(id: nat, errorCode: nat)
    | Crypto(offset: nat, data: Bytes)
    | NewToken(token: Bytes)
    | Stream(id: nat, offset: nat, fin: bool, data: Bytes)
    | MaxData(limit: nat)
    | MaxStreamData(id: nat, limit: nat)
    | MaxStreams(uni: bool, limit: nat)
    | DataBlocked(limit: nat)
    | StreamDataBlocked(id: nat, limit: nat)
    | StreamsBlocked(uni: bool, limit: nat)
    | NewConnectionId(sequence: nat, retirePriorTo: nat, cid: Bytes, token: Bytes)
    | RetireConnectionId(sequence: nat)
    | PathChallenge(value: nat)
    | PathResponse(value: nat)
    | TransportClose(errorCode: nat, frameType: Option<nat>, reason: Bytes)
    | ApplicationClose(errorCode: nat, reason: Bytes)
    | Datagram(data: Bytes)
    | ImmediateAck
    | HandshakeDone

  /** `Panicked` stands for the length check that aborts on a connection id
      longer than the buffer for it. */
  datatype ParseError = UnexpectedEnd | InvalidFrameId | MalformedFrame | Panicked

  datatype Parse<+T> = Done(value: T, rest: Bytes) | Fail(error: ParseError) {
    predicate IsFailure() {
      Fail?
    }

    function PropagateFailure<U>(): Parse<U>
      requires Fail?
    {
      Fail(error)
    }

    function Extract(): (T, Bytes)
      requires Done?
    {
      (value, rest)
    }
  }

  function Varint(bs: Bytes): (r: Parse<nat>)
    ensures r.Done? ==> |r.rest| < |bs|
  {
    match GetVarint(bs)
    case Short => Fail(UnexpectedEnd)
    case Got(v, rest) => Done(v, rest)
  }

  function Sized(bs: Bytes): (r: Parse<Bytes>)
    ensures r.Done? ==> |r.rest| < |bs|
  {
    match GetBytes(bs)
    case Short => Fail(UnexpectedEnd)
    case Got(v, rest) => Done(v, rest)
  }

  function Exactly(bs: Bytes, n: nat): (r: Parse<Bytes>)
    ensures r.Done? ==> |r.rest| <= |bs|
  {
    if |bs| < n then Fail(UnexpectedEnd) else Done(bs[..n], bs[n..])
  }

  function ParseAck(bs: Bytes, withEcn: bool): (r: Parse<Frame>)
    ensures r.Done? ==> |r.rest| <= |bs|
  {
    var (largest, bs) :- Varint(bs);
    var (delay, bs) :- Varint(bs);
    var (extra, bs) :- Varint(bs);
    match A.Scan(bs, largest, extra)
    case TooShort => Fail(UnexpectedEnd)
    case Malformed => Fail(MalformedFrame)
    case Accepted(_) =>
      A.ScanSuffix(bs, largest, extra);
      var rest := A.Scan(bs, largest, extra).rest;
      var additional := bs[..|bs| - |rest|];
      if !withEcn then Done(Ack(largest, delay, additional, None), rest)
      else
        var (ect0, rest) :- Varint(rest);
        var (ect1, rest) :- Varint(rest);
        var (ce, rest) :- Varint(rest);
        Done(Ack(largest, delay, additional, Some(A.Ecn(ect0, ect1, ce))), rest)
  }

  function ParseNewConnectionId(bs: Bytes): (r: Parse<Frame>)
    ensures r.Done? ==> |r.rest| <= |bs|
  {
    var (sequence, bs) :- Varint(bs);
    var (retirePriorTo, bs) :- Varint(bs);
    if retirePriorTo > sequence then Fail(MalformedFrame)
    else
      var (len, bs) :- Exactly(bs, 1);
      if len[0] > MAX_CID_SIZE then Fail(Panicked)
      else
        var (cid, bs) :- Exactly(bs, len[0]);
        if cid == [] then Fail(MalformedFrame)
        else
          var (token, bs) :- Exactly(bs, RESET_TOKEN_SIZE);
          Done(NewConnectionId(sequence, retirePriorTo, cid, token), bs)
  }

  function ParseStream(ty: nat, bs: Bytes): (r: Parse<Frame>)
    ensures r.Done? ==> |r.rest| <= |bs|
  {
    var (id, bs) :- Varint(bs);
    var (offset, bs) :- if (ty / 4) % 2 == 1 then Varint(bs) else Done(0, bs);
    var (data, bs) :- if (ty / 2) % 2 == 1 then Sized(bs) else Done(bs, []);
    Done(Stream(id, offset, ty % 2 == 1, data), bs)
  }

  function ParseTransportClose(bs: Bytes): (r: Parse<Frame>)
    ensures r.Done? ==> |r.rest| <= |bs|
  {
    var (errorCode, bs) :- Varint(bs);
    var (ty, bs) :- Varint(bs);
    var (reason, bs) :- Sized(bs);
    Done(TransportClose(errorCode, if ty == 0 then None else Some(ty), reason), bs)
  }

  function ParseResetStream(bs: Bytes): (r: Parse<Frame>)
    ensures r.Done? ==> |r.rest| <= |bs|
  {
    var (id, bs) :- Varint(bs);
    var (errorCode, bs) :- Varint(bs);
    var (finalOffset, bs) :- Varint(bs);
    Done(ResetStream(id, errorCode, finalOffset), bs)
  }

  /** Frames made of one integer. */
  function ParseOne(ty: nat, bs: Bytes): (r: Parse<Frame>)
    ensures r.Done? ==> |r.rest| <= |bs|
  {
    var (v, bs) :- Varint(bs);
    match ty
    case 0x10 => Done(MaxData(v), bs)
    case 0x12 => Done(MaxStreams(false, v), bs)
    case 0x13 => Done(MaxStreams(true, v), bs)
    case 0x14 => Done(DataBlocked(v), bs)
    case 0x16 => Done(StreamsBlocked(false, v), bs)
    case 0x17 => Done(StreamsBlocked(true, v), bs)
    case _ => Done(RetireConnectionId(v), bs)
  }

  /** Frames made of two integers. */
  function ParseTwo(ty: nat, bs: Bytes): (r: Parse<Frame>)
    ensures r.Done? ==> |r.rest| <= |bs|
  {
    var (v, bs) :- Varint(bs);
    var (w, bs) :- Varint(bs);
    match ty
    case 0x05 => Done(StopSending(v, w), bs)
    case 0x11 => Done(MaxStreamData(v, w), bs)
    case _ => Done(StreamDataBlocked(v, w), bs)
  }

  /** The body of a frame of type `ty`. */
  function ParseBody(ty: nat, bs: Bytes): (r: Parse<Frame>)
    ensures r.Done? ==> |r.rest| <= |bs|
  {
    match ty
    case 0x00 => Done(Padding, bs)
    case 0x01 => Done(Ping, bs)
    case 0x02 => ParseAck(bs, false)
    case 0x03 => ParseAck(bs, true)
    case 0x04 => ParseResetStream(bs)
    case 0x06 =>
      var (offset, bs) :- Varint(bs);
      var (data, bs) :- Sized(bs);
      Done(Crypto(offset, data), bs)
    case 0x07 =>
      var (token, bs) :- Sized(bs);
      Done(NewToken(token), bs)
    case 0x18 => ParseNewConnectionId(bs)
    case 0x1a =>
      var (v, bs) :- Exactly(bs, 8);
      Done(PathChallenge(FromBigEndian(v)), bs)
    case 0x1b =>
      var (v, bs) :- Exactly(bs, 8);
      Done(PathResponse(FromBigEndian(v)), bs)
    case 0x1c => ParseTransportClose(bs)
    case 0x1d =>
      var (errorCode, bs) :- Varint(bs);
      var (reason, bs) :- Sized(bs);
      Done(ApplicationClose(errorCode, reason), bs)
    case 0x1e => Done(HandshakeDone, bs)
    case 0x1f => Done(ImmediateAck, bs)
    case 0x30 => Done(Datagram(bs), [])
    case 0x31 =>
      var (data, bs) :- Sized(bs);
      Done(Datagram(data), bs)
    case _ =>
      if ty in {0x10, 0x12, 0x13, 0x14, 0x16, 0x17, 0x19} then ParseOne(ty, bs)
      else if ty in {0x05, 0x11, 0x15} then ParseTwo(ty, bs)
      else if 0x08 <= ty <= 0x0f then ParseStream(ty, bs)
      else Fail(InvalidFrameId)
  }

  /** One frame. A successful parse always consumes at least one byte. */
  function ParseFrame(bs: Bytes): (r: Parse<Frame>)
    ensures r.Done? ==> |r.rest| < |bs|
  {
    var (ty, bs) :- Varint(bs);
    ParseBody(ty, bs)
  }

  /** All frames of a payload up to the first error. */
  function ParseAll(bs: Bytes): (seq<Frame>, Option<ParseError>)
    decreases |bs|
  {
    if bs == [] then ([], None)
    else
      match ParseFrame(bs)
      case Fail(e) => ([], Some(e))
      case Done(f, rest) =>
        var (more, e) := ParseAll(rest);
        ([f] + more, e)
  }

  class FrameParser {
    var bytes: Bytes

    constructor (payload: Bytes)
      ensures bytes == payload
    {
      bytes := payload;
    }

    /** The next frame or the error that ends the payload; `None` at the end. */
    method Next() returns (r: Option<Parse<Frame>>)
      modifies this
      ensures old(bytes) == [] <==> r.None?
      ensures r.None? ==> bytes == old(bytes)
      ensures r.Some? ==>
                && r.value == ParseFrame(old(bytes))
                && bytes == if r.value.Done? then r.value.rest else []
      ensures r.Some? ==> |bytes| < |old(bytes)|
    {
      if bytes == [] {
        return None;
      }
      var p := ParseFrame(bytes);
      bytes := if p.Done? then p.rest else [];
      return Some(p);
    }
  }

  /** The loop of `process_payload`: it ends on every payload, and sees the
      frames before the first error. */
  method Collect(payload: Bytes) returns (frames: seq<Frame>, error: Option<ParseError>)
    ensures (frames, error) == ParseAll(payload)
  {
    hide ParseFrame;
    var parser := new FrameParser(payload);
    frames, error := [], None;
    ghost var goal := ParseAll(payload);
    assert [] + goal.0 == goal.0;
    var next := parser.Next();
    ghost var before := payload;
    while next.Some?
      invariant fresh(parser)
      invariant error.None?
      invariant next.None? ==> (frames, error) == goal
      invariant next.Some? ==>
        && before != [] && next.value == ParseFrame(before)
        && parser.bytes == (if next.value.Done? then next.value.rest else [])
        && (frames + ParseAll(before).0, ParseAll(before).1) == goal
      decreases |parser.bytes|, next.Some?
    {
      match next.value {
        case Fail(e) =>
          assert frames + [] == frames;
          error := Some(e);
          return;
        case Done(f, rest) =>
          Spliced(frames, [f], ParseAll(rest).0);
          frames := frames + [f];
          assert frames + [] == frames;
          before := rest;
          next := parser.Next();
      }
    }
  }

  // ----------------------------------------------------------------- round trip

  /** What an encoder is given. */
  datatype Out =
    | OutPing
    | OutAck(delay: nat, ranges: seq<Range>, ecn: Option<A.Ecn>)
    | OutResetStream(id: nat, errorCode: nat, finalOffset: nat)
    | OutStopSending(id: nat, errorCode: nat)
    | OutCrypto(offset: nat, data: Bytes)
    | OutNewToken(token: Bytes)
    | OutStream(id: nat, offset: nat, data: Bytes, fin: bool, length: bool)
    | OutNewConnectionId(sequence: nat, retirePriorTo: nat, cid: Bytes, token: Bytes)
    | OutTransportClose(errorCode: nat, frameType: Option<nat>, reason: Bytes, maxLen: nat)
    | OutApplicationClose(errorCode: nat, reason: Bytes, maxLen: nat)
    | OutDatagram(data: Bytes, length: bool)

  ghost predicate WellFormed(o: Out) {
    match o
    case OutPing => true
    case OutAck(delay, ranges, ecn) =>
      A.Encodable(ranges) && delay <= VARINT_MAX && |ranges| <= VARINT_MAX && A.EcnFits(ecn)
    case OutResetStream(id, code, final) => id <= VARINT_MAX && code <= VARINT_MAX && final <= VARINT_MAX
    case OutStopSending(id, code) => id <= VARINT_MAX && code <= VARINT_MAX
    case OutCrypto(offset, data) => offset <= VARINT_MAX && |data| <= VARINT_MAX
    case OutNewToken(token) => |token| <= VARINT_MAX
    case OutStream(id, offset, data, _, _) => id <= VARINT_MAX && offset <= VARINT_MAX && |data| <= VARINT_MAX
    case OutNewConnectionId(sequence, retire, cid, token) =>
      retire <= sequence <= VARINT_MAX && 0 < |cid| <= MAX_CID_SIZE && |token| == RESET_TOKEN_SIZE
    case OutTransportClose(code, ty, reason, maxLen) =>
      && code <= VARINT_MAX && (ty.Some? ==> 0 < ty.value <= VARINT_MAX) && |reason| <= VARINT_MAX
      && 3 + VarintLen(TypeField(ty)) + VarintLen(|reason|) <= maxLen
    case OutApplicationClose(code, reason, maxLen) =>
      code <= VARINT_MAX && |reason| <= VARINT_MAX && 3 + VarintLen(|reason|) <= maxLen
    case OutDatagram(data, _) => |data| <= VARINT_MAX
  }

  function TypeField(ty: Option<nat>): nat {
    if ty.Some? then ty.value else 0
  }

  /** The part of a close reason that fits. */
  function Fitting(o: Out): (r: Bytes)
    requires WellFormed(o) && (o.OutTransportClose? || o.OutApplicationClose?)
    ensures |r| <= VARINT_MAX && r <= o.reason
  {
    var room := if o.OutTransportClose?
                then o.maxLen - 3 - VarintLen(TypeField(o.frameType)) - VarintLen(|o.reason|)
                else o.maxLen - 3 - VarintLen(|o.reason|);
    o.reason[..Min(|o.reason|, room)]
  }

  function StreamType(o: Out): (ty: nat)
    requires o.OutStream?
    ensures 0x08 <= ty <= 0x0f
  {
    0x08 + (if o.offset != 0 then 4 else 0) + (if o.length then 2 else 0) + (if o.fin then 1 else 0)
  }

  function EncodeFrame(o: Out): Bytes
    requires WellFormed(o)
  {
    match o
    case OutPing => PutVarint(0x01)
    case OutAck(delay, ranges, ecn) => A.Encode(delay, ranges, ecn)
    case OutResetStream(id, code, final) => PutVarint(0x04) + PutVarint(id) + PutVarint(code) + PutVarint(final)
    case OutStopSending(id, code) => PutVarint(0x05) + PutVarint(id) + PutVarint(code)
    case OutCrypto(offset, data) => PutVarint(0x06) + PutVarint(offset) + PutBytes(data)
    case OutNewToken(token) => PutVarint(0x07) + PutBytes(token)
    case OutStream(id, offset, data, fin, length) =>
      PutVarint(StreamType(o)) + PutVarint(id)
      + (if offset != 0 then PutVarint(offset) else [])
      + (if length then PutVarint(|data|) else [])
      + data
    case OutNewConnectionId(sequence, retire, cid, token) =>
      PutVarint(0x18) + PutVarint(sequence) + PutVarint(retire) + [|cid|] + cid + token
    case OutTransportClose(code, ty, _, _) =>
      PutVarint(0x1c) + PutVarint(code) + PutVarint(TypeField(ty)) + PutBytes(Fitting(o))
    case OutApplicationClose(code, _, _) => PutVarint(0x1d) + PutVarint(code) + PutBytes(Fitting(o))
    case OutDatagram(data, length) =>
      PutVarint(if length then 0x31 else 0x30) + (if length then PutVarint(|data|) else []) + data
  }

  /** The frame that should come back. */
  function Expected(o: Out): Frame
    requires WellFormed(o)
  {
    match o
    case OutPing => Ping
    case OutAck(delay, ranges, ecn) => Ack(A.Last(ranges).end - 1, delay, A.Blocks(ranges), ecn)
    case OutResetStream(id, code, final) => ResetStream(id, code, final)
    case OutStopSending(id, code) => StopSending(id, code)
    case OutCrypto(offset, data) => Crypto(offset, data)
    case OutNewToken(token) => NewToken(token)
    case OutStream(id, offset, data, fin, _) => Stream(id, offset, fin, data)
    case OutNewConnectionId(sequence, retire, cid, token) => NewConnectionId(sequence, retire, cid, token)
    case OutTransportClose(code, ty, _, _) => TransportClose(code, ty, Fitting(o))
    case OutApplicationClose(code, _, _) => ApplicationClose(code, Fitting(o))
    case OutDatagram(data, _) => Datagram(data)
  }

  /** A frame without a length field takes all that follows it. */
  predicate SelfDelimiting(o: Out) {
    (o.OutStream? ==> o.length) && (o.OutDatagram? ==> o.length)
  }

  /** Reading an integer that was written in front of `rest`. */
  lemma VarintFits(v: nat, rest: Bytes)
    requires v <= VARINT_MAX
    ensures Varint(PutVarint(v) + rest) == Done(v, rest)
  {
    hide GetVarint, PutVarint;
    VarintRoundTrip(v, rest);
  }

  lemma SizedFits(data: Bytes, rest: Bytes)
    requires |data| <= VARINT_MAX
    ensures Sized(PutBytes(data) + rest) == Done(data, rest)
  {
    hide GetBytes, PutBytes;
    BytesRoundTrip(data, rest);
  }

  lemma ExactlyFits(data: Bytes, rest: Bytes)
    ensures Exactly(data + rest, |data|) == Done(data, rest)
  {
    assert (data + rest)[..|data|] == data && (data + rest)[|data|..] == rest;
  }

  lemma AckFits(delay: nat, ranges: seq<Range>, ecn: Option<A.Ecn>, rest: Bytes)
    requires WellFormed(OutAck(delay, ranges, ecn))
    ensures ParseFrame(A.Encode(delay, ranges, ecn) + rest)
         == Done(Ack(A.Last(ranges).end - 1, delay, A.Blocks(ranges), ecn), rest)
  {
    hide PutVarint, Varint, A.Blocks, A.EcnFields, ParseAck, A.Encodable, A.EcnFits;
    var body := AckBody(delay, ranges, ecn, rest);
    VarintFits(A.TypeOf(ecn), body);
    AckBodyFits(delay, ranges, ecn, rest);
    AckSplits(delay, ranges, ecn, rest);
    TypeParses(ecn, body);
  }

  lemma TypeParses(ecn: Option<A.Ecn>, body: Bytes)
    ensures ParseBody(A.TypeOf(ecn), body) == ParseAck(body, ecn.Some?)
  {
    hide ParseAck;
  }

  /** The fields of an ACK frame after its type. */
  function AckBody(delay: nat, ranges: seq<Range>, ecn: Option<A.Ecn>, rest: Bytes): Bytes
    requires WellFormed(OutAck(delay, ranges, ecn))
  {
    A.EncodableLast(ranges);
    PutVarint(A.Last(ranges).end - 1)
    + (PutVarint(delay) + (PutVarint(|ranges| - 1) + (A.Blocks(ranges) + (A.EcnFields(ecn) + rest))))
  }

  lemma AckSplits(delay: nat, ranges: seq<Range>, ecn: Option<A.Ecn>, rest: Bytes)
    requires WellFormed(OutAck(delay, ranges, ecn))
    ensures A.Encode(delay, ranges, ecn) + rest == PutVarint(A.TypeOf(ecn)) + AckBody(delay, ranges, ecn, rest)
  {
    hide PutVarint, A.Blocks, A.EcnFields;
    A.EncodableLast(ranges);
  }

  lemma AckBodyFits(delay: nat, ranges: seq<Range>, ecn: Option<A.Ecn>, rest: Bytes)
    requires WellFormed(OutAck(delay, ranges, ecn))
    ensures ParseAck(AckBody(delay, ranges, ecn, rest), ecn.Some?)
         == Done(Ack(A.Last(ranges).end - 1, delay, A.Blocks(ranges), ecn), rest)
  {
    hide PutVarint, Varint, A.Blocks, A.Scan, A.EcnFields;
    var largest, n, blocks := A.Last(ranges).end - 1, |ranges| - 1, A.Blocks(ranges);
    var tail := A.EcnFields(ecn) + rest;
    A.EncodableLast(ranges);
    A.ScanAccepts(ranges, tail);
    var b3 := PutVarint(n) + (blocks + tail);
    VarintFits(largest, PutVarint(delay) + b3);
    VarintFits(delay, b3);
    VarintFits(n, blocks + tail);
    assert (blocks + tail)[..|blocks|] == blocks;
    EcnFit(ecn, rest);
  }

  lemma EcnFit(ecn: Option<A.Ecn>, rest: Bytes)
    requires A.EcnFits(ecn)
    ensures ecn.None? ==> A.EcnFields(ecn) + rest == rest
    ensures ecn.Some? ==>
              var x := ecn.value;
              var b2 := PutVarint(x.ce) + rest;
              var b1 := PutVarint(x.ect1) + b2;
              && Varint(A.EcnFields(ecn) + rest) == Done(x.ect0, b1)
              && Varint(b1) == Done(x.ect1, b2) && Varint(b2) == Done(x.ce, rest)
  {
    hide PutVarint, Varint;
    if ecn.Some? {
      var x := ecn.value;
      var b2 := PutVarint(x.ce) + rest;
      var b1 := PutVarint(x.ect1) + b2;
      assert A.EcnFields(ecn) + rest == PutVarint(x.ect0) + b1;
      VarintFits(x.ect0, b1);
      VarintFits(x.ect1, b2);
      VarintFits(x.ce, rest);
    }
  }

  /** The type byte says which fields follow. */
  lemma StreamTypeBits(o: Out, bs: Bytes)
    requires o.OutStream?
    ensures var ty := StreamType(o);
            && ((ty / 4) % 2 == 1 <==> o.offset != 0) && ((ty / 2) % 2 == 1 <==> o.length) && (ty % 2 == 1 <==> o.fin)
            && ParseBody(ty, bs) == ParseStream(ty, bs)
  {}

  /** The fields and data of a STREAM frame, after its type and id. */
  function StreamTail(o: Out): Bytes
    requires o.OutStream? && WellFormed(o)
  {
    (if o.length then PutVarint(|o.data|) else []) + o.data
  }

  lemma StreamBodyFits(o: Out, rest: Bytes)
    requires o.OutStream? && WellFormed(o) && (o.length || rest == [])
    ensures var fields := PutVarint(o.id) + (if o.offset != 0 then PutVarint(o.offset) else []) + StreamTail(o);
            ParseStream(StreamType(o), fields + rest) == Done(Expected(o), rest)
  {
    hide PutVarint, Varint, Sized, ParseBody;
    StreamTypeBits(o, []);
    var tail := StreamTail(o) + rest;
    var b1 := (if o.offset != 0 then PutVarint(o.offset) else []) + tail;
    var fields := PutVarint(o.id) + (if o.offset != 0 then PutVarint(o.offset) else []) + StreamTail(o);
    assert fields + rest == PutVarint(o.id) + b1;
    VarintFits(o.id, b1);
    if o.offset != 0 { VarintFits(o.offset, tail); } else { assert b1 == tail; }
    if o.length {
      SizedFits(o.data, rest);
      assert tail == PutBytes(o.data) + rest;
    } else {
      assert tail == o.data;
    }
  }

  lemma StreamFits(o: Out, rest: Bytes)
    requires o.OutStream? && WellFormed(o) && (o.length || rest == [])
    ensures ParseFrame(EncodeFrame(o) + rest) == Done(Expected(o), rest)
  {
    hide PutVarint, Varint, Sized, ParseBody, ParseStream, StreamType;
    var fields := PutVarint(o.id) + (if o.offset != 0 then PutVarint(o.offset) else []) + StreamTail(o);
    StreamBodyFits(o, rest);
    StreamTypeBits(o, fields + rest);
    assert EncodeFrame(o) == PutVarint(StreamType(o)) + fields;
    Spliced(PutVarint(StreamType(o)), fields, rest);
    VarintFits(StreamType(o), fields + rest);
  }

  lemma NewConnectionIdFits(o: Out, rest: Bytes)
    requires o.OutNewConnectionId? && WellFormed(o)
    ensures ParseFrame(EncodeFrame(o) + rest) == Done(Expected(o), rest)
  {
    hide PutVarint, Varint, Exactly;
    var b4 := o.token + rest;
    var b3 := o.cid + b4;
    var b2 := [|o.cid|] + b3;
    var b1 := PutVarint(o.retirePriorTo) + b2;
    var b0 := PutVarint(o.sequence) + b1;
    assert EncodeFrame(o) + rest == PutVarint(0x18) + b0;
    VarintFits(0x18, b0);
    VarintFits(o.sequence, b1);
    VarintFits(o.retirePriorTo, b2);
    ExactlyFits([|o.cid|], b3);
    ExactlyFits(o.cid, b4);
    ExactlyFits(o.token, rest);
  }

  lemma CloseFits(o: Out, rest: Bytes)
    requires (o.OutTransportClose? || o.OutApplicationClose?) && WellFormed(o)
    ensures ParseFrame(EncodeFrame(o) + rest) == Done(Expected(o), rest)
  {
    hide PutVarint, Varint, Sized, PutBytes, Fitting;
    var reason := PutBytes(Fitting(o)) + rest;
    SizedFits(Fitting(o), rest);
    if o.OutTransportClose? {
      var ty := TypeField(o.frameType);
      var b1 := PutVarint(ty) + reason;
      var b0 := PutVarint(o.errorCode) + b1;
      assert EncodeFrame(o) + rest == PutVarint(0x1c) + b0;
      VarintFits(0x1c, b0);
      VarintFits(o.errorCode, b1);
      VarintFits(ty, reason);
    } else {
      var b0 := PutVarint(o.errorCode) + reason;
      assert EncodeFrame(o) + rest == PutVarint(0x1d) + b0;
      VarintFits(0x1d, b0);
      VarintFits(o.errorCode, reason);
    }
  }

  lemma ControlFits(o: Out, rest: Bytes)
    requires (o.OutResetStream? || o.OutStopSending? || o.OutPing?) && WellFormed(o)
    ensures ParseFrame(EncodeFrame(o) + rest) == Done(Expected(o), rest)
  {
    hide PutVarint, Varint;
    match o {
      case OutPing => VarintFits(0x01, rest);
      case OutResetStream(id, code, final) =>
        var b2 := PutVarint(final) + rest;
        var b1 := PutVarint(code) + b2;
        var b0 := PutVarint(id) + b1;
        assert EncodeFrame(o) + rest == PutVarint(0x04) + b0;
        VarintFits(0x04, b0);
        VarintFits(id, b1);
        VarintFits(code, b2);
        VarintFits(final, rest);
      case OutStopSending(id, code) =>
        var b1 := PutVarint(code) + rest;
        var b0 := PutVarint(id) + b1;
        assert EncodeFrame(o) + rest == PutVarint(0x05) + b0;
        VarintFits(0x05, b0);
        VarintFits(id, b1);
        VarintFits(code, rest);
    }
  }

  lemma DatagramFits(o: Out, rest: Bytes)
    requires o.OutDatagram? && WellFormed(o) && (o.length || rest == [])
    ensures ParseFrame(EncodeFrame(o) + rest) == Done(Expected(o), rest)
  {
    hide PutVarint, Varint, Sized;
    if o.length {
      assert EncodeFrame(o) + rest == PutVarint(0x31) + (PutBytes(o.data) + rest);
      VarintFits(0x31, PutBytes(o.data) + rest);
      SizedFits(o.data, rest);
    } else {
      assert EncodeFrame(o) + rest == PutVarint(0x30) + o.data;
      VarintFits(0x30, o.data);
    }
  }

  lemma DataFits(o: Out, rest: Bytes)
    requires (o.OutCrypto? || o.OutNewToken?) && WellFormed(o)
    ensures ParseFrame(EncodeFrame(o) + rest) == Done(Expected(o), rest)
  {
    hide PutVarint, Varint, Sized;
    match o {
      case OutCrypto(offset, data) =>
        var b1 := PutBytes(data) + rest;
        var b0 := PutVarint(offset) + b1;
        assert EncodeFrame(o) + rest == PutVarint(0x06) + b0;
        VarintFits(0x06, b0);
        VarintFits(offset, b1);
        SizedFits(data, rest);
      case OutNewToken(token) =>
        assert EncodeFrame(o) + rest == PutVarint(0x07) + (PutBytes(token) + rest);
        VarintFits(0x07, PutBytes(token) + rest);
        SizedFits(token, rest);
    }
  }

  /** Parsing what was encoded gives the frame back and leaves what follows. */
  lemma FrameRoundTrip(o: Out, rest: Bytes)
    requires WellFormed(o) && (SelfDelimiting(o) || rest == [])
    ensures ParseFrame(EncodeFrame(o) + rest) == Done(Expected(o), rest)
  {
    hide ParseFrame, PutVarint, A.Encode, A.Blocks, Fitting;
    match o {
      case OutAck(delay, ranges, ecn) => AckFits(delay, ranges, ecn, rest);
      case OutStream(_, _, _, _, _) => StreamFits(o, rest);
      case OutNewConnectionId(_, _, _, _) => NewConnectionIdFits(o, rest);
      case OutTransportClose(_, _, _, _) => CloseFits(o, rest);
      case OutApplicationClose(_, _, _) => CloseFits(o, rest);
      case OutCrypto(_, _) => DataFits(o, rest);
      case OutNewToken(_) => DataFits(o, rest);
      case OutDatagram(_, _) => DatagramFits(o, rest);
      case _ => ControlFits(o, rest);
    }
  }

  /** A payload: every frame but the last delimits itself. */
  ghost predicate Payload(os: seq<Out>) {
    && (forall i :: 0 <= i < |os| ==> WellFormed(os[i]))
    && (forall i :: 0 <= i < |os| - 1 ==> SelfDelimiting(os[i]))
  }

  ghost function EncodeAll(os: seq<Out>): Bytes
    requires Payload(os)
    decreases |os|
  {
    if os == [] then [] else EncodeFrame(os[0]) + EncodeAll(os[1..])
  }

  ghost function ExpectedAll(os: seq<Out>): seq<Frame>
    requires Payload(os)
    decreases |os|
  {
    if os == [] then [] else [Expected(os[0])] + ExpectedAll(os[1..])
  }

  const ACK_FREQUENCY_TYPE: nat := 0xaf

  /** `AckFrequency::encode`. */
  function EncodeAckFrequency(sequence: nat, threshold: nat, maxDelay: nat, reordering: nat): Bytes
    requires sequence <= VARINT_MAX && threshold <= VARINT_MAX && maxDelay <= VARINT_MAX && reordering <= VARINT_MAX
  {
    PutVarint(ACK_FREQUENCY_TYPE) + PutVarint(sequence) + PutVarint(threshold) + PutVarint(maxDelay) + PutVarint(reordering)
  }

  /** The one encoder without a parser: an ACK_FREQUENCY frame is refused as
      unknown, whatever follows it. */
  lemma AckFrequencyRefused(sequence: nat, threshold: nat, maxDelay: nat, reordering: nat, rest: Bytes)
    requires sequence <= VARINT_MAX && threshold <= VARINT_MAX && maxDelay <= VARINT_MAX && reordering <= VARINT_MAX
    ensures ParseFrame(EncodeAckFrequency(sequence, threshold, maxDelay, reordering) + rest) == Fail(InvalidFrameId)
  {
    hide PutVarint, Varint;
    var tail := PutVarint(sequence) + PutVarint(threshold) + PutVarint(maxDelay) + PutVarint(reordering) + rest;
    assert EncodeAckFrequency(sequence, threshold, maxDelay, reordering) + rest == PutVarint(ACK_FREQUENCY_TYPE) + tail;
    VarintFits(ACK_FREQUENCY_TYPE, tail);
  }

  /** Parsing the concatenated encodings of any list of frames returns the
      list. */
  lemma {:induction false} PayloadRoundTrip(os: seq<Out>)
    requires Payload(os)
    ensures ParseAll(EncodeAll(os)) == (ExpectedAll(os), None)
    decreases |os|
  {
    hide ParseFrame, EncodeFrame, Expected, WellFormed, SelfDelimiting;
    if os != [] {
      var rest := EncodeAll(os[1..]);
      if |os| == 1 { assert os[1..] == []; }
      FrameRoundTrip(os[0], rest);
      PayloadRoundTrip(os[1..]);
    }
  }
}
