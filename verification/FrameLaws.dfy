/** The frames that the program parses but never writes, against their layout in
    section 19 of RFC 9000, and what the parser refuses (proto/src/frame.rs). */
module FrameLaws {
  import opened Core
  import opened VarInt
  import opened Frames
  import A = AckFrame

  /** `Frame::ty`. It drops the length bit of STREAM and DATAGRAM frames, and the
      type of an ACK frame with ECN counts. */
  function TypeOf(f: Frame): nat {
    match f
    case Padding => 0x00
    case Ping => 0x01
    case Ack(_, _, _, _) => 0x02
    case ResetStream(_, _, _) => 0x04
    case StopSending(_, _) => 0x05
    case Crypto(_, _) => 0x06
    case NewToken(_) => 0x07
    case Stream(_, offset, fin, _) => 0x08 + (if fin then 1 else 0) + (if offset != 0 then 4 else 0)
    case MaxData(_) => 0x10
    case MaxStreamData(_, _) => 0x11
    case MaxStreams(uni, _) => if uni then 0x13 else 0x12
    case DataBlocked(_) => 0x14
    case StreamDataBlocked(_, _) => 0x15
    case StreamsBlocked(uni, _) => if uni then 0x17 else 0x16
    case NewConnectionId(_, _, _, _) => 0x18
    case RetireConnectionId(_) => 0x19
    case PathChallenge(_) => 0x1a
    case PathResponse(_) => 0x1b
    case TransportClose(_, _, _) => 0x1c
    case ApplicationClose(_, _) => 0x1d
    case HandshakeDone => 0x1e
    case ImmediateAck => 0x1f
    case Datagram(_) => 0x30
  }

  predicate Known(ty: nat) {
    ty <= 0x1f || ty == 0x30 || ty == 0x31
  }

  /** The type that was read is the type of the frame, up to what `ty` drops. */
  predicate Matches(ty: nat, f: Frame) {
    match f
    case Ack(_, _, _, ecn) => ty == if ecn.Some? then 0x03 else 0x02
    case Stream(_, _, _, _) =>
      0x08 <= ty <= 0x0f && (ty == TypeOf(f) || ty == TypeOf(f) + 2 || (f.offset == 0 && (ty == TypeOf(f) + 4 || ty == TypeOf(f) + 6)))
    case Datagram(_) => ty == 0x30 || ty == 0x31
    case _ => ty == TypeOf(f)
  }

  /** On any bytes: the parser returns a frame of the type that it read, and calls
      the type invalid exactly if it is none of the known ones. */
  lemma TypeExact(bs: Bytes)
    ensures ParseFrame(bs).Done? ==> Varint(bs).Done? && Matches(Varint(bs).value, ParseFrame(bs).value)
    ensures ParseFrame(bs) == Fail(InvalidFrameId) <==> Varint(bs).Done? && !Known(Varint(bs).value)
  {
    hide Varint, ParseBody, Matches;
    FieldErrors();
    if Varint(bs).Done? { BodyTypes(Varint(bs).value, Varint(bs).rest); }
  }

  /** The body of a known type is one of its frames, or is refused for what is in
      it. */
  ghost predicate Typed(ty: nat, p: Parse<Frame>) {
    (p.Done? ==> Matches(ty, p.value)) && p != Fail(InvalidFrameId)
  }

  lemma BodyTypes(ty: nat, bs: Bytes)
    ensures Known(ty) ==> Typed(ty, ParseBody(ty, bs))
    ensures !Known(ty) ==> ParseBody(ty, bs) == Fail(InvalidFrameId)
  {
    hide Typed;
    if Known(ty) {
      hide ParseBody;
      if ty in {0x10, 0x12, 0x13, 0x14, 0x16, 0x17, 0x19} { OneTypes(ty, bs); }
      else if ty in {0x05, 0x11, 0x15} { TwoTypes(ty, bs); }
      else if 0x08 <= ty <= 0x0f { StreamTypes(ty, bs); }
      else if ty in {0x02, 0x03} { AckTypes(ty, bs); }
      else if ty in {0x04, 0x18, 0x1c} { RecordTypes(ty, bs); }
      else if ty in {0x06, 0x07, 0x1d, 0x30, 0x31} { DataTypes(ty, bs); }
      else { OtherTypes(ty, bs); }
    }
  }

  lemma OneTypes(ty: nat, bs: Bytes)
    requires ty in {0x10, 0x12, 0x13, 0x14, 0x16, 0x17, 0x19}
    ensures Typed(ty, ParseBody(ty, bs))
  {
    hide Varint;
    FieldErrors();
  }

  lemma TwoTypes(ty: nat, bs: Bytes)
    requires ty in {0x05, 0x11, 0x15}
    ensures Typed(ty, ParseBody(ty, bs))
  {
    hide Varint;
    FieldErrors();
  }

  lemma StreamTypes(ty: nat, bs: Bytes)
    requires 0x08 <= ty <= 0x0f
    ensures Typed(ty, ParseBody(ty, bs))
  {
    hide Varint, Sized;
    FieldErrors();
  }

  lemma AckTypes(ty: nat, bs: Bytes)
    requires ty in {0x02, 0x03}
    ensures Typed(ty, ParseBody(ty, bs))
  {
    hide Varint, A.Scan;
    FieldErrors();
  }

  lemma RecordTypes(ty: nat, bs: Bytes)
    requires ty in {0x04, 0x18, 0x1c}
    ensures Typed(ty, ParseBody(ty, bs))
  {
    hide Varint, Sized;
    FieldErrors();
  }

  lemma DataTypes(ty: nat, bs: Bytes)
    requires ty in {0x06, 0x07, 0x1d, 0x30, 0x31}
    ensures Typed(ty, ParseBody(ty, bs))
  {
    hide Varint, Sized;
    FieldErrors();
  }

  lemma OtherTypes(ty: nat, bs: Bytes)
    requires ty in {0x00, 0x01, 0x1a, 0x1b, 0x1e, 0x1f}
    ensures Typed(ty, ParseBody(ty, bs))
  {
    hide FromBigEndian;
  }

  /** No field is refused for its type. */
  lemma FieldErrors()
    ensures forall bs :: Varint(bs) != Fail(InvalidFrameId)
    ensures forall bs :: Sized(bs) != Fail(InvalidFrameId)
    ensures forall bs, n: nat :: Exactly(bs, n) != Fail(InvalidFrameId)
  {}

  // ------------------------------------------------------------- frames never written

  /** Frames without an encoder, with values that fit their fields. */
  predicate Unwritten(f: Frame) {
    match f
    case Padding => true
    case MaxData(v) => v <= VARINT_MAX
    case MaxStreamData(id, v) => id <= VARINT_MAX && v <= VARINT_MAX
    case MaxStreams(_, v) => v <= VARINT_MAX
    case DataBlocked(v) => v <= VARINT_MAX
    case StreamDataBlocked(id, v) => id <= VARINT_MAX && v <= VARINT_MAX
    case StreamsBlocked(_, v) => v <= VARINT_MAX
    case RetireConnectionId(v) => v <= VARINT_MAX
    case PathChallenge(v) => v < 0x1_0000_0000_0000_0000
    case PathResponse(v) => v < 0x1_0000_0000_0000_0000
    case ImmediateAck => true
    case HandshakeDone => true
    case _ => false
  }

  /** Their fields, in the order of the standard. */
  function Fields(f: Frame): Bytes
    requires Unwritten(f)
  {
    match f
    case MaxData(v) => PutVarint(v)
    case MaxStreamData(id, v) => PutVarint(id) + PutVarint(v)
    case MaxStreams(_, v) => PutVarint(v)
    case DataBlocked(v) => PutVarint(v)
    case StreamDataBlocked(id, v) => PutVarint(id) + PutVarint(v)
    case StreamsBlocked(_, v) => PutVarint(v)
    case RetireConnectionId(v) => PutVarint(v)
    case PathChallenge(v) => BigEndian(8, v)
    case PathResponse(v) => BigEndian(8, v)
    case _ => []
  }

  /** The parser reads every such frame from its layout, and leaves what follows. */
  lemma LayoutParses(f: Frame, rest: Bytes)
    requires Unwritten(f)
    ensures ParseFrame(PutVarint(TypeOf(f)) + Fields(f) + rest) == Done(f, rest)
  {
    hide PutVarint, Varint, ParseBody, BigEndian, Exactly;
    Spliced(PutVarint(TypeOf(f)), Fields(f), rest);
    VarintFits(TypeOf(f), Fields(f) + rest);
    FieldsParse(f, rest);
  }

  lemma FieldsParse(f: Frame, rest: Bytes)
    requires Unwritten(f)
    ensures ParseBody(TypeOf(f), Fields(f) + rest) == Done(f, rest)
  {
    hide PutVarint, Varint, BigEndian, FromBigEndian, Exactly;
    match f {
      case MaxData(v) => VarintFits(v, rest);
      case MaxStreams(_, v) => VarintFits(v, rest);
      case DataBlocked(v) => VarintFits(v, rest);
      case StreamsBlocked(_, v) => VarintFits(v, rest);
      case RetireConnectionId(v) => VarintFits(v, rest);
      case MaxStreamData(id, v) => TwoFit(id, v, rest);
      case StreamDataBlocked(id, v) => TwoFit(id, v, rest);
      case PathChallenge(v) => EightFit(v, rest);
      case PathResponse(v) => EightFit(v, rest);
      case Padding => assert Fields(f) + rest == rest;
      case ImmediateAck => assert Fields(f) + rest == rest;
      case HandshakeDone => assert Fields(f) + rest == rest;
    }
  }

  lemma TwoFit(v: nat, w: nat, rest: Bytes)
    requires v <= VARINT_MAX && w <= VARINT_MAX
    ensures Varint(PutVarint(v) + PutVarint(w) + rest) == Done(v, PutVarint(w) + rest)
    ensures Varint(PutVarint(w) + rest) == Done(w, rest)
  {
    hide PutVarint, Varint;
    Spliced(PutVarint(v), PutVarint(w), rest);
    VarintFits(v, PutVarint(w) + rest);
    VarintFits(w, rest);
  }

  lemma EightFit(v: nat, rest: Bytes)
    requires v < 0x1_0000_0000_0000_0000
    ensures Exactly(BigEndian(8, v) + rest, 8) == Done(BigEndian(8, v), rest) && FromBigEndian(BigEndian(8, v)) == v
  {
    hide BigEndian, FromBigEndian;
    Pow256s();
    BigEndianRoundTrip(8, v);
    ExactlyFits(BigEndian(8, v), rest);
  }

  // --------------------------------------------------------------------- closing

  /** The reason of a close frame is cut, if at all, to what the budget leaves beside
      a type and an error code of three bytes together, the frame type, and the
      length of the whole reason. So the frame keeps its budget exactly as long as
      its error code takes no more than the two bytes it is given, or the rest
      leaves room for a longer one. */
  lemma CloseBudget(o: Out)
    requires (o.OutTransportClose? || o.OutApplicationClose?) && WellFormed(o)
    ensures var ty := if o.OutTransportClose? then VarintLen(TypeField(o.frameType)) else 0;
            var r := Fitting(o);
            && r <= o.reason
            && (r == o.reason || 3 + ty + VarintLen(|o.reason|) + |r| == o.maxLen)
            && 3 + ty + VarintLen(|o.reason|) + |r| <= o.maxLen
            && |EncodeFrame(o)| == 1 + VarintLen(o.errorCode) + ty + VarintLen(|r|) + |r|
            && (VarintLen(o.errorCode) <= 2 ==> |EncodeFrame(o)| <= o.maxLen)
  {
    hide PutVarint;
    assert PutVarint(0x1c) != [] && |PutVarint(0x1c)| == |PutVarint(0x1d)| == 1;
  }

  // --------------------------------------------------------------- refused ids

  /** A NEW_CONNECTION_ID frame from its bytes: which ones are refused, and how. */
  lemma NewConnectionIdExact(sequence: nat, retire: nat, len: Byte, tail: Bytes)
    requires sequence <= VARINT_MAX && retire <= VARINT_MAX
    ensures ParseFrame(PutVarint(0x18) + PutVarint(sequence) + PutVarint(retire) + [len] + tail)
         == if retire > sequence then Fail(MalformedFrame)
            else if len > 20 then Fail(Panicked)
            else if len == 0 then Fail(MalformedFrame)
            else if |tail| < len + 16 then Fail(UnexpectedEnd)
            else Done(NewConnectionId(sequence, retire, tail[..len], tail[len..len + 16]), tail[len + 16..])
  {
    hide PutVarint, Varint, Exactly;
    var b2 := [len] + tail;
    var b1 := PutVarint(retire) + b2;
    var b0 := PutVarint(sequence) + b1;
    assert PutVarint(0x18) + PutVarint(sequence) + PutVarint(retire) + [len] + tail == PutVarint(0x18) + b0;
    VarintFits(0x18, b0);
    VarintFits(sequence, b1);
    VarintFits(retire, b2);
    ExactlyFits([len], tail);
    ExactlyCuts(tail, len);
    if |tail| >= len {
      ExactlyCuts(tail[len..], 16);
      if |tail| >= len + 16 {
        assert tail[len..][..16] == tail[len..len + 16] && tail[len..][16..] == tail[len + 16..];
      }
    }
  }

  lemma ExactlyCuts(bs: Bytes, n: nat)
    ensures Exactly(bs, n) == if |bs| < n then Fail(UnexpectedEnd) else Done(bs[..n], bs[n..])
  {}
}
