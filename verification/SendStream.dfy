/** The sending half of a stream (`Send` in
    core/src/connection/stream/send.rs). */
module SendStream {
  import opened Core
  import opened VarInt
  import L = RangeList
  import opened SendBuffer

  datatype SendState = Ready | DataSent(finishAcked: bool) | ResetSent

  datatype WriteResult = Written | WriteClosed | WriteStopped(code: nat)
  datatype FinishResult = Finished | FinishClosed | FinishStopped(code: nat)

  /** Metadata of one transmitted STREAM frame. */
  datatype Frame = Frame(offsets: Range, fin: bool)

  datatype Tx = Tx(
    state: SendState,
    pending: SendBuf,
    priority: int,
    finPending: bool,
    stopReason: Option<nat>)
  {
    function Finish(): (Tx, FinishResult) {
      if stopReason.Some? then (this, FinishStopped(stopReason.value))
      else if state == Ready then (this.(state := DataSent(false), finPending := true), Finished)
      else (this, FinishClosed)
    }

    function Write(data: Bytes): (Tx, WriteResult) {
      if state != Ready then (this, WriteClosed)
      else if stopReason.Some? then (this, WriteStopped(stopReason.value))
      else (this.(pending := pending.Write(data)), Written)
    }

    function Reset(): Tx {
      if state != ResetSent then this.(state := ResetSent) else this
    }

    function TryStop(code: nat): (Tx, bool) {
      if stopReason.None? then (this.(stopReason := Some(code)), true) else (this, false)
    }

    /** Apply one acknowledged frame; the flag says that the stream is finished
        and wholly acknowledged. */
    function Ack(f: Frame): (Tx, bool)
      requires pending.Valid()
    {
      var t := this.(pending := pending.Ack(f.offsets));
      match state
      case DataSent(acked) =>
        (t.(state := DataSent(acked || f.fin)), (acked || f.fin) && t.pending.FullyAcked())
      case _ => (t, false)
    }

    predicate IsPending() {
      pending.HasUnsentData() || finPending
    }

    /** The part of `write_stream_frames` that concerns one live stream: choose
        the next range, decide whether the frame carries FIN, and give up if
        there is nothing to say. */
    function Transmit(maxLen: nat): (Tx, Option<Frame>, bool)
      requires pending.Valid() && maxLen >= 16 && pending.offset <= VARINT_MAX
    {
      var (buf, range, encodeLength) := pending.PollTransmit(maxLen);
      var fin := finPending && range.end == pending.offset;
      var t := this.(pending := buf, finPending := finPending && !fin);
      if range.Empty() && !fin then (t, None, encodeLength)
      else (t, Some(Frame(range, fin)), encodeLength)
    }
  }

  const NEW_SEND: Tx := Tx(Ready, EMPTY, 0, false, None)

  // ------------------------------------------------------------ closed for good

  datatype Call = CallWrite(data: Bytes) | CallFinish | CallReset | CallStop(code: nat) | CallAck(frame: Frame)

  /** The buffer of a stream is always valid, so that `Ack` is defined. */
  ghost function After(t: Tx, c: Call): Tx {
    match c
    case CallWrite(data) => t.Write(data).0
    case CallFinish => t.Finish().0
    case CallReset => t.Reset()
    case CallStop(code) => t.TryStop(code).0
    case CallAck(f) => if t.pending.Valid() then t.Ack(f).0 else t
  }

  /** A stream that no longer accepts data. */
  predicate Closed(t: Tx) {
    t.state != Ready || t.stopReason.Some?
  }

  ghost function AfterAll(t: Tx, calls: seq<Call>): Tx
    decreases |calls|
  {
    if calls == [] then t else AfterAll(After(t, calls[0]), calls[1..])
  }

  /** Section 4.5 of RFC 9000, for the sender: once the stream is finished, reset
      or stopped, its size never changes, whatever calls follow; every write is
      refused, and so is every further attempt to finish it. */
  lemma {:induction false} SizeFixedOnceClosed(t: Tx, calls: seq<Call>, data: Bytes)
    requires Closed(t)
    ensures var t' := AfterAll(t, calls);
            && Closed(t') && t'.pending.offset == t.pending.offset
            && t'.Write(data).1 != Written && t'.Finish().1 != Finished
    decreases |calls|
  {
    hide SendBuf.Valid, SendBuf.Ack;
    if calls != [] {
      AckOffset(t.pending);
      SizeFixedOnceClosed(After(t, calls[0]), calls[1..], data);
    }
  }

  /** The first STOP_SENDING counts: whatever calls follow, every later one changes
      nothing, and finishing, and writing while the stream is open, fail with its
      code. */
  lemma {:induction false} StopReasonSticks(t: Tx, calls: seq<Call>, data: Bytes, code: nat)
    requires t.stopReason.Some?
    ensures var t' := AfterAll(t, calls);
            && t'.stopReason == t.stopReason && t'.TryStop(code) == (t', false)
            && t'.Finish() == (t', FinishStopped(t.stopReason.value))
            && t'.Write(data) == (t', if t'.state == Ready then WriteStopped(t.stopReason.value) else WriteClosed)
    decreases |calls|
  {
    hide SendBuf.Valid, SendBuf.Ack;
    if calls != [] { StopReasonSticks(After(t, calls[0]), calls[1..], data, code); }
  }

  /** A reset is final: whatever calls follow, the stream stays reset, accepts no
      data, is not finished, and is never reported complete. */
  lemma {:induction false} ResetSticks(t: Tx, calls: seq<Call>, data: Bytes, f: Frame)
    ensures var t' := AfterAll(t.Reset(), calls);
            && t'.state == ResetSent && t'.pending.offset == t.pending.offset
            && t'.Write(data) == (t', WriteClosed) && t'.Finish().1 != Finished
            && (t'.pending.Valid() ==> !t'.Ack(f).1)
    decreases |calls|
  {
    hide SendBuf.Valid, SendBuf.Ack;
    SizeFixedOnceClosed(t.Reset(), calls, data);
    StaysReset(t.Reset(), calls);
  }

  lemma {:induction false} StaysReset(t: Tx, calls: seq<Call>)
    requires t.state == ResetSent
    ensures AfterAll(t, calls).state == ResetSent
    decreases |calls|
  {
    hide SendBuf.Valid, SendBuf.Ack;
    if calls != [] { StaysReset(After(t, calls[0]), calls[1..]); }
  }

  /** A stream that was not stopped is finished once: the first call makes FIN
      pending and closes it for writing, every later one is refused, whatever calls
      lie between. */
  lemma {:induction false} FinishedOnce(t: Tx, calls: seq<Call>)
    requires t.stopReason.None?
    ensures var (t', r) := t.Finish();
            && (r == Finished <==> t.state == Ready)
            && (r == Finished ==> t'.finPending && t'.state == DataSent(false) && t'.pending == t.pending)
            && (r != Finished ==> t' == t && r == FinishClosed)
            && AfterAll(t', calls).Finish().1 != Finished
  {
    hide SendBuf.Valid, SendBuf.Ack, AfterAll;
    SizeFixedOnceClosed(t.Finish().0, calls, []);
  }

  lemma AckOffset(b: SendBuf)
    ensures b.Valid() ==> forall r :: b.Ack(r).offset == b.offset
  {}

  class Send {
    var state: SendState
    const pending: SendBuffer
    var priority: int
    var finPending: bool
    var stopReason: Option<nat>

    ghost predicate Valid()
      reads this, pending, pending.acks, pending.retransmits
    {
      pending.Valid()
    }

    ghost function View(): Tx
      requires Valid()
      reads this, pending, pending.acks, pending.retransmits
    {
      Tx(state, pending.View(), priority, finPending, stopReason)
    }

    constructor ()
      ensures Valid() && View() == NEW_SEND
      ensures fresh(pending) && fresh(pending.acks) && fresh(pending.retransmits)
    {
      state, priority, finPending, stopReason := Ready, 0, false, None;
      pending := new SendBuffer();
    }

    method Finish() returns (r: FinishResult)
      requires Valid()
      modifies this
      ensures Valid() && (View(), r) == old(View()).Finish()
    {
      if stopReason.Some? {
        return FinishStopped(stopReason.value);
      } else if state == Ready {
        state, finPending := DataSent(false), true;
        return Finished;
      }
      return FinishClosed;
    }

    method Write(data: Bytes) returns (r: WriteResult)
      requires Valid()
      modifies this, pending
      ensures Valid() && (View(), r) == old(View()).Write(data)
    {
      if state != Ready {
        return WriteClosed;
      }
      if stopReason.Some? {
        return WriteStopped(stopReason.value);
      }
      pending.Write(data);
      return Written;
    }

    method Ack(f: Frame) returns (done: bool)
      requires Valid() && pending.View().AckDefined(f.offsets)
      modifies this, pending, pending.acks
      ensures Valid() && (View(), done) == old(View()).Ack(f)
    {
      hide L.Insert, L.Has, SendBuf.Ack, SendBuf.Valid, SendBuf.AckDefined;
      pending.Ack(f.offsets);
      match state {
        case DataSent(acked) =>
          state := DataSent(acked || f.fin);
          done := (acked || f.fin) && pending.unackedLen == 0;
        case _ =>
          done := false;
      }
    }
  }
}
