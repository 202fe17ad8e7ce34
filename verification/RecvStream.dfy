/** The receiving half of a stream (`Recv` and `Chunks::next` in
    core/src/connection/stream/recv.rs). */
module RecvStream {
  import opened Core
  import opened Assembler
  import Laws = AssemblerLaws

  const OFFSET_LIMIT: nat := 0x4000_0000_0000_0000

  datatype RecvState = Receiving(size: Option<nat>) | ResetRecvd(finalSize: nat, errorCode: nat) {
    function FinalOffset(): Option<nat> {
      match this
      case Receiving(size) => size
      case ResetRecvd(size, _) => Some(size)
    }
  }

  datatype IngestResult = Ingested(newBytes: nat, closed: bool) | FlowControlError | FinalSizeError
  datatype ResetResult = ResetDone | ResetRedundant | ResetSizeError
  datatype NextResult = Read(chunk: Chunk) | EndOfStream | Blocked | WasReset(errorCode: nat)
  datatype StopResult = Stopped(readCredits: nat, stillReceiving: bool) | StopClosed

  datatype Rx = Rx(state: RecvState, assembler: Asm, end: nat, stopped: bool) {
    ghost predicate Valid() {
      assembler.Valid() && assembler.end <= end
    }

    function FinalOffset(): Option<nat> {
      state.FinalOffset()
    }

    predicate IsReceiving() {
      state.Receiving?
    }

    /** Whether a frame passes the checks at the head of `ingest`. */
    function Check(offset: nat, bytes: Bytes, fin: bool): Option<IngestResult> {
      var e := offset + |bytes|;
      if e >= OFFSET_LIMIT then Some(FlowControlError)
      else if FinalOffset().Some? && (e > FinalOffset().value || (fin && e != FinalOffset().value))
      then Some(FinalSizeError)
      else None
    }

    /** The subtraction inside `Assembler::insert` does not underflow. */
    predicate IngestDefined(offset: nat, bytes: Bytes, fin: bool) {
      Check(offset, bytes, fin).None? && !stopped ==> assembler.InsertDefined(offset, bytes)
    }

    function Ingest(offset: nat, bytes: Bytes, fin: bool, payloadLen: nat): (Rx, IngestResult) {
      var e := offset + |bytes|;
      if Check(offset, bytes, fin).Some? then (this, Check(offset, bytes, fin).value)
      else
        var state' := if fin && !stopped && state.Receiving? then Receiving(Some(e)) else state;
        (Rx(state',
            if stopped then assembler else assembler.Insert(offset, bytes, payloadLen),
            Max(end, e), stopped),
         Ingested(if e > end then e - end else 0, fin && stopped))
    }

    function Stop(): (Rx, StopResult)
      requires assembler.bytesRead <= end
    {
      if stopped then (this, StopClosed)
      else (this.(stopped := true, assembler := assembler.Clear()),
            Stopped(end - assembler.bytesRead, IsReceiving()))
    }

    function Reset(errorCode: nat, finalOffset: nat): (Rx, ResetResult) {
      if (FinalOffset().Some? && FinalOffset().value != finalOffset) || (FinalOffset().None? && end > finalOffset)
      then (this, ResetSizeError)
      else if state.ResetRecvd? then (this, ResetRedundant)
      else (this.(state := ResetRecvd(finalOffset, errorCode), assembler := assembler.Clear()), ResetDone)
    }

    /** One call of `Chunks::next`. */
    function Next(maxLength: nat): (Rx, NextResult) {
      var (a, chunk) := assembler.Read(maxLength);
      match chunk
      case Some(c) => (this.(assembler := a), Read(c))
      case None =>
        match state
        case ResetRecvd(_, code) => (this, WasReset(code))
        case Receiving(size) =>
          if size == Some(end) && assembler.bytesRead == end then (this, EndOfStream) else (this, Blocked)
    }
  }

  const NEW_RECV: Rx := Rx(Receiving(None), NEW, 0, false)

  class Recv {
    var state: RecvState
    const assembler: Assembler
    var end: nat
    var stopped: bool

    ghost function View(): Rx
      reads this, assembler
    {
      Rx(state, assembler.View(), end, stopped)
    }

    ghost predicate Valid()
      reads this, assembler
    {
      View().Valid()
    }

    constructor ()
      ensures Valid() && View() == NEW_RECV && fresh(assembler)
    {
      state, end, stopped := Receiving(None), 0, false;
      assembler := new Assembler();
    }

    method Ingest(offset: nat, bytes: Bytes, fin: bool, payloadLen: nat) returns (r: IngestResult)
      requires Valid() && |bytes| <= payloadLen && View().IngestDefined(offset, bytes, fin)
      modifies this, assembler
      ensures Valid() && (View(), r) == old(View()).Ingest(offset, bytes, fin, payloadLen)
    {
      hide Ordered, Encloses, Length, Allocation, Place, Asm.Insert, Asm.InsertDefined;
      IngestKeeps(View(), offset, bytes, fin, payloadLen);
      var e := offset + |bytes|;
      if e >= OFFSET_LIMIT {
        return FlowControlError;
      }
      var known := state.FinalOffset();
      if known.Some? && (e > known.value || (fin && e != known.value)) {
        return FinalSizeError;
      }
      var newBytes := if e > end then e - end else 0;
      if fin && !stopped && state.Receiving? {
        state := Receiving(Some(e));
      }
      end := Max(end, e);
      if !stopped {
        assembler.Insert(offset, bytes, payloadLen);
      }
      return Ingested(newBytes, fin && stopped);
    }

    method Stop() returns (r: StopResult)
      requires Valid()
      modifies this, assembler
      ensures Valid() && old(assembler.bytesRead <= end) && (View(), r) == old(View()).Stop()
    {
      hide Ordered, Length, Allocation;
      ReadWithinEnd(View());
      if stopped {
        return StopClosed;
      }
      stopped := true;
      assembler.Clear();
      return Stopped(end - assembler.bytesRead, state.Receiving?);
    }

    method Reset(errorCode: nat, finalOffset: nat) returns (r: ResetResult)
      requires Valid()
      modifies this, assembler
      ensures Valid() && (View(), r) == old(View()).Reset(errorCode, finalOffset)
    {
      hide Ordered, Length, Allocation;
      var known := state.FinalOffset();
      if known.Some? {
        if known.value != finalOffset {
          return ResetSizeError;
        }
      } else if end > finalOffset {
        return ResetSizeError;
      }
      if state.ResetRecvd? {
        return ResetRedundant;
      }
      state := ResetRecvd(finalOffset, errorCode);
      assembler.Clear();
      return ResetDone;
    }

    method Next(maxLength: nat) returns (r: NextResult)
      requires Valid()
      modifies assembler
      ensures Valid() && (View(), r) == old(View()).Next(maxLength)
    {
      hide Ordered, Length, Allocation;
      ReadEnd(assembler.View(), maxLength);
      var chunk := assembler.Read(maxLength);
      if chunk.Some? {
        return Read(chunk.value);
      }
      match state {
        case ResetRecvd(_, code) => return WasReset(code);
        case Receiving(size) =>
          if size == Some(end) && assembler.bytesRead == end {
            return EndOfStream;
          }
          return Blocked;
      }
    }
  }

  lemma ReadWithinEnd(rx: Rx)
    requires rx.Valid()
    ensures rx.assembler.bytesRead <= rx.end
  {
    LengthWithinAllocation(rx.assembler.data, rx.assembler.bytesRead, rx.assembler.end);
  }

  lemma ReadEnd(a: Asm, maxLength: nat)
    ensures a.Read(maxLength).0.end == a.end
    ensures a.Read(maxLength).1.None? ==> a.Read(maxLength).0 == a
  {}

  lemma IngestKeeps(rx: Rx, offset: nat, bytes: Bytes, fin: bool, payloadLen: nat)
    requires rx.Valid() && |bytes| <= payloadLen
    ensures rx.Ingest(offset, bytes, fin, payloadLen).0.Valid()
  {
    hide Ordered, Length, Allocation, Place;
    InsertKeeps(rx.assembler, offset, bytes, payloadLen);
  }

  // ---------------------------------------------------------------- final size

  datatype Call =
    | CallIngest(offset: nat, bytes: Bytes, fin: bool, payloadLen: nat)
    | CallStop
    | CallReset(errorCode: nat, finalOffset: nat)
    | CallNext(maxLength: nat)

  function After(rx: Rx, c: Call): Rx
  {
    match c
    case CallIngest(offset, bytes, fin, payloadLen) => rx.Ingest(offset, bytes, fin, payloadLen).0
    case CallStop => if rx.assembler.bytesRead <= rx.end then rx.Stop().0 else rx
    case CallReset(code, final) => rx.Reset(code, final).0
    case CallNext(maxLength) => rx.Next(maxLength).0
  }

  function AfterAll(rx: Rx, calls: seq<Call>): Rx
    decreases |calls|
  {
    if calls == [] then rx else AfterAll(After(rx, calls[0]), calls[1..])
  }

  /** Section 4.5 of RFC 9000: once known, the final size never changes,
      whatever calls follow. */
  lemma {:induction false} FinalSizeFixed(rx: Rx, calls: seq<Call>)
    requires rx.FinalOffset().Some?
    ensures AfterAll(rx, calls).FinalOffset() == rx.FinalOffset()
    decreases |calls|
  {
    if calls != [] {
      assert After(rx, calls[0]).FinalOffset() == rx.FinalOffset();
      FinalSizeFixed(After(rx, calls[0]), calls[1..]);
    }
  }

  /** Offsets have 62 bits, and a frame or a reset must agree with a final size that
      is known: no data past it, and no other size. A reset must not cut off data
      that has arrived. Exactly the others are accepted, and what is refused changes
      nothing. */
  lemma RefusedExactly(rx: Rx, offset: nat, bytes: Bytes, fin: bool, payloadLen: nat, errorCode: nat, finalOffset: nat)
    ensures var (rx', r) := rx.Ingest(offset, bytes, fin, payloadLen);
            var e := offset + |bytes|;
            && (r.Ingested? <==> e <= 0x3fff_ffff_ffff_ffff && match rx.FinalOffset()
                                                               case None => true
                                                               case Some(size) => e <= size && (fin ==> e == size))
            && (!r.Ingested? ==> rx' == rx && (r == FlowControlError <==> e > 0x3fff_ffff_ffff_ffff))
            && (r.Ingested? ==> rx'.end == Max(rx.end, e) && (r.closed <==> fin && rx.stopped))
            && (r.Ingested? ==> rx'.FinalOffset() == if fin && !rx.stopped then Some(e) else rx.FinalOffset())
    ensures var (rx', r) := rx.Reset(errorCode, finalOffset);
            && (r != ResetSizeError <==> match rx.FinalOffset() case None => rx.end <= finalOffset case Some(size) => size == finalOffset)
            && (r != ResetDone ==> rx' == rx) && (r == ResetRedundant ==> rx.state.ResetRecvd?)
            && (r == ResetDone ==> rx.IsReceiving() && rx'.FinalOffset() == Some(finalOffset))
  {}

  /** The end of the stream cannot be reported any more: data has arrived past
      the final size. */
  predicate Overshot(rx: Rx) {
    rx.FinalOffset().Some? && rx.FinalOffset().value < rx.end
  }

  lemma {:induction false} OvershotStays(rx: Rx, calls: seq<Call>)
    requires rx.FinalOffset().Some?
    ensures Overshot(AfterAll(rx, calls)) <==> Overshot(rx)
    decreases |calls|
  {
    if calls != [] {
      var next := After(rx, calls[0]);
      assert next.FinalOffset() == rx.FinalOffset() && (Overshot(next) <==> Overshot(rx));
      OvershotStays(next, calls[1..]);
    }
  }

  /** The size that a first FIN announces is not checked against the data that
      has arrived. If its frame ends below the highest offset seen, the FIN is
      accepted all the same, and then, whatever calls follow, the application is
      never told that the stream has ended. */
  lemma FinBelowDataNeverEnds(rx: Rx, offset: nat, bytes: Bytes, payloadLen: nat, calls: seq<Call>, maxLength: nat)
    requires rx.state == Receiving(None) && !rx.stopped && offset + |bytes| < OFFSET_LIMIT
    ensures var (rx', r) := rx.Ingest(offset, bytes, true, payloadLen);
            && r.Ingested? && rx'.FinalOffset() == Some(offset + |bytes|)
            && (Overshot(AfterAll(rx', calls)) <==> offset + |bytes| < rx.end)
            && (offset + |bytes| < rx.end ==> AfterAll(rx', calls).Next(maxLength).1 != EndOfStream)
  {
    OvershotStays(rx.Ingest(offset, bytes, true, payloadLen).0, calls);
  }

  /** The call that made the final size known announced at least the highest
      offset seen until then. */
  predicate SizedAbove(rx: Rx, calls: seq<Call>)
    decreases |calls|
  {
    calls == [] ||
    var next := After(rx, calls[0]);
    if next.FinalOffset().Some? then rx.end <= next.FinalOffset().value else SizedAbove(next, calls[1..])
  }

  /** Over any history of a new stream, no data lies past a known final size if
      and only if the call that announced it was so. */
  lemma {:induction false} SizeCoversData(rx: Rx, calls: seq<Call>)
    requires rx.FinalOffset().None?
    ensures AfterAll(rx, calls).FinalOffset().Some? ==>
              (AfterAll(rx, calls).end <= AfterAll(rx, calls).FinalOffset().value <==> SizedAbove(rx, calls))
    decreases |calls|
  {
    if calls != [] {
      var next := After(rx, calls[0]);
      if next.FinalOffset().Some? {
        FinalSizeFixed(next, calls[1..]);
        OvershotStays(next, calls[1..]);
        SizingEnd(rx, calls[0]);
      } else {
        SizeCoversData(next, calls[1..]);
      }
    }
  }

  lemma SizingEnd(rx: Rx, c: Call)
    requires rx.FinalOffset().None? && After(rx, c).FinalOffset().Some?
    ensures Overshot(After(rx, c)) <==> After(rx, c).FinalOffset().value < rx.end
  {}

  // ---------------------------------------------------------- what is thrown away

  /** A call as the stream layer makes it: frames are offered only while the stream
      is receiving. */
  function Offered(rx: Rx, c: Call): Rx {
    if c.CallIngest? && !rx.IsReceiving() then rx else After(rx, c)
  }

  function OfferedAll(rx: Rx, calls: seq<Call>): Rx
    decreases |calls|
  {
    if calls == [] then rx else OfferedAll(Offered(rx, calls[0]), calls[1..])
  }

  /** Nothing is buffered, and nothing is accounted for. */
  predicate Emptied(rx: Rx) {
    rx.assembler.data == [] && rx.assembler.buffered == 0 && rx.assembler.reserved == 0
  }

  /** A reset is final: whatever calls follow, nothing is buffered any more, and
      every read answers with the error code of that reset. */
  lemma ResetDiscards(rx: Rx, errorCode: nat, finalOffset: nat, calls: seq<Call>, maxLength: nat)
    requires rx.Reset(errorCode, finalOffset).1 == ResetDone
    ensures var rx' := OfferedAll(rx.Reset(errorCode, finalOffset).0, calls);
            && Emptied(rx') && rx'.state == ResetRecvd(finalOffset, errorCode)
            && rx'.Next(maxLength).1 == WasReset(errorCode)
  {
    ResetStays(rx.Reset(errorCode, finalOffset).0, calls);
  }

  lemma {:induction false} ResetStays(rx: Rx, calls: seq<Call>)
    requires rx.state.ResetRecvd? && Emptied(rx)
    ensures Emptied(OfferedAll(rx, calls)) && OfferedAll(rx, calls).state == rx.state
    decreases |calls|
  {
    if calls != [] { ResetStays(Offered(rx, calls[0]), calls[1..]); }
  }

  /** That rests on the stream layer: a frame that were ingested after the reset
      would be buffered and read. */
  lemma IngestAfterReset()
    ensures var rx := NEW_RECV.Reset(7, 3).0.Ingest(0, [1, 2, 3], false, 3).0;
            rx.Next(10).1 == Read(Chunk(0, [1, 2, 3]))
  {
    assert [Buffer(0, [1, 2, 3], 3)] + [] == [Buffer(0, [1, 2, 3], 3)];
  }

  /** Stopping is final too: the credits are the bytes up to the highest offset that
      were not read, nothing is buffered whatever calls follow, nothing is read, and
      no credits are given a second time. */
  lemma StopDiscards(rx: Rx, calls: seq<Call>, maxLength: nat)
    requires rx.Valid() && !rx.stopped && rx.assembler.bytesRead <= rx.end
    ensures var (rx', r) := rx.Stop();
            && r.Stopped? && rx.assembler.bytesRead + r.readCredits == rx.end && (r.stillReceiving <==> rx.IsReceiving())
            && var later := AfterAll(rx', calls);
               && Emptied(later) && later.stopped && !later.Next(maxLength).1.Read?
               && (later.assembler.bytesRead <= later.end ==> later.Stop().1 == StopClosed)
  {
    StoppedStays(rx.Stop().0, calls);
  }

  lemma {:induction false} StoppedStays(rx: Rx, calls: seq<Call>)
    requires rx.stopped && Emptied(rx)
    ensures Emptied(AfterAll(rx, calls)) && AfterAll(rx, calls).stopped
    decreases |calls|
  {
    if calls != [] { StoppedStays(After(rx, calls[0]), calls[1..]); }
  }

  // ------------------------------------------------------------------ flow credits

  /** The new bytes that a history reports. */
  function NewBytes(rx: Rx, calls: seq<Call>): nat
    decreases |calls|
  {
    if calls == [] then 0
    else
      var c := calls[0];
      NewBytes(After(rx, c), calls[1..])
      + if c.CallIngest? && rx.Ingest(c.offset, c.bytes, c.fin, c.payloadLen).1.Ingested?
        then rx.Ingest(c.offset, c.bytes, c.fin, c.payloadLen).1.newBytes else 0
  }

  /** The bytes that it hands to the application. */
  function BytesOut(rx: Rx, calls: seq<Call>): nat
    decreases |calls|
  {
    if calls == [] then 0
    else
      var c := calls[0];
      BytesOut(After(rx, c), calls[1..])
      + if c.CallNext? && rx.Next(c.maxLength).1.Read? then |rx.Next(c.maxLength).1.chunk.bytes| else 0
  }

  /** Over any history the new bytes reported add up to the highest offset seen, and
      the bytes read to the reading position: each offset is counted once, however
      often it arrives. */
  lemma {:induction false} BytesAddUp(rx: Rx, calls: seq<Call>)
    ensures var rx' := AfterAll(rx, calls);
            && rx'.end == rx.end + NewBytes(rx, calls)
            && rx'.assembler.bytesRead == rx.assembler.bytesRead + BytesOut(rx, calls)
    decreases |calls|
  {
    hide Place, Length, Allocation;
    if calls != [] { BytesAddUp(After(rx, calls[0]), calls[1..]); }
  }

  /** What a read answers, exactly: data if the next byte is at hand, else the reset,
      else the end if that is where reading stands. */
  lemma NextExact(rx: Rx, maxLength: nat)
    requires rx.Valid()
    ensures var r := rx.Next(maxLength).1;
            var data := Buffered(rx.assembler.data, rx.assembler.bytesRead);
            && (r.Read? <==> data)
            && (r.WasReset? <==> !data && rx.state.ResetRecvd?)
            && (r.EndOfStream? <==> rx.state == Receiving(Some(rx.assembler.bytesRead)) && rx.end == rx.assembler.bytesRead)
  {
    var a := rx.assembler;
    if a.data != [] {
      LengthWithinAllocation(a.data[1..], a.data[0].End(), a.end);
      if Buffered(a.data, a.bytesRead) && a.data[0].offset != a.bytesRead { Laws.BufferedFrom(a.data[1..], a.data[0].End(), a.end, a.bytesRead); }
    }
  }
}
