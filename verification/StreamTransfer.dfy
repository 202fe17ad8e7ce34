/** One stream end to end: the sender of `OffsetConservation`, a network that
    loses, repeats and reorders packets, and the receiver
    (core/src/connection/stream/send.rs, recv.rs, state.rs). */
module StreamTransfer {
  import opened Core
  import opened VarInt
  import opened SendBuffer
  import opened SendLaws
  import opened SendStream
  import S = OffsetConservation
  import opened Assembler
  import opened AssemblerLaws
  import opened RecvStream

  /** What travels: STREAM frames with their bytes, and RESET_STREAM. */
  datatype Message = Data(offset: nat, bytes: Bytes, fin: bool) | ResetStream(errorCode: nat, finalOffset: nat)

  /** The receiver's table entry for the stream. */
  datatype Entry = Vacant | Open(rx: Rx)

  /** `net` is everything ever put into packets, each message under the packet
      and the place that carry it; `taken` are the deliveries that the receiver has
      taken in, in order. It drops a packet whose number it has seen before, but a
      duplicate that comes more than half a window late is taken for another
      packet (`AckSoundness.DuplicateExact`), so a message may be taken in any
      number of times. `out` is what the application has read through the current
      entry; `complete` is what it had read when the entry was given up because
      the stream had ended. `local` says that the receiver opened the stream
      itself. */
  datatype World = World(
    sender: S.Sender,
    net: map<S.Id, Message>,
    taken: seq<S.Id>,
    entry: Entry,
    local: bool,
    out: Bytes,
    complete: seq<Bytes>,
    failed: bool)

  datatype Event =
    | Local(action: S.Action)
    | SendReset(id: S.Id, errorCode: nat)
    | Deliver(id: S.Id, payloadLen: nat)
    | ReadChunk(maxLength: nat)
    | StopReading

  function Start(local: bool): World {
    World(S.START, map[], [], if local then Open(NEW_RECV) else Vacant, local, [], [], false)
  }

  /** `write_stream_frames` writes only the first slice that `get` returns, under
      a header that declares the whole range: the frame is right exactly when
      the range is buffered and lies in one segment. */
  predicate FrameIsWhole(b: SendBuf, r: Range)
    requires b.unackedLen <= b.offset
  {
    r.Empty() || (b.Base() <= r.start && InOneSegment(b.segments, r.start - b.Base(), r.end - b.Base()))
  }

  /** The entry that a STREAM frame finds, or creates if it may. */
  function EntryFor(w: World, m: Message): Entry
    requires m.Data?
  {
    if w.entry.Vacant? && !w.local && m.offset == 0 && !m.fin then Open(NEW_RECV) else w.entry
  }

  /** The event is possible and makes neither side panic. */
  ghost predicate Enabled(w: World, e: Event)
    requires S.Sound(w.sender)
  {
    && !w.failed
    && match e
       case Local(a) =>
         && S.Enabled(w.sender, a)
         && (a.Write? ==> (if w.sender.gone then 0 else |w.sender.written|) + |a.data| < OFFSET_LIMIT)
         && (a.Transmit? ==>
               && a.id !in w.net
               && var (tx, frame, _) := w.sender.tx.Transmit(a.maxLen);
               frame.Some? ==> tx.pending.unackedLen <= tx.pending.offset
                               && FrameIsWhole(tx.pending, frame.value.offsets))
       case SendReset(id, _) =>
         && w.sender.tx.state == ResetSent
         && id !in w.net && id !in w.sender.carried && id.packet !in w.sender.sent
       case Deliver(id, payloadLen) =>
         && id in w.net && id.packet in w.sender.sent
         && var m := w.net[id];
            (m.Data? ==>
               && |m.bytes| <= payloadLen
               && (EntryFor(w, m).Open? && EntryFor(w, m).rx.IsReceiving() ==>
                     EntryFor(w, m).rx.IngestDefined(m.offset, m.bytes, m.fin)))
       case ReadChunk(_) => w.entry.Open? && !w.entry.rx.stopped
       case StopReading => w.entry.Open? && w.entry.rx.assembler.bytesRead <= w.entry.rx.end
  }

  /** The message that a transmission puts on the wire. */
  function Sent(b: SendBuf, f: Frame): Message
    requires b.unackedLen <= b.offset && FrameIsWhole(b, f.offsets)
  {
    Data(f.offsets.start, if f.offsets.Empty() then [] else b.Get(f.offsets), f.fin)
  }

  /** Arrival of a STREAM frame. */
  function Arrive(w: World, m: Message, payloadLen: nat): World
    requires m.Data?
  {
    var entry := EntryFor(w, m);
    var out := if entry == w.entry then w.out else [];
    if entry.Vacant? then w
    else if !entry.rx.IsReceiving() then w
    else
      var (rx, r) := entry.rx.Ingest(m.offset, m.bytes, m.fin, payloadLen);
      if !r.Ingested? then w.(failed := true)
      else w.(entry := if rx.stopped && r.closed then Vacant else Open(rx), out := out)
  }

  /** Arrival of RESET_STREAM, which creates an entry if there is none. */
  function ArriveReset(w: World, m: Message): World
    requires m.ResetStream?
  {
    var rx := if w.entry.Open? then w.entry.rx else NEW_RECV;
    var out := if w.entry.Open? then w.out else [];
    var (rx', r) := rx.Reset(m.errorCode, m.finalOffset);
    if r == ResetSizeError then w.(failed := true)
    else if r == ResetRedundant then w.(entry := Open(rx'), out := out)
    else w.(entry := if rx'.stopped then Vacant else Open(rx'), out := out)
  }

  /** One call of `next` on an open stream. An entry that has reported its end or
      a reset is not put back; the reader that holds it repeats the same answer
      to every further call, which is not recorded again. */
  function ReadOne(w: World, maxLength: nat): World
    requires w.entry.Open?
  {
    var (rx, r) := w.entry.rx.Next(maxLength);
    match r
    case Read(chunk) => w.(entry := Open(rx), out := w.out + chunk.bytes)
    case EndOfStream => w.(entry := Vacant, complete := w.complete + [w.out])
    case WasReset(_) => w.(entry := Vacant)
    case Blocked => w
  }

  ghost function Do(w: World, e: Event): World
    requires S.Sound(w.sender) && Enabled(w, e)
  {
    match e
    case Local(a) =>
      var net := if a.Transmit? && w.sender.tx.Transmit(a.maxLen).1.Some?
                 then w.net[a.id := Sent(w.sender.tx.Transmit(a.maxLen).0.pending, w.sender.tx.Transmit(a.maxLen).1.value)]
                 else w.net;
      w.(sender := S.Do(w.sender, a), net := net)
    case SendReset(id, code) => w.(net := w.net[id := ResetStream(code, w.sender.tx.pending.offset)])
    case Deliver(id, payloadLen) =>
      var v := w.(taken := w.taken + [id]);
      if w.net[id].Data? then Arrive(v, w.net[id], payloadLen) else ArriveReset(v, w.net[id])
    case ReadChunk(maxLength) => ReadOne(w, maxLength)
    case StopReading =>
      var (rx, r) := w.entry.rx.Stop();
      if r.Stopped? then w.(entry := if rx.FinalOffset().Some? then Vacant else Open(rx)) else w
  }

  // ------------------------------------------------------------------ invariant

  /** The bytes of a message are those of the stream. */
  predicate Matches(m: Message, written: Bytes) {
    m.Data? ==> m.offset + |m.bytes| <= |written| && m.bytes == written[m.offset..m.offset + |m.bytes|]
  }

  /** A message says nothing but the truth about the stream. */
  ghost predicate Genuine(m: Message, written: Bytes, closed: bool, reset: bool) {
    match m
    case Data(offset, bytes, fin) =>
      && Matches(m, written)
      && (fin ==> closed && offset + |bytes| == |written|)
    case ResetStream(_, finalOffset) => reset && finalOffset == |written|
  }

  /** What an entry holds, and what was read through it, is the stream. */
  ghost predicate Holding(rx: Rx, out: Bytes, written: Bytes) {
    && rx.Valid() && rx.end <= |written| < OFFSET_LIMIT
    && Faithful(rx.assembler.data, written)
    && rx.assembler.bytesRead <= |written| && out == written[..rx.assembler.bytesRead]
  }

  /** And so is its final size, once it is known. */
  ghost predicate Honest(rx: Rx, out: Bytes, written: Bytes, closed: bool) {
    && Holding(rx, out, written)
    && (rx.FinalOffset().Some? ==> closed && rx.FinalOffset().value == |written|)
  }

  ghost predicate Inv(w: World) {
    var written := w.sender.written;
    var closed := w.sender.tx.state != Ready;
    && S.Inv(w.sender) && |written| < OFFSET_LIMIT
    && (w.sender.tx.finPending ==> closed)
    && !w.failed
    && (forall id :: id in w.net ==> Genuine(w.net[id], written, closed, w.sender.tx.state == ResetSent))
    && FinLimits(w.net, w.sender.tx.finPending, closed)
    && (w.entry.Open? ==> Honest(w.entry.rx, w.out, written, closed))
    && w.out <= written
    && (w.complete != [] ==> closed)
    && (forall i :: 0 <= i < |w.complete| ==> w.complete[i] == written)
    && w.sender.earlier == []
    && EndsPaid(w)
  }

  predicate Ends(m: Message) {
    m.Data? && m.fin
  }

  /** FIN travels once: `retransmit` does not restore it, and `finish` is refused
      the second time. */
  ghost predicate FinLimits(net: map<S.Id, Message>, finPending: bool, closed: bool) {
    && (forall i, j :: i in net && j in net && Ends(net[i]) && Ends(net[j]) ==> i == j)
    && (forall i :: i in net && Ends(net[i]) ==> !finPending && closed)
  }

  /** How often a FIN frame was taken in. */
  function FinsTaken(net: map<S.Id, Message>, taken: seq<S.Id>): nat
    decreases |taken|
  {
    if taken == [] then 0
    else
      var last := taken[|taken| - 1];
      FinsTaken(net, taken[..|taken| - 1]) + if last in net && Ends(net[last]) then 1 else 0
  }

  /** The receiver knows a final size only from a FIN frame that it has taken in
      since it last reported the end. */
  ghost predicate EndsPaid(w: World) {
    |w.complete| + (if SizeKnown(w.entry) then 1 else 0) <= FinsTaken(w.net, w.taken)
  }

  predicate SizeKnown(entry: Entry) {
    entry.Open? && entry.rx.state.Receiving? && entry.rx.FinalOffset().Some?
  }

  /** The event does not write to a stream that is finished, wholly acknowledged
      and forgotten. */
  predicate Once(w: World, e: Event) {
    !(e.Local? && e.action.Write? && w.sender.gone)
  }

  lemma NewHonest(written: Bytes, closed: bool)
    requires |written| < OFFSET_LIMIT
    ensures Honest(NEW_RECV, [], written, closed)
  {}

  lemma IngestHonest(rx: Rx, out: Bytes, m: Message, payloadLen: nat, written: Bytes, closed: bool, reset: bool)
    requires Honest(rx, out, written, closed) && m.Data? && Genuine(m, written, closed, reset)
    requires |m.bytes| <= payloadLen
    ensures var (rx', r) := rx.Ingest(m.offset, m.bytes, m.fin, payloadLen);
            r.Ingested? && Honest(rx', out, written, closed)
  {
    hide Ordered, Length, Allocation, Place, Faithful;
    IngestKeeps(rx, m.offset, m.bytes, m.fin, payloadLen);
    InsertFaithful(rx.assembler, m.offset, m.bytes, payloadLen, written);
  }

  lemma ResetHonest(rx: Rx, out: Bytes, m: Message, written: Bytes, closed: bool, reset: bool)
    requires Honest(rx, out, written, closed) && m.ResetStream? && Genuine(m, written, closed, reset)
    requires reset ==> closed
    ensures var (rx', r) := rx.Reset(m.errorCode, m.finalOffset);
            r != ResetSizeError && Honest(rx', out, written, closed)
  {
    hide Length, Allocation, Place;
    LengthWithinAllocation(rx.assembler.data, rx.assembler.bytesRead, rx.assembler.end);
    ClearKeeps(rx.assembler, written);
  }

  lemma ClearKeeps(a: Asm, written: Bytes)
    requires a.Valid()
    ensures a.Clear().Valid() && Faithful(a.Clear().data, written)
  {
    LengthWithinAllocation(a.data, a.bytesRead, a.end);
  }

  lemma NextHonest(rx: Rx, out: Bytes, maxLength: nat, written: Bytes, closed: bool)
    requires Honest(rx, out, written, closed)
    ensures var (rx', r) := rx.Next(maxLength);
            && Honest(rx', if r.Read? then out + r.chunk.bytes else out, written, closed)
            && (r == EndOfStream ==> out == written && closed)
  {
    hide Ordered, Length, Allocation, Faithful, Asm.Read;
    ReadKeeps(rx.assembler, maxLength);
    ReadFaithful(rx.assembler, maxLength, written);
    ReadEnd(rx.assembler, maxLength);
    var (a, chunk) := rx.assembler.Read(maxLength);
    if chunk.Some? {
      assert written[..rx.assembler.bytesRead] + chunk.value.bytes == written[..a.bytesRead];
    }
  }

  lemma StopHonest(rx: Rx, out: Bytes, written: Bytes, closed: bool)
    requires Honest(rx, out, written, closed) && rx.assembler.bytesRead <= rx.end
    ensures Honest(rx.Stop().0, out, written, closed)
  {
    hide Ordered, Length, Allocation;
    ClearKeeps(rx.assembler, written);
  }

  /** Writing more leaves everything said before true. */
  lemma GrowHonest(rx: Rx, out: Bytes, written: Bytes, data: Bytes)
    requires Honest(rx, out, written, false) && |written + data| < OFFSET_LIMIT
    ensures Honest(rx, out, written + data, false)
  {
    hide Ordered, Length, Allocation, Faithful;
    FaithfulGrows(rx.assembler.data, written, data);
  }

  lemma GrowGenuine(m: Message, written: Bytes, data: Bytes)
    requires Genuine(m, written, false, false)
    ensures Genuine(m, written + data, false, false)
  {
    if m.Data? { SliceConcat(written, data, m.offset, m.offset + |m.bytes|); }
  }

  /** A transmission is genuine. */
  lemma SentGenuine(s: S.Sender, maxLen: nat)
    requires S.Sound(s) && s.Live() && maxLen >= 25 && s.tx.pending.offset <= VARINT_MAX
    requires s.tx.finPending ==> s.tx.state != Ready
    ensures var (tx, frame, _) := s.tx.Transmit(maxLen);
            && tx.pending.unackedLen <= tx.pending.offset
            && (frame.Some? && FrameIsWhole(tx.pending, frame.value.offsets) ==>
                  Genuine(Sent(tx.pending, frame.value), s.written, s.tx.state != Ready, false))
  {
    hide Total, Joined, Slice, InOneSegment, SendBuf.PollTransmit, SendBuf.Get;
    PollKeeps(s.tx.pending, maxLen);
    var (tx, frame, _) := s.tx.Transmit(maxLen);
    if frame.Some? && FrameIsWhole(tx.pending, frame.value.offsets) && !frame.value.offsets.Empty() {
      PollHolds(s.tx.pending, s.written, maxLen);
      GetIsPrefix(tx.pending, s.written, frame.value.offsets);
    }
  }

  lemma PollHolds(b: SendBuf, written: Bytes, maxLen: nat)
    requires b.Valid() && Holds(b, written) && maxLen >= 16 && b.offset <= VARINT_MAX
    ensures Holds(b.PollTransmit(maxLen).0, written)
  {
    hide Total, Joined, SendBuf.PollTransmit;
    PollKeeps(b, maxLen);
  }

  /** What a local action may do to the stream's own record. */
  lemma LocalEffect(s: S.Sender, a: S.Action)
    requires S.Inv(s) && S.Enabled(s, a) && (s.tx.finPending ==> s.tx.state != Ready) && !(a.Write? && s.gone)
    ensures var t := S.Do(s, a);
            && t.earlier == s.earlier
            && (t.tx.finPending ==> t.tx.state != Ready)
            && (s.tx.state != Ready ==> t.tx.state != Ready)
            && (s.tx.state == ResetSent ==> t.tx.state == ResetSent)
            && (t.tx.finPending ==> s.tx.finPending || s.tx.state == Ready)
            && (t.written == s.written ||
                (a.Write? && s.tx.state == t.tx.state == Ready && t.written == s.written + a.data))
  {
    hide SendBuf.Ack, SendBuf.PollTransmit, SendBuf.Valid, Holds, S.Split;
  }

  lemma LocalKept(w: World, a: S.Action)
    requires Inv(w) && Enabled(w, Local(a)) && Once(w, Local(a))
    ensures Inv(Do(w, Local(a)))
  {
    hide SendBuf.Ack, SendBuf.PollTransmit, SendBuf.Valid, Holds, S.Partitioned, S.FinOnce, Honest, Genuine, S.Do, Tx.Transmit,
         S.Enabled, FrameIsWhole, FinLimits, FinsTaken;
    var s := w.sender;
    var t := S.Do(s, a);
    LocalEffect(s, a);
    S.InvKept(s, a);
    var w' := Do(w, Local(a));
    var closed, reset := s.tx.state != Ready, s.tx.state == ResetSent;
    if a.Transmit? { TransmitGenuine(s, a); }
    FinKept(w, a);
    if t.written == s.written {
      forall id | id in w'.net ensures Genuine(w'.net[id], t.written, t.tx.state != Ready, t.tx.state == ResetSent) {
        if id in w.net { CloseGenuine(w.net[id], s.written, closed, reset, t.tx.state != Ready, t.tx.state == ResetSent); }
      }
      if w.entry.Open? { CloseHonest(w.entry.rx, w.out, s.written, closed, t.tx.state != Ready); }
    } else {
      forall id | id in w.net ensures Genuine(w.net[id], t.written, false, false) { GrowGenuine(w.net[id], s.written, a.data); }
      if w.entry.Open? { GrowHonest(w.entry.rx, w.out, s.written, a.data); }
    }
  }

  /** A local action keeps FIN to one message, and takes none in. */
  lemma FinKept(w: World, a: S.Action)
    requires Inv(w) && Enabled(w, Local(a)) && Once(w, Local(a))
    ensures var w' := Do(w, Local(a));
            && FinLimits(w'.net, w'.sender.tx.finPending, w'.sender.tx.state != Ready)
            && FinsTaken(w.net, w.taken) <= FinsTaken(w'.net, w'.taken)
  {
    hide SendBuf.Ack, SendBuf.PollTransmit, SendBuf.Valid, Holds, S.Partitioned, S.FinOnce, Honest, Genuine, S.Do, Tx.Transmit,
         S.Enabled, FrameIsWhole, EndsPaid;
    var w' := Do(w, Local(a));
    LocalEffect(w.sender, a);
    if a.Transmit? { TransmitFin(w.sender, a); }
    FinsGrow(w.net, w'.net, w.taken);
  }

  /** Messages are never changed, so no FIN is forgotten. */
  lemma {:induction false} FinsGrow(net: map<S.Id, Message>, net': map<S.Id, Message>, taken: seq<S.Id>)
    requires forall i :: i in net ==> i in net' && net'[i] == net[i]
    ensures FinsTaken(net, taken) <= FinsTaken(net', taken)
    decreases |taken|
  {
    if taken != [] { FinsGrow(net, net', taken[..|taken| - 1]); }
  }

  lemma TransmitFin(s: S.Sender, a: S.Action)
    requires S.Inv(s) && a.Transmit? && S.Enabled(s, a)
    ensures var (tx, frame, _) := s.tx.Transmit(a.maxLen);
            && S.Do(s, a).tx == tx
            && (frame.Some? && frame.value.fin ==> s.tx.finPending && !tx.finPending)
  {
    hide SendBuf.PollTransmit, SendBuf.Valid, Holds, S.Split;
  }

  lemma TransmitGenuine(s: S.Sender, a: S.Action)
    requires S.Inv(s) && a.Transmit? && S.Enabled(s, a) && (s.tx.finPending ==> s.tx.state != Ready)
    ensures S.Do(s, a).tx.state == s.tx.state && S.Do(s, a).written == s.written
    ensures var (tx, frame, _) := s.tx.Transmit(a.maxLen);
            && tx.pending.unackedLen <= tx.pending.offset
            && (frame.Some? && FrameIsWhole(tx.pending, frame.value.offsets) ==>
                  Genuine(Sent(tx.pending, frame.value), s.written, s.tx.state != Ready, s.tx.state == ResetSent))
  {
    hide SendBuf.PollTransmit, SendBuf.Valid, Holds, S.Split, FrameIsWhole, Sent;
    SentGenuine(s, a.maxLen);
  }

  lemma CloseGenuine(m: Message, written: Bytes, closed: bool, reset: bool, closed': bool, reset': bool)
    requires Genuine(m, written, closed, reset) && (closed ==> closed') && (reset ==> reset')
    ensures Genuine(m, written, closed', reset')
  {}

  lemma CloseHonest(rx: Rx, out: Bytes, written: Bytes, closed: bool, closed': bool)
    requires Honest(rx, out, written, closed) && (closed ==> closed')
    ensures Honest(rx, out, written, closed')
  {
    hide Ordered, Length, Allocation, Faithful;
  }

  lemma DeliverKept(w: World, id: S.Id, payloadLen: nat)
    requires Inv(w) && Enabled(w, Deliver(id, payloadLen))
    ensures Inv(Do(w, Deliver(id, payloadLen)))
  {
    hide Inv, Do;
    InvSound(w);
    if w.net[id].Data? { DataKept(w, id, payloadLen); } else { ResetTaken(w, id, payloadLen); }
  }

  lemma InvSound(w: World)
    requires Inv(w)
    ensures S.Sound(w.sender)
  {}

  lemma DataKept(w: World, id: S.Id, payloadLen: nat)
    requires Inv(w) && Enabled(w, Deliver(id, payloadLen)) && w.net[id].Data?
    ensures Inv(Do(w, Deliver(id, payloadLen)))
  {
    hide Honest, Genuine, S.Inv, Rx.Ingest, Rx.Reset, Rx.IngestDefined, FinLimits, FinsTaken;
    var written, closed, reset := w.sender.written, w.sender.tx.state != Ready, w.sender.tx.state == ResetSent;
    var m := w.net[id];
    NewHonest(written, closed);
    Taking(w.net, w.taken, id);
    var e := EntryFor(w, m);
    if e.Open? && e.rx.IsReceiving() {
      var out := if e == w.entry then w.out else [];
      IngestHonest(e.rx, out, m, payloadLen, written, closed, reset);
      IngestState(e.rx, m, payloadLen);
    }
  }

  lemma ResetTaken(w: World, id: S.Id, payloadLen: nat)
    requires Inv(w) && Enabled(w, Deliver(id, payloadLen)) && w.net[id].ResetStream?
    ensures Inv(Do(w, Deliver(id, payloadLen)))
  {
    hide Honest, Genuine, S.Inv, Rx.Ingest, Rx.Reset, Rx.IngestDefined, FinLimits, FinsTaken;
    var written, closed, reset := w.sender.written, w.sender.tx.state != Ready, w.sender.tx.state == ResetSent;
    var m := w.net[id];
    NewHonest(written, closed);
    Taking(w.net, w.taken, id);
    var rx := if w.entry.Open? then w.entry.rx else NEW_RECV;
    var out := if w.entry.Open? then w.out else [];
    ResetHonest(rx, out, m, written, closed, reset);
    ResetState(rx, m.errorCode, m.finalOffset);
  }

  /** A delivery of FIN counts one more. */
  lemma Taking(net: map<S.Id, Message>, taken: seq<S.Id>, id: S.Id)
    requires id in net
    ensures FinsTaken(net, taken + [id]) == FinsTaken(net, taken) + if Ends(net[id]) then 1 else 0
  {
    assert (taken + [id])[..|taken|] == taken;
  }

  lemma IngestState(rx: Rx, m: Message, payloadLen: nat)
    requires m.Data?
    ensures var (rx', r) := rx.Ingest(m.offset, m.bytes, m.fin, payloadLen);
            !m.fin ==> rx'.state == rx.state
  {}

  lemma ResetState(rx: Rx, errorCode: nat, finalOffset: nat)
    ensures var (rx', r) := rx.Reset(errorCode, finalOffset); r != ResetSizeError ==> !rx'.IsReceiving()
  {}

  lemma NextState(rx: Rx, maxLength: nat)
    ensures var (rx', r) := rx.Next(maxLength); rx'.state == rx.state && (r == EndOfStream ==> rx.IsReceiving() && rx.FinalOffset().Some?)
  {}

  lemma ReadKept(w: World, maxLength: nat)
    requires Inv(w) && Enabled(w, ReadChunk(maxLength))
    ensures Inv(Do(w, ReadChunk(maxLength)))
  {
    hide Ordered, Length, Allocation, Faithful, Genuine, S.Inv, Rx.Next, Rx.Valid;
    NextHonest(w.entry.rx, w.out, maxLength, w.sender.written, w.sender.tx.state != Ready);
    NextState(w.entry.rx, maxLength);
  }

  lemma InvKept(w: World, e: Event)
    requires Inv(w) && Enabled(w, e) && Once(w, e)
    ensures Inv(Do(w, e))
  {
    hide Honest, S.Inv, S.Enabled, S.Do, Rx.Ingest, Rx.Reset, Rx.Next, FrameIsWhole;
    match e {
      case Local(a) => LocalKept(w, a);
      case SendReset(_, _) => ResetKept(w, e);
      case Deliver(id, payloadLen) => DeliverKept(w, id, payloadLen);
      case ReadChunk(maxLength) => ReadKept(w, maxLength);
      case StopReading => StopHonest(w.entry.rx, w.out, w.sender.written, w.sender.tx.state != Ready);
    }
  }

  lemma ResetKept(w: World, e: Event)
    requires Inv(w) && Enabled(w, e) && e.SendReset?
    ensures Inv(Do(w, e))
  {
    hide Honest, S.Sound, S.Partitioned, S.FinOnce, FinsTaken;
    OffsetIsLength(w.sender);
    FinsGrow(w.net, Do(w, e).net, w.taken);
  }

  lemma OffsetIsLength(s: S.Sender)
    requires S.Inv(s)
    ensures s.tx.pending.offset == |s.written|
  {}

  // ------------------------------------------------------------------- theorems

  lemma SoundKept(w: World, e: Event)
    requires S.Sound(w.sender) && Enabled(w, e)
    ensures S.Sound(Do(w, e).sender)
  {
    hide S.Sound, S.Do, S.Enabled, FrameIsWhole, Tx.Transmit, Sent;
    if e.Local? { S.SoundKept(w.sender, e.action); }
  }

  ghost predicate Legal(w: World, events: seq<Event>)
    requires S.Sound(w.sender)
    decreases |events|
  {
    events != [] ==>
      && Enabled(w, events[0])
      && (SoundKept(w, events[0]); Legal(Do(w, events[0]), events[1..]))
  }

  ghost function Run(w: World, events: seq<Event>): World
    requires S.Sound(w.sender) && Legal(w, events)
    decreases |events|
  {
    if events == [] then w
    else
      SoundKept(w, events[0]);
      Run(Do(w, events[0]), events[1..])
  }

  ghost predicate AllOnce(w: World, events: seq<Event>)
    requires S.Sound(w.sender) && Legal(w, events)
    decreases |events|
  {
    events != [] ==>
      && Once(w, events[0])
      && (SoundKept(w, events[0]); AllOnce(Do(w, events[0]), events[1..]))
  }

  lemma StartInv(local: bool)
    ensures Inv(Start(local))
  {
    hide S.Inv, S.Retained, Honest;
    S.StartInv();
    NewHonest([], false);
  }

  /** A run from the beginning in which no side panics. */
  ghost predicate Possible(local: bool, events: seq<Event>) {
    S.StartSound();
    Legal(Start(local), events)
  }

  ghost function Reached(local: bool, events: seq<Event>): World
    requires Possible(local, events)
  {
    S.StartSound();
    Run(Start(local), events)
  }

  /** A run in which nothing is written to the stream after it was forgotten. */
  ghost predicate SingleUse(local: bool, events: seq<Event>) {
    Possible(local, events) && (S.StartSound(); AllOnce(Start(local), events))
  }

  lemma {:induction false} RunKeeps(w: World, events: seq<Event>)
    requires Inv(w) && Legal(w, events) && AllOnce(w, events)
    ensures Inv(Run(w, events))
    decreases |events|
  {
    hide Do, S.Partitioned, S.FinOnce, SendBuf.Valid, Holds, Honest, Genuine, Enabled, EndsPaid;
    if events != [] {
      InvKept(w, events[0]);
      RunKeeps(Do(w, events[0]), events[1..]);
    }
  }

  lemma ReachedKeeps(local: bool, events: seq<Event>)
    requires SingleUse(local, events)
    ensures Inv(Reached(local, events))
  {
    hide Inv, Run, Legal, AllOnce, S.Sound;
    StartInv(local);
    S.StartSound();
    RunKeeps(Start(local), events);
  }

  /** End-to-end safety: whatever is written, sent, lost, repeated, reordered,
      acknowledged, reset, delivered and read, what the application has read is
      a prefix of what was written; whenever it was told that the stream had
      ended, it had read all of it and the sender had closed the stream; and the
      receiver never sees a reason to fail the connection. The one thing that must
      not happen is a write after the stream was finished and forgotten. */
  lemma BytesReadArePrefix(local: bool, events: seq<Event>)
    requires SingleUse(local, events)
    ensures var w := Reached(local, events);
            && w.out <= w.sender.written
            && (forall i :: 0 <= i < |w.complete| ==> w.complete[i] == w.sender.written)
            && (w.complete != [] ==> w.sender.tx.state != Ready)
            && !w.failed
  {
    hide Reached, SingleUse, Possible, S.Inv, Honest, Genuine;
    ReachedKeeps(local, events);
  }

  /** The known final size is the length of the stream. */
  lemma FinalSizeIsLength(local: bool, events: seq<Event>)
    requires SingleUse(local, events)
    ensures var w := Reached(local, events);
            w.entry.Open? && w.entry.rx.FinalOffset().Some? ==>
              w.entry.rx.FinalOffset().value == |w.sender.written|
  {
    hide Reached, SingleUse, Possible, S.Inv, Genuine, Faithful, Ordered;
    ReachedKeeps(local, events);
  }

  /** It is told so at most once for every delivery of the FIN frame. */
  lemma ReportedPerFin(local: bool, events: seq<Event>)
    requires SingleUse(local, events)
    ensures var w := Reached(local, events); |w.complete| <= FinsTaken(w.net, w.taken)
  {
    hide Reached, SingleUse, Possible, S.Inv, Honest, Genuine, FinLimits, FinsTaken;
    ReachedKeeps(local, events);
  }

  /** No message was taken in twice. */
  predicate NoneTwice(taken: seq<S.Id>) {
    forall i, j :: 0 <= i < j < |taken| ==> taken[i] != taken[j]
  }

  /** So it is told so at most once, whoever opened the stream, unless a message
      is taken in twice: FIN travels in one message only. */
  lemma ReportedOnce(local: bool, events: seq<Event>)
    requires SingleUse(local, events) && NoneTwice(Reached(local, events).taken)
    ensures |Reached(local, events).complete| <= 1
  {
    hide Reached, AllOnce, Possible, S.Inv, Honest, Genuine, FinLimits, FinsTaken, NoneTwice;
    var w := Reached(local, events);
    ReachedKeeps(local, events);
    OneFin(w.net, w.taken, w.sender.tx.finPending, w.sender.tx.state != Ready);
  }

  lemma {:induction false} OneFin(net: map<S.Id, Message>, taken: seq<S.Id>, finPending: bool, closed: bool)
    requires FinLimits(net, finPending, closed) && NoneTwice(taken)
    ensures FinsTaken(net, taken) <= 1
    ensures FinsTaken(net, taken) == 1 ==> exists k :: 0 <= k < |taken| && taken[k] in net && Ends(net[taken[k]])
    decreases |taken|
  {
    if taken != [] {
      var front := taken[..|taken| - 1];
      OneFin(net, front, finPending, closed);
      if FinsTaken(net, front) == 1 {
        var k :| 0 <= k < |front| && front[k] in net && Ends(net[front[k]]);
        assert taken[k] == front[k];
      }
    }
  }

  /** The end is reported exactly when it should be: in every such run, a read finds
      it if and only if FIN has arrived and the whole stream was read. */
  lemma EndExactly(local: bool, events: seq<Event>, maxLength: nat)
    requires SingleUse(local, events)
    ensures var w := Reached(local, events);
            w.entry.Open? && w.entry.rx.IsReceiving() ==>
              (w.entry.rx.Next(maxLength).1 == EndOfStream <==>
                 w.entry.rx.FinalOffset().Some? && w.out == w.sender.written)
  {
    hide Reached, AllOnce, Possible, S.Inv, Genuine, FinLimits, FinsTaken, Faithful, Ordered, Length, Allocation, Rx.Next;
    var w := Reached(local, events);
    ReachedKeeps(local, events);
    if w.entry.Open? {
      NextExact(w.entry.rx, maxLength);
      ReadWithinEnd(w.entry.rx);
    }
  }

  /** Delivery to a stream without an entry, such as one that was read to its
      end, makes a new entry exactly for RESET_STREAM, and for a first frame
      without FIN unless the receiver opened the stream itself. */
  lemma ReopensExactly(w: World, id: S.Id, payloadLen: nat)
    requires Inv(w) && w.entry == Vacant && Enabled(w, Deliver(id, payloadLen))
    ensures var m := w.net[id];
            Do(w, Deliver(id, payloadLen)).entry.Open? <==> m.ResetStream? || (!w.local && m.offset == 0 && !m.fin)
  {
    hide S.Inv, Honest, Rx.Ingest, FinLimits, FinsTaken;
    DeliverKept(w, id, payloadLen);
    NewIngest(w.net[id], payloadLen);
  }

  lemma NewIngest(m: Message, payloadLen: nat)
    ensures m.Data? ==>
              var (rx, r) := NEW_RECV.Ingest(m.offset, m.bytes, m.fin, payloadLen);
              !rx.stopped && (r.Ingested? <==> m.offset + |m.bytes| < OFFSET_LIMIT)
  {}

  // ------------------------------------------------------------- what delivery is worth

  /** The bytes of the frame are at the receiver, read or buffered. */
  predicate AtHand(entry: Entry, m: Message)
    requires m.Data?
  {
    entry.Open? && forall x: nat :: m.offset <= x < m.offset + |m.bytes| ==> Have(entry.rx.assembler, x)
  }

  /** When delivery puts a frame's bytes at hand: exactly if the stream has an
      entry or the frame makes one, and the entry takes data or has the bytes
      already. In particular a frame of a stream that the peer opened is lost if
      it arrives before the first one, or is the first one and carries FIN; its
      packet is acknowledged all the same, and the bytes are never sent again. */
  lemma DeliveredAtHand(w: World, id: S.Id, payloadLen: nat)
    requires Inv(w) && Enabled(w, Deliver(id, payloadLen)) && w.net[id].Data? && w.net[id].bytes != []
    ensures var m := w.net[id];
            var e := EntryFor(w, m);
            AtHand(Do(w, Deliver(id, payloadLen)).entry, m)
            <==> e.Open? && (if e.rx.IsReceiving() && !e.rx.stopped then true
                             else AtHand(w.entry, m) && (e.rx.IsReceiving() ==> !m.fin))
  {
    hide S.Inv, Genuine, FinLimits, FinsTaken, EndsPaid, Asm.Insert, Asm.InsertDefined, Have, Faithful, Ordered;
    var m := w.net[id];
    var e := EntryFor(w, m);
    DeliverKept(w, id, payloadLen);
    if e.Open? && e.rx.IsReceiving() {
      var out := if e == w.entry then w.out else [];
      NewHonest(w.sender.written, w.sender.tx.state != Ready);
      IngestHonest(e.rx, out, m, payloadLen, w.sender.written, w.sender.tx.state != Ready, w.sender.tx.state == ResetSent);
      if !e.rx.stopped { InsertHas(e.rx.assembler, m.offset, m.bytes, payloadLen); }
    }
  }
}
