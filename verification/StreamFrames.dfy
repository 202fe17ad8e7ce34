/** Filling a packet with STREAM frames (`write_stream_frames` in
    core/src/connection/stream/state.rs), as a function on values: which streams
    are served, what leaves each of them, and what the bytes mean to a parser. */
module StreamFrames {
  import opened Core
  import opened VarInt
  import opened SendBuffer
  import opened SendLaws
  import opened SendStream
  import opened Scheduler
  import F = Frames
  import L = RangeList
  import R = Recovery

  /** Room that a STREAM frame must find: type, id, offset and length. */
  const SIZE_BOUND: nat := 25

  /** One STREAM frame as it is written: the metadata that goes into its header,
      and the bytes that follow. */
  datatype Chunk = Chunk(meta: R.StreamMeta, length: bool, data: Bytes) {
    predicate Writable() {
      meta.id <= VARINT_MAX && meta.offsets.start <= meta.offsets.end <= VARINT_MAX
    }

    /** The bytes that the header declares are the bytes that follow. */
    predicate Whole() {
      |data| == meta.offsets.end - meta.offsets.start
    }

    function Type(): nat {
      0x08 + (if meta.offsets.start != 0 then 4 else 0) + (if length then 2 else 0) + (if meta.fin then 1 else 0)
    }

    function Header(): Bytes
      requires Writable()
    {
      PutVarint(Type()) + PutVarint(meta.id)
      + (if meta.offsets.start != 0 then PutVarint(meta.offsets.start) else [])
      + (if length then PutVarint(meta.offsets.end - meta.offsets.start) else [])
    }

    function Encode(): Bytes
      requires Writable()
    {
      Header() + data
    }
  }

  predicate AllWritable(chunks: seq<Chunk>) {
    forall i :: 0 <= i < |chunks| ==> chunks[i].Writable()
  }

  function Wire(chunks: seq<Chunk>): Bytes
    requires AllWritable(chunks)
    decreases |chunks|
  {
    if chunks == [] then [] else chunks[0].Encode() + Wire(chunks[1..])
  }

  /** The sending streams and the queue of those that are pending. */
  datatype Streams = Streams(send: map<nat, Tx>, queue: Queue) {
    /** A live stream that is not reset and has data or FIN to send. */
    predicate Wants(id: nat) {
      id in send && send[id].state != ResetSent && send[id].IsPending()
    }
  }

  /** Every stream that has something to send has an entry in the queue. */
  ghost predicate Scheduled(s: Streams) {
    forall id :: s.Wants(id) ==> s.queue.Has(id)
  }

  /** A stream whose offsets fit the wire and whose waiting offsets are still
      buffered; otherwise encoding or `get` panics. */
  ghost predicate Sendable(t: Tx) {
    && t.pending.Valid() && t.pending.offset <= VARINT_MAX && t.pending.Base() <= t.pending.unsent
    && forall x: nat :: L.Has(t.pending.retransmits, x) ==> t.pending.Base() <= x
  }

  ghost predicate AllSendable(s: Streams) {
    forall id :: id in s.send && s.send[id].state != ResetSent ==> id <= VARINT_MAX && Sendable(s.send[id])
  }

  /** With something to send and room for a header, a frame always results: the
      branch of the source that gives up on an empty range is never taken. */
  lemma TransmitProduces(t: Tx, room: nat)
    requires Sendable(t) && t.IsPending() && room >= SIZE_BOUND
    ensures var (t', frame, length) := t.Transmit(room);
            && frame.Some? && Sendable(t')
            && t' == t.(pending := t.pending.(unsent := t'.pending.unsent, retransmits := t'.pending.retransmits),
                        finPending := t'.finPending)
            && t.pending.Base() <= frame.value.offsets.start <= frame.value.offsets.end <= t.pending.offset
            && Outstanding(t'.pending) == Outstanding(t.pending) - (frame.value.offsets.end - frame.value.offsets.start)
            && (t'.finPending <==> t.finPending && !frame.value.fin) && (frame.value.fin ==> t.finPending && frame.value.offsets.end == t.pending.offset)
            && (frame.value.offsets.Empty() ==> frame.value.fin && !t'.IsPending())
            && (!length ==> Cost(frame.value.offsets, length) == room)
  {
    hide L.Insert, L.Canonical, L.Has, SendBuf.PollTransmit, Outstanding;
    PollKeeps(t.pending, room);
    PollShrinks(t.pending, room);
    PollBudget(t.pending, room);
    if t.pending.HasUnsentData() {
      PollStalls(t.pending, room);
      RangeBuffered(t.pending, room);
    }
  }

  /** The polled range is buffered, because the waiting offsets are. */
  lemma RangeBuffered(b: SendBuf, room: nat)
    requires b.Valid() && b.offset <= VARINT_MAX && room >= SIZE_BOUND && b.HasUnsentData() && b.Base() <= b.unsent
    requires forall x: nat :: L.Has(b.retransmits, x) ==> b.Base() <= x
    ensures b.Base() <= b.PollTransmit(room).1.start
  {
    hide L.Insert, L.Canonical, SendBuf.PollTransmit;
    PollKeeps(b, room);
    PollStalls(b, room);
    var r := b.PollTransmit(room).1;
    assert r.Contains(r.start);
  }

  datatype Outcome = Skip | Emit(chunk: Chunk)

  /** One turn of the loop: pop an entry, and send for its stream if that is
      live, not reset and pending. */
  ghost function Turn(s: Streams, room: nat, fair: bool): (Streams, Outcome)
    requires AllSendable(s) && room >= SIZE_BOUND && s.queue.Size() > 0
  {
    var (q, e) := s.queue.Pop();
    var id := e.value.id;
    if !s.Wants(id) then (s.(queue := q), Skip)
    else
      TransmitProduces(s.send[id], room);
      var (t, frame, length) := s.send[id].Transmit(room);
      var r := frame.value.offsets;
      var data := if r.Empty() then [] else t.pending.Get(r);
      var q' := if !t.IsPending() then q else if fair then q.Push(id, t.priority) else q.Reinsert(id, t.priority);
      (Streams(s.send[id := t], q'), Emit(Chunk(R.StreamMeta(id, r, frame.value.fin), length, data)))
  }

  function Left(room: nat, used: nat): nat {
    if used <= room then room - used else 0
  }

  /** The whole loop: the streams afterwards and the frames written. Room runs
      out, or the queue does. */
  ghost function Fill(s: Streams, room: nat, fair: bool): (Streams, seq<Chunk>)
    requires AllSendable(s)
    decreases room, s.queue.Size()
  {
    if room < SIZE_BOUND || s.queue.Size() == 0 then (s, [])
    else
      TurnKeeps(s, room, fair);
      var (s', out) := Turn(s, room, fair);
      if out.Skip? then Fill(s', room, fair)
      else
        var rest := Fill(s', Left(room, |out.chunk.Encode()|), fair);
        (rest.0, [out.chunk] + rest.1)
  }

  lemma HeaderNotEmpty(c: Chunk)
    requires c.Writable()
    ensures |c.Encode()| == 1 + VarintLen(c.meta.id) + Cost(c.meta.offsets, c.length) + |c.data| - (c.meta.offsets.end - c.meta.offsets.start)
  {
    hide PutVarint;
  }

  lemma TurnKeeps(s: Streams, room: nat, fair: bool)
    requires AllSendable(s) && room >= SIZE_BOUND && s.queue.Size() > 0
    ensures var (s', out) := Turn(s, room, fair);
            && AllSendable(s') && s'.send.Keys == s.send.Keys
            && (out.Skip? ==> s'.queue.Size() < s.queue.Size() && s'.send == s.send)
            && (out.Emit? ==> out.chunk.Writable() && |out.chunk.Encode()| > 0)
  {
    hide L.Has, L.Canonical, SendBuf.PollTransmit, SendBuf.Valid, Sendable, Chunk.Encode, Best, Outstanding, Tx.Transmit, SendBuf.Get;
    var id := s.queue.Pop().1.value.id;
    if s.Wants(id) {
      TransmitProduces(s.send[id], room);
      SendableBounds(s.send[id]);
      HeaderNotEmpty(Turn(s, room, fair).1.chunk);
    }
  }

  lemma SendableBounds(t: Tx)
    requires Sendable(t)
    ensures t.pending.offset <= VARINT_MAX && t.pending.Valid()
  {}

  // ------------------------------------------------------------ nobody is forgotten

  /** In unfair mode a stream that has more to send is served again before any
      other. */
  lemma UnfairStays(s: Streams, room: nat, room': nat)
    requires AllSendable(s) && SIZE_BOUND <= room' <= room && s.queue.Size() > 0
    requires Turn(s, room, false).1.Emit?
    ensures var (s', out) := Turn(s, room, false);
            s'.Wants(out.chunk.meta.id) ==>
              && AllSendable(s') && s'.queue.Size() > 0
              && Turn(s', room', false).1.Emit? && Turn(s', room', false).1.chunk.meta.id == out.chunk.meta.id
  {
    hide Sendable, Queue.Has, Best, Tx.Transmit, SendBuf.Get, SendBuf.Valid, Outstanding;
    TurnKeeps(s, room, false);
    var (s', out) := Turn(s, room, false);
    TransmitProduces(s.send[s.queue.Pop().1.value.id], room);
    if s'.Wants(out.chunk.meta.id) {
      TransmitProduces(s'.send[out.chunk.meta.id], room');
    }
  }

  lemma PopHas(q: Queue, id: nat)
    requires q.Has(id)
    ensures q.Pop().1.Some? && (q.Pop().0.Has(id) || q.Pop().1.value.id == id)
  {
    if q.next.None? {
      var i :| 0 <= i < |q.waiting| && q.waiting[i].id == id;
      var k := Best(q.waiting);
      var rest := q.waiting[..k] + q.waiting[k + 1..];
      assert i < k ==> rest[i].id == id;
      assert i > k ==> rest[i - 1].id == id;
    }
  }

  lemma PushHas(q: Queue, id: nat, priority: int, other: nat)
    ensures q.Push(id, priority).Has(other) <==> q.Has(other) || other == id
  {
    var q' := q.Push(id, priority);
    assert q'.waiting[|q.waiting|].id == id;
    if exists i :: 0 <= i < |q.waiting| && q.waiting[i].id == other {
      var i :| 0 <= i < |q.waiting| && q.waiting[i].id == other;
      assert q'.waiting[i].id == other;
    }
  }

  lemma TurnScheduled(s: Streams, room: nat, fair: bool)
    requires AllSendable(s) && room >= SIZE_BOUND && s.queue.Size() > 0 && Scheduled(s)
    ensures Scheduled(Turn(s, room, fair).0)
  {
    hide Sendable, Queue.Has, Best, Tx.Transmit, SendBuf.Get, SendBuf.Valid;
    var s' := Turn(s, room, fair).0;
    var (q, e) := s.queue.Pop();
    var id := e.value.id;
    if s.Wants(id) { TransmitProduces(s.send[id], room); }
    PopNext(s.queue);
    forall other | s'.Wants(other) ensures s'.queue.Has(other) {
      if s.Wants(other) { PopHas(s.queue, other); }
      if s'.Wants(id) {
        PushHas(q, id, s'.send[id].priority, other);
        ReinsertHas(q, id, s'.send[id].priority, other);
      }
    }
  }

  /** After a pop the place for an unfinished stream is free. */
  lemma PopNext(q: Queue)
    ensures q.Pop().0.next.None?
  {}

  lemma ReinsertHas(q: Queue, id: nat, priority: int, other: nat)
    requires q.next.None?
    ensures q.Reinsert(id, priority).Has(other) <==> q.Has(other) || other == id
  {}

  /** Filling a packet keeps every pending stream queued, and leaves one pending
      only if the room is used up. */
  lemma {:induction false} FillServesAll(s: Streams, room: nat, fair: bool)
    requires AllSendable(s) && Scheduled(s)
    ensures var (s', chunks) := Fill(s, room, fair);
            && AllSendable(s') && Scheduled(s') && AllWritable(chunks)
            && (Left(room, |Wire(chunks)|) < 25 || forall id :: !s'.Wants(id))
    decreases room, s.queue.Size()
  {
    hide AllSendable, Queue.Has, Turn, Chunk.Encode, Chunk.Writable;
    if room < SIZE_BOUND {
    } else if s.queue.Size() == 0 {
      NobodyWaits(s);
    } else {
      TurnKeeps(s, room, fair);
      TurnScheduled(s, room, fair);
      var (s', out) := Turn(s, room, fair);
      if out.Skip? {
        FillServesAll(s', room, fair);
      } else {
        FillServesAll(s', Left(room, |out.chunk.Encode()|), fair);
        WireCons(out.chunk, Fill(s', Left(room, |out.chunk.Encode()|), fair).1);
      }
    }
  }

  lemma NobodyWaits(s: Streams)
    requires s.queue.Size() == 0 && Scheduled(s)
    ensures forall id :: !s.Wants(id)
  {}

  lemma WireCons(c: Chunk, chunks: seq<Chunk>)
    requires c.Writable() && AllWritable(chunks)
    ensures AllWritable([c] + chunks) && Wire([c] + chunks) == c.Encode() + Wire(chunks)
  {
    assert ([c] + chunks)[1..] == chunks;
  }

  // ------------------------------------------------------------------ conservation

  /** Bytes that the frames declare for one stream. */
  function Carried(chunks: seq<Chunk>, id: nat): int
    decreases |chunks|
  {
    if chunks == [] then 0
    else Carried(chunks[1..], id)
         + if chunks[0].meta.id == id then chunks[0].meta.offsets.end - chunks[0].meta.offsets.start else 0
  }

  function Fins(chunks: seq<Chunk>, id: nat): nat
    decreases |chunks|
  {
    if chunks == [] then 0 else Fins(chunks[1..], id) + if chunks[0].meta.id == id && chunks[0].meta.fin then 1 else 0
  }

  function Pending(t: Tx): nat {
    if t.finPending then 1 else 0
  }

  /** What filling a packet does to one stream: the bytes and the FIN that its
      frames declare no longer wait, and nothing else about it changes. */
  ghost predicate Moved(t: Tx, t': Tx, bytes: int, fins: nat) {
    && t' == t.(pending := t.pending.(unsent := t'.pending.unsent, retransmits := t'.pending.retransmits),
                finPending := t'.finPending)
    && Outstanding(t'.pending) + bytes == Outstanding(t.pending)
    && Pending(t') + fins == Pending(t)
  }

  lemma {:induction false} FillConserves(s: Streams, room: nat, fair: bool, id: nat)
    requires AllSendable(s) && id in s.send
    ensures var (s', chunks) := Fill(s, room, fair);
            id in s'.send && Moved(s.send[id], s'.send[id], Carried(chunks, id), Fins(chunks, id))
    decreases room, s.queue.Size()
  {
    hide AllSendable, Turn, Chunk.Encode, Chunk.Writable, Outstanding;
    if room >= SIZE_BOUND && s.queue.Size() > 0 {
      TurnKeeps(s, room, fair);
      TurnMoves(s, room, fair, id);
      var (s', out) := Turn(s, room, fair);
      if out.Skip? {
        FillConserves(s', room, fair, id);
      } else {
        FillConserves(s', Left(room, |out.chunk.Encode()|), fair, id);
        var rest := Fill(s', Left(room, |out.chunk.Encode()|), fair).1;
        assert ([out.chunk] + rest)[1..] == rest;
      }
    }
  }

  lemma TurnMoves(s: Streams, room: nat, fair: bool, id: nat)
    requires AllSendable(s) && room >= SIZE_BOUND && s.queue.Size() > 0 && id in s.send
    ensures var (s', out) := Turn(s, room, fair);
            && id in s'.send
            && (out.Skip? ==> s'.send == s.send)
            && (out.Emit? ==>
                  if out.chunk.meta.id == id
                  then Moved(s.send[id], s'.send[id], out.chunk.meta.offsets.end - out.chunk.meta.offsets.start,
                             if out.chunk.meta.fin then 1 else 0)
                  else s'.send[id] == s.send[id])
  {
    hide Sendable, Queue.Has, Best, Tx.Transmit, SendBuf.Get, SendBuf.Valid, Outstanding;
    var other := s.queue.Pop().1.value.id;
    if s.Wants(other) { TransmitProduces(s.send[other], room); }
  }

  // ------------------------------------------------------------------ on the wire

  /** The frame as its encoder sees it. */
  function AsFrame(c: Chunk): F.Out {
    F.OutStream(c.meta.id, c.meta.offsets.start, c.data, c.meta.fin, c.length)
  }

  function AsFrames(chunks: seq<Chunk>): seq<F.Out> {
    seq(|chunks|, i requires 0 <= i < |chunks| => AsFrame(chunks[i]))
  }

  lemma WholeEncodes(c: Chunk)
    requires c.Writable() && c.Whole()
    ensures F.WellFormed(AsFrame(c)) && F.EncodeFrame(AsFrame(c)) == c.Encode()
  {
    hide PutVarint;
  }

  /** A frame without a length is always the last one: it uses up the room. */
  lemma {:induction false} OnlyLastIsOpen(s: Streams, room: nat, fair: bool)
    requires AllSendable(s)
    ensures var chunks := Fill(s, room, fair).1;
            && AllWritable(chunks)
            && ((forall i :: 0 <= i < |chunks| ==> chunks[i].Whole())
                ==> forall i :: 0 <= i < |chunks| - 1 ==> chunks[i].length)
    decreases room, s.queue.Size()
  {
    hide AllSendable, Turn, Chunk.Encode, Chunk.Writable, Chunk.Whole;
    if room >= SIZE_BOUND && s.queue.Size() > 0 {
      TurnKeeps(s, room, fair);
      var (s', out) := Turn(s, room, fair);
      if out.Skip? {
        OnlyLastIsOpen(s', room, fair);
      } else {
        var left := Left(room, |out.chunk.Encode()|);
        OnlyLastIsOpen(s', left, fair);
        OpenFills(s, room, fair);
        var rest := Fill(s', left, fair).1;
        var chunks := [out.chunk] + rest;
        assert chunks[0] == out.chunk && chunks[1..] == rest;
        assert forall i :: 0 < i < |chunks| ==> chunks[i] == rest[i - 1];
        if forall i :: 0 <= i < |chunks| ==> chunks[i].Whole() {
          assert forall i :: 0 <= i < |rest| ==> rest[i] == chunks[i + 1];
          assert chunks[0].Whole();
        }
      }
    }
  }

  lemma OpenFills(s: Streams, room: nat, fair: bool)
    requires AllSendable(s) && room >= SIZE_BOUND && s.queue.Size() > 0
    ensures var out := Turn(s, room, fair).1;
            out.Emit? && !out.chunk.length && out.chunk.Whole() ==>
              out.chunk.Writable() && |out.chunk.Encode()| == room + 1 + VarintLen(out.chunk.meta.id)
  {
    hide Sendable, Queue.Has, Best, Tx.Transmit, SendBuf.Get, SendBuf.Valid, Outstanding, Chunk.Encode;
    var id := s.queue.Pop().1.value.id;
    if s.Wants(id) {
      TransmitProduces(s.send[id], room);
      TurnKeeps(s, room, fair);
      HeaderNotEmpty(Turn(s, room, fair).1.chunk);
    }
  }

  lemma {:induction false} WireIsEncoding(chunks: seq<Chunk>)
    requires AllWritable(chunks) && forall i :: 0 <= i < |chunks| ==> chunks[i].Whole()
    requires forall i :: 0 <= i < |chunks| - 1 ==> chunks[i].length
    ensures F.Payload(AsFrames(chunks)) && F.EncodeAll(AsFrames(chunks)) == Wire(chunks)
    decreases |chunks|
  {
    hide F.WellFormed, F.EncodeFrame, Chunk.Encode;
    forall i | 0 <= i < |chunks| ensures F.WellFormed(AsFrames(chunks)[i]) { WholeEncodes(chunks[i]); }
    if chunks != [] {
      WireIsEncoding(chunks[1..]);
      WholeEncodes(chunks[0]);
      assert AsFrames(chunks)[1..] == AsFrames(chunks[1..]);
    }
  }

  /** If every frame's data lay in one segment, a parser of the packet sees
      exactly the frames that were written. */
  lemma FramesArrive(s: Streams, room: nat, fair: bool)
    requires AllSendable(s) && forall i :: 0 <= i < |Fill(s, room, fair).1| ==> Fill(s, room, fair).1[i].Whole()
    ensures var chunks := Fill(s, room, fair).1;
            && AllWritable(chunks) && F.Payload(AsFrames(chunks))
            && F.ParseAll(Wire(chunks)) == (F.ExpectedAll(AsFrames(chunks)), None)
  {
    hide F.Payload, F.ParseAll, F.ExpectedAll, F.EncodeAll, AllSendable, Fill;
    OnlyLastIsOpen(s, room, fair);
    var chunks := Fill(s, room, fair).1;
    WireIsEncoding(chunks);
    F.PayloadRoundTrip(AsFrames(chunks));
  }

  /** The buffers hold what was written to their streams. */
  ghost predicate Backed(s: Streams, written: map<nat, Bytes>) {
    forall id :: id in s.send && s.send[id].state != ResetSent ==>
      id in written && Holds(s.send[id].pending, written[id])
  }

  /** A frame's data are bytes that were written at its offset: some of them, if
      it declares any; and FIN ends what was written. */
  predicate Truthful(c: Chunk, written: map<nat, Bytes>) {
    && c.meta.id in written
    && c.meta.offsets.start <= c.meta.offsets.end <= |written[c.meta.id]|
    && c.meta.offsets.start + |c.data| <= c.meta.offsets.end
    && c.data == written[c.meta.id][c.meta.offsets.start..c.meta.offsets.start + |c.data|]
    && (c.meta.offsets.start < c.meta.offsets.end ==> c.data != [])
    && (c.meta.fin ==> c.meta.offsets.end == |written[c.meta.id]|)
  }

  /** A parsed STREAM frame says nothing but the truth about its stream. */
  predicate Genuine(f: F.Frame, written: map<nat, Bytes>) {
    && f.Stream? && f.id in written && f.offset + |f.data| <= |written[f.id]|
    && f.data == written[f.id][f.offset..f.offset + |f.data|]
    && (f.fin ==> f.offset + |f.data| == |written[f.id]|)
  }

  /** A whole packet, from the buffers of all its streams to the parser: if every
      frame of every stream in it carries all its data, the receiver parses exactly
      these frames, and each is genuine. The condition is about all of them: the
      data of one stream arrive only if no frame before them in the packet falls
      short, whichever stream that belongs to (`ShortFrameSwallows`). */
  lemma PacketArrives(s: Streams, room: nat, fair: bool, written: map<nat, Bytes>)
    requires AllSendable(s) && Backed(s, written)
    requires forall c :: c in Fill(s, room, fair).1 ==> c.Whole()
    ensures var chunks := Fill(s, room, fair).1;
            && AllWritable(chunks)
            && var (frames, error) := F.ParseAll(Wire(chunks));
               && error.None? && |frames| == |chunks|
               && forall i :: 0 <= i < |frames| ==>
                    && Genuine(frames[i], written)
                    && frames[i].id == chunks[i].meta.id && frames[i].offset == chunks[i].meta.offsets.start
                    && |frames[i].data| == chunks[i].meta.offsets.end - chunks[i].meta.offsets.start
                    && frames[i].fin == chunks[i].meta.fin
  {
    hide F.ParseAll, F.ExpectedAll, AllSendable, Fill, Backed, F.Payload, Truthful, Wire;
    FramesArrive(s, room, fair);
    FillData(s, room, fair, written);
    var chunks := Fill(s, room, fair).1;
    ExpectedEach(AsFrames(chunks));
    forall i | 0 <= i < |chunks| ensures Truthful(chunks[i], written) { assert chunks[i] in chunks; }
    forall i | 0 <= i < |chunks| ensures Genuine(F.Expected(AsFrame(chunks[i])), written) { TruthIsGenuine(chunks[i], written); }
  }

  lemma TruthIsGenuine(c: Chunk, written: map<nat, Bytes>)
    requires Truthful(c, written) && c.Whole() && F.WellFormed(AsFrame(c))
    ensures Genuine(F.Expected(AsFrame(c)), written)
  {}

  lemma {:induction false} ExpectedEach(os: seq<F.Out>)
    requires F.Payload(os)
    ensures |F.ExpectedAll(os)| == |os|
    ensures forall i :: 0 <= i < |os| ==> F.WellFormed(os[i]) && F.ExpectedAll(os)[i] == F.Expected(os[i])
    decreases |os|
  {
    hide F.WellFormed, F.Expected, F.SelfDelimiting;
    if os != [] { ExpectedEach(os[1..]); }
  }

  /** The data of every frame is a true prefix of what it declares, all of it
      exactly when one segment of the buffer holds the range. */
  lemma TurnData(s: Streams, room: nat, fair: bool, written: map<nat, Bytes>)
    requires AllSendable(s) && room >= SIZE_BOUND && s.queue.Size() > 0 && Backed(s, written)
    ensures Backed(Turn(s, room, fair).0, written)
    ensures var out := Turn(s, room, fair).1;
            out.Emit? ==>
              && Truthful(out.chunk, written) && s.Wants(out.chunk.meta.id)
              && (out.chunk.Whole() <==> Contiguous(s.send[out.chunk.meta.id].pending, out.chunk.meta.offsets))
  {
    hide Queue.Has, Best, Tx.Transmit, Sendable, Holds, SendBuf.Get, SendBuf.Valid, Contiguous, Outstanding, Taken;
    var id := s.queue.Pop().1.value.id;
    if s.Wants(id) {
      TransmitProduces(s.send[id], room);
      FrameData(s.send[id], room, written[id]);
      SendableBounds(s.send[id]);
      var (t, frame, _) := s.send[id].Transmit(room);
      TakenMeans(t, frame.value.offsets);
    }
  }

  /** The bytes that follow a header. */
  ghost function Taken(t: Tx, r: Range): Bytes
    requires t.pending.unackedLen <= t.pending.offset && (r.start < r.end ==> t.pending.Base() <= r.start)
  {
    if r.Empty() then [] else t.pending.Get(r)
  }

  lemma TakenMeans(t: Tx, r: Range)
    requires t.pending.Valid() && t.pending.Base() <= r.start
    ensures Taken(t, r) == if r.Empty() then [] else t.pending.Get(r)
  {}

  lemma FrameData(t: Tx, room: nat, written: Bytes)
    requires Sendable(t) && t.IsPending() && room >= SIZE_BOUND && Holds(t.pending, written)
    ensures t.pending.Valid() && t.pending.Base() <= t.pending.offset
    ensures var (t', frame, _) := t.Transmit(room);
            && frame.Some? && t'.pending.Valid() && t'.pending.Base() <= frame.value.offsets.start
            && Holds(t'.pending, written)
            && var r := frame.value.offsets;
               var data := Taken(t', r);
               && r.start <= r.end <= |written| && r.start + |data| <= r.end
               && data == written[r.start..r.start + |data|] && (r.start < r.end ==> data != [])
               && (|data| == r.end - r.start <==> Contiguous(t.pending, r))
               && (frame.value.fin ==> r.end == |written|)
  {
    hide Tx.Transmit, L.Has, L.Canonical, Outstanding, InOneSegment, Total, Joined, SendBuf.Get;
    TransmitProduces(t, room);
    var (t', frame, _) := t.Transmit(room);
    var r := frame.value.offsets;
    if !r.Empty() { GetIsPrefix(t'.pending, written, r); }
  }

  /** A range that one segment holds, or an empty one. */
  ghost predicate Contiguous(b: SendBuf, r: Range)
    requires b.unackedLen <= b.offset
  {
    r.start < r.end ==> b.Base() <= r.start && InOneSegment(b.segments, r.start - b.Base(), r.end - b.Base())
  }

  lemma {:induction false} FillData(s: Streams, room: nat, fair: bool, written: map<nat, Bytes>)
    requires AllSendable(s) && Backed(s, written)
    ensures forall c :: c in Fill(s, room, fair).1 ==> Truthful(c, written)
    decreases room, s.queue.Size()
  {
    hide AllSendable, Turn, Chunk.Encode, Chunk.Writable, Truthful, Backed;
    if room >= SIZE_BOUND && s.queue.Size() > 0 {
      TurnKeeps(s, room, fair);
      TurnData(s, room, fair, written);
      var (s', out) := Turn(s, room, fair);
      FillData(s', if out.Skip? then room else Left(room, |out.chunk.Encode()|), fair, written);
    }
  }

  /** The range that the next frame of a stream begins with. */
  function Wanted(b: SendBuf): Range {
    if b.retransmits != [] then b.retransmits[0] else Range(b.unsent, b.offset)
  }

  /** Bytes from `pos` to the end of its segment. */
  function SegmentRest(segments: seq<Bytes>, pos: nat): nat
    decreases |segments|
  {
    if segments == [] then 0
    else if pos < |segments[0]| then |segments[0]| - pos
    else SegmentRest(segments[1..], pos - |segments[0]|)
  }

  lemma {:induction false} SliceLength(segments: seq<Bytes>, pos: nat, len: nat)
    ensures |Slice(segments, pos, len)| == Min(len, SegmentRest(segments, pos))
    decreases |segments|
  {
    if segments != [] && pos >= |segments[0]| { SliceLength(segments[1..], pos - |segments[0]|, len); }
  }

  /** Whether the next frame fits the room it is given. Of the room, `m` is left
      after the offset. A range that fills it is cut to `m` bytes without a
      length; a shorter one gets a length and leaves eight bytes for it. What
      follows the header is what the first segment holds. The type byte and the
      id were never counted. */
  predicate Fits(b: SendBuf, id: nat, room: nat)
    requires room >= SIZE_BOUND && b.unackedLen <= b.offset <= VARINT_MAX && id <= VARINT_MAX
    requires b.Base() <= Wanted(b).start <= Wanted(b).end <= VARINT_MAX
  {
    var w := Wanted(b);
    var m := room - if w.start != 0 then VarintLen(w.start) else 0;
    var open := w.end - w.start >= m;
    var n := if open then m else Min(w.end - w.start, m - 8);
    var held := Min(n, SegmentRest(b.segments, w.start - b.Base()));
    1 + VarintLen(id) + (if open then 0 else VarintLen(n)) + held <= m
  }

  /** What `Transmit` puts into a frame, in terms of the wanted range. */
  lemma TransmitWanted(t: Tx, room: nat)
    requires Sendable(t) && room >= SIZE_BOUND && t.IsPending()
    ensures t.pending.Base() <= Wanted(t.pending).start <= Wanted(t.pending).end <= VARINT_MAX
    ensures var w := Wanted(t.pending);
            var m := room - if w.start != 0 then VarintLen(w.start) else 0;
            var (t', frame, length) := t.Transmit(room);
            && frame.Some?
            && (length <==> w.end - w.start < m)
            && frame.value.offsets.start == w.start
            && frame.value.offsets.end - w.start == (if length then Min(w.end - w.start, m - 8) else m)
            && t'.pending.segments == t.pending.segments && t'.pending.unackedLen == t.pending.unackedLen
            && t'.pending.offset == t.pending.offset
  {
    hide L.Insert, L.Canonical;
    TransmitProduces(t, room);
    PollBounds(t.pending);
    if t.pending.retransmits != [] {
      var r := t.pending.retransmits[0];
      L.HasStart(t.pending.retransmits, 0);
      assert r.Contains(r.end - 1);
      assert L.Has(t.pending.retransmits, r.end - 1);
    }
  }

  /** A frame fits the room it was given if and only if `Fits` says so before the
      call. A frame that does not is never finished: the packet is a slice of
      bytes, and writing past its end panics. */
  lemma FrameFitsExactly(s: Streams, room: nat, fair: bool)
    requires AllSendable(s) && room >= SIZE_BOUND && s.queue.Size() > 0 && Turn(s, room, fair).1.Emit?
    ensures var c := Turn(s, room, fair).1.chunk;
            && c.Writable() && s.Wants(c.meta.id)
            && var b := s.send[c.meta.id].pending;
               && b.unackedLen <= b.offset <= VARINT_MAX
               && b.Base() <= Wanted(b).start <= Wanted(b).end <= VARINT_MAX
               && (|c.Encode()| <= room <==> Fits(b, c.meta.id, room))
  {
    hide Turn, Chunk.Encode, SegmentRest, SendBuf.Valid;
    TurnKeeps(s, room, fair);
    TurnHeld(s, room, fair);
    HeaderNotEmpty(Turn(s, room, fair).1.chunk);
  }

  /** One turn's frame in terms of what its stream wanted. */
  lemma TurnHeld(s: Streams, room: nat, fair: bool)
    requires AllSendable(s) && room >= SIZE_BOUND && s.queue.Size() > 0 && Turn(s, room, fair).1.Emit?
    ensures var c := Turn(s, room, fair).1.chunk;
            && c.meta.id <= VARINT_MAX && s.Wants(c.meta.id)
            && var b := s.send[c.meta.id].pending;
               var w := Wanted(b);
               && b.unackedLen <= b.offset <= VARINT_MAX && b.Base() <= w.start <= w.end <= VARINT_MAX
               && var m := room - if w.start != 0 then VarintLen(w.start) else 0;
                  && (c.length <==> w.end - w.start < m)
                  && c.meta.offsets.start == w.start
                  && c.meta.offsets.end - w.start == (if c.length then Min(w.end - w.start, m - 8) else m)
                  && |c.data| == Min(c.meta.offsets.end - w.start, SegmentRest(b.segments, w.start - b.Base()))
  {
    hide Queue.Has, Best, Tx.Transmit, Outstanding, L.Has, L.Canonical, Total, SegmentRest, Slice, Wanted;
    var id := s.queue.Pop().1.value.id;
    var b := s.send[id].pending;
    TransmitProduces(s.send[id], room);
    TransmitWanted(s.send[id], room);
    var r := Turn(s, room, fair).1.chunk.meta.offsets;
    SliceLength(b.segments, r.start - b.Base(), r.end - r.start);
  }

  /** For ids below 2^30 and packets below 2^14 bytes, a frame that carries all it
      declares fits exactly if it has a length, that is, if the wanted range is
      shorter than the room. */
  lemma UsualFramesFit(b: SendBuf, id: nat, room: nat)
    requires SIZE_BOUND <= room < 0x4000 && b.unackedLen <= b.offset <= VARINT_MAX && id < 0x4000_0000
    requires b.Base() <= Wanted(b).start <= Wanted(b).end <= VARINT_MAX
    requires Wanted(b).end - Wanted(b).start <= SegmentRest(b.segments, Wanted(b).start - b.Base())
    ensures Fits(b, id, room) <==>
              Wanted(b).end - Wanted(b).start < room - if Wanted(b).start != 0 then VarintLen(Wanted(b).start) else 0
  {}

  /** With an eight-byte id a frame with a length overruns too: twenty bytes in a
      room of 25 make a frame of 27. */
  lemma LongIdOverruns(data: Bytes, id: nat)
    requires |data| == 20 && 0x4000_0000 <= id <= VARINT_MAX
    ensures var b := SendBuf([data], 20, 20, 0, [], []);
            var c := Chunk(R.StreamMeta(id, Range(0, 17), false), true, data[..17]);
            && !Fits(b, id, 25)
            && b.Valid() && NEW_SEND.(pending := b).Transmit(25).1 == Some(Frame(Range(0, 17), false))
            && c.Writable() && |c.Encode()| == 27
  {
    hide Joined, Chunk.Encode;
    assert [data][1..] == [];
    assert Total([data]) == 20;
    assert [data][0] == data && SegmentRest([data], 0) == 20;
    HeaderNotEmpty(Chunk(R.StreamMeta(id, Range(0, 17), false), true, data[..17]));
  }

  /** No frame of the packet overruns it: otherwise the source panics. */
  ghost predicate Finishes(s: Streams, room: nat, fair: bool)
    requires AllSendable(s)
    decreases room, s.queue.Size()
  {
    room < SIZE_BOUND || s.queue.Size() == 0 ||
    (TurnKeeps(s, room, fair);
     var (s', out) := Turn(s, room, fair);
     if out.Skip? then Finishes(s', room, fair)
     else |out.chunk.Encode()| <= room && Finishes(s', Left(room, |out.chunk.Encode()|), fair))
  }

  /** A packet that is finished stays within its room, and each of its frames
      that carries all its data has a length. */
  lemma {:induction false} FinishedPacket(s: Streams, room: nat, fair: bool)
    requires AllSendable(s) && Finishes(s, room, fair)
    ensures var chunks := Fill(s, room, fair).1;
            && AllWritable(chunks) && |Wire(chunks)| <= room
            && forall c :: c in chunks && c.Whole() ==> c.length
    decreases room, s.queue.Size()
  {
    hide AllSendable, Turn, Chunk.Encode, Chunk.Writable, Chunk.Whole;
    if room >= SIZE_BOUND && s.queue.Size() > 0 {
      TurnKeeps(s, room, fair);
      var (s', out) := Turn(s, room, fair);
      if out.Skip? {
        FinishedPacket(s', room, fair);
      } else {
        var left := Left(room, |out.chunk.Encode()|);
        FinishedPacket(s', left, fair);
        OpenFills(s, room, fair);
        WireCons(out.chunk, Fill(s', left, fair).1);
      }
    }
  }

  /** A frame with less data than its header declares makes the parser take the
      bytes that follow, whatever they are, for the rest of the data. */
  lemma ShortFrameSwallows(c: Chunk, rest: Bytes)
    requires c.Writable() && c.length && !c.Whole()
    requires |c.data| < c.meta.offsets.end - c.meta.offsets.start <= |c.data| + |rest|
    ensures var missing := c.meta.offsets.end - c.meta.offsets.start - |c.data|;
            F.ParseFrame(c.Encode() + rest)
            == F.Done(F.Stream(c.meta.id, c.meta.offsets.start, c.meta.fin, c.data + rest[..missing]), rest[missing..])
  {
    hide PutVarint, F.ParseFrame, F.EncodeFrame, F.WellFormed, Chunk.Header;
    var missing := c.meta.offsets.end - c.meta.offsets.start - |c.data|;
    var full := c.(data := c.data + rest[..missing]);
    WholeEncodes(full);
    SameHeader(c, full);
    F.FrameRoundTrip(AsFrame(full), rest[missing..]);
    assert full.Header() + (c.data + rest[..missing]) + rest[missing..] == c.Header() + c.data + rest;
  }

  /** Without a length, the parser takes everything that follows for data. */
  lemma OpenFrameSwallows(c: Chunk, rest: Bytes)
    requires c.Writable() && !c.length && c.meta.offsets.start + |c.data| + |rest| <= VARINT_MAX
    ensures F.ParseFrame(c.Encode() + rest)
         == F.Done(F.Stream(c.meta.id, c.meta.offsets.start, c.meta.fin, c.data + rest), [])
  {
    hide PutVarint, F.ParseFrame, F.EncodeFrame, F.WellFormed;
    var full := Chunk(c.meta.(offsets := Range(c.meta.offsets.start, c.meta.offsets.start + |c.data| + |rest|)), false,
                      c.data + rest);
    WholeEncodes(full);
    F.FrameRoundTrip(AsFrame(full), []);
    assert c.Encode() + rest == full.Encode() + [];
  }

  lemma SameHeader(c: Chunk, d: Chunk)
    requires c.Writable() && d == c.(data := d.data)
    ensures d.Writable() && c.Header() == d.Header()
  {}

  const TWO_WRITES: Tx := NEW_SEND.(pending := SendBuf([[7], [8]], 2, 2, 0, [], []))

  lemma TwoWrites()
    ensures NEW_SEND.Write([7]).0.Write([8]).0 == TWO_WRITES && TWO_WRITES.pending.Valid()
  {
    assert [[7]] + [[8]] == [[7], [8]];
    assert Total([[8]]) == 1 by { assert [[8]][1..] == []; }
    assert Total([[7], [8]]) == 2 by { assert [[7], [8]][1..] == [[8]]; }
  }

  /** Two one-byte writes make such a frame: it declares two bytes and carries
      one. */
  lemma TwoWritesShortFrame()
    ensures NEW_SEND.Write([7]).0.Write([8]).0 == TWO_WRITES && TWO_WRITES.pending.Valid()
    ensures var (t, frame, length) := TWO_WRITES.Transmit(100);
            && frame == Some(Frame(Range(0, 2), false)) && length
            && t.pending == TWO_WRITES.pending.(unsent := 2) && t.pending.Get(Range(0, 2)) == [7]
  {
    hide Total, Joined, L.Insert, L.Has, L.Canonical;
    TwoWrites();
  }
}
