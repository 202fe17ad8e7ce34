/** Stream priorities: the queue knows them, and in fair mode a packet serves the
    streams in their order (core/src/connection/stream/send.rs and state.rs). */
module Priorities {
  import opened Core
  import opened VarInt
  import opened SendBuffer
  import opened SendStream
  import opened Scheduler
  import opened StreamFrames
  import opened ST = Streams
  import R = Recovery

  predicate Queued(q: Queue, e: PendingStream) {
    e in q.waiting || q.next == Some(e)
  }

  /** Every queue entry of a stream carries the priority of that stream. */
  ghost predicate Prioritised(s: Streams) {
    forall e :: Queued(s.queue, e) && e.id in s.send ==> e.priority == s.send[e.id].priority
  }

  // ---------------------------------------------------------------------- queueing

  /** The queue after one entry was added behind all others. */
  predicate Behind(q: Queue, q': Queue, id: nat, priority: int) {
    && q'.next == q.next && q'.recency == q.recency - 1
    && |q'.waiting| == |q.waiting| + 1 && q'.waiting[..|q.waiting|] == q.waiting
    && q'.waiting[|q.waiting|] == PendingStream(priority, q.recency - 1, id)
  }

  /** Writing to, finishing, or losing a frame of a stream that was not pending adds
      one entry for it, the last, with its own priority. If the stream was pending,
      or the call is refused, the queue stays as it was. */
  lemma QueuesOnce(s: Streams, id: nat, data: Bytes, f: R.StreamMeta)
    ensures var t := Entry(s, id);
            var written := t.state == Ready && t.stopReason.None?;
            var s' := WriteTo(s, id, data);
            && (written && !t.IsPending() ==> Behind(s.queue, s'.queue, id, t.priority))
            && (!written || t.IsPending() ==> s'.queue == s.queue)
    ensures var s' := FinishOf(s, id);
            var finished := id in s.send && s.send[id].state == Ready && s.send[id].stopReason.None?;
            && (finished && !s.send[id].IsPending() ==> Behind(s.queue, s'.queue, id, s.send[id].priority))
            && (!finished || s.send[id].IsPending() ==> s'.queue == s.queue)
    ensures var s' := LossOf(s, f);
            var lost := f.id in s.send && s.send[f.id].state != ResetSent;
            && (lost && !s.send[f.id].IsPending() ==> Behind(s.queue, s'.queue, f.id, s.send[f.id].priority))
            && (!lost || s.send[f.id].IsPending() ==> s'.queue == s.queue)
  {}

  // -------------------------------------------------------------------- calls and runs

  datatype Call =
    | Opened(id: nat)
    | Wrote(id: nat, data: Bytes)
    | Finishing(id: nat)
    | Resetting(id: nat)
    | SetPriority(id: nat, priority: int)
    | Acked(frame: R.StreamMeta)
    | Lost(frame: R.StreamMeta)
    | Packet(room: nat, fair: bool)

  /** The call does not make the code panic. */
  ghost predicate Defined(s: Streams, c: Call) {
    && (c.Acked? ==> AckDefined(s, c.frame))
    && (c.Packet? ==> AllSendable(s))
  }

  ghost function After(s: Streams, c: Call): Streams
    requires Defined(s, c)
  {
    match c
    case Opened(id) => s.(send := s.send[id := NEW_SEND])
    case Wrote(id, data) => WriteTo(s, id, data)
    case Finishing(id) => FinishOf(s, id)
    case Resetting(id) => if id in s.send then s.(send := s.send[id := s.send[id].Reset()]) else s
    case SetPriority(id, p) => if id in s.send then s.(send := s.send[id := s.send[id].(priority := p)]) else s
    case Acked(f) => AckOf(s, f)
    case Lost(f) => LossOf(s, f)
    case Packet(room, fair) => Fill(s, room, fair).0
  }

  /** The priority that the stream of an id has from now on agrees with the entries
      that the queue still holds for it. */
  ghost predicate Agrees(q: Queue, id: nat, priority: int) {
    forall e :: Queued(q, e) && e.id == id ==> e.priority == priority
  }

  /** A change of priority, or a new stream, meets no stale entry. */
  ghost predicate Undisturbed(s: Streams, c: Call) {
    match c
    case SetPriority(id, p) => id in s.send ==> Agrees(s.queue, id, p)
    case Opened(id) => Agrees(s.queue, id, 0)
    case Wrote(id, _) => id !in s.send ==> Agrees(s.queue, id, 0)
    case _ => true
  }

  lemma PushQueued(q: Queue, id: nat, priority: int, e: PendingStream)
    ensures Queued(q.Push(id, priority), e) <==> Queued(q, e) || e == PendingStream(priority, q.recency - 1, id)
  {}

  /** Putting a stream back with an unchanged priority. */
  lemma RequeueKeeps(s: Streams, id: nat, t: Tx, wasPending: bool)
    requires Prioritised(s) && Agrees(s.queue, id, t.priority)
    ensures Prioritised(Requeue(s, id, t, wasPending))
  {
    hide Queued;
    var s' := Requeue(s, id, t, wasPending);
    forall e | Queued(s'.queue, e) && e.id in s'.send ensures e.priority == s'.send[e.id].priority {
      PushQueued(s.queue, id, t.priority, e);
    }
  }

  lemma AgreesNow(s: Streams, id: nat)
    requires Prioritised(s) && id in s.send
    ensures Agrees(s.queue, id, s.send[id].priority)
  {}

  lemma WriteKeeps(s: Streams, id: nat, data: Bytes)
    requires Prioritised(s)
    ensures Prioritised(WriteTo(s, id, data)) <==> Undisturbed(s, Wrote(id, data))
  {
    hide Queued, SendBuf.Write;
    var s' := WriteTo(s, id, data);
    var t := Entry(s, id);
    if id in s.send { AgreesNow(s, id); }
    if Agrees(s.queue, id, t.priority) {
      RequeueKeeps(s, id, t.Write(data).0, t.IsPending());
    }
    if Prioritised(s') {
      forall e | Queued(s.queue, e) && e.id == id ensures e.priority == t.priority {
        PushQueued(s.queue, id, t.priority, e);
      }
    }
  }

  lemma LossKeeps(s: Streams, f: R.StreamMeta)
    requires Prioritised(s)
    ensures Prioritised(LossOf(s, f))
  {
    hide Queued;
    if Reaches(s, f) {
      var t := s.send[f.id];
      AgreesNow(s, f.id);
      RequeueKeeps(s, f.id, t.(pending := t.pending.Retransmit(f.offsets)), t.IsPending());
    }
  }

  lemma FinishKeeps(s: Streams, id: nat)
    requires Prioritised(s)
    ensures Prioritised(FinishOf(s, id))
  {
    hide Queued;
    if id in s.send {
      var t := s.send[id];
      AgreesNow(s, id);
      RequeueKeeps(s, id, t.Finish().0, t.IsPending());
    }
  }

  lemma AckKeeps(s: Streams, f: R.StreamMeta)
    requires Prioritised(s) && AckDefined(s, f)
    ensures Prioritised(AckOf(s, f))
  {
    hide Queued, SendBuf.Ack, SendBuf.Valid;
  }

  /** Exactly the calls that meet no stale entry keep the queue informed. */
  lemma KeepsExactly(s: Streams, c: Call)
    requires Prioritised(s) && Defined(s, c)
    ensures Prioritised(After(s, c)) <==> Undisturbed(s, c)
  {
    hide Queued, WriteTo, FinishOf, AckOf, LossOf, Fill, AllSendable, AckDefined;
    match c {
      case Opened(id) => ReplaceKeeps(s, id, NEW_SEND);
      case Wrote(id, data) => WriteKeeps(s, id, data);
      case Finishing(id) => FinishKeeps(s, id);
      case Resetting(id) => if id in s.send { AgreesNow(s, id); ReplaceKeeps(s, id, s.send[id].Reset()); }
      case SetPriority(id, p) => if id in s.send { ReplaceKeeps(s, id, s.send[id].(priority := p)); }
      case Acked(f) => AckKeeps(s, f);
      case Lost(f) => LossKeeps(s, f);
      case Packet(room, fair) => FillKeeps(s, room, fair);
    }
  }

  lemma ReplaceKeeps(s: Streams, id: nat, t: Tx)
    requires Prioritised(s)
    ensures Prioritised(s.(send := s.send[id := t])) <==> Agrees(s.queue, id, t.priority)
  {
    hide Queued;
    var s' := s.(send := s.send[id := t]);
    if Prioritised(s') {
      forall e | Queued(s.queue, e) && e.id == id ensures e.priority == t.priority { assert Queued(s'.queue, e); }
    }
  }

  // ------------------------------------------------------------------- one packet

  lemma PopQueued(q: Queue)
    requires q.Size() > 0
    ensures q.Pop().1.Some? && Queued(q, q.Pop().1.value) && q.Pop().0.next.None?
    ensures forall e :: Queued(q.Pop().0, e) ==> Queued(q, e)
    ensures q.next.None? ==> forall e :: Queued(q, e) ==> e.priority <= q.Pop().1.value.priority
  {}

  lemma ReinsertQueued(q: Queue, id: nat, priority: int, e: PendingStream)
    requires q.next.None?
    ensures Queued(q.Reinsert(id, priority), e) <==> Queued(q, e) || e == PendingStream(priority, q.recency, id)
  {}

  /** One turn serves a stream that wants it, and in fair mode one of the highest
      priority; it makes no stream want service, and leaves all priorities. */
  ghost predicate TurnFair(s: Streams, s': Streams, out: Outcome, fair: bool) {
    && s'.send.Keys == s.send.Keys && (forall id :: id in s.send ==> s'.send[id].priority == s.send[id].priority)
    && (forall id :: s'.Wants(id) ==> s.Wants(id))
    && (fair ==> s'.queue.next.None?)
    && (out.Emit? ==>
          && s.Wants(out.chunk.meta.id)
          && (fair && s.queue.next.None? ==> forall id :: s.Wants(id) ==> s.send[id].priority <= s.send[out.chunk.meta.id].priority))
  }

  lemma TurnIsFair(s: Streams, room: nat, fair: bool)
    requires AllSendable(s) && room >= SIZE_BOUND && s.queue.Size() > 0 && Prioritised(s)
    ensures Prioritised(Turn(s, room, fair).0)
    ensures Scheduled(s) ==> TurnFair(s, Turn(s, room, fair).0, Turn(s, room, fair).1, fair)
  {
    hide Queued, Queue.Has, Tx.Transmit, SendBuf.Get, Best, Sendable, SendBuf.Valid, Queue.Pop, Queue.Push, Queue.Reinsert;
    TurnKeeps(s, room, fair);
    var (s', out) := Turn(s, room, fair);
    var (q, popped) := s.queue.Pop();
    PopQueued(s.queue);
    var id := popped.value.id;
    if s.Wants(id) {
      TransmitProduces(s.send[id], room);
      SendableBounds(s.send[id]);
      var t := s.send[id].Transmit(room).0;
      forall e | Queued(s'.queue, e) && e.id in s'.send ensures e.priority == s'.send[e.id].priority {
        PushQueued(q, id, t.priority, e);
        ReinsertQueued(q, id, t.priority, e);
      }
      PushNext(q, id, t.priority);
    }
    if Scheduled(s) { HighestServed(s); }
  }

  lemma PushNext(q: Queue, id: nat, priority: int)
    ensures q.Push(id, priority).next == q.next
  {}

  /** The entry at the top has at least the priority of every stream that wants
      service. */
  lemma HighestServed(s: Streams)
    requires Scheduled(s) && Prioritised(s) && s.queue.Size() > 0
    ensures s.queue.next.None? ==> forall id :: s.Wants(id) ==> s.send[id].priority <= s.queue.Pop().1.value.priority
  {
    hide Queue.Pop;
    PopQueued(s.queue);
    if s.queue.next.None? {
      forall id | s.Wants(id) ensures s.send[id].priority <= s.queue.Pop().1.value.priority {
        assert s.queue.Has(id);
        var i :| 0 <= i < |s.queue.waiting| && s.queue.waiting[i].id == id;
        assert Queued(s.queue, s.queue.waiting[i]);
      }
    }
  }

  lemma {:induction false} FillKeeps(s: Streams, room: nat, fair: bool)
    requires AllSendable(s) && Prioritised(s)
    ensures Prioritised(Fill(s, room, fair).0)
    decreases room, s.queue.Size()
  {
    hide AllSendable, Turn, Prioritised, Chunk.Encode, Chunk.Writable;
    if room >= SIZE_BOUND && s.queue.Size() > 0 {
      TurnKeeps(s, room, fair);
      TurnIsFair(s, room, fair);
      var (s', out) := Turn(s, room, fair);
      FillKeeps(s', if out.Skip? then room else Left(room, |out.chunk.Encode()|), fair);
    }
  }

  /** The frames that lead from `s` to `s'` come in the order of the priorities of
      their streams, beginning with the highest that wants service, and a stream
      that still wants service has no higher priority than any that was served. */
  ghost predicate InOrder(s: Streams, s': Streams, chunks: seq<Chunk>) {
    && (forall i :: 0 <= i < |chunks| ==> s.Wants(chunks[i].meta.id))
    && (forall i, j :: 0 <= i < j < |chunks| ==>
          s.send[chunks[j].meta.id].priority <= s.send[chunks[i].meta.id].priority)
    && (chunks != [] ==> forall id :: s.Wants(id) ==> s.send[id].priority <= s.send[chunks[0].meta.id].priority)
    && (forall id :: s'.Wants(id) ==> s.Wants(id))
    && (forall id, i :: s'.Wants(id) && 0 <= i < |chunks| ==>
          s.send[id].priority <= s.send[chunks[i].meta.id].priority)
  }

  /** Strict priority: so it is in fair mode, for every packet. */
  lemma {:induction false} FillStrict(s: Streams, room: nat)
    requires AllSendable(s) && Scheduled(s) && Prioritised(s) && s.queue.next.None?
    ensures var (s', chunks) := Fill(s, room, true);
            && s'.queue.next.None? && s'.send.Keys == s.send.Keys
            && (forall id :: id in s.send ==> s'.send[id].priority == s.send[id].priority)
            && InOrder(s, s', chunks)
    decreases room, s.queue.Size()
  {
    hide AllSendable, Turn, Prioritised, Scheduled, Chunk.Encode, Chunk.Writable, Streams.Wants, InOrder, TurnFair;
    OrderNone(s);
    if room >= SIZE_BOUND && s.queue.Size() > 0 {
      TurnKeeps(s, room, true);
      TurnIsFair(s, room, true);
      TurnScheduled(s, room, true);
      var (s', out) := Turn(s, room, true);
      TurnFairMeans(s, s', out);
      var left := if out.Skip? then room else Left(room, |out.chunk.Encode()|);
      FillStrict(s', left);
      var (s'', chunks) := Fill(s', left, true);
      if out.Skip? { OrderSkip(s, s', s'', chunks); } else { OrderCons(s, s', s'', out.chunk, chunks); }
    }
  }

  lemma OrderNone(s: Streams)
    ensures InOrder(s, s, [])
  {}

  lemma TurnFairMeans(s: Streams, s': Streams, out: Outcome)
    requires TurnFair(s, s', out, true)
    ensures s'.send.Keys == s.send.Keys && (forall id :: id in s.send ==> s'.send[id].priority == s.send[id].priority)
    ensures s'.queue.next.None?
  {}

  lemma OrderSkip(s: Streams, s': Streams, s'': Streams, chunks: seq<Chunk>)
    requires s'.send == s.send && InOrder(s', s'', chunks)
    ensures InOrder(s, s'', chunks)
  {
    assert forall id :: s'.Wants(id) <==> s.Wants(id);
  }

  lemma OrderCons(s: Streams, s': Streams, s'': Streams, c: Chunk, chunks: seq<Chunk>)
    requires s.queue.next.None? && TurnFair(s, s', Emit(c), true) && InOrder(s', s'', chunks)
    ensures InOrder(s, s'', [c] + chunks)
  {
    hide Tx.IsPending;
  }

  // ---------------------------------------------------------------------- whole runs

  const NONE: Streams := Streams(map[], NO_STREAMS)

  ghost predicate Legal(s: Streams, calls: seq<Call>)
    decreases |calls|
  {
    calls != [] ==> Defined(s, calls[0]) && Legal(After(s, calls[0]), calls[1..])
  }

  ghost function Run(s: Streams, calls: seq<Call>): Streams
    requires Legal(s, calls)
    decreases |calls|
  {
    if calls == [] then s else Run(After(s, calls[0]), calls[1..])
  }

  /** No call meets a stale entry, and all packets are filled fairly. */
  ghost predicate AllUndisturbed(s: Streams, calls: seq<Call>)
    requires Legal(s, calls)
    decreases |calls|
  {
    calls != [] ==>
      && Undisturbed(s, calls[0]) && (calls[0].Packet? ==> calls[0].fair)
      && AllUndisturbed(After(s, calls[0]), calls[1..])
  }

  lemma CallScheduled(s: Streams, c: Call)
    requires Scheduled(s) && Defined(s, c)
    ensures Scheduled(After(s, c))
    ensures s.queue.next.None? && Prioritised(s) && (c.Packet? ==> c.fair) ==> After(s, c).queue.next.None?
  {
    hide Scheduled, SendBuf.Ack, SendBuf.Valid, AllSendable, Fill;
    match c {
      case Opened(id) => KeepsScheduled(s, id, NEW_SEND);
      case Wrote(id, data) => WriteScheduled(s, id, data);
      case Finishing(id) => if id in s.send && s.send[id].state != ResetSent {
        RequeueScheduled(s, id, s.send[id].Finish().0);
      }
      case Resetting(id) => if id in s.send { KeepsScheduled(s, id, s.send[id].Reset()); }
      case SetPriority(id, p) => if id in s.send { KeepsScheduled(s, id, s.send[id].(priority := p)); }
      case Acked(f) => AckScheduled(s, f);
      case Lost(f) => if Reaches(s, f) {
        RequeueScheduled(s, f.id, s.send[f.id].(pending := s.send[f.id].pending.Retransmit(f.offsets)));
      }
      case Packet(room, fair) =>
        FillServesAll(s, room, fair);
        if Prioritised(s) && s.queue.next.None? && fair { FillStrict(s, room); }
    }
  }

  lemma WriteScheduled(s: Streams, id: nat, data: Bytes)
    requires Scheduled(s)
    ensures Scheduled(WriteTo(s, id, data))
  {
    hide Scheduled, SendBuf.Write;
    var t := Entry(s, id);
    if t.Write(data).1 == Written { RequeueScheduled(s, id, t.Write(data).0); } else { KeepsScheduled(s, id, t); }
  }

  lemma AckScheduled(s: Streams, f: R.StreamMeta)
    requires Scheduled(s) && AckDefined(s, f)
    ensures Scheduled(AckOf(s, f))
  {
    hide Scheduled, SendBuf.Ack, SendBuf.Valid;
    if Reaches(s, f) {
      AckValid(s.send[f.id].pending, f.offsets);
      var (t, done) := s.send[f.id].Ack(Frame(f.offsets, f.fin));
      if done { RemoveScheduled(s, f.id); } else { KeepsScheduled(s, f.id, t); }
    }
  }

  lemma {:induction false} RunKeeps(s: Streams, calls: seq<Call>)
    requires Scheduled(s) && Prioritised(s) && s.queue.next.None? && Legal(s, calls) && AllUndisturbed(s, calls)
    ensures var s' := Run(s, calls); Scheduled(s') && Prioritised(s') && s'.queue.next.None?
    decreases |calls|
  {
    hide Scheduled, Prioritised, Defined, After, Undisturbed;
    if calls != [] {
      CallScheduled(s, calls[0]);
      KeepsExactly(s, calls[0]);
      RunKeeps(After(s, calls[0]), calls[1..]);
    }
  }

  /** Over any run of calls from the beginning, with packets filled fairly and
      priorities changed only while the queue holds no entry that disagrees, the
      next packet serves the streams in the order of their priorities. */
  lemma HighestFirst(calls: seq<Call>, room: nat)
    requires Legal(NONE, calls) && AllUndisturbed(NONE, calls) && AllSendable(Run(NONE, calls))
    ensures var s := Run(NONE, calls);
            var (s', chunks) := Fill(s, room, true);
            InOrder(s, s', chunks)
  {
    hide Legal, Run, AllUndisturbed, AllSendable, Fill, InOrder;
    RunKeeps(NONE, calls);
    FillStrict(Run(NONE, calls), room);
  }
}
