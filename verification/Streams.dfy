/** The sending side of all streams of a connection (`StreamsState` in
    core/src/connection/stream/state.rs, `SendStream` in send.rs). Each stream is
    held as its value, which class `Send` is proved to compute. */
module Streams {
  import opened Core
  import opened VarInt
  import opened SendBuffer
  import opened SendStream
  import opened Scheduler
  import opened StreamFrames
  import L = RangeList
  import OC = OffsetConservation
  import R = Recovery

  /** Put a stream back after a change, and queue it unless it was pending. */
  function Requeue(s: Streams, id: nat, t: Tx, wasPending: bool): Streams {
    Streams(s.send[id := t], if wasPending then s.queue else s.queue.Push(id, t.priority))
  }

  /** The stream that `entry(id).or_default()` gives. */
  function Entry(s: Streams, id: nat): Tx {
    if id in s.send then s.send[id] else NEW_SEND
  }

  /** Queueing data on a stream, which is made if there is none. */
  function WriteTo(s: Streams, id: nat, data: Bytes): Streams {
    var t := Entry(s, id);
    var (t', r) := t.Write(data);
    if r == Written then Requeue(s, id, t', t.IsPending()) else s.(send := s.send[id := t])
  }

  function FinishOf(s: Streams, id: nat): Streams {
    if id !in s.send then s
    else
      var t := s.send[id];
      var (t', r) := t.Finish();
      if r == Finished then Requeue(s, id, t', t.IsPending()) else s
  }

  /** What an acknowledged or lost frame finds: a stream that is not reset. */
  predicate Reaches(s: Streams, f: R.StreamMeta) {
    f.id in s.send && s.send[f.id].state != ResetSent
  }

  /** The acknowledgement of a frame does not make the code panic. */
  ghost predicate AckDefined(s: Streams, f: R.StreamMeta) {
    Reaches(s, f) ==> s.send[f.id].pending.Valid() && s.send[f.id].pending.AckDefined(f.offsets)
  }

  /** One acknowledged frame. */
  function AckOf(s: Streams, f: R.StreamMeta): Streams
    requires AckDefined(s, f)
  {
    if !Reaches(s, f) then s
    else
      var (t, done) := s.send[f.id].Ack(Frame(f.offsets, f.fin));
      s.(send := if done then s.send - {f.id} else s.send[f.id := t])
  }

  /** One lost frame: its offsets are to be sent again, FIN is not. */
  function LossOf(s: Streams, f: R.StreamMeta): Streams {
    if !Reaches(s, f) then s
    else
      var t := s.send[f.id];
      Requeue(s, f.id, t.(pending := t.pending.Retransmit(f.offsets)), t.IsPending())
  }

  lemma RequeueScheduled(s: Streams, id: nat, t: Tx)
    requires Scheduled(s) && Entry(s, id).state != ResetSent
    ensures Scheduled(Requeue(s, id, t, Entry(s, id).IsPending()))
  {
    hide Queue.Has;
    var s' := Requeue(s, id, t, Entry(s, id).IsPending());
    forall other | s'.Wants(other) ensures s'.queue.Has(other) {
      if other != id { assert s.Wants(other); }
      PushHas(s.queue, id, t.priority, other);
    }
  }

  lemma KeepsScheduled(s: Streams, id: nat, t: Tx)
    requires Scheduled(s)
    requires t.state != ResetSent && t.IsPending() ==> s.Wants(id)
    ensures Scheduled(s.(send := s.send[id := t]))
  {
    hide Queue.Has;
    var s' := s.(send := s.send[id := t]);
    forall other | s'.Wants(other) ensures s'.queue.Has(other) {
      assert s.Wants(other);
    }
  }

  class StreamsState {
    var send: map<nat, Tx>
    const pending: PendingStreamsQueue
    /** Streams for which `Finished` has been reported. */
    var finished: seq<nat>
    /** RESET_STREAM frames that wait to be sent: stream and error code. */
    var resets: seq<(nat, nat)>

    ghost function View(): Streams
      reads this, pending
    {
      Streams(send, pending.View())
    }

    ghost predicate Valid()
      reads this, pending
    {
      && pending.Valid() && Scheduled(View())
      && forall id :: id in send ==> send[id].pending.Valid()
    }

    constructor ()
      ensures Valid() && fresh(pending) && send == map[] && finished == [] && resets == [] && pending.View() == NO_STREAMS
    {
      send, finished, resets := map[], [], [];
      pending := new PendingStreamsQueue();
    }

    method Open(id: nat)
      requires Valid()
      modifies this
      ensures Valid() && View() == old(View()).(send := old(send)[id := NEW_SEND]) && finished == old(finished) && resets == old(resets)
    {
      hide Scheduled, SendBuf.Valid;
      EmptyValid();
      KeepsScheduled(View(), id, NEW_SEND);
      send := send[id := NEW_SEND];
    }

    /** Queue data; `closed` says that the connection is. */
    method Write(id: nat, data: Bytes, closed: bool) returns (r: Option<WriteResult>)
      requires Valid()
      modifies this, pending
      ensures Valid() && finished == old(finished) && resets == old(resets)
      ensures r.None? <==> closed
      ensures closed ==> View() == old(View())
      ensures !closed ==> r.value == old(Entry(View(), id)).Write(data).1 && View() == WriteTo(old(View()), id, data)
    {
      hide Scheduled, SendBuf.Valid;
      if closed {
        return None;
      }
      EmptyValid();
      var t := if id in send then send[id] else NEW_SEND;
      var wasPending := t.IsPending();
      var (t', result) := t.Write(data);
      if result != Written {
        KeepsScheduled(View(), id, t);
        send := send[id := t];
        return Some(result);
      }
      WriteValid(t.pending, data);
      RequeueScheduled(View(), id, t');
      send := send[id := t'];
      if !wasPending {
        pending.PushPending(id, t'.priority);
      }
      return Some(Written);
    }

    method Finish(id: nat) returns (r: FinishResult)
      requires Valid()
      modifies this, pending
      ensures Valid() && finished == old(finished) && resets == old(resets)
      ensures r == if id in old(send) then old(send)[id].Finish().1 else FinishClosed
      ensures View() == FinishOf(old(View()), id)
    {
      hide Scheduled, SendBuf.Valid;
      if id !in send {
        return FinishClosed;
      }
      var t := send[id];
      var wasPending := t.IsPending();
      var (t', result) := t.Finish();
      if result != Finished {
        assert send == send[id := t];
        return result;
      }
      RequeueScheduled(View(), id, t');
      send := send[id := t'];
      if !wasPending {
        pending.PushPending(id, t'.priority);
      }
      return Finished;
    }

    /** Abandon a stream; its queue entry may linger. */
    method Reset(id: nat, errorCode: nat) returns (ok: bool)
      requires Valid()
      modifies this
      ensures Valid() && finished == old(finished)
      ensures ok <==> id in old(send) && old(send)[id].state != ResetSent
      ensures View() == if ok then old(View()).(send := old(send)[id := old(send)[id].Reset()]) else old(View())
      ensures resets == if ok then old(resets) + [(id, errorCode)] else old(resets)
    {
      hide Scheduled, SendBuf.Valid;
      if id !in send || send[id].state == ResetSent {
        return false;
      }
      KeepsScheduled(View(), id, send[id].Reset());
      send := send[id := send[id].Reset()];
      resets := resets + [(id, errorCode)];
      return true;
    }

    method SetPriority(id: nat, priority: int) returns (ok: bool)
      requires Valid()
      modifies this
      ensures Valid() && finished == old(finished) && resets == old(resets)
      ensures ok <==> id in old(send)
      ensures View() == if ok then old(View()).(send := old(send)[id := old(send)[id].(priority := priority)])
                        else old(View())
    {
      hide Scheduled, SendBuf.Valid;
      if id !in send {
        return false;
      }
      KeepsScheduled(View(), id, send[id].(priority := priority));
      send := send[id := send[id].(priority := priority)];
      return true;
    }

    /** One acknowledged frame: a finished, wholly acknowledged stream is
        forgotten and reported. */
    method ReceivedAckOf(f: R.StreamMeta)
      requires Valid() && AckDefined(View(), f)
      modifies this
      ensures Valid() && resets == old(resets)
      ensures View() == AckOf(old(View()), f)
      ensures finished == if f.id in old(send) && f.id !in send then old(finished) + [f.id] else old(finished)
    {
      hide Scheduled, SendBuf.Valid, SendBuf.Ack;
      if f.id !in send || send[f.id].state == ResetSent {
        return;
      }
      var stream := send[f.id];
      var (t, done) := stream.Ack(Frame(f.offsets, f.fin));
      AckValid(stream.pending, f.offsets);
      if !done {
        KeepsScheduled(View(), f.id, t);
        send := send[f.id := t];
        return;
      }
      RemoveScheduled(View(), f.id);
      send := send - {f.id};
      finished := finished + [f.id];
    }

    /** One lost frame: its offsets are to be sent again, FIN is not. */
    method Retransmit(f: R.StreamMeta)
      requires Valid()
      requires Reaches(View(), f) ==> f.offsets.end <= send[f.id].pending.unsent
      modifies this, pending
      ensures Valid() && finished == old(finished) && resets == old(resets)
      ensures View() == LossOf(old(View()), f)
    {
      hide Scheduled, SendBuf.Valid, L.Insert;
      if f.id !in send || send[f.id].state == ResetSent {
        return;
      }
      var stream := send[f.id];
      var wasPending := stream.IsPending();
      OC.RetransmitKeeps(stream.pending, f.offsets);
      var t := stream.(pending := stream.pending.Retransmit(f.offsets));
      RequeueScheduled(View(), f.id, t);
      send := send[f.id := t];
      if !wasPending {
        pending.PushPending(f.id, stream.priority);
      }
    }

    /** Fill a packet of `capacity` bytes, of which `buf` are written, with STREAM
        frames. Where a frame overruns the packet the source panics; here the
        reply is then false. */
    method WriteStreamFrames(capacity: nat, buf: Bytes, fair: bool)
      returns (out: Bytes, metas: seq<R.StreamMeta>, complete: bool)
      requires Valid() && AllSendable(View())
      modifies this, pending
      ensures Valid() && finished == old(finished) && resets == old(resets)
      ensures complete <==> Finishes(old(View()), Left(capacity, |buf|), fair)
      ensures complete ==> AllSendable(View()) && View() == Fill(old(View()), Left(capacity, |buf|), fair).0
      ensures complete ==>
                var chunks := Fill(old(View()), Left(capacity, |buf|), fair).1;
                AllWritable(chunks) && out == buf + Wire(chunks) && metas == Metas(chunks)
      ensures complete && |buf| <= capacity ==> |out| <= capacity
    {
      hide Scheduled, SendBuf.Valid, AllSendable, Filling, Turn, Wire, Metas, Chunk.Encode, Tx.Transmit, SendBuf.Get, Best;
      out, metas := buf, [];
      ghost var start, space := View(), Left(capacity, |buf|);
      ghost var done: seq<Chunk> := [];
      FillBegins(start, space, fair, buf);
      while Left(capacity, |out|) >= SIZE_BOUND
        invariant Valid() && finished == old(finished) && resets == old(resets)
        invariant Filling(start, space, fair, View(), Left(capacity, |out|), done)
        invariant AllWritable(done) && out == buf + Wire(done) && metas == Metas(done)
        decreases Left(capacity, |out|), View().queue.Size()
      {
        ghost var before, room := View(), Left(capacity, |out|);
        PopSome(before.queue);
        var entry := pending.Pop();
        if entry.None? {
          break;
        }
        var id := entry.value.id;
        TurnSteps(start, space, before, room, fair, done);
        TurnIs(before, room, fair);
        if id !in send || send[id].state == ResetSent || !send[id].IsPending() {
          continue;
        }
        var chunk := WriteFrame(id, Left(capacity, |out|), fair, before);
        if |chunk.Encode()| > Left(capacity, |out|) {
          return out, metas, false;
        }
        Spliced(buf, Wire(done), chunk.Encode());
        out := out + chunk.Encode();
        metas := metas + [chunk.meta];
        done := done + [chunk];
      }
      FillEnds(start, space, fair, View(), Left(capacity, |out|), done);
      FinishedPacket(start, space, fair);
      complete := true;
    }

    /** The next frame of a stream whose entry has just been popped. */
    method WriteFrame(id: nat, room: nat, fair: bool, ghost before: Streams) returns (chunk: Chunk)
      requires pending.Valid() && forall i :: i in send ==> send[i].pending.Valid()
      requires AllSendable(before) && room >= SIZE_BOUND && before.queue.Size() > 0 && before.Wants(id)
      requires before.send == send && before.queue.Pop() == (pending.View(), before.queue.Pop().1)
      requires before.queue.Pop().1.value.id == id
      modifies this, pending
      ensures pending.Valid() && (forall i :: i in send ==> send[i].pending.Valid()) && finished == old(finished) && resets == old(resets)
      ensures Turn(before, room, fair) == (View(), Emit(chunk))
    {
      hide Scheduled, SendBuf.Valid, AllSendable, Turn, Tx.Transmit, SendBuf.Get, Best;
      TurnIs(before, room, fair);
      PopSome(before.queue);
      var (stream, frame, length) := send[id].Transmit(room);
      var meta := R.StreamMeta(id, frame.value.offsets, frame.value.fin);
      var data := if meta.offsets.Empty() then [] else stream.pending.Get(meta.offsets);
      chunk := Chunk(meta, length, data);
      send := send[id := stream];
      if stream.IsPending() {
        if fair {
          pending.PushPending(id, stream.priority);
        } else {
          pending.ReinsertPending(id, stream.priority);
        }
      }
    }
  }

  /** Half-way through filling a packet: `done` is written, and what is left to
      do is to fill the room that remains. */
  ghost predicate Filling(s0: Streams, room0: nat, fair: bool, s: Streams, room: nat, done: seq<Chunk>) {
    && AllSendable(s0) && AllSendable(s)
    && Fill(s0, room0, fair).0 == Fill(s, room, fair).0
    && Fill(s0, room0, fair).1 == done + Fill(s, room, fair).1
    && (Finishes(s0, room0, fair) <==> Finishes(s, room, fair))
  }

  lemma FillBegins(s: Streams, room: nat, fair: bool, buf: Bytes)
    requires AllSendable(s)
    ensures Filling(s, room, fair, s, room, []) && buf + Wire([]) == buf && Metas([]) == []
  {
    hide Fill, AllSendable, Finishes;
  }

  lemma FillEnds(s0: Streams, room0: nat, fair: bool, s: Streams, room: nat, done: seq<Chunk>)
    requires Filling(s0, room0, fair, s, room, done) && (room < SIZE_BOUND || s.queue.Size() == 0)
    ensures AllSendable(s0) && AllSendable(s) && Fill(s0, room0, fair) == (s, done) && Finishes(s0, room0, fair)
  {
    hide AllSendable;
    assert done + [] == done;
  }

  lemma TurnSteps(s0: Streams, room0: nat, s: Streams, room: nat, fair: bool, done: seq<Chunk>)
    requires Filling(s0, room0, fair, s, room, done) && AllWritable(done) && Scheduled(s)
    requires room >= SIZE_BOUND && s.queue.Size() > 0
    ensures AllSendable(s)
    ensures var (s', out) := Turn(s, room, fair);
            && Scheduled(s')
            && (out.Skip? ==> Filling(s0, room0, fair, s', room, done) && s'.queue.Size() < s.queue.Size())
            && (out.Emit? ==>
                  && out.chunk.Writable() && AllWritable(done + [out.chunk])
                  && Left(room, |out.chunk.Encode()|) < room
                  && (|out.chunk.Encode()| > room ==> AllSendable(s0) && !Finishes(s0, room0, fair))
                  && (|out.chunk.Encode()| <= room ==>
                        Filling(s0, room0, fair, s', Left(room, |out.chunk.Encode()|), done + [out.chunk]))
                  && Wire(done + [out.chunk]) == Wire(done) + out.chunk.Encode()
                  && Metas(done + [out.chunk]) == Metas(done) + [out.chunk.meta])
  {
    hide AllSendable, Turn, Scheduled, Chunk.Encode, Chunk.Writable;
    TurnKeeps(s, room, fair);
    TurnScheduled(s, room, fair);
    var (s', out) := Turn(s, room, fair);
    if out.Emit? {
      WireSnoc(done, out.chunk);
      Spliced(done, [out.chunk], Fill(s', Left(room, |out.chunk.Encode()|), fair).1);
    }
  }

  lemma {:induction false} WireSnoc(chunks: seq<Chunk>, c: Chunk)
    requires AllWritable(chunks) && c.Writable()
    ensures AllWritable(chunks + [c]) && Wire(chunks + [c]) == Wire(chunks) + c.Encode()
    decreases |chunks|
  {
    hide Chunk.Encode;
    var all := chunks + [c];
    if chunks == [] {
      assert all[1..] == [] && all[0] == c;
    } else {
      WireSnoc(chunks[1..], c);
      assert all[1..] == chunks[1..] + [c];
      Spliced(chunks[0].Encode(), Wire(chunks[1..]), c.Encode());
    }
  }

  lemma PopSome(q: Queue)
    ensures q.Pop().1.Some? <==> q.Size() > 0
    ensures q.Pop().1.None? ==> q.Pop().0 == q
    ensures q.Pop().0.next.None?
  {}

  /** One turn, spelled out, with the bounds that make its parts defined. */
  lemma TurnIs(s: Streams, room: nat, fair: bool)
    requires AllSendable(s) && room >= SIZE_BOUND && s.queue.Size() > 0
    ensures var (q, e) := s.queue.Pop();
            var id := e.value.id;
            if !s.Wants(id) then Turn(s, room, fair) == (s.(queue := q), Skip)
            else
              && s.send[id].pending.Valid() && s.send[id].pending.offset <= VARINT_MAX
              && var (t, frame, length) := s.send[id].Transmit(room);
                 && frame.Some? && t.pending.Valid() && t.pending.Base() <= frame.value.offsets.start <= frame.value.offsets.end
                 && var r := frame.value.offsets;
                    var data := if r.Empty() then [] else t.pending.Get(r);
                    var q' := if !t.IsPending() then q
                              else if fair then q.Push(id, t.priority) else q.Reinsert(id, t.priority);
                    Turn(s, room, fair)
                    == (Streams(s.send[id := t], q'), Emit(Chunk(R.StreamMeta(id, r, frame.value.fin), length, data)))
  {
    hide Tx.Transmit, SendBuf.Get, Best, Sendable, SendBuf.Valid;
    var id := s.queue.Pop().1.value.id;
    if s.Wants(id) {
      TransmitProduces(s.send[id], room);
      SendableBounds(s.send[id]);
      SendableBounds(s.send[id].Transmit(room).0);
    }
  }

  function Metas(chunks: seq<Chunk>): seq<R.StreamMeta> {
    seq(|chunks|, i requires 0 <= i < |chunks| => chunks[i].meta)
  }

  lemma EmptyValid()
    ensures NEW_SEND.pending.Valid()
  {}

  lemma WriteValid(b: SendBuf, data: Bytes)
    requires b.Valid()
    ensures b.Write(data).Valid()
  {
    hide L.Has, L.Canonical;
    TotalConcat(b.segments, [data]);
    assert Total([data]) == |data| by { assert [data][1..] == []; }
  }

  lemma AckValid(b: SendBuf, r: Range)
    requires b.Valid()
    ensures b.Ack(r).Valid() && b.Ack(r).unsent == b.unsent && b.Ack(r).offset == b.offset && b.Ack(r).retransmits == b.retransmits
  {
    hide L.Has, L.Canonical, L.Insert, L.Remove, Drainable;
    AckKeeps(b, r);
  }

  lemma RemoveScheduled(s: Streams, id: nat)
    requires Scheduled(s)
    ensures Scheduled(s.(send := s.send - {id}))
  {
    hide Queue.Has;
    var s' := s.(send := s.send - {id});
    forall other | s'.Wants(other) ensures s'.queue.Has(other) { assert s.Wants(other); }
  }
}
