/** Packets and streams together: the frames that the packet layer schedules,
    acknowledges and loses are the ones that the streams sent
    (core/src/connection/mod.rs and stream/state.rs). Every run of the two, seen
    from any one stream, is a run of `OffsetConservation`. */
module InFlight {
  import opened Core
  import opened VarInt
  import L = RangeList
  import opened SendBuffer
  import opened SendLaws
  import opened SendStream
  import opened StreamFrames
  import Q = Scheduler
  import ST = Streams
  import OC = OffsetConservation
  import R = Recovery

  /** The frames of each scheduled or outstanding packet of the Data space, the
      packets that have left, the next number, the streams, and the ids that were
      ever used. */
  datatype World = World(
    packets: map<nat, seq<R.StreamMeta>>,
    left: set<nat>,
    next: nat,
    streams: Streams,
    used: set<nat>)

  const START: World := World(map[], {}, 0, Streams(map[], Q.NO_STREAMS), {})

  datatype Event =
    | Open(id: nat)
    | Write(id: nat, data: Bytes)
    | Finish(id: nat)
    | Reset(id: nat)
    | Stop(id: nat, code: nat)
    | SetPriority(id: nat, priority: int)
    | Pack(room: nat, fair: bool)
    | Send(number: nat)
    | Acked(number: nat)
    | Lost(number: nat)

  /** Acknowledging the frames in order does not make the code panic. */
  ghost predicate AcksDefined(s: Streams, frames: seq<R.StreamMeta>)
    decreases |frames|
  {
    frames != [] ==> ST.AckDefined(s, frames[0]) && AcksDefined(ST.AckOf(s, frames[0]), frames[1..])
  }

  /** The frames of an acknowledged packet are handed over in order. */
  ghost function AckAll(s: Streams, frames: seq<R.StreamMeta>): Streams
    requires AcksDefined(s, frames)
    decreases |frames|
  {
    if frames == [] then s else AckAll(ST.AckOf(s, frames[0]), frames[1..])
  }

  /** The endpoint test of this acknowledgement is met inside single ranges. */
  ghost predicate CarefulAck(s: Streams, f: R.StreamMeta)
    requires ST.AckDefined(s, f)
  {
    ST.Reaches(s, f) ==>
      var b := s.send[f.id].pending;
      EndsShareRange(b.segments, b.Base(), L.Insert(b.acks, f.offsets))
  }

  ghost predicate CarefulAcks(s: Streams, frames: seq<R.StreamMeta>)
    requires AcksDefined(s, frames)
    decreases |frames|
  {
    frames != [] ==> CarefulAck(s, frames[0]) && CarefulAcks(ST.AckOf(s, frames[0]), frames[1..])
  }

  function LoseAll(s: Streams, frames: seq<R.StreamMeta>): Streams
    decreases |frames|
  {
    if frames == [] then s else LoseAll(ST.LossOf(s, frames[0]), frames[1..])
  }

  /** Ids and offsets have encodings; otherwise writing a frame panics. */
  predicate Encodable(s: Streams) {
    forall id :: id in s.send && s.send[id].state != ResetSent ==> id <= VARINT_MAX && s.send[id].pending.offset <= VARINT_MAX
  }

  /** No packet carries a frame of the stream. */
  predicate Idle(packets: map<nat, seq<R.StreamMeta>>, id: nat) {
    forall n, i :: n in packets && 0 <= i < |packets[n]| ==> packets[n][i].id != id
  }

  ghost predicate Defined(w: World, ev: Event) {
    match ev
    case Acked(n) => n in w.packets && n in w.left && AcksDefined(w.streams, w.packets[n])
    case Lost(n) => n in w.packets && n in w.left
    case _ => true
  }

  /** Events that can happen without a panic. Filling a packet needs its bytes to
      be buffered and encodable. A write under the id of a stream that was
      forgotten is left out while packets still carry frames of it. */
  ghost predicate Possible(w: World, ev: Event) {
    && Defined(w, ev)
    && match ev
       case Open(id) => id !in w.used
       case Write(id, _) => id !in w.streams.send ==> Idle(w.packets, id)
       case Pack(_, _) => AllSendable(w.streams)
       case Send(n) => n in w.packets && n !in w.left
       case _ => true
  }

  ghost predicate Careful(w: World, ev: Event)
    requires Defined(w, ev)
  {
    ev.Acked? ==> CarefulAcks(w.streams, w.packets[ev.number])
  }

  function Change(s: Streams, id: nat, t: Tx): Streams {
    s.(send := s.send[id := t])
  }

  ghost function Do(w: World, ev: Event): World
    requires Defined(w, ev)
  {
    var s := w.streams;
    match ev
    case Open(id) => w.(streams := Change(s, id, NEW_SEND), used := w.used + {id})
    case Write(id, data) => w.(streams := ST.WriteTo(s, id, data), used := w.used + {id})
    case Finish(id) => w.(streams := ST.FinishOf(s, id))
    case Reset(id) => if id in s.send then w.(streams := Change(s, id, s.send[id].Reset())) else w
    case Stop(id, code) => if id in s.send then w.(streams := Change(s, id, s.send[id].TryStop(code).0)) else w
    case SetPriority(id, p) => if id in s.send then w.(streams := Change(s, id, s.send[id].(priority := p))) else w
    case Pack(room, fair) =>
      if !AllSendable(s) then w
      else
        var (s', chunks) := Fill(s, room, fair);
        w.(packets := w.packets[w.next := ST.Metas(chunks)], next := w.next + 1, streams := s')
    case Send(n) => w.(left := w.left + {n})
    case Acked(n) => w.(packets := w.packets - {n}, streams := AckAll(s, w.packets[n]))
    case Lost(n) => w.(packets := w.packets - {n}, streams := LoseAll(s, w.packets[n]))
  }

  // --------------------------------------------------- one stream among the packets

  function AsFrame(f: R.StreamMeta): Frame {
    Frame(f.offsets, f.fin)
  }

  /** A packet carries a frame of the stream at this place. */
  predicate CarriedAt(packets: map<nat, seq<R.StreamMeta>>, sid: nat, id: OC.Id) {
    id.packet in packets && id.index < |packets[id.packet]| && packets[id.packet][id.index].id == sid
  }

  /** The sender's record of its frames is what the packets carry, except for the
      first `k` frames of packet `n`. */
  ghost predicate Linked(packets: map<nat, seq<R.StreamMeta>>, sid: nat, carried: map<OC.Id, Frame>, n: nat, k: nat) {
    && (forall id :: id in carried <==> CarriedAt(packets, sid, id) && !(id.packet == n && id.index < k))
    && (forall id :: id in carried && CarriedAt(packets, sid, id) ==> carried[id] == AsFrame(packets[id.packet][id.index]))
  }

  /** A stream as `Send::default` makes it, said without naming it. */
  predicate Unused(t: Tx) {
    var b := t.pending;
    && t.state.Ready? && t.priority == 0 && !t.finPending && t.stopReason.None?
    && |b.segments| == b.unackedLen == b.offset == b.unsent == |b.acks| == |b.retransmits| == 0
  }

  /** The stream's entry is the sender's: absent if it was forgotten or, with
      nothing in flight, never used. */
  ghost predicate Shows(streams: Streams, sid: nat, used: bool, s: OC.Sender) {
    if sid in streams.send then !s.gone && streams.send[sid] == s.tx
    else s.gone || (!used && |s.carried| == 0)
  }

  ghost predicate Follows(w: World, sid: nat, s: OC.Sender) {
    && Linked(w.packets, sid, s.carried, 0, 0) && s.sent == w.left
    && Shows(w.streams, sid, sid in w.used, s)
    && (sid !in w.used ==> sid !in w.streams.send && !s.gone)
  }

  /** The sender of an id that was never used is new. */
  ghost predicate Fresh(w: World, sid: nat, s: OC.Sender) {
    sid !in w.used ==> Unused(s.tx)
  }

  ghost predicate Numbered(w: World) {
    (forall n :: n in w.packets ==> n < w.next) && (forall n :: n in w.left ==> n < w.next)
  }

  /** Some run of the stream's sender explains what is seen of it; a careful one,
      if all acknowledgements were. */
  ghost predicate Tracked(careful: bool, w: World, sid: nat) {
    exists s :: OC.Moves(careful, OC.START, s) && Follows(w, sid, s) && Fresh(w, sid, s)
  }

  ghost predicate Inv(careful: bool, w: World) {
    Numbered(w) && forall sid :: Tracked(careful, w, sid)
  }

  lemma LinkedWithout(packets: map<nat, seq<R.StreamMeta>>, sid: nat, carried: map<OC.Id, Frame>, n: nat)
    requires n in packets && Linked(packets, sid, carried, n, |packets[n]|)
    ensures Linked(packets - {n}, sid, carried, 0, 0)
  {}

  // ------------------------------------------------------------ acknowledged, lost

  /** Handing over the remaining frames of an acknowledged packet is a sequence
      of `AckFrame` actions of each stream. */
  lemma {:induction false} AckFrames(careful: bool, streams: Streams, packets: map<nat, seq<R.StreamMeta>>, n: nat, k: nat, sid: nat, used: bool, s: OC.Sender)
    returns (t: OC.Sender)
    requires n in packets && k <= |packets[n]| && Linked(packets, sid, s.carried, n, k) && Shows(streams, sid, used, s)
    requires n in s.sent && OC.Sound(s) && AcksDefined(streams, packets[n][k..])
    requires careful ==> CarefulAcks(streams, packets[n][k..])
    ensures OC.Moves(careful, s, t) && t.sent == s.sent
    ensures Linked(packets, sid, t.carried, n, |packets[n]|) && Shows(AckAll(streams, packets[n][k..]), sid, used, t)
    ensures s.gone ==> t.gone
    ensures |s.carried| == 0 && !s.gone ==> t == s
    decreases |packets[n]| - k
  {
    hide OC.Sound, OC.Moves, OC.Do, OC.Enabled, OC.Careful, EndsShareRange, ST.AckOf, ST.AckDefined, Linked, Shows;
    if k == |packets[n]| {
      t := s;
      OC.MovesNone(careful, s);
    } else {
      var f := packets[n][k];
      SplitAt(packets[n], k);
      assert packets[n][k..][0] == f;
      var s1 := AckFrame(careful, streams, packets, n, k, sid, used, s);
      t := AckFrames(careful, ST.AckOf(streams, f), packets, n, k + 1, sid, used, s1);
      OC.MovesThen(careful, s, s1, t);
    }
  }

  lemma AckFrame(careful: bool, streams: Streams, packets: map<nat, seq<R.StreamMeta>>, n: nat, k: nat, sid: nat, used: bool, s: OC.Sender)
    returns (t: OC.Sender)
    requires n in packets && k < |packets[n]| && Linked(packets, sid, s.carried, n, k) && Shows(streams, sid, used, s)
    requires n in s.sent && OC.Sound(s) && ST.AckDefined(streams, packets[n][k])
    requires careful ==> CarefulAck(streams, packets[n][k])
    ensures OC.Moves(careful, s, t) && t.sent == s.sent && OC.Sound(t)
    ensures Linked(packets, sid, t.carried, n, k + 1) && Shows(ST.AckOf(streams, packets[n][k]), sid, used, t)
    ensures s.gone ==> t.gone
    ensures |s.carried| == 0 && !s.gone ==> t == s
  {
    hide OC.Moves, SendBuf.Ack, SendBuf.Valid, SendBuf.AckDefined, Holds, EndsShareRange, L.Insert;
    var f := packets[n][k];
    var id := OC.Id(n, k);
    if f.id != sid {
      t := s;
      OC.MovesNone(careful, s);
    } else {
      assert CarriedAt(packets, sid, id);
      OC.MovesOne(careful, s, OC.AckFrame(id));
      t := OC.Do(s, OC.AckFrame(id));
    }
  }

  /** The same for a lost packet. The assertion of `retransmit` holds, because
      the sender is in order. */
  lemma LoseFrame(careful: bool, streams: Streams, packets: map<nat, seq<R.StreamMeta>>, n: nat, k: nat, sid: nat, used: bool, s: OC.Sender)
    returns (t: OC.Sender)
    requires n in packets && k < |packets[n]| && Linked(packets, sid, s.carried, n, k) && Shows(streams, sid, used, s)
    requires n in s.sent && OC.Inv(s)
    ensures OC.Moves(careful, s, t) && t.sent == s.sent && OC.Inv(t)
    ensures Linked(packets, sid, t.carried, n, k + 1) && Shows(ST.LossOf(streams, packets[n][k]), sid, used, t)
    ensures s.gone ==> t.gone
    ensures |s.carried| == 0 && !s.gone ==> t == s
  {
    hide OC.Moves, SendBuf.Ack, SendBuf.Valid, Holds, EndsShareRange, L.Insert, L.Has, OC.FinOnce, OC.Retained;
    var f := packets[n][k];
    var id := OC.Id(n, k);
    if f.id != sid {
      t := s;
      OC.MovesNone(careful, s);
    } else {
      assert CarriedAt(packets, sid, id);
      OC.MovesOne(careful, s, OC.LoseFrame(id));
      t := OC.Do(s, OC.LoseFrame(id));
      OC.InvKept(s, OC.LoseFrame(id));
    }
  }

  lemma {:induction false} LoseFrames(careful: bool, streams: Streams, packets: map<nat, seq<R.StreamMeta>>, n: nat, k: nat, sid: nat, used: bool, s: OC.Sender)
    returns (t: OC.Sender)
    requires n in packets && k <= |packets[n]| && Linked(packets, sid, s.carried, n, k) && Shows(streams, sid, used, s)
    requires n in s.sent && OC.Inv(s)
    ensures OC.Moves(careful, s, t) && t.sent == s.sent
    ensures Linked(packets, sid, t.carried, n, |packets[n]|) && Shows(LoseAll(streams, packets[n][k..]), sid, used, t)
    ensures s.gone ==> t.gone
    ensures |s.carried| == 0 && !s.gone ==> t == s
    decreases |packets[n]| - k
  {
    hide OC.Sound, OC.Partitioned, OC.FinOnce, OC.Retained, OC.Moves, ST.LossOf, Linked, Shows;
    if k == |packets[n]| {
      t := s;
      OC.MovesNone(careful, s);
    } else {
      var f := packets[n][k];
      SplitAt(packets[n], k);
      assert packets[n][k..][0] == f;
      var s1 := LoseFrame(careful, streams, packets, n, k, sid, used, s);
      t := LoseFrames(careful, ST.LossOf(streams, f), packets, n, k + 1, sid, used, s1);
      OC.MovesThen(careful, s, s1, t);
    }
  }

  // ---------------------------------------------------------------- filling a packet

  /** One turn of the loop that fills packet `n` is a `Transmit` action of the
      stream it serves. */
  lemma TurnFollows(careful: bool, streams: Streams, room: nat, fair: bool, packets: map<nat, seq<R.StreamMeta>>, n: nat, sid: nat, used: bool, s: OC.Sender)
    returns (t: OC.Sender)
    requires AllSendable(streams) && room >= SIZE_BOUND && streams.queue.Size() > 0
    requires n in packets && n !in s.sent && OC.Sound(s)
    requires Linked(packets, sid, s.carried, 0, 0) && Shows(streams, sid, used, s)
    ensures OC.Moves(careful, s, t) && t.sent == s.sent && t.gone == s.gone && OC.Sound(t) && (sid !in streams.send ==> t == s)
    ensures Shows(Turn(streams, room, fair).0, sid, used, t)
    ensures var out := Turn(streams, room, fair).1;
            Linked(if out.Skip? then packets else packets[n := packets[n] + [out.chunk.meta]], sid, t.carried, 0, 0)
  {
    hide OC.Moves, Q.Best, Tx.Transmit, SendBuf.Get, SendBuf.Valid, Holds, Outstanding, L.Has;
    var id := streams.queue.Pop().1.value.id;
    t := s;
    OC.MovesNone(careful, s);
    if streams.Wants(id) {
      TransmitProduces(streams.send[id], room);
      var meta := Turn(streams, room, fair).1.chunk.meta;
      if id == sid {
        var place := OC.Id(n, |packets[n]|);
        assert !CarriedAt(packets, sid, place);
        OC.MovesOne(careful, s, OC.Transmit(place, room));
        t := OC.Do(s, OC.Transmit(place, room));
      }
      LinkedAppend(packets, sid, s.carried, n, meta);
    }
  }

  lemma LinkedAppend(packets: map<nat, seq<R.StreamMeta>>, sid: nat, carried: map<OC.Id, Frame>, n: nat, f: R.StreamMeta)
    requires n in packets && Linked(packets, sid, carried, 0, 0)
    ensures Linked(packets[n := packets[n] + [f]], sid,
                   if f.id == sid then carried[OC.Id(n, |packets[n]|) := AsFrame(f)] else carried, 0, 0)
  {
    var packets' := packets[n := packets[n] + [f]];
    var place := OC.Id(n, |packets[n]|);
    forall id ensures CarriedAt(packets', sid, id) <==> CarriedAt(packets, sid, id) || (id == place && f.id == sid) {}
  }

  lemma {:induction false} FillFollows(careful: bool, streams: Streams, room: nat, fair: bool, packets: map<nat, seq<R.StreamMeta>>, n: nat, sid: nat, used: bool, s: OC.Sender)
    returns (t: OC.Sender)
    requires AllSendable(streams) && n in packets && n !in s.sent && OC.Sound(s)
    requires Linked(packets, sid, s.carried, 0, 0) && Shows(streams, sid, used, s)
    ensures OC.Moves(careful, s, t) && t.sent == s.sent && t.gone == s.gone && (sid !in streams.send ==> t == s)
    ensures var (streams', chunks) := Fill(streams, room, fair);
            && Shows(streams', sid, used, t) && Linked(packets[n := packets[n] + ST.Metas(chunks)], sid, t.carried, 0, 0)
    decreases room, streams.queue.Size()
  {
    hide OC.Sound, OC.Moves, Linked, Shows, AllSendable, Turn, Chunk.Encode, Chunk.Writable;
    if room < SIZE_BOUND || streams.queue.Size() == 0 {
      t := s;
      OC.MovesNone(careful, s);
      assert packets[n] + ST.Metas([]) == packets[n];
      assert packets[n := packets[n] + ST.Metas([])] == packets;
    } else {
      TurnKeeps(streams, room, fair);
      var (streams', out) := Turn(streams, room, fair);
      var s1 := TurnFollows(careful, streams, room, fair, packets, n, sid, used, s);
      if out.Skip? {
        t := FillFollows(careful, streams', room, fair, packets, n, sid, used, s1);
      } else {
        var packets' := packets[n := packets[n] + [out.chunk.meta]];
        var left := Left(room, |out.chunk.Encode()|);
        t := FillFollows(careful, streams', left, fair, packets', n, sid, used, s1);
        MetasCons(packets, n, out.chunk, Fill(streams', left, fair).1);
      }
      OC.MovesThen(careful, s, s1, t);
    }
  }

  lemma MetasCons(packets: map<nat, seq<R.StreamMeta>>, n: nat, c: Chunk, chunks: seq<Chunk>)
    requires n in packets
    ensures var packets' := packets[n := packets[n] + [c.meta]];
            packets'[n := packets'[n] + ST.Metas(chunks)] == packets[n := packets[n] + ST.Metas([c] + chunks)]
  {
    assert packets[n] + [c.meta] + ST.Metas(chunks) == packets[n] + ST.Metas([c] + chunks);
  }

  // --------------------------------------------------------------------- every event

  /** What the application does to one stream is one action of its sender. */
  lemma AppFollows(careful: bool, w: World, ev: Event, sid: nat, s: OC.Sender) returns (t: OC.Sender)
    requires Possible(w, ev) && Follows(w, sid, s) && Fresh(w, sid, s) && OC.Sound(s)
    requires !ev.Pack? && !ev.Send? && !ev.Acked? && !ev.Lost?
    ensures OC.Moves(careful, s, t) && Follows(Do(w, ev), sid, t) && Fresh(Do(w, ev), sid, t)
  {
    hide OC.Moves, SendBuf.Valid, Holds, Linked, CarefulAcks, AckAll, LoseAll, Fill, L.Insert, EndsShareRange;
    t := s;
    OC.MovesNone(careful, s);
    if ev.Write? && ev.id == sid && sid !in w.streams.send { NothingCarried(w, sid, s); }
    if ev.id == sid && (ev.Write? || sid in w.streams.send) && !ev.Open? {
      var a := match ev
               case Write(_, data) => OC.Write(data)
               case Finish(_) => OC.Finish
               case Reset(_) => OC.Reset
               case Stop(_, code) => OC.Stop(code)
               case SetPriority(_, p) => OC.Prioritise(p)
               case _ => OC.Finish;
      OC.MovesOne(careful, s, a);
      t := OC.Do(s, a);
    }
  }

  lemma NothingCarried(w: World, sid: nat, s: OC.Sender)
    requires Follows(w, sid, s)
    ensures s.carried == map[] <==> Idle(w.packets, sid)
  {
    if s.carried == map[] {
      forall n, i: nat | n in w.packets && i < |w.packets[n]| ensures w.packets[n][i].id != sid {
        NotAt(w.packets, sid, s.carried, OC.Id(n, i));
      }
    } else {
      var id :| id in s.carried;
      assert CarriedAt(w.packets, sid, id);
    }
  }

  lemma NotAt(packets: map<nat, seq<R.StreamMeta>>, sid: nat, carried: map<OC.Id, Frame>, id: OC.Id)
    requires Linked(packets, sid, carried, 0, 0)
    ensures id !in carried ==> !CarriedAt(packets, sid, id)
  {}

  lemma SendFollows(careful: bool, w: World, n: nat, sid: nat, s: OC.Sender) returns (t: OC.Sender)
    requires Possible(w, Send(n)) && Follows(w, sid, s) && OC.Sound(s)
    ensures OC.Moves(careful, s, t) && Follows(Do(w, Send(n)), sid, t) && t.tx == s.tx
  {
    hide OC.Moves, SendBuf.Valid, Holds, Linked;
    OC.MovesOne(careful, s, OC.SendPacket(n));
    t := OC.Do(s, OC.SendPacket(n));
  }

  /** Every event of packets and streams is a sequence of actions of each
      stream's sender. */
  lemma StepFollows(careful: bool, w: World, ev: Event, sid: nat, s: OC.Sender) returns (t: OC.Sender)
    requires Numbered(w) && Possible(w, ev) && Follows(w, sid, s) && Fresh(w, sid, s) && OC.Inv(s)
    requires careful ==> Careful(w, ev)
    ensures OC.Moves(careful, s, t) && Follows(Do(w, ev), sid, t) && Fresh(Do(w, ev), sid, t)
  {
    hide OC.Sound, OC.Partitioned, OC.FinOnce, OC.Retained, OC.Moves, AllSendable, Linked, Shows, Fill, CarefulAcks, AckAll;
    if sid !in w.used { UnusedIdle(w, sid, s); }
    match ev {
      case Pack(room, fair) =>
        var packets := w.packets[w.next := []];
        EmptyPacket(w.packets, w.next, sid, s.carried);
        t := FillFollows(careful, w.streams, room, fair, packets, w.next, sid, sid in w.used, s);
        assert [] + ST.Metas(Fill(w.streams, room, fair).1) == ST.Metas(Fill(w.streams, room, fair).1);
        assert packets[w.next := [] + ST.Metas(Fill(w.streams, room, fair).1)] == Do(w, ev).packets;
        FillKeys(w.streams, room, fair);
      case Send(n) => t := SendFollows(careful, w, n, sid, s);
      case Acked(n) =>
        LinkedWhole(w.packets, sid, s.carried, n);
        assert w.packets[n][0..] == w.packets[n];
        t := AckFrames(careful, w.streams, w.packets, n, 0, sid, sid in w.used, s);
        LinkedWithout(w.packets, sid, t.carried, n);
        AckUsed(w, n, sid, s, t);
      case Lost(n) =>
        LinkedWhole(w.packets, sid, s.carried, n);
        assert w.packets[n][0..] == w.packets[n];
        t := LoseFrames(careful, w.streams, w.packets, n, 0, sid, sid in w.used, s);
        LinkedWithout(w.packets, sid, t.carried, n);
        LoseUsed(w, n, sid, s, t);
      case _ => t := AppFollows(careful, w, ev, sid, s);
    }
  }

  lemma UnusedIdle(w: World, sid: nat, s: OC.Sender)
    requires Follows(w, sid, s) && sid !in w.used
    ensures !s.gone && |s.carried| == 0 && sid !in w.streams.send
  {
    hide Linked;
  }

  lemma EmptyPacket(packets: map<nat, seq<R.StreamMeta>>, n: nat, sid: nat, carried: map<OC.Id, Frame>)
    requires n !in packets && Linked(packets, sid, carried, 0, 0)
    ensures Linked(packets[n := []], sid, carried, 0, 0)
  {
    forall id ensures CarriedAt(packets[n := []], sid, id) <==> CarriedAt(packets, sid, id) {}
  }

  lemma LinkedWhole(packets: map<nat, seq<R.StreamMeta>>, sid: nat, carried: map<OC.Id, Frame>, n: nat)
    requires Linked(packets, sid, carried, 0, 0)
    ensures Linked(packets, sid, carried, n, 0)
  {}

  lemma {:induction false} FillKeys(s: Streams, room: nat, fair: bool)
    requires AllSendable(s)
    ensures Fill(s, room, fair).0.send.Keys == s.send.Keys
    decreases room, s.queue.Size()
  {
    hide AllSendable, Turn, Chunk.Encode, Chunk.Writable;
    if room >= SIZE_BOUND && s.queue.Size() > 0 {
      TurnKeeps(s, room, fair);
      var (s', out) := Turn(s, room, fair);
      FillKeys(s', if out.Skip? then room else Left(room, |out.chunk.Encode()|), fair);
    }
  }

  /** An unused id stays unused: no frame carries it. */
  lemma AckUsed(w: World, n: nat, sid: nat, s: OC.Sender, t: OC.Sender)
    requires Possible(w, Acked(n)) && Follows(w, sid, s) && Shows(AckAll(w.streams, w.packets[n]), sid, sid in w.used, t)
    requires |s.carried| == 0 && !s.gone ==> t == s
    ensures sid !in w.used ==> sid !in AckAll(w.streams, w.packets[n]).send && !t.gone
  {
    hide ST.AckOf, ST.AckDefined, Linked;
    AckKeys(w.streams, w.packets[n]);
  }

  lemma {:induction false} AckKeys(s: Streams, frames: seq<R.StreamMeta>)
    requires AcksDefined(s, frames)
    ensures AckAll(s, frames).send.Keys <= s.send.Keys
    decreases |frames|
  {
    if frames != [] { AckKeys(ST.AckOf(s, frames[0]), frames[1..]); }
  }

  lemma LoseUsed(w: World, n: nat, sid: nat, s: OC.Sender, t: OC.Sender)
    requires n in w.packets && Follows(w, sid, s) && Shows(LoseAll(w.streams, w.packets[n]), sid, sid in w.used, t)
    requires |s.carried| == 0 && !s.gone ==> t == s
    ensures sid !in w.used ==> sid !in LoseAll(w.streams, w.packets[n]).send && !t.gone
  {
    hide ST.LossOf, Linked;
    LoseKeys(w.streams, w.packets[n]);
  }

  lemma {:induction false} LoseKeys(s: Streams, frames: seq<R.StreamMeta>)
    ensures LoseAll(s, frames).send.Keys == s.send.Keys
    decreases |frames|
  {
    if frames != [] { LoseKeys(ST.LossOf(s, frames[0]), frames[1..]); }
  }

  // --------------------------------------------------------------------- whole runs

  lemma TrackedInv(careful: bool, w: World, sid: nat) returns (s: OC.Sender)
    requires Tracked(careful, w, sid)
    ensures OC.Moves(careful, OC.START, s) && Follows(w, sid, s) && Fresh(w, sid, s)
    ensures OC.Inv(s) && (careful ==> OC.Retained(s))
  {
    hide OC.Inv, OC.Retained, OC.Legal, OC.Run, OC.AllCareful, OC.Sound, OC.AllClean, Follows;
    s :| OC.Moves(careful, OC.START, s) && Follows(w, sid, s) && Fresh(w, sid, s);
    var actions :| OC.LeadsWell(careful, OC.START, actions, s);
    OC.StartInv();
    OC.RunKeeps(OC.START, actions);
    if careful { OC.RunRetains(OC.START, actions); }
  }

  lemma StepKeeps(careful: bool, w: World, ev: Event)
    requires Inv(careful, w) && Possible(w, ev) && (careful ==> Careful(w, ev))
    ensures Inv(careful, Do(w, ev))
  {
    hide OC.Inv, OC.Retained, OC.Moves, Follows, AllSendable, Fill, CarefulAcks, Tracked;
    var w' := Do(w, ev);
    forall sid ensures Tracked(careful, w', sid) {
      assert Tracked(careful, w, sid);
      var s := TrackedInv(careful, w, sid);
      var t := StepFollows(careful, w, ev, sid, s);
      OC.MovesThen(careful, OC.START, s, t);
      TrackedBy(careful, w', sid, t);
    }
  }

  lemma TrackedBy(careful: bool, w: World, sid: nat, s: OC.Sender)
    requires OC.Moves(careful, OC.START, s) && Follows(w, sid, s) && Fresh(w, sid, s)
    ensures Tracked(careful, w, sid)
  {}

  /** The events are possible one after the other and lead from `w` to `w'`; and
      are careful, if asked. */
  ghost predicate Reaches(careful: bool, w: World, evs: seq<Event>, w': World)
    decreases |evs|
  {
    if evs == [] then w == w'
    else Possible(w, evs[0]) && (careful ==> Careful(w, evs[0])) && Reaches(careful, Do(w, evs[0]), evs[1..], w')
  }

  lemma StartInv(careful: bool)
    ensures Inv(careful, START)
  {
    hide OC.Moves;
    forall sid ensures Tracked(careful, START, sid) {
      OC.StartSound();
      OC.MovesNone(careful, OC.START);
      TrackedBy(careful, START, sid, OC.START);
    }
  }

  lemma {:induction false} RunKeeps(careful: bool, w: World, evs: seq<Event>, w': World)
    requires Inv(careful, w) && Reaches(careful, w, evs, w')
    ensures Inv(careful, w')
    decreases |evs|
  {
    hide Inv, Defined, Do, Careful;
    if evs != [] {
      StepKeeps(careful, w, evs[0]);
      RunKeeps(careful, Do(w, evs[0]), evs[1..], w');
    }
  }

  /** Every run of packets and streams, seen from any one stream, is a clean run
      of its sender, careful if all acknowledgements are: the entry is the
      sender's, and the frames it has in flight are exactly those in scheduled or
      outstanding packets. */
  lemma EveryStreamFollows(careful: bool, evs: seq<Event>, w: World, sid: nat) returns (actions: seq<OC.Action>)
    requires Reaches(careful, START, evs, w)
    ensures OC.CleanRun(actions) && (careful ==> OC.CarefulRun(actions)) && Follows(w, sid, OC.Reached(actions))
  {
    hide Reaches, Follows, OC.Legal, OC.Run, OC.AllCareful, OC.AllClean, OC.Sound, OC.Inv, OC.Retained, Tracked;
    StartInv(careful);
    RunKeeps(careful, START, evs, w);
    assert Tracked(careful, w, sid);
    OC.StartSound();
    var s := TrackedInv(careful, w, sid);
    actions :| OC.LeadsWell(careful, OC.START, actions, s);
  }

  /** So in every reachable state an offset of a live stream that some packet
      carries is carried at that one place, has been sent, and is not queued for
      retransmission; the assertion of `retransmit` holds for its frame. */
  lemma CarriedOnce(evs: seq<Event>, w: World, sid: nat, p: OC.Id, q: OC.Id, x: nat)
    requires Reaches(false, START, evs, w) && sid in w.streams.send && w.streams.send[sid].state != ResetSent
    requires CarriedAt(w.packets, sid, p) && CarriedAt(w.packets, sid, q)
    requires w.packets[p.packet][p.index].offsets.Contains(x) && w.packets[q.packet][q.index].offsets.Contains(x)
    ensures p == q && w.packets[p.packet][p.index].offsets.end <= w.streams.send[sid].pending.unsent
    ensures !L.Has(w.streams.send[sid].pending.retransmits, x)
  {
    hide Reaches, OC.Run, OC.Legal, OC.AllCareful, OC.AllClean, L.Has, SendBuf.Valid, Holds, OC.FinOnce;
    var actions := EveryStreamFollows(false, evs, w, sid);
    OC.ReachedKeeps(actions);
    var s := OC.Reached(actions);
    assert p in s.carried && q in s.carried;
  }

  // -------------------------------------------------------------------- careful runs

  /** The waiting offsets of a live stream are buffered, in every careful run. */
  lemma LiveSendable(s: OC.Sender)
    requires OC.Inv(s) && OC.Retained(s) && s.Live() && s.tx.pending.offset <= VARINT_MAX
    ensures Sendable(s.tx)
  {
    hide L.Has, L.Canonical, Total, Joined, OC.FinOnce;
    var b := s.tx.pending;
    assert b.unsent < b.Base() ==> b.unsent in s.acked;
  }

  /** While all acknowledgements are careful every packet can be filled: what the
      streams want to send is buffered. */
  lemma SendableAlways(w: World)
    requires Inv(true, w) && Encodable(w.streams)
    ensures AllSendable(w.streams)
  {
    hide OC.Inv, OC.Retained, Tracked, Sendable, OC.Moves, Linked;
    forall id | id in w.streams.send && w.streams.send[id].state != ResetSent ensures Sendable(w.streams.send[id]) {
      assert Tracked(true, w, id);
      var s := TrackedInv(true, w, id);
      LiveSendable(s);
    }
  }

  /** And a stream that was forgotten has no frame in any packet. */
  lemma ForgottenIdle(w: World, id: nat)
    requires Inv(true, w) && id !in w.streams.send
    ensures Idle(w.packets, id)
  {
    hide OC.Inv, Tracked, OC.Moves, OC.Sound, Linked;
    assert Tracked(true, w, id);
    var s := TrackedInv(true, w, id);
    assert |s.carried| == 0;
    NothingCarried(w, id, s);
  }

  /** What a careful run asks of an event: nothing about buffered bytes, nor about
      writes to forgotten streams. */
  ghost predicate PossibleCarefully(w: World, ev: Event) {
    && Defined(w, ev) && Careful(w, ev)
    && match ev
       case Open(id) => id !in w.used
       case Pack(_, _) => Encodable(w.streams)
       case Send(n) => n in w.packets && n !in w.left
       case _ => true
  }

  ghost predicate CarefulRun(w: World, evs: seq<Event>, w': World)
    decreases |evs|
  {
    if evs == [] then w == w' else PossibleCarefully(w, evs[0]) && CarefulRun(Do(w, evs[0]), evs[1..], w')
  }

  /** The rest follows. */
  lemma CarefulIsPossible(w: World, ev: Event)
    requires Inv(true, w) && PossibleCarefully(w, ev)
    ensures Possible(w, ev)
  {
    hide Inv, AllSendable, Encodable, Idle, CarefulAcks, AcksDefined;
    match ev {
      case Write(id, _) => if id !in w.streams.send { ForgottenIdle(w, id); }
      case Pack(_, _) => SendableAlways(w);
      case _ =>
    }
  }

  lemma {:induction false} CarefulRunReaches(w: World, evs: seq<Event>, w': World)
    requires Inv(true, w) && CarefulRun(w, evs, w')
    ensures Reaches(true, w, evs, w') && Inv(true, w')
    decreases |evs|
  {
    hide Inv, Possible, PossibleCarefully, Do, Careful, Defined;
    if evs != [] {
      CarefulIsPossible(w, evs[0]);
      CarefulMeans(w, evs[0]);
      StepKeeps(true, w, evs[0]);
      CarefulRunReaches(Do(w, evs[0]), evs[1..], w');
    }
  }

  lemma CarefulMeans(w: World, ev: Event)
    requires PossibleCarefully(w, ev)
    ensures Defined(w, ev) && Careful(w, ev)
  {}

  /** In every state of a careful run the packet loop can go on: `AllSendable`
      holds as soon as ids and offsets have encodings. */
  lemma AlwaysSendable(evs: seq<Event>, w: World)
    requires CarefulRun(START, evs, w) && Encodable(w.streams)
    ensures AllSendable(w.streams) && Reaches(true, START, evs, w)
  {
    hide Reaches, CarefulRun, Inv, AllSendable;
    StartInv(true);
    CarefulRunReaches(START, evs, w);
    SendableAlways(w);
  }
}
