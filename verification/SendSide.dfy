/** The sending side of a connection: the packet layer and the streams, driven
    together as core/src/connection/mod.rs does, for the Data space. Whatever is
    called, the packets in flight and the streams are a state of `InFlight`. */
module SendSide {
  import opened Core
  import opened VarInt
  import opened InFlight
  import opened StreamFrames
  import opened Recovery
  import opened SendStream
  import C = Connection
  import ST = Streams
  import H = Handover
  import OC = OffsetConservation
  import L = RangeList

  const DATA: SpaceId := 2

  predicate Queued(queue: seq<SentPacket>, n: nat) {
    exists i :: 0 <= i < |queue| && queue[i].space == DATA && queue[i].number == n
  }

  /** The packets of `w` are the queued and outstanding ones of the Data space;
      those outstanding have left. */
  ghost predicate Matches(w: World, spaces: seq<PacketSpace>, queue: seq<SentPacket>) {
    && |spaces| == 3 && w.next == spaces[DATA].next
    && (forall n :: n in w.packets <==> n in spaces[DATA].sent || Queued(queue, n))
    && (forall n :: n in spaces[DATA].sent ==>
          n in w.packets && n in w.left && w.packets[n] == spaces[DATA].sent[n].frames)
    && (forall i :: 0 <= i < |queue| && queue[i].space == DATA ==>
          queue[i].number in w.packets && queue[i].number !in w.left && w.packets[queue[i].number] == queue[i].frames)
  }

  lemma MatchesKnows(w: World, spaces: seq<PacketSpace>, path: Path)
    requires Matches(w, spaces, path.queue) && Conserved(spaces, path)
    ensures H.Knows(w, spaces[DATA].sent)
  {
    C.ConservedKeys(spaces, path, DATA);
  }

  lemma MatchesPack(w: World, spaces: seq<PacketSpace>, path: Path, room: nat, fair: bool, p: SentPacket, s: PacketSpace)
    requires Matches(w, spaces, path.queue) && Conserved(spaces, path) && Numbered(w)
    requires Possible(w, Pack(room, fair)) && AllSendable(w.streams)
    requires p.space == DATA && p.number == spaces[DATA].next && p.frames == ST.Metas(Fill(w.streams, room, fair).1)
    requires s == spaces[DATA].(next := p.number + 1)
    ensures Matches(Do(w, Pack(room, fair)), spaces[DATA := s], path.queue + [p])
  {
    hide AllSendable, Fill, Conserved;
    C.ConservedLength(spaces, path);
    C.ConservedKeys(spaces, path, DATA);
    var w' := Do(w, Pack(room, fair));
    var queue' := path.queue + [p];
    assert queue'[|path.queue|] == p;
    forall n ensures Queued(queue', n) <==> Queued(path.queue, n) || n == p.number {
      if Queued(path.queue, n) {
        var i :| 0 <= i < |path.queue| && path.queue[i].space == DATA && path.queue[i].number == n;
        assert queue'[i].number == n;
      }
    }
    forall i | 0 <= i < |queue'| && queue'[i].space == DATA
      ensures queue'[i].number in w'.packets && queue'[i].number !in w'.left && w'.packets[queue'[i].number] == queue'[i].frames
    {
      if i < |path.queue| { assert queue'[i] == path.queue[i]; }
    }
  }

  lemma QueuedTail(queue: seq<SentPacket>, n: nat)
    requires queue != []
    ensures Queued(queue, n) <==> Queued(queue[1..], n) || (queue[0].space == DATA && n == queue[0].number)
  {
    if Queued(queue, n) {
      var i :| 0 <= i < |queue| && queue[i].space == DATA && queue[i].number == n;
      assert i > 0 ==> queue[1..][i - 1].number == n;
    }
    if Queued(queue[1..], n) {
      var i :| 0 <= i < |queue[1..]| && queue[1..][i].space == DATA && queue[1..][i].number == n;
      assert queue[i + 1].number == n;
    }
  }

  lemma MatchesSend(w: World, spaces: seq<PacketSpace>, path: Path, p: SentPacket)
    requires Matches(w, spaces, path.queue) && Conserved(spaces, path) && path.queue != []
    requires p.number == path.queue[0].number && p.space == path.queue[0].space && p.frames == path.queue[0].frames
    ensures var spaces' := spaces[p.space := spaces[p.space].Sent(p)];
            if p.space == DATA then Possible(w, Send(p.number)) && Matches(Do(w, Send(p.number)), spaces', path.queue[1..])
            else Matches(w, spaces', path.queue[1..])
  {
    hide Conserved, Queued;
    var queue := path.queue;
    QueueDistinct(spaces, path);
    forall n { QueuedTail(queue, n); }
    assert forall i :: 0 <= i < |queue| - 1 ==> queue[1..][i] == queue[i + 1];
  }

  lemma QueueDistinct(spaces: seq<PacketSpace>, path: Path)
    requires Conserved(spaces, path) && path.queue != []
    ensures |spaces| == 3
    ensures forall i :: 0 < i < |path.queue| && path.queue[i].space == path.queue[0].space ==>
              path.queue[i].number != path.queue[0].number
  {
    hide L.Canonical, Size, Eliciting, FirstOk, SpaceOk;
  }

  /** Packets leave the space and the world together. */
  lemma MatchesTake(w: World, spaces: seq<PacketSpace>, path: Path, w': World, s: PacketSpace, gone: set<nat>)
    requires Matches(w, spaces, path.queue) && Conserved(spaces, path)
    requires w'.packets == w.packets - gone && w'.left == w.left && w'.next == w.next
    requires s.sent == spaces[DATA].sent - gone && s.next == spaces[DATA].next && gone <= spaces[DATA].sent.Keys
    ensures Matches(w', spaces[DATA := s], path.queue)
  {
    hide L.Canonical, Size, Eliciting, FirstOk;
    forall i | 0 <= i < |path.queue| && path.queue[i].space == DATA ensures path.queue[i].number !in gone {}
    forall n ensures Queued(path.queue, n) ==> n !in gone {}
  }

  /** What a packet of a live stream carries has been sent. */
  lemma FramesBelow(w: World, n: nat, i: nat)
    requires Inv(false, w) && n in w.packets && i < |w.packets[n]|
    ensures var f := w.packets[n][i]; ST.Reaches(w.streams, f) ==> f.offsets.end <= w.streams.send[f.id].pending.unsent
  {
    hide OC.Moves, Tracked, OC.FinOnce, OC.Sound;
    var f := w.packets[n][i];
    assert Tracked(false, w, f.id);
    var s := TrackedInv(false, w, f.id);
    assert CarriedAt(w.packets, f.id, OC.Id(n, i));
    assert OC.Id(n, i) in s.carried;
  }

  /** Frames that are in order for `retransmit`. */
  ghost predicate AllBelow(s: Streams, frames: seq<StreamMeta>) {
    forall i :: 0 <= i < |frames| && ST.Reaches(s, frames[i]) ==> frames[i].offsets.end <= s.send[frames[i].id].pending.unsent
  }

  lemma {:induction false} PacketsBelow(w: World, packets: seq<SentPacket>)
    requires Inv(false, w) && H.Outstanding(w, packets)
    ensures AllBelow(w.streams, FramesOf(packets))
    decreases |packets|
  {
    hide Inv, ST.Reaches;
    if packets != [] {
      var front, p := packets[..|packets| - 1], packets[|packets| - 1];
      H.Front(w, packets, front, p);
      PacketsBelow(w, front);
      forall i | 0 <= i < |p.frames|
        ensures ST.Reaches(w.streams, p.frames[i]) ==>
                  p.frames[i].id in w.streams.send && p.frames[i].offsets.end <= w.streams.send[p.frames[i].id].pending.unsent
      {
        FramesBelow(w, p.number, i);
        ReachesMeans(w.streams, p.frames[i]);
      }
    }
  }

  lemma ReachesMeans(s: Streams, f: StreamMeta)
    ensures ST.Reaches(s, f) ==> f.id in s.send
  {}

  lemma LossBelow(s: Streams, f: StreamMeta, frames: seq<StreamMeta>)
    requires AllBelow(s, frames)
    ensures AllBelow(ST.LossOf(s, f), frames)
  {}

  class SendSide {
    const conn: C.Connection
    const streams: ST.StreamsState
    ghost var world: World
    /** Whether every acknowledgement so far was careful. */
    ghost var careful: bool

    ghost predicate Valid()
      reads this, conn, streams, streams.pending
    {
      && conn.Valid() && streams.Valid() && world.streams == streams.View()
      && Matches(world, conn.spaces, conn.path.queue) && Inv(careful, world)
    }

    constructor (now: nat)
      ensures Valid() && fresh(conn) && fresh(streams) && fresh(streams.pending) && world == START && careful
    {
      conn := new C.Connection(now);
      streams := new ST.StreamsState();
      world, careful := START, true;
      StartInv(true);
    }

    /** The application writes to a stream. Only a stream that was forgotten too
        soon can still have frames in packets. */
    method Write(id: nat, data: Bytes)
      requires Valid()
      requires careful || id in streams.send || Idle(world.packets, id)
      modifies this, streams, streams.pending
      ensures Valid() && world == Do(old(world), InFlight.Write(id, data)) && careful == old(careful)
    {
      hide Inv, Matches, ST.WriteTo, C.Connection.Valid, Idle;
      if careful { CarefulIsPossible(world, InFlight.Write(id, data)); }
      StepKeeps(careful, world, InFlight.Write(id, data));
      SamePackets(world, InFlight.Write(id, data), conn.spaces, conn.path.queue);
      var _ := streams.Write(id, data, false);
      world := Do(world, InFlight.Write(id, data));
    }

    method Finish(id: nat)
      requires Valid()
      modifies this, streams, streams.pending
      ensures Valid() && world == Do(old(world), InFlight.Finish(id)) && careful == old(careful)
    {
      hide Inv, Matches, ST.FinishOf, C.Connection.Valid;
      StepKeeps(careful, world, InFlight.Finish(id));
      SamePackets(world, InFlight.Finish(id), conn.spaces, conn.path.queue);
      var _ := streams.Finish(id);
      world := Do(world, InFlight.Finish(id));
    }

    /** Fill a packet and schedule it. The bytes it needs are buffered, unless an
        acknowledgement was careless. */
    method Pack(now: nat, capacity: nat, buf: Bytes, fair: bool, size: nat, largestAcked: Option<nat>)
      returns (out: Bytes, complete: bool)
      requires Valid() && Encodable(streams.View()) && conn.spaces[DATA].next < PACKET_NUMBER_LIMIT
      requires careful || AllSendable(streams.View())
      modifies this, conn, streams, streams.pending
      ensures complete <==> old(AllSendable(streams.View()) && Finishes(streams.View(), Left(capacity, |buf|), fair))
      ensures complete ==> Valid() && world == Do(old(world), InFlight.Pack(Left(capacity, |buf|), fair)) && careful == old(careful)
      ensures complete && |buf| <= capacity ==> |out| <= capacity
    {
      hide Inv, Matches, Fill, AllSendable, Finishes, Conserved, Ledger, Wire;
      if careful { SendableAlways(world); }
      ghost var ev := InFlight.Pack(Left(capacity, |buf|), fair);
      StepKeeps(careful, world, ev);
      ghost var spaces, path := conn.spaces, conn.path;
      C.ConservedLength(spaces, path);
      var metas;
      out, metas, complete := streams.WriteStreamFrames(capacity, buf, fair);
      if !complete {
        return;
      }
      var number := conn.Schedule(DATA, now, size, true, largestAcked, NO_RETRANSMITS, metas);
      InvNumbered(careful, world);
      MatchesPack(world, spaces, path, Left(capacity, |buf|), fair,
                  SentPacket(number, DATA, now, size, true, largestAcked, NO_RETRANSMITS, metas), conn.spaces[DATA]);
      world := Do(world, ev);
    }

    /** Send the packet at the head of the queue. */
    method SendNext(now: nat) returns (sent: Option<SentPacket>)
      requires Valid()
      modifies this, conn
      ensures Valid() && careful == old(careful)
      ensures world == if sent.Some? && sent.value.space == DATA then old(world).(left := old(world).left + {sent.value.number})
                       else old(world)
    {
      hide Inv, Matches, Conserved, Ledger;
      ghost var spaces, path := conn.spaces, conn.path;
      sent := conn.SendOne(now);
      if sent.Some? {
        MatchesSend(world, spaces, path, sent.value);
        if sent.value.space == DATA {
          StepKeeps(careful, world, InFlight.Send(sent.value.number));
          world := Do(world, InFlight.Send(sent.value.number));
        }
      }
    }

    /** Hand frames to the streams, acknowledged ones first. */
    method Apply(acked: seq<StreamMeta>, lost: seq<StreamMeta>)
      requires streams.Valid() && AcksDefined(streams.View(), acked) && AllBelow(AckAll(streams.View(), acked), lost)
      modifies streams, streams.pending
      ensures streams.Valid() && streams.View() == LoseAll(AckAll(old(streams.View()), acked), lost)
    {
      hide ST.AckOf, ST.AckDefined, ST.LossOf, ST.Reaches, AllBelow, ST.StreamsState.Valid;
      ghost var mid := AckAll(streams.View(), acked);
      for i := 0 to |acked|
        invariant streams.Valid() && AcksDefined(streams.View(), acked[i..]) && AckAll(streams.View(), acked[i..]) == mid
      {
        SplitAt(acked, i);
        streams.ReceivedAckOf(acked[i]);
      }
      ghost var end := LoseAll(streams.View(), lost);
      for i := 0 to |lost|
        invariant streams.Valid() && AllBelow(streams.View(), lost) && LoseAll(streams.View(), lost[i..]) == end
      {
        SplitAt(lost, i);
        BelowAt(streams.View(), lost, i);
        LossBelow(streams.View(), lost[i], lost);
        streams.Retransmit(lost[i]);
      }
    }

    /** Process an ACK frame: packets leave, and their frames are handed to the
        streams, first the acknowledged and then the lost ones. */
    method HandleAck(now: nat, ack: C.Ack) returns (result: C.AckResult, ghost events: seq<Event>)
      requires Valid()
      requires AcksDefined(streams.View(), FramesOf(TakenAll(conn.spaces[DATA].sent, ack.ranges)))
      modifies this, conn, streams, streams.pending
      ensures Valid() && Reaches(careful, old(world), events, world)
      ensures careful == old(careful && CarefulAcks(streams.View(), FramesOf(TakenAll(conn.spaces[DATA].sent, ack.ranges))))
      ensures result == C.Judge(old(conn.spaces[DATA].next), old(conn.spaces[DATA].largestAcked), ack)
      ensures !result.AckOk? ==> events == []
      ensures result.AckOk? ==> conn.ackedFrames == old(conn.ackedFrames) + FramesOf(TakenAll(old(conn.spaces[DATA].sent), ack.ranges))
    {
      hide Inv, Matches, Conserved, Ledger, AcksDefined, CarefulAcks, AckAll, LoseAll, TakenAll, WithoutAll, FramesOf, LostBelow,
           GrowAll, CongestAll, MergeAll, Deadline, ForgetAll, Newest, Reaches, C.OnAck, Survivors,
           ST.StreamsState.Valid, AllBelow;
      ghost var was, spaces, path := world, conn.spaces, conn.path;
      C.ConservedLength(spaces, path);
      var acked0, lost0 := conn.ackedFrames, conn.lostFrames;
      result := conn.OnAckReceived(now, DATA, ack);
      var acked, lost := conn.ackedFrames[|acked0|..], conn.lostFrames[|lost0|..];
      ghost var taken := TakenAll(spaces[DATA].sent, ack.ranges);
      events := [];
      ghost var wasCareful := careful;
      careful := careful && CarefulAcks(was.streams, FramesOf(taken));
      if wasCareful && !careful { CarelessInv(was); }
      NothingHanded(careful, was);
      Appended(lost0, []);
      Appended(acked0, []);
      if result.AckOk? && taken != [] {
        ghost var cutoff := Cutoff(now, LossDelay(conn.rtt));
        ghost var gone := LostBelow(WithoutAll(spaces[DATA].sent, ack.ranges), cutoff, ack.largest + 1);
        AckSettles(careful, was, spaces, path, ack.ranges, cutoff, ack.largest + 1, conn.spaces[DATA]);
        Appended(acked0, FramesOf(taken));
        Appended(lost0, FramesOf(gone));
        world := H.AfterLosses(H.AfterAcks(was, taken), gone);
        events := H.AckedEvents(taken) + H.LostEvents(gone);
      }
      Apply(acked, lost);
    }

    /** The loss timer: run the loss pass and hand the lost frames back. */
    method LossTimer(now: nat) returns (ghost events: seq<Event>)
      requires Valid()
      modifies this, conn, streams, streams.pending
      ensures Valid() && Reaches(careful, old(world), events, world) && careful == old(careful)
    {
      hide Inv, Matches, Conserved, Ledger, AcksDefined, CarefulAcks, AckAll, LoseAll, FramesOf, LostBelow,
           CongestAll, MergeAll, Deadline, Reaches, Survivors, ST.StreamsState.Valid, AllBelow;
      ghost var was, spaces, path := world, conn.spaces, conn.path;
      C.ConservedLength(spaces, path);
      var lost0 := conn.lostFrames;
      var active := conn.spaces[DATA].largestAcked.Some?;
      conn.DetectLostPackets(now, DATA);
      var lost := conn.lostFrames[|lost0|..];
      events := [];
      NothingHanded(careful, was);
      Appended(lost0, []);
      if active {
        ghost var cutoff := Cutoff(now, LossDelay(conn.rtt));
        ghost var n := spaces[DATA].largestAcked.value + 1;
        LossSettles(careful, was, spaces, path, cutoff, n, conn.spaces[DATA]);
        Appended(lost0, FramesOf(LostBelow(spaces[DATA].sent, cutoff, n)));
        world := H.AfterLosses(was, LostBelow(spaces[DATA].sent, cutoff, n));
        events := H.LostEvents(LostBelow(spaces[DATA].sent, cutoff, n));
      } else {
        MatchesTake(was, spaces, path, was, conn.spaces[DATA], {});
      }
      Apply([], lost);
    }
  }

  lemma Appended(before: seq<StreamMeta>, more: seq<StreamMeta>)
    ensures (before + more)[|before|..] == more && (more == [] ==> before + more == before)
  {}

  lemma BelowAt(s: Streams, frames: seq<StreamMeta>, i: nat)
    requires AllBelow(s, frames) && i < |frames|
    ensures ST.Reaches(s, frames[i]) ==> frames[i].id in s.send && frames[i].offsets.end <= s.send[frames[i].id].pending.unsent
  {}

  /** A run with a careless acknowledgement in it is still a run. */
  lemma CarelessInv(w: World)
    requires Inv(true, w)
    ensures Inv(false, w)
  {
    hide OC.Moves, Follows, Fresh;
    forall sid ensures Tracked(false, w, sid) {
      assert Tracked(true, w, sid);
      var s :| OC.Moves(true, OC.START, s) && Follows(w, sid, s) && Fresh(w, sid, s);
      OC.MovesCarelessly(OC.START, s);
      TrackedBy(false, w, sid, s);
    }
  }

  lemma AnyInv(careful: bool, w: World)
    requires Inv(careful, w)
    ensures Inv(false, w)
  {
    hide Inv;
    if careful { CarelessInv(w); }
  }

  lemma NothingHanded(careful: bool, w: World)
    ensures AcksDefined(w.streams, []) && CarefulAcks(w.streams, [])
    ensures AckAll(w.streams, []) == w.streams && LoseAll(w.streams, []) == w.streams
    ensures AllBelow(w.streams, []) && Reaches(careful, w, [], w) && FramesOf([]) == []
  {}

  /** An ACK frame that takes packets, as a run of `InFlight`. */
  lemma AckSettles(careful: bool, w: World, spaces: seq<PacketSpace>, path: Path, ranges: seq<Range>, cutoff: nat, n: nat, s: PacketSpace)
    requires Matches(w, spaces, path.queue) && Conserved(spaces, path) && Inv(careful, w)
    requires AcksDefined(w.streams, FramesOf(TakenAll(spaces[DATA].sent, ranges)))
    requires careful ==> CarefulAcks(w.streams, FramesOf(TakenAll(spaces[DATA].sent, ranges)))
    requires s.next == spaces[DATA].next && s.sent == Survivors(WithoutAll(spaces[DATA].sent, ranges), cutoff, n)
    ensures var taken := TakenAll(spaces[DATA].sent, ranges);
            var lost := LostBelow(WithoutAll(spaces[DATA].sent, ranges), cutoff, n);
            var mid := H.AfterAcks(w, taken);
            var end := H.AfterLosses(mid, lost);
            && Reaches(careful, w, H.AckedEvents(taken) + H.LostEvents(lost), end) && Inv(careful, end)
            && Matches(end, spaces[DATA := s], path.queue) && AllBelow(mid.streams, FramesOf(lost))
  {
    hide Inv, Matches, Conserved, AcksDefined, CarefulAcks, AckAll, LoseAll, TakenAll, WithoutAll, FramesOf, LostBelow, Survivors, Reaches,
         AllBelow, H.Numbers, H.Outstanding;
    C.ConservedLength(spaces, path);
    MatchesKnows(w, spaces, path);
    var sent := spaces[DATA].sent;
    H.AckIsEvents(careful, w, sent, ranges, cutoff, n);
    var taken := TakenAll(sent, ranges);
    var kept := WithoutAll(sent, ranges);
    var lost := LostBelow(kept, cutoff, n);
    var mid := H.AfterAcks(w, taken);
    var end := H.AfterLosses(mid, lost);
    RunKeeps(careful, w, H.AckedEvents(taken), mid);
    RunKeeps(careful, mid, H.LostEvents(lost), end);
    AnyInv(careful, mid);
    PacketsBelow(mid, lost);
    WithoutAllWithin(sent, ranges);
    H.SurvivorsAre(kept, cutoff, n);
    var gone := H.Numbers(taken) + H.Numbers(lost);
    assert end.packets == w.packets - gone;
    assert s.sent == sent - gone;
    MatchesTake(w, spaces, path, end, s, gone);
  }

  lemma LossSettles(careful: bool, w: World, spaces: seq<PacketSpace>, path: Path, cutoff: nat, n: nat, s: PacketSpace)
    requires Matches(w, spaces, path.queue) && Conserved(spaces, path) && Inv(careful, w)
    requires s.next == spaces[DATA].next && s.sent == Survivors(spaces[DATA].sent, cutoff, n)
    ensures var lost := LostBelow(spaces[DATA].sent, cutoff, n);
            var end := H.AfterLosses(w, lost);
            && Reaches(careful, w, H.LostEvents(lost), end) && Inv(careful, end)
            && Matches(end, spaces[DATA := s], path.queue) && AllBelow(w.streams, FramesOf(lost))
  {
    hide Inv, Matches, Conserved, LoseAll, FramesOf, LostBelow, Survivors, Reaches, AllBelow, H.Numbers, H.Outstanding;
    C.ConservedLength(spaces, path);
    MatchesKnows(w, spaces, path);
    var sent := spaces[DATA].sent;
    H.LossIsEvents(careful, w, sent, cutoff, n);
    var lost := LostBelow(sent, cutoff, n);
    RunKeeps(careful, w, H.LostEvents(lost), H.AfterLosses(w, lost));
    AnyInv(careful, w);
    PacketsBelow(w, lost);
    H.SurvivorsAre(sent, cutoff, n);
    MatchesTake(w, spaces, path, H.AfterLosses(w, lost), s, H.Numbers(lost));
  }

  lemma InvNumbered(careful: bool, w: World)
    requires Inv(careful, w)
    ensures Numbered(w)
  {}

  lemma SamePackets(w: World, ev: Event, spaces: seq<PacketSpace>, queue: seq<SentPacket>)
    requires Possible(w, ev) && (ev.Write? || ev.Finish?) && Matches(w, spaces, queue)
    ensures Matches(Do(w, ev), spaces, queue)
  {}
}
