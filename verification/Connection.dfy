/** The connection's handling of sent packets: numbering, sending, ACK
    processing, the loss pass and discarding a space
    (core/src/connection/mod.rs and path.rs). The stream layer is represented by
    the frames that are handed to it. */
module Connection {
  import opened Core
  import opened Congestion
  import opened Recovery
  import opened RecoveryLaws
  import L = RangeList

  const ACK_DELAY_FACTOR: nat := 8
  const U64_RANGE: nat := 0x1_0000_0000_0000_0000

  /** An ACK frame: its largest number, delay field and ranges, in the order in
      which they are read. */
  datatype Ack = Ack(largest: nat, delay: nat, ranges: seq<Range>)

  datatype AckResult = AckOk | UnsentPacket | Regressed

  /** Which ACK frames are refused. */
  function Judge(next: nat, largestAcked: Option<nat>, ack: Ack): AckResult {
    if ack.largest >= next then UnsentPacket
    else if largestAcked.Some? && ack.largest < largestAcked.value then Regressed
    else AckOk
  }

  /** `delay << 3` in 64 bits, as microseconds. */
  function AckDelay(delay: nat): nat {
    (delay * ACK_DELAY_FACTOR) % U64_RANGE * 1000
  }

  /** The delay field counts units of eight microseconds; its top bit is lost. */
  lemma AckDelayExact(delay: nat)
    requires delay < 0x4000_0000_0000_0000
    ensures AckDelay(delay) == 8000 * if delay < 0x2000_0000_0000_0000 then delay else delay - 0x2000_0000_0000_0000
  {}

  function Elapsed(now: nat, then_: nat): nat {
    if then_ <= now then now - then_ else 0
  }

  /** What ACK processing starts from: the space, the congestion controller and
      the frames already handed over. */
  datatype Before = Before(space: PacketSpace, congestion: Reno, frames: seq<StreamMeta>)

  /** The part of a space that ACK frames depend on. */
  datatype AckState = AckState(next: nat, largestAcked: Option<nat>, sent: map<nat, SentPacket>, ranges: seq<Range>)

  function View(s: PacketSpace): AckState {
    AckState(s.next, s.largestAcked, s.sent, s.ackRanges)
  }

  /** What an ACK frame does to it; `lost` are the packets that the loss pass
      then gives up. */
  ghost function OnAck(s: AckState, ack: Ack, lost: set<nat>): AckState {
    var taken := TakenAll(s.sent, ack.ranges);
    if !Judge(s.next, s.largestAcked, ack).AckOk? || taken == [] then s
    else
      s.(largestAcked := Some(ack.largest), sent := WithoutAll(s.sent, ack.ranges) - lost,
         ranges := ForgetAll(s.ranges, taken))
  }

  class Connection {
    /** The Initial, Handshake and Data spaces. */
    var spaces: seq<PacketSpace>
    var path: Path
    var congestion: Reno
    var rtt: Rtt
    var appLimited: bool
    /** Frames handed to `StreamsState::received_ack_of`, in order. */
    var ackedFrames: seq<StreamMeta>
    /** Frames handed to `StreamsState::retransmit`, in order. */
    var lostFrames: seq<StreamMeta>
    /** Every frame of every packet ever scheduled. */
    ghost var scheduled: multiset<StreamMeta>

    ghost predicate Valid()
      reads this
    {
      Conserved(spaces, path) && Ledger(spaces, path.queue, scheduled, ackedFrames, lostFrames)
    }

    constructor (now: nat)
      ensures Valid()
      ensures spaces == [NEW_SPACE, NEW_SPACE, NEW_SPACE] && path == Path([], 0, 0, None)
      ensures ackedFrames == [] && lostFrames == [] && scheduled == multiset{} && rtt == NEW_RTT && congestion == StartReno(now)
    {
      spaces := [NEW_SPACE, NEW_SPACE, NEW_SPACE];
      path := Path([], 0, 0, None);
      congestion, rtt, appLimited := StartReno(now), NEW_RTT, false;
      ackedFrames, lostFrames, scheduled := [], [], multiset{};
    }

    /** Number a packet and put it in the sending queue. */
    method Schedule(id: SpaceId, now: nat, size: nat, ackEliciting: bool, largestAcked: Option<nat>,
                    retransmits: Retransmits, frames: seq<StreamMeta>) returns (number: nat)
      requires Valid() && spaces[id].next < PACKET_NUMBER_LIMIT && (id != 2 ==> frames == [])
      modifies this`spaces, this`path, this`scheduled
      ensures Valid() && number == old(spaces[id].next) && scheduled == old(scheduled) + multiset(frames)
      ensures spaces == old(spaces)[id := old(spaces[id]).(next := number + 1)]
      ensures path == old(path).(queue := old(path.queue)
                        + [SentPacket(number, id, now, size, ackEliciting, largestAcked, retransmits, frames)])
    {
      hide Conserved, Ledger;
      ConservedLength(spaces, path);
      ConservedKeys(spaces, path, id);
      number := spaces[id].next;
      var p := SentPacket(number, id, now, size, ackEliciting, largestAcked, retransmits, frames);
      ScheduleConserves(spaces, path, id, p);
      ScheduleLedger(spaces, path.queue, p, number, scheduled, ackedFrames, lostFrames);
      scheduled := scheduled + multiset(frames);
      spaces := spaces[id := spaces[id].(next := number + 1)];
      path := path.(queue := path.queue + [p]);
    }

    /** Send the packet at the head of the queue. */
    method SendOne(now: nat) returns (sent: Option<SentPacket>)
      requires Valid()
      modifies this`spaces, this`path
      ensures Valid()
      ensures sent.None? <==> old(path.queue) == []
      ensures sent.None? ==> spaces == old(spaces) && path == old(path)
      ensures sent.Some? ==>
                var p := sent.value;
                && p == old(path.queue)[0].(timeSent := now)
                && spaces == old(spaces)[p.space := old(spaces[p.space]).Sent(p)]
                && path == old(path).(queue := old(path.queue)[1..]).Insert(p)
    {
      hide Conserved, Ledger;
      ConservedLength(spaces, path);
      if path.queue == [] {
        return None;
      }
      SendConserves(spaces, path, now);
      var p := path.queue[0].(timeSent := now);
      ConservedHead(spaces, path);
      SendLedger(spaces, path.queue, p, scheduled, ackedFrames, lostFrames);
      path := path.(queue := path.queue[1..]).Insert(p);
      spaces := spaces[p.space := spaces[p.space].Sent(p)];
      return Some(p);
    }

    /** Take a packet off the path's counters unless it predates the path. */
    method RemoveInFlight(pn: nat, p: SentPacket) returns (removed: bool)
      requires path.Owns(pn) ==> p.size <= path.bytes && Elicits(p) <= path.ackEliciting
      modifies this`path
      ensures removed == old(path.Owns(pn))
      ensures path == if removed then old(path).Remove(p) else old(path)
    {
      if path.first.None? || path.first.value > pn {
        return false;
      }
      path := path.Remove(p);
      return true;
    }

    /** Forget everything about a space's outstanding packets. */
    method DiscardSpace(id: SpaceId)
      requires Valid() && id != 2
      modifies this`spaces, this`path
      ensures Valid()
      ensures spaces == old(spaces)[id := old(spaces[id]).(lossTime := None, inFlight := 0, sent := map[])]
      ensures path == old(path).(bytes := path.bytes, ackEliciting := path.ackEliciting)
    {
      hide Conserved, Ledger;
      ConservedLength(spaces, path);
      ghost var was := spaces;
      ConservedKeys(spaces, path, id);
      DiscardBegins(spaces, path, id);
      SameLedger(spaces, path.queue, id, spaces[id].(lossTime := None, inFlight := 0, sent := map[]),
                 scheduled, ackedFrames, lostFrames);
      var dropped := spaces[id].sent;
      var n := spaces[id].next;
      spaces := spaces[id := spaces[id].(lossTime := None, inFlight := 0, sent := map[])];
      ghost var rest: map<nat, SentPacket> := dropped;
      for pn := 0 to n
        invariant Discarding(was, path, id, rest)
        invariant rest == map k | k in dropped && pn <= k :: dropped[k]
        invariant path == old(path).(bytes := path.bytes, ackEliciting := path.ackEliciting)
        invariant spaces == was[id := was[id].(lossTime := None, inFlight := 0, sent := map[])]
      {
        if pn in dropped {
          DiscardStep(was, path, id, rest, pn);
          var _ := RemoveInFlight(pn, dropped[pn]);
          rest := rest - {pn};
        }
      }
      DiscardEnds(was, path, id, rest);
    }

    /** The time-threshold loss pass over one space. */
    method DetectLostPackets(now: nat, id: SpaceId)
      requires Valid()
      modifies this`spaces, this`path, this`congestion, this`lostFrames
      ensures Valid()
      ensures path == old(path).(bytes := path.bytes, ackEliciting := path.ackEliciting)
      ensures old(spaces[id].largestAcked).None? ==>
                && spaces == old(spaces)[id := old(spaces[id]).(lossTime := None)]
                && path == old(path) && congestion == old(congestion) && lostFrames == old(lostFrames)
      ensures old(spaces[id].largestAcked).Some? ==>
                var was := old(spaces[id]);
                var n := was.largestAcked.value + 1;
                var delay := LossDelay(rtt);
                var lost := LostBelow(was.sent, Cutoff(now, delay), n);
                && lostFrames == old(lostFrames) + FramesOf(lost)
                && congestion == CongestAll(old(congestion), now, lost)
                && spaces == old(spaces)[id := was.(
                     sent := spaces[id].sent,
                     inFlight := spaces[id].inFlight,
                     lossTime := Deadline(was.sent, Cutoff(now, delay), delay, n),
                     pending := MergeAll(was.pending, lost))]
                && spaces[id].sent == Survivors(was.sent, Cutoff(now, delay), n)
      ensures old(spaces[id].largestAcked).Some? ==>
                var largest := old(spaces[id].largestAcked).value;
                && LossPassed(old(spaces[id].sent), spaces[id].sent, largest, now, Measured(rtt))
                && TimerSet(spaces[id].sent, largest, spaces[id].lossTime, Measured(rtt))
    {
      hide Conserved, Ledger, LossLoop, LostBelow, Deadline, FramesOf, CongestAll, MergeAll, Survivors, LossPassed, TimerSet;
      ConservedLength(spaces, path);
      if spaces[id].largestAcked.None? {
        LossTimeConserves(spaces, path, id, None);
        SameLedger(spaces, path.queue, id, spaces[id].(lossTime := None), scheduled, ackedFrames, lostFrames);
        spaces := spaces[id := spaces[id].(lossTime := None)];
        return;
      }
      var n := spaces[id].largestAcked.value + 1;
      var delay := LossDelay(rtt);
      var cutoff := Cutoff(now, delay);
      var lost, deadline := CollectLost(spaces[id].sent, cutoff, delay, n);
      LossTimeConserves(spaces, path, id, deadline);
      SameLedger(spaces, path.queue, id, spaces[id].(lossTime := deadline), scheduled, ackedFrames, lostFrames);
      spaces := spaces[id := spaces[id].(lossTime := deadline)];
      ghost var start := spaces[id];
      LostFiled(spaces, path, id, cutoff, n);
      ConservedKeys(spaces, path, id);
      HandleLost(now, id, lost, start);
      LossDone(start, spaces[id], cutoff, n);
      LossPassMeans(start.sent, n - 1, now, rtt);
    }

    /** The second loop of the loss pass: each lost packet leaves the path and
        the space, and what it carried is handed back. */
    method HandleLost(now: nat, id: SpaceId, lost: seq<SentPacket>, ghost start: PacketSpace)
      requires Valid() && LossLoop(start, spaces[id], lost, 0)
      modifies this`spaces, this`path, this`congestion, this`lostFrames
      ensures Valid() && spaces == old(spaces)[id := spaces[id]] && LossLoop(start, spaces[id], lost, |lost|)
      ensures path == old(path).(bytes := path.bytes, ackEliciting := path.ackEliciting)
      ensures lostFrames == old(lostFrames) + FramesOf(lost)
      ensures congestion == CongestAll(old(congestion), now, lost)
    {
      hide Conserved, Ledger, LossLoop, FramesOf, CongestAll, MergeAll;
      ConservedLength(spaces, path);
      FoldNone(congestion, now, lost);
      for i := 0 to |lost|
        invariant Conserved(spaces, path) && |spaces| == 3
        invariant Ledger(spaces, path.queue, scheduled, ackedFrames, lostFrames)
        invariant path == old(path).(bytes := path.bytes, ackEliciting := path.ackEliciting)
        invariant LossLoop(start, spaces[id], lost, i)
        invariant spaces == old(spaces)[id := spaces[id]]
        invariant lostFrames == old(lostFrames) + FramesOf(lost[..i])
        invariant congestion == CongestAll(old(congestion), now, lost[..i])
      {
        var p := lost[i];
        LossStep(start, spaces[id], lost, i);
        FoldStep(old(congestion), now, lost, i);
        LoseConserves(spaces, path, id, p.number, spaces[id].pending.Merge(p.retransmits));
        ConservedKeys(spaces, path, id);
        HandOverLedger(spaces, path.queue, id, p.number,
                       spaces[id].(pending := spaces[id].pending.Merge(p.retransmits)).Take(p.number),
                       scheduled, ackedFrames, lostFrames);
        var removed := RemoveInFlight(p.number, p);
        if removed && p.ackEliciting {
          congestion := congestion.OnCongestionEvent(now, p.timeSent);
        }
        Spliced(old(lostFrames), FramesOf(lost[..i]), p.frames);
        lostFrames := lostFrames + p.frames;
        var merged := spaces[id].(pending := spaces[id].pending.Merge(p.retransmits));
        spaces := spaces[id := merged.Take(p.number)];
      }
      assert lost[..|lost|] == lost;
    }

    /** The outer loop of ACK processing: the ranges, in the order of the frame. */
    method TakeAcked(id: SpaceId, ranges: seq<Range>)
      returns (newest: Option<SentPacket>, ghost taken: seq<SentPacket>)
      requires Valid()
      modifies this`spaces, this`path, this`congestion, this`ackedFrames
      ensures Valid() && spaces == old(spaces)[id := spaces[id]]
      ensures path == old(path).(bytes := path.bytes, ackEliciting := path.ackEliciting)
      ensures taken == TakenAll(old(spaces[id].sent), ranges)
      ensures AckLoop(old(spaces[id]), spaces[id], taken, newest)
      ensures spaces[id].sent == WithoutAll(old(spaces[id].sent), ranges)
      ensures congestion == GrowAll(old(congestion), taken, appLimited)
      ensures ackedFrames == old(ackedFrames) + FramesOf(taken)
    {
      hide Conserved, Ledger, AckLoop, L.Canonical, L.Remove, GrowAll, FramesOf, TakenAll, WithoutAll, ForgetAll;
      ConservedLength(spaces, path);
      ghost var from := Before(spaces[id], congestion, ackedFrames);
      newest, taken := None, [];
      AckLoopNone(from.space, congestion, appLimited, ranges);
      for i := 0 to |ranges|
        invariant Valid() && |spaces| == 3 && spaces == old(spaces)[id := spaces[id]]
        invariant path == old(path).(bytes := path.bytes, ackEliciting := path.ackEliciting)
        invariant taken == TakenAll(from.space.sent, ranges[..i])
        invariant spaces[id].sent == WithoutAll(from.space.sent, ranges[..i])
        invariant AckLoop(from.space, spaces[id], taken, newest)
        invariant congestion == GrowAll(from.congestion, taken, appLimited)
        invariant ackedFrames == from.frames + FramesOf(taken)
      {
        TakenAllStep(from.space.sent, ranges, i);
        newest, taken := TakeRange(id, ranges[i], newest, from, taken);
      }
      assert ranges[..|ranges|] == ranges;
    }

    /** Process an ACK frame. */
    method OnAckReceived(now: nat, id: SpaceId, ack: Ack) returns (result: AckResult)
      requires Valid()
      modifies this`spaces, this`path, this`congestion, this`rtt, this`ackedFrames, this`lostFrames
      ensures Valid()
      ensures result == Judge(old(spaces[id].next), old(spaces[id].largestAcked), ack)
      ensures View(spaces[id]) == OnAck(old(View(spaces[id])), ack, old(spaces[id].sent).Keys - spaces[id].sent.Keys)
      ensures path == old(path).(bytes := path.bytes, ackEliciting := path.ackEliciting)
      ensures
        var taken := TakenAll(old(spaces[id].sent), ack.ranges);
        if !result.AckOk? || taken == [] then
          && spaces == old(spaces) && path == old(path) && congestion == old(congestion) && rtt == old(rtt)
          && ackedFrames == old(ackedFrames) && lostFrames == old(lostFrames)
        else
          var kept := WithoutAll(old(spaces[id].sent), ack.ranges);
          var delay := LossDelay(rtt);
          var lost := LostBelow(kept, Cutoff(now, delay), ack.largest + 1);
          && ackedFrames == old(ackedFrames) + FramesOf(taken)
          && lostFrames == old(lostFrames) + FramesOf(lost)
          && rtt == old(rtt).Update(AckDelay(ack.delay), Elapsed(now, Newest(taken).timeSent))
          && congestion == CongestAll(GrowAll(old(congestion), taken, appLimited), now, lost)
          && spaces == old(spaces)[id := old(spaces[id]).(
               largestAcked := Some(ack.largest),
               sent := Survivors(kept, Cutoff(now, delay), ack.largest + 1),
               inFlight := spaces[id].inFlight,
               lossTime := Deadline(kept, Cutoff(now, delay), delay, ack.largest + 1),
               pending := MergeAll(old(spaces[id]).pending, lost),
               ackRanges := ForgetAll(old(spaces[id]).ackRanges, taken))]
      ensures result.AckOk? && (exists k :: k in old(spaces[id].sent) && Named(ack.ranges, k)) ==>
                && AckPassed(old(spaces[id].sent), spaces[id].sent, ack.ranges, ack.largest, now, Measured(rtt))
                && TimerSet(spaces[id].sent, ack.largest, spaces[id].lossTime, Measured(rtt))
                && RttFollows(old(rtt), rtt, old(spaces[id].sent), ack.ranges, AckDelay(ack.delay), now)
    {
      hide Conserved, Ledger, AckLoop, L.Canonical, L.Remove, GrowAll, FramesOf, TakenAll, WithoutAll, ForgetAll, Newest,
           LostBelow, Deadline, CongestAll, MergeAll, Survivors, AckPassed, LossPassed, TimerSet, RttFollows, Named;
      ConservedLength(spaces, path);
      ConservedKeys(spaces, path, id);
      TakesSomething(spaces[id].sent, ack.ranges);
      if ack.largest >= spaces[id].next {
        return UnsentPacket;
      }
      if spaces[id].largestAcked.Some? && ack.largest < spaces[id].largestAcked.value {
        return Regressed;
      }
      ghost var start, path0 := spaces, path;
      var newest, taken := TakeAcked(id, ack.ranges);
      AckLoopDone(start[id], spaces[id], taken, newest);
      if newest.None? {
        NothingTaken(start, path0, spaces, path, id, ack.ranges, old(congestion), appLimited);
        return AckOk;
      }
      LargestConserves(spaces, path, id, ack.largest);
      SameLedger(spaces, path.queue, id, spaces[id].(largestAcked := Some(ack.largest)), scheduled, ackedFrames, lostFrames);
      var largest := if spaces[id].largestAcked.None? then ack.largest else Max(spaces[id].largestAcked.value, ack.largest);
      spaces := spaces[id := spaces[id].(largestAcked := Some(largest))];
      rtt := rtt.Update(AckDelay(ack.delay), Elapsed(now, newest.value.timeSent));
      RttMeans(old(rtt), start[id].sent, ack.ranges, AckDelay(ack.delay), now, Elapsed(now, newest.value.timeSent));
      DetectLostPackets(now, id);
      AckPassMeans(start[id].sent, ack.ranges, ack.largest, spaces[id].sent, now, Measured(rtt));
      SurvivorsLeft(start[id].sent, ack.ranges, Cutoff(now, LossDelay(rtt)), ack.largest + 1);
      return AckOk;
    }

    /** Acknowledge the outstanding packets of one range, in increasing order. */
    method TakeRange(id: SpaceId, r: Range, newest0: Option<SentPacket>,
                     ghost from: Before, ghost taken0: seq<SentPacket>)
      returns (newest: Option<SentPacket>, ghost taken: seq<SentPacket>)
      requires Valid() && AckLoop(from.space, spaces[id], taken0, newest0)
      requires congestion == GrowAll(from.congestion, taken0, appLimited) && ackedFrames == from.frames + FramesOf(taken0)
      modifies this`spaces, this`path, this`congestion, this`ackedFrames
      ensures Valid() && spaces == old(spaces)[id := spaces[id]]
      ensures path == old(path).(bytes := path.bytes, ackEliciting := path.ackEliciting)
      ensures taken == taken0 + TakenIn(old(spaces[id].sent), r.start, r.end)
      ensures AckLoop(from.space, spaces[id], taken, newest)
      ensures spaces[id].sent == Without(old(spaces[id].sent), r.start, r.end)
      ensures congestion == GrowAll(from.congestion, taken, appLimited)
      ensures ackedFrames == from.frames + FramesOf(taken)
    {
      hide Conserved, Ledger, AckLoop, L.Canonical, L.Remove, FramesOf, GrowAll, ForgetAll;
      ConservedLength(spaces, path);
      ghost var sent := spaces[id].sent;
      newest, taken := newest0, taken0;
      assert Without(sent, r.start, r.start) == sent;
      var pn := r.start;
      while pn < r.end
        invariant r.start <= pn && (pn <= r.end || pn == r.start)
        invariant Valid() && |spaces| == 3
        invariant spaces == old(spaces)[id := spaces[id]]
        invariant path == old(path).(bytes := path.bytes, ackEliciting := path.ackEliciting)
        invariant spaces[id].sent == Without(sent, r.start, pn)
        invariant taken == taken0 + TakenIn(sent, r.start, pn)
        invariant AckLoop(from.space, spaces[id], taken, newest)
        invariant congestion == GrowAll(from.congestion, taken, appLimited)
        invariant ackedFrames == from.frames + FramesOf(taken)
      {
        WithoutStep(sent, r.start, pn);
        if pn in spaces[id].sent {
          newest, taken := TakeOne(id, pn, newest, from, taken);
        }
        pn := pn + 1;
      }
      assert r.end < r.start ==> Without(sent, r.start, r.end) == sent;
    }

    /** Acknowledge one outstanding packet. */
    method TakeOne(id: SpaceId, pn: nat, newest0: Option<SentPacket>,
                   ghost from: Before, ghost taken0: seq<SentPacket>)
      returns (newest: Option<SentPacket>, ghost taken: seq<SentPacket>)
      requires Valid() && AckLoop(from.space, spaces[id], taken0, newest0) && pn in spaces[id].sent
      requires congestion == GrowAll(from.congestion, taken0, appLimited) && ackedFrames == from.frames + FramesOf(taken0)
      modifies this`spaces, this`path, this`congestion, this`ackedFrames
      ensures Valid() && spaces == old(spaces)[id := spaces[id]]
      ensures path == old(path).(bytes := path.bytes, ackEliciting := path.ackEliciting)
      ensures taken == taken0 + [old(spaces[id].sent)[pn]]
      ensures AckLoop(from.space, spaces[id], taken, newest)
      ensures spaces[id].sent == old(spaces[id].sent) - {pn}
      ensures congestion == GrowAll(from.congestion, taken, appLimited)
      ensures ackedFrames == from.frames + FramesOf(taken)
    {
      hide Conserved, Ledger, AckLoop, L.Canonical, L.Remove, FramesOf, GrowAll, ForgetAll;
      ConservedLength(spaces, path);
      ConservedRanges(spaces, path, id);
      ConservedKeys(spaces, path, id);
      var p := spaces[id].sent[pn];
      var ranges := spaces[id].ackRanges;
      if p.largestAcked.Some? {
        L.RemoveCanonical(ranges, Range(0, p.largestAcked.value + 2));
        ranges := L.Remove(ranges, Range(0, p.largestAcked.value + 2));
      }
      AckConserves(spaces, path, id, pn, ranges);
      HandOverLedger(spaces, path.queue, id, pn, spaces[id].Take(pn).(ackRanges := ranges), scheduled, ackedFrames, lostFrames);
      AckLoopStep(from.space, spaces[id], taken0, newest0, pn, from.congestion, appLimited);
      Spliced(from.frames, FramesOf(taken0), p.frames);
      taken := taken0 + [p];
      newest := if newest0.None? || p.number > newest0.value.number then Some(p) else newest0;
      spaces := spaces[id := spaces[id].Take(pn).(ackRanges := ranges)];
      ackedFrames := ackedFrames + p.frames;
      var removed := RemoveInFlight(p.number, p);
      if removed && p.ackEliciting {
        congestion := congestion.OnAck(p.timeSent, p.size, appLimited);
      }
    }

    /** The first loop of the loss pass: who is lost, and when to look again. */
    method CollectLost(sent: map<nat, SentPacket>, cutoff: nat, delay: nat, n: nat)
      returns (lost: seq<SentPacket>, deadline: Option<nat>)
      ensures lost == LostBelow(sent, cutoff, n) && deadline == Deadline(sent, cutoff, delay, n)
    {
      lost, deadline := [], None;
      for pn := 0 to n
        invariant lost == LostBelow(sent, cutoff, pn) && deadline == Deadline(sent, cutoff, delay, pn)
      {
        if pn in sent {
          if sent[pn].timeSent <= cutoff {
            lost := lost + [sent[pn]];
          } else {
            var candidate := sent[pn].timeSent + delay;
            deadline := if deadline.None? then Some(candidate) else Some(Min(deadline.value, candidate));
          }
        }
      }
    }
  }

  // ------------------------------------------------------------- small steps: acks

  lemma AckConserves(spaces: seq<PacketSpace>, path: Path, id: SpaceId, pn: nat, r: seq<Range>)
    requires Conserved(spaces, path) && pn in spaces[id].sent && L.Canonical(r)
    ensures var p := spaces[id].sent[pn];
            && path.Owns(pn) && p.size <= spaces[id].inFlight
            && p.size <= path.bytes && Elicits(p) <= path.ackEliciting
            && Conserved(spaces[id := spaces[id].Take(pn).(ackRanges := r)], path.Remove(p))
  {
    hide L.Canonical, Size, Eliciting, QueueOk, FirstOk;
    TakeConserves(spaces, path, id, pn);
    QueueKeyed(spaces[id := spaces[id].Take(pn)], spaces[id := spaces[id].Take(pn).(ackRanges := r)],
               path.Remove(spaces[id].sent[pn]));
  }

  lemma LargestConserves(spaces: seq<PacketSpace>, path: Path, id: SpaceId, n: nat)
    requires Conserved(spaces, path) && n < spaces[id].next
    ensures Conserved(spaces[id := spaces[id].(largestAcked := Some(n))], path)
  {
    hide L.Canonical, Size, Eliciting, QueueOk, FirstOk;
    QueueKeyed(spaces, spaces[id := spaces[id].(largestAcked := Some(n))], path);
  }

  lemma ConservedRanges(spaces: seq<PacketSpace>, path: Path, id: SpaceId)
    requires Conserved(spaces, path)
    ensures L.Canonical(spaces[id].ackRanges)
    ensures spaces[id].largestAcked.Some? ==> spaces[id].largestAcked.value < spaces[id].next
  {
    hide L.Canonical, Size, Eliciting, QueueOk, FirstOk;
  }

  /** What has happened to the connection once `taken` have been acknowledged. */
  ghost predicate AckLoop(start: PacketSpace, s: PacketSpace, taken: seq<SentPacket>, newest: Option<SentPacket>) {
    && s == start.(sent := s.sent, inFlight := s.inFlight, ackRanges := ForgetAll(start.ackRanges, taken))
    && newest == if taken == [] then None else Some(Newest(taken))
  }

  lemma AckLoopStep(start: PacketSpace, s: PacketSpace, taken: seq<SentPacket>, newest: Option<SentPacket>,
                    pn: nat, c: Reno, appLimited: bool)
    requires AckLoop(start, s, taken, newest) && pn in s.sent && s.sent[pn].size <= s.inFlight
    ensures var p := s.sent[pn];
            var r := if p.largestAcked.Some? then L.Remove(s.ackRanges, Range(0, p.largestAcked.value + 2)) else s.ackRanges;
            var newest' := if newest.None? || p.number > newest.value.number then Some(p) else newest;
            && AckLoop(start, s.Take(pn).(ackRanges := r), taken + [p], newest')
            && FramesOf(taken + [p]) == FramesOf(taken) + p.frames
            && GrowAll(c, taken + [p], appLimited)
               == (if p.ackEliciting then GrowAll(c, taken, appLimited).OnAck(p.timeSent, p.size, appLimited)
                   else GrowAll(c, taken, appLimited))
  {
    hide L.Remove;
    var p := s.sent[pn];
    var t := taken + [p];
    assert t[..|t| - 1] == taken && t[|t| - 1] == p;
  }

  lemma AckLoopNone(start: PacketSpace, c: Reno, appLimited: bool, ranges: seq<Range>)
    ensures AckLoop(start, start, [], None) && GrowAll(c, [], appLimited) == c && FramesOf([]) == []
    ensures TakenAll(start.sent, ranges[..0]) == [] && WithoutAll(start.sent, ranges[..0]) == start.sent
  {}

  lemma AckLoopDone(start: PacketSpace, s: PacketSpace, taken: seq<SentPacket>, newest: Option<SentPacket>)
    requires AckLoop(start, s, taken, newest)
    ensures s == start.(sent := s.sent, inFlight := s.inFlight, ackRanges := ForgetAll(start.ackRanges, taken))
    ensures newest.None? <==> taken == []
    ensures taken != [] ==> newest == Some(Newest(taken))
  {}

  lemma TakenAllStep(sent: map<nat, SentPacket>, ranges: seq<Range>, i: nat)
    requires i < |ranges|
    ensures WithoutAll(sent, ranges[..i + 1])
         == Without(WithoutAll(sent, ranges[..i]), ranges[i].start, ranges[i].end)
    ensures TakenAll(sent, ranges[..i + 1])
         == TakenAll(sent, ranges[..i]) + TakenIn(WithoutAll(sent, ranges[..i]), ranges[i].start, ranges[i].end)
  {
    assert ranges[..i + 1][..i] == ranges[..i] && ranges[..i + 1][i] == ranges[i];
  }

  /** What the loss pass leaves, as a set of numbers taken away. */
  lemma SurvivorsLeft(sent: map<nat, SentPacket>, ranges: seq<Range>, cutoff: nat, n: nat)
    ensures var left := Survivors(WithoutAll(sent, ranges), cutoff, n);
            left == WithoutAll(sent, ranges) - (sent.Keys - left.Keys)
  {
    WithoutAllWithin(sent, ranges);
  }

  /** An ACK of nothing outstanding leaves everything as it was. */
  lemma NothingTaken(a: seq<PacketSpace>, pa: Path, b: seq<PacketSpace>, pb: Path, id: SpaceId, ranges: seq<Range>,
                     c: Reno, appLimited: bool)
    requires Conserved(a, pa) && Conserved(b, pb) && b == a[id := b[id]]
    requires TakenAll(a[id].sent, ranges) == [] && b[id].sent == WithoutAll(a[id].sent, ranges)
    requires pb == pa.(bytes := pb.bytes, ackEliciting := pb.ackEliciting)
    requires b[id] == a[id].(sent := b[id].sent, inFlight := b[id].inFlight, ackRanges := ForgetAll(a[id].ackRanges, []))
    ensures a == b && pa == pb && GrowAll(c, [], appLimited) == c && FramesOf([]) == []
  {
    hide L.Canonical, Size, Eliciting, QueueOk, FirstOk, TakenAll, WithoutAll;
    WithoutAllWithin(a[id].sent, ranges);
    forall k | k in a[id].sent ensures k in b[id].sent {
      TakenExact(a[id].sent, ranges, k);
    }
    assert a[id].sent == b[id].sent;
    assert a[id] == b[id];
  }

  lemma WithoutStep(sent: map<nat, SentPacket>, lo: nat, pn: nat)
    requires lo <= pn
    ensures pn in Without(sent, lo, pn) <==> pn in sent
    ensures pn in sent ==> Without(sent, lo, pn)[pn] == sent[pn]
    ensures pn in sent ==> Without(sent, lo, pn + 1) == Without(sent, lo, pn) - {pn}
    ensures pn !in sent ==> Without(sent, lo, pn + 1) == Without(sent, lo, pn)
  {}

  // ----------------------------------------------------------- small steps: losses

  lemma ConservedLength(spaces: seq<PacketSpace>, path: Path)
    requires Conserved(spaces, path)
    ensures |spaces| == 3
  {}

  lemma ConservedHead(spaces: seq<PacketSpace>, path: Path)
    requires Conserved(spaces, path) && path.queue != []
    ensures var p := path.queue[0]; p.number < spaces[p.space].next && p.number !in spaces[p.space].sent
  {
    hide L.Canonical, Size, Eliciting, FirstOk;
  }

  lemma LossTimeConserves(spaces: seq<PacketSpace>, path: Path, id: SpaceId, t: Option<nat>)
    requires Conserved(spaces, path)
    ensures Conserved(spaces[id := spaces[id].(lossTime := t)], path)
  {
    hide L.Canonical, Size, Eliciting;
  }

  lemma ConservedKeys(spaces: seq<PacketSpace>, path: Path, id: SpaceId)
    requires Conserved(spaces, path)
    ensures forall k :: k in spaces[id].sent ==> k < spaces[id].next && spaces[id].sent[k].number == k
  {
    hide L.Canonical, Size, Eliciting, QueueOk, FirstOk;
  }

  /** Removing a packet together with any change of the pending control data. */
  lemma LoseConserves(spaces: seq<PacketSpace>, path: Path, id: SpaceId, pn: nat, r: Retransmits)
    requires Conserved(spaces, path) && pn in spaces[id].sent
    ensures var p := spaces[id].sent[pn];
            && path.Owns(pn) && p.size <= spaces[id].inFlight
            && p.size <= path.bytes && Elicits(p) <= path.ackEliciting
            && Conserved(spaces[id := spaces[id].(pending := r).Take(pn)], path.Remove(p))
  {
    hide L.Canonical, Size, Eliciting, QueueOk, FirstOk;
    TakeConserves(spaces, path, id, pn);
    var mid := spaces[id := spaces[id].Take(pn)];
    QueueKeyed(mid, spaces[id := spaces[id].(pending := r).Take(pn)], path.Remove(spaces[id].sent[pn]));
  }

  /** The queue and the first packet look only at numbers and outstanding
      packets. */
  lemma QueueKeyed(a: seq<PacketSpace>, b: seq<PacketSpace>, path: Path)
    requires |a| == |b| == 3 && forall i :: 0 <= i < 3 ==> a[i].next == b[i].next && a[i].sent == b[i].sent
    ensures QueueOk(a, path.queue) ==> QueueOk(b, path.queue)
    ensures FirstOk(a, path) ==> FirstOk(b, path)
  {}

  /** Half-way through the second loop of the loss pass: the first `i` lost
      packets are gone from the space and their control data is pending. */
  ghost predicate LossLoop(start: PacketSpace, s: PacketSpace, lost: seq<SentPacket>, i: nat)
    requires i <= |lost|
  {
    && s == start.(sent := s.sent, inFlight := s.inFlight, pending := MergeAll(start.pending, lost[..i]))
    && (forall k :: k in s.sent ==> k in start.sent && s.sent[k] == start.sent[k])
    && (forall k :: k in start.sent ==> (k in s.sent <==> forall j :: 0 <= j < i ==> lost[j].number != k))
    && (forall j :: 0 <= j < |lost| ==> lost[j].number in start.sent && start.sent[lost[j].number] == lost[j])
    && (forall j, k :: 0 <= j < k < |lost| ==> lost[j].number < lost[k].number)
  }

  lemma LostFiled(spaces: seq<PacketSpace>, path: Path, id: SpaceId, cutoff: nat, n: nat)
    requires Conserved(spaces, path)
    ensures LossLoop(spaces[id], spaces[id], LostBelow(spaces[id].sent, cutoff, n), 0)
  {
    hide L.Canonical, Size, Eliciting, LostBelow, QueueOk, FirstOk;
    LostExact(spaces[id].sent, cutoff, n);
    var lost := LostBelow(spaces[id].sent, cutoff, n);
    assert lost[..0] == [];
  }

  lemma LossStep(start: PacketSpace, s: PacketSpace, lost: seq<SentPacket>, i: nat)
    requires i < |lost| && LossLoop(start, s, lost, i)
    ensures lost[i].number in s.sent && s.sent[lost[i].number] == lost[i]
    ensures lost[i].size <= s.inFlight ==>
              LossLoop(start, s.(pending := s.pending.Merge(lost[i].retransmits)).Take(lost[i].number), lost, i + 1)
  {
    assert lost[..i + 1][..i] == lost[..i] && lost[..i + 1][i] == lost[i];
  }

  lemma FoldNone(c: Reno, now: nat, packets: seq<SentPacket>)
    ensures FramesOf(packets[..0]) == [] && CongestAll(c, now, packets[..0]) == c
  {}

  lemma FoldStep(c: Reno, now: nat, packets: seq<SentPacket>, i: nat)
    requires i < |packets|
    ensures FramesOf(packets[..i + 1]) == FramesOf(packets[..i]) + packets[i].frames
    ensures var before := CongestAll(c, now, packets[..i]);
            CongestAll(c, now, packets[..i + 1])
            == if packets[i].ackEliciting then before.OnCongestionEvent(now, packets[i].timeSent) else before
  {
    assert packets[..i + 1][..i] == packets[..i] && packets[..i + 1][i] == packets[i];
  }

  lemma LossDone(start: PacketSpace, s: PacketSpace, cutoff: nat, n: nat)
    requires LossLoop(start, s, LostBelow(start.sent, cutoff, n), |LostBelow(start.sent, cutoff, n)|)
    requires forall k :: k in start.sent ==> start.sent[k].number == k
    ensures s.sent == Survivors(start.sent, cutoff, n)
    ensures s == start.(sent := s.sent, inFlight := s.inFlight,
                        pending := MergeAll(start.pending, LostBelow(start.sent, cutoff, n)))
  {
    hide LostBelow, LossLoop, MergeAll, Increasing;
    LostExact(start.sent, cutoff, n);
    var lost := LostBelow(start.sent, cutoff, n);
    LossLoopMeans(start, s, lost);
    forall k | k in start.sent ensures k in s.sent <==> start.sent[k] !in lost {
      LossTook(start, s, lost, k);
    }
  }

  lemma LossLoopMeans(start: PacketSpace, s: PacketSpace, lost: seq<SentPacket>)
    requires LossLoop(start, s, lost, |lost|)
    ensures s == start.(sent := s.sent, inFlight := s.inFlight, pending := MergeAll(start.pending, lost))
    ensures forall k :: k in s.sent ==> k in start.sent && s.sent[k] == start.sent[k]
  {
    hide MergeAll;
    assert lost[..|lost|] == lost;
  }

  /** Of the packets that were outstanding, exactly the lost ones are gone. */
  lemma LossTook(start: PacketSpace, s: PacketSpace, lost: seq<SentPacket>, k: nat)
    requires LossLoop(start, s, lost, |lost|) && k in start.sent
    requires forall k :: k in start.sent ==> start.sent[k].number == k
    ensures k in s.sent <==> start.sent[k] !in lost
  {
    if start.sent[k] in lost {
      var j :| 0 <= j < |lost| && lost[j] == start.sent[k];
    }
  }

  /** Half-way through discarding a space: the path still counts `rest`. */
  ghost predicate Discarding(was: seq<PacketSpace>, path: Path, id: SpaceId, rest: map<nat, SentPacket>) {
    && |was| == 3
    && Conserved(was[id := was[id].(lossTime := None, sent := rest, inFlight := Size(rest, was[id].next))], path)
  }

  lemma DiscardBegins(was: seq<PacketSpace>, path: Path, id: SpaceId)
    requires Conserved(was, path)
    ensures Discarding(was, path, id, was[id].sent)
  {
    hide L.Canonical, Size, Eliciting;
    LossTimeConserves(was, path, id, None);
    assert was[id].(lossTime := None, sent := was[id].sent, inFlight := Size(was[id].sent, was[id].next))
        == was[id].(lossTime := None);
  }

  lemma DiscardStep(was: seq<PacketSpace>, path: Path, id: SpaceId, rest: map<nat, SentPacket>, pn: nat)
    requires Discarding(was, path, id, rest) && pn in rest
    ensures path.Owns(pn) && rest[pn].size <= path.bytes && Elicits(rest[pn]) <= path.ackEliciting
    ensures Discarding(was, path.Remove(rest[pn]), id, rest - {pn})
  {
    hide L.Canonical, Size, Eliciting, QueueOk, FirstOk;
    var s := was[id].(lossTime := None, sent := rest, inFlight := Size(rest, was[id].next));
    var mid := was[id := s];
    TakeConserves(mid, path, id, pn);
    SumsRemove(rest, pn, was[id].next);
    assert mid[id := s.Take(pn)]
        == was[id := was[id].(lossTime := None, sent := rest - {pn}, inFlight := Size(rest - {pn}, was[id].next))];
  }

  lemma DiscardEnds(was: seq<PacketSpace>, path: Path, id: SpaceId, rest: map<nat, SentPacket>)
    requires Discarding(was, path, id, rest) && rest == map[]
    ensures Conserved(was[id := was[id].(lossTime := None, inFlight := 0, sent := map[])], path)
  {
    hide L.Canonical, Eliciting, Conserved;
    SumsEmpty(was[id].next);
  }
}
