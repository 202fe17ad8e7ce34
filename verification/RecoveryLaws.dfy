/** What ACK processing and the loss pass amount to, in terms of send times, the
    measured round trip and the packets themselves (core/src/connection/mod.rs
    and space.rs; section 6 of RFC 9002). */
module RecoveryLaws {
  import opened Core
  import opened Congestion
  import opened Recovery
  import L = RangeList

  // --------------------------------------------------------------- who is overdue

  const MILLISECOND: nat := 1_000_000

  /** The larger of the last sample and the smoothed estimate. */
  function Measured(rtt: Rtt): nat {
    if rtt.smoothed.Some? && rtt.latest < rtt.smoothed.value then rtt.smoothed.value else rtt.latest
  }

  /** More than nine eighths of the round trip, rounded down, and the timer
      granularity have passed since the packet was sent; before the clock has run
      for so long, every packet sent by now is overdue. */
  predicate Overdue(now: nat, timeSent: nat, roundTrip: nat) {
    if 8 * (now + 1) > 9 * roundTrip && MILLISECOND <= now
    then 8 * (now - timeSent + 1) > 9 * roundTrip && timeSent + MILLISECOND <= now
    else timeSent <= now
  }

  /** The least duration of at least nine eighths of the round trip, rounded down,
      and at least the timer granularity. */
  predicate IsDelay(d: nat, roundTrip: nat) {
    && MILLISECOND <= d && 8 * (d + 1) > 9 * roundTrip
    && (d == MILLISECOND || 8 * d <= 9 * roundTrip)
  }

  lemma DelayIs(rtt: Rtt)
    ensures forall d: nat :: IsDelay(d, Measured(rtt)) <==> d == LossDelay(rtt)
  {}

  lemma OverdueExact(now: nat, timeSent: nat, rtt: Rtt)
    ensures timeSent <= Cutoff(now, LossDelay(rtt)) <==> Overdue(now, timeSent, Measured(rtt))
  {}

  /** A packet leaves `before` exactly if it is numbered up to the largest
      acknowledged and overdue. */
  ghost predicate LossPassed(before: map<nat, SentPacket>, after: map<nat, SentPacket>, largest: nat, now: nat, roundTrip: nat) {
    && (forall k :: k in after ==> k in before && after[k] == before[k])
    && (forall k :: k in before ==> (k in after <==> !(k <= largest && Overdue(now, before[k].timeSent, roundTrip))))
  }

  /** The loss timer stands at the earliest send time among the survivors up to the
      largest acknowledged, and the delay more. */
  ghost predicate TimerSet(after: map<nat, SentPacket>, largest: nat, lossTime: Option<nat>, roundTrip: nat) {
    && (lossTime.None? <==> forall k :: k in after ==> largest < k)
    && (lossTime.Some? ==> forall d: nat :: IsDelay(d, roundTrip) ==>
          && (exists k :: k in after && k <= largest && lossTime.value == after[k].timeSent + d)
          && (forall k :: k in after && k <= largest ==> lossTime.value <= after[k].timeSent + d))
  }

  /** The loss pass in those terms. */
  lemma LossPassMeans(sent: map<nat, SentPacket>, largest: nat, now: nat, rtt: Rtt)
    ensures var delay := LossDelay(rtt);
            var after := Survivors(sent, Cutoff(now, delay), largest + 1);
            && LossPassed(sent, after, largest, now, Measured(rtt))
            && TimerSet(after, largest, Deadline(sent, Cutoff(now, delay), delay, largest + 1), Measured(rtt))
  {
    hide LossDelay, Cutoff, Deadline, Overdue, IsDelay;
    var delay := LossDelay(rtt);
    var cutoff := Cutoff(now, delay);
    var after := Survivors(sent, cutoff, largest + 1);
    forall k | k in sent ensures sent[k].timeSent <= cutoff <==> Overdue(now, sent[k].timeSent, Measured(rtt)) {
      OverdueExact(now, sent[k].timeSent, rtt);
    }
    DelayIs(rtt);
    DeadlineExact(sent, cutoff, delay, largest + 1);
    var t := Deadline(sent, cutoff, delay, largest + 1);
    if t.Some? {
      var k :| k in sent && k < largest + 1 && sent[k].timeSent > cutoff && sent[k].timeSent + delay == t.value;
      assert k in after;
    }
  }

  // ------------------------------------------------------------ what an ACK takes

  predicate Named(ranges: seq<Range>, k: nat) {
    exists i :: 0 <= i < |ranges| && ranges[i].Contains(k)
  }

  /** After an ACK frame, an outstanding packet is gone exactly if the frame names
      it, or it is numbered up to the frame's largest and overdue. */
  ghost predicate AckPassed(before: map<nat, SentPacket>, after: map<nat, SentPacket>, ranges: seq<Range>, largest: nat,
                            now: nat, roundTrip: nat) {
    && (forall k :: k in after ==> k in before && after[k] == before[k])
    && (forall k :: k in before ==>
          (k in after <==> !Named(ranges, k) && !(k <= largest && Overdue(now, before[k].timeSent, roundTrip))))
  }

  lemma AckPassMeans(sent: map<nat, SentPacket>, ranges: seq<Range>, largest: nat, after: map<nat, SentPacket>, now: nat,
                     roundTrip: nat)
    requires forall k :: k in sent ==> sent[k].number == k
    requires LossPassed(WithoutAll(sent, ranges), after, largest, now, roundTrip)
    ensures AckPassed(sent, after, ranges, largest, now, roundTrip)
  {
    hide WithoutAll, TakenAll, Overdue;
    WithoutAllWithin(sent, ranges);
    forall k | k in sent ensures k in WithoutAll(sent, ranges) <==> !Named(ranges, k) { TakenExact(sent, ranges, k); }
  }

  /** The packet that gives the round-trip sample: the latest of those that the
      frame names and that are outstanding. */
  ghost predicate IsNewest(sent: map<nat, SentPacket>, ranges: seq<Range>, n: nat) {
    n in sent && Named(ranges, n) && forall k :: k in sent && Named(ranges, k) ==> k <= n
  }

  lemma {:induction false} NewestIsGreatest(packets: seq<SentPacket>)
    requires packets != []
    ensures Newest(packets) in packets && forall p :: p in packets ==> p.number <= Newest(packets).number
    decreases |packets|
  {
    if |packets| > 1 {
      var front, p := packets[..|packets| - 1], packets[|packets| - 1];
      NewestIsGreatest(front);
      assert packets == front + [p];
    }
  }

  lemma NewestExact(sent: map<nat, SentPacket>, ranges: seq<Range>)
    requires (forall k :: k in sent ==> sent[k].number == k) && TakenAll(sent, ranges) != []
    ensures var p := Newest(TakenAll(sent, ranges));
            IsNewest(sent, ranges, p.number) && sent[p.number] == p
  {
    hide TakenAll, WithoutAll, Newest, Named;
    var taken := TakenAll(sent, ranges);
    NewestIsGreatest(taken);
    TakenAreOutstanding(sent, ranges);
    forall k | k in sent ensures sent[k] in taken <==> Named(ranges, k) { NamedTaken(sent, ranges, k); }
    assert sent[Newest(taken).number] == Newest(taken);
  }

  lemma NamedTaken(sent: map<nat, SentPacket>, ranges: seq<Range>, k: nat)
    requires (forall j :: j in sent ==> sent[j].number == j) && k in sent
    ensures sent[k] in TakenAll(sent, ranges) <==> Named(ranges, k)
  {
    hide TakenAll, WithoutAll;
    TakenExact(sent, ranges, k);
  }

  lemma {:induction false} TakenAreOutstanding(sent: map<nat, SentPacket>, ranges: seq<Range>)
    requires forall k :: k in sent ==> sent[k].number == k
    ensures forall p :: p in TakenAll(sent, ranges) ==> p.number in sent && sent[p.number] == p
    decreases |ranges|
  {
    if ranges != [] {
      var front, r := ranges[..|ranges| - 1], ranges[|ranges| - 1];
      TakenAreOutstanding(sent, front);
      WithoutAllWithin(sent, front);
      TakenInExact(WithoutAll(sent, front), r.start, r.end);
    }
  }

  /** An ACK frame takes something exactly if it names an outstanding packet. */
  lemma TakesSomething(sent: map<nat, SentPacket>, ranges: seq<Range>)
    requires forall k :: k in sent ==> sent[k].number == k
    ensures TakenAll(sent, ranges) != [] <==> exists k :: k in sent && Named(ranges, k)
  {
    hide TakenAll, WithoutAll, Named;
    TakenAreOutstanding(sent, ranges);
    forall k | k in sent ensures sent[k] in TakenAll(sent, ranges) <==> Named(ranges, k) { NamedTaken(sent, ranges, k); }
    if TakenAll(sent, ranges) != [] {
      var p := TakenAll(sent, ranges)[0];
      assert p.number in sent && Named(ranges, p.number);
    }
  }

  /** The estimator has taken the time since the newest packet was sent as its
      sample. */
  ghost predicate RttFollows(was: Rtt, new_: Rtt, sent: map<nat, SentPacket>, ranges: seq<Range>, ackDelay: nat, now: nat) {
    forall n :: IsNewest(sent, ranges, n) ==>
      var sample := if sent[n].timeSent <= now then now - sent[n].timeSent else 0;
      forall adjusted :: IsAdjusted(was, Sample(ackDelay, sample), adjusted) ==> Sampled(was, new_, sample, adjusted)
  }

  lemma RttMeans(was: Rtt, sent: map<nat, SentPacket>, ranges: seq<Range>, ackDelay: nat, now: nat, sample: nat)
    requires (forall k :: k in sent ==> sent[k].number == k) && TakenAll(sent, ranges) != []
    requires var p := Newest(TakenAll(sent, ranges)); sample == if p.timeSent <= now then now - p.timeSent else 0
    ensures RttFollows(was, was.Update(ackDelay, sample), sent, ranges, ackDelay, now)
  {
    hide TakenAll, Newest, Named, Sampled, IsAdjusted, Rtt.Update;
    NewestExact(sent, ranges);
    forall adjusted | IsAdjusted(was, Sample(ackDelay, sample), adjusted)
      ensures Sampled(was, was.Update(ackDelay, sample), sample, adjusted)
    {
      SampleMoves(was, Sample(ackDelay, sample), adjusted);
    }
  }

  /** After the ACK, what an acknowledged ACK frame had reported, and one number
      more, is no longer pending: nothing else is dropped. */
  lemma {:induction false} ForgetExact(ranges: seq<Range>, packets: seq<SentPacket>)
    requires L.Canonical(ranges)
    ensures L.Canonical(ForgetAll(ranges, packets))
    ensures forall x: nat :: L.Has(ForgetAll(ranges, packets), x) <==>
              L.Has(ranges, x)
              && forall i :: 0 <= i < |packets| && packets[i].largestAcked.Some? ==> packets[i].largestAcked.value + 1 < x
    decreases |packets|
  {
    hide L.Has, L.Canonical, L.Remove;
    if packets != [] {
      var front, p := packets[..|packets| - 1], packets[|packets| - 1];
      ForgetExact(ranges, front);
      if p.largestAcked.Some? { L.RemoveSpec(ForgetAll(ranges, front), Range(0, p.largestAcked.value + 2)); }
      assert forall i :: 0 <= i < |front| ==> packets[i] == front[i];
    }
  }

  // ---------------------------------------------------------------- growth of window

  /** The acknowledgements that the congestion controller hears of. */
  function Signals(packets: seq<SentPacket>, appLimited: bool): seq<Signal>
    decreases |packets|
  {
    if packets == [] then []
    else
      var p := packets[|packets| - 1];
      Signals(packets[..|packets| - 1], appLimited) + if p.ackEliciting then [Acked(p.timeSent, p.size, appLimited)] else []
  }

  lemma {:induction false} FeedSnoc(c: Reno, signals: seq<Signal>, s: Signal)
    ensures FeedAll(c, signals + [s]) == Feed(FeedAll(c, signals), s)
    decreases |signals|
  {
    if signals == [] {
      assert ([] + [s])[1..] == [];
    } else {
      assert (signals + [s])[1..] == signals[1..] + [s];
      FeedSnoc(Feed(c, signals[0]), signals[1..], s);
    }
  }

  lemma {:induction false} GrowIsFeed(c: Reno, packets: seq<SentPacket>, appLimited: bool)
    ensures GrowAll(c, packets, appLimited) == FeedAll(c, Signals(packets, appLimited))
    decreases |packets|
  {
    if packets != [] {
      var front, p := packets[..|packets| - 1], packets[|packets| - 1];
      GrowIsFeed(c, front, appLimited);
      if p.ackEliciting {
        FeedSnoc(c, Signals(front, appLimited), Acked(p.timeSent, p.size, appLimited));
      } else {
        assert Signals(front, appLimited) + [] == Signals(front, appLimited);
      }
    }
  }

  /** The total size of the ack-eliciting packets that were sent after `time`. */
  function SizeAfter(packets: seq<SentPacket>, time: nat): nat
    decreases |packets|
  {
    if packets == [] then 0
    else
      var p := packets[|packets| - 1];
      SizeAfter(packets[..|packets| - 1], time) + if p.ackEliciting && p.timeSent > time then p.size else 0
  }

  lemma {:induction false} CountedSnoc(signals: seq<Signal>, s: Signal, time: nat)
    ensures Counted(signals + [s], time) == Counted(signals, time) + Counted([s], time)
    decreases |signals|
  {
    if signals == [] {
      assert [] + [s] == [s];
    } else {
      assert (signals + [s])[1..] == signals[1..] + [s];
      CountedSnoc(signals[1..], s, time);
    }
  }

  lemma {:induction false} SignalsCount(packets: seq<SentPacket>, appLimited: bool, time: nat)
    ensures Counted(Signals(packets, appLimited), time) == if appLimited then 0 else SizeAfter(packets, time)
    ensures forall i :: 0 <= i < |Signals(packets, appLimited)| ==> Signals(packets, appLimited)[i].Acked?
    decreases |packets|
  {
    if packets != [] {
      var front, p := packets[..|packets| - 1], packets[|packets| - 1];
      SignalsCount(front, appLimited, time);
      var s := Acked(p.timeSent, p.size, appLimited);
      assert [s][1..] == [];
      if p.ackEliciting {
        CountedSnoc(Signals(front, appLimited), s, time);
      } else {
        assert Signals(front, appLimited) + [] == Signals(front, appLimited);
      }
    }
  }

  /** In slow start an ACK frame adds to the window exactly the size of the
      ack-eliciting packets that it takes and that were sent after the last cut,
      unless the application limits the sending. */
  lemma AckGrowsWindow(c: Reno, packets: seq<SentPacket>, appLimited: bool)
    requires c.bytesAcked < c.window && c.window + SizeAfter(packets, c.recoveryStart) <= c.ssthresh
    ensures GrowAll(c, packets, appLimited)
         == c.(window := c.window + if appLimited then 0 else SizeAfter(packets, c.recoveryStart))
  {
    GrowIsFeed(c, packets, appLimited);
    SignalsCount(packets, appLimited, c.recoveryStart);
    SlowStartExact(c, Signals(packets, appLimited));
  }

  // --------------------------------------------------------------- control data lost

  /** What lost packets carried is pending afterwards, behind what was pending, and
      nothing else is. */
  lemma MergedExact(pending: Retransmits, packets: seq<SentPacket>, reset: (nat, nat), stop: (nat, nat))
    ensures var m := MergeAll(pending, packets);
            var n := |packets|;
            && (m.hello <==> pending.hello || exists i :: 0 <= i < n && packets[i].retransmits.hello)
            && (m.ackFrequency <==> pending.ackFrequency || exists i :: 0 <= i < n && packets[i].retransmits.ackFrequency)
            && (m.handshakeDone <==> pending.handshakeDone || exists i :: 0 <= i < n && packets[i].retransmits.handshakeDone)
            && pending.resetStream <= m.resetStream && pending.stopSending <= m.stopSending
            && (reset in m.resetStream
                <==> reset in pending.resetStream || exists i :: 0 <= i < n && reset in packets[i].retransmits.resetStream)
            && (stop in m.stopSending
                <==> stop in pending.stopSending || exists i :: 0 <= i < n && stop in packets[i].retransmits.stopSending)
  {
    hide MergeAll;
    MergedFlags(pending, packets);
    MergedResets(pending, packets, reset);
    MergedStops(pending, packets, stop);
  }

  lemma {:induction false} MergedFlags(pending: Retransmits, packets: seq<SentPacket>)
    ensures var m := MergeAll(pending, packets);
            var n := |packets|;
            && (m.hello <==> pending.hello || exists i :: 0 <= i < n && packets[i].retransmits.hello)
            && (m.ackFrequency <==> pending.ackFrequency || exists i :: 0 <= i < n && packets[i].retransmits.ackFrequency)
            && (m.handshakeDone <==> pending.handshakeDone || exists i :: 0 <= i < n && packets[i].retransmits.handshakeDone)
    decreases |packets|
  {
    if packets != [] {
      MergedFlags(pending, packets[..|packets| - 1]);
      LastOf(packets);
    }
  }

  lemma LastOf(packets: seq<SentPacket>)
    requires packets != []
    ensures var front := packets[..|packets| - 1];
            (forall i :: 0 <= i < |front| ==> packets[i] == front[i]) && packets[|front|] == packets[|packets| - 1]
  {}

  lemma {:induction false} MergedResets(pending: Retransmits, packets: seq<SentPacket>, reset: (nat, nat))
    ensures var m := MergeAll(pending, packets);
            && pending.resetStream <= m.resetStream
            && (reset in m.resetStream <==>
                  reset in pending.resetStream || exists i :: 0 <= i < |packets| && reset in packets[i].retransmits.resetStream)
    decreases |packets|
  {
    if packets != [] {
      MergedResets(pending, packets[..|packets| - 1], reset);
      LastOf(packets);
    }
  }

  lemma {:induction false} MergedStops(pending: Retransmits, packets: seq<SentPacket>, stop: (nat, nat))
    ensures var m := MergeAll(pending, packets);
            && pending.stopSending <= m.stopSending
            && (stop in m.stopSending <==>
                  stop in pending.stopSending || exists i :: 0 <= i < |packets| && stop in packets[i].retransmits.stopSending)
    decreases |packets|
  {
    if packets != [] {
      MergedStops(pending, packets[..|packets| - 1], stop);
      LastOf(packets);
    }
  }

  // -------------------------------------------------------------- the unacked tail

  function SentAll(s: PacketSpace, packets: seq<SentPacket>): PacketSpace
    decreases |packets|
  {
    if packets == [] then s else SentAll(s, packets[..|packets| - 1]).Sent(packets[|packets| - 1])
  }

  /** Packets sent since the last one that elicits an acknowledgement, leaving out
      number 0. */
  function Tail(packets: seq<SentPacket>): nat
    decreases |packets|
  {
    if packets == [] || packets[|packets| - 1].ackEliciting then 0
    else Tail(packets[..|packets| - 1]) + if packets[|packets| - 1].number > 0 then 1 else 0
  }

  /** Over any packets sent in the order of their numbers, the space knows the last
      ack-eliciting one, and counts those after it. Packet 0 is not counted. */
  lemma {:induction false} TailExact(packets: seq<SentPacket>)
    requires forall i, j :: 0 <= i < j < |packets| ==> packets[i].number < packets[j].number
    ensures var s := SentAll(NEW_SPACE, packets);
            && s.unackedTail == Tail(packets)
            && s.largestAckElicitingSent == LastEliciting(packets)
            && (forall i :: 0 <= i < |packets| && packets[i].ackEliciting ==> packets[i].number <= s.largestAckElicitingSent)
            && (packets != [] ==> s.largestAckElicitingSent <= packets[|packets| - 1].number)
    decreases |packets|
  {
    if packets != [] {
      var front := packets[..|packets| - 1];
      TailExact(front);
      assert forall i :: 0 <= i < |front| ==> front[i] == packets[i];
    }
  }

  function LastEliciting(packets: seq<SentPacket>): nat
    decreases |packets|
  {
    if packets == [] then 0
    else if packets[|packets| - 1].ackEliciting then packets[|packets| - 1].number
    else LastEliciting(packets[..|packets| - 1])
  }
}
