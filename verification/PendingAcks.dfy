/** The packet numbers that an endpoint still has to acknowledge (`PendingAcks`
    in core/src/connection/space.rs). */
module PendingAcks {
  import opened Core
  import opened ArrayRangeSet
  import D = Dedup
  import L = RangeList

  const MAX_ACK_BLOCKS: nat := 64

  /** Add a number, then give up the lowest block if there are too many. */
  function Capped(s: seq<Range>, x: nat): seq<Range> {
    var t := L.Insert(s, Range(x, x + 1));
    if |t| > MAX_ACK_BLOCKS then t[1..] else t
  }

  /** Drop everything up to and including `max`. */
  function Below(s: seq<Range>, max: nat): seq<Range> {
    L.Remove(s, Range(0, max + 1))
  }

  lemma {:induction false} InsertCount(s: seq<Range>, r: Range)
    ensures |L.Insert(s, r)| <= |s| + 1
    decreases |s|
  {
    if s != [] && !r.Empty() && s[0].start <= r.end {
      InsertCount(s[1..], if s[0].end < r.start then r else Range(Min(r.start, s[0].start), Max(r.end, s[0].end)));
    }
  }

  lemma {:induction false} BelowCount(s: seq<Range>, max: nat)
    ensures |Below(s, max)| <= |s|
    decreases |s|
  {
    if s != [] { BelowCount(s[1..], max); }
  }

  /** Both steps keep at most 64 blocks and say exactly what is left. */
  lemma CappedSpec(s: seq<Range>, x: nat)
    requires L.Canonical(s) && |s| <= MAX_ACK_BLOCKS
    ensures var t := L.Insert(s, Range(x, x + 1));
            && L.Canonical(Capped(s, x)) && |Capped(s, x)| <= MAX_ACK_BLOCKS
            && forall y: nat :: L.Has(Capped(s, x), y) <==>
                 (L.Has(s, y) || y == x) && (|t| > MAX_ACK_BLOCKS ==> t[0].end < y)
  {
    var r := Range(x, x + 1);
    InsertCount(s, r);
    L.InsertSpec(s, r);
    var t := L.Insert(s, r);
    if |t| > MAX_ACK_BLOCKS {
      forall y: nat ensures L.Has(t[1..], y) <==> L.Has(t, y) && t[0].end < y {
        L.HasSplit(t, y);
        L.HasAfterHead(t, y);
      }
    }
  }

  lemma BelowSpec(s: seq<Range>, max: nat)
    requires L.Canonical(s)
    ensures L.Canonical(Below(s, max)) && |Below(s, max)| <= |s|
    ensures forall y: nat :: L.Has(Below(s, max), y) <==> L.Has(s, y) && max < y
  {
    L.RemoveSpec(s, Range(0, max + 1));
    BelowCount(s, max);
  }

  /** At most 64 blocks, none above the largest number received. */
  ghost predicate Tidy(ranges: seq<Range>, largest: Option<(nat, nat)>) {
    && |ranges| <= MAX_ACK_BLOCKS
    && (largest.Some? ==> forall x: nat :: L.Has(ranges, x) ==> x <= largest.value.0)
    && (largest.None? ==> ranges == [])
  }

  class PendingAcks {
    var immediateAckRequired: bool
    var ackElicitingSinceAck: nat
    var nonAckElicitingSinceAck: nat
    var ackElicitingThreshold: nat
    var reorderingThreshold: nat
    var earliestSinceAck: Option<nat>
    const ranges: ArrayRangeSet
    /** The largest number received, and when. */
    var largestPacket: Option<(nat, nat)>
    var largestAckEliciting: Option<nat>
    var largestAcked: Option<nat>

    ghost predicate Valid()
      reads this, ranges
    {
      ranges.Valid() && Tidy(ranges.ranges, largestPacket)
    }

    constructor ()
      ensures Valid() && fresh(ranges) && ranges.ranges == [] && !immediateAckRequired
      ensures largestPacket.None? && largestAckEliciting.None? && largestAcked.None? && earliestSinceAck.None?
      ensures ackElicitingThreshold == reorderingThreshold == 1 && ackElicitingSinceAck == nonAckElicitingSinceAck == 0
    {
      immediateAckRequired, ackElicitingSinceAck, nonAckElicitingSinceAck := false, 0, 0;
      ackElicitingThreshold, reorderingThreshold := 1, 1;
      earliestSinceAck, largestPacket, largestAckEliciting, largestAcked := None, None, None, None;
      ranges := new ArrayRangeSet();
    }

    /** Whether an ACK frame is due. */
    predicate CanSend()
      reads this, ranges
    {
      immediateAckRequired && ranges.ranges != []
    }

    method InsertOne(packet: nat, now: nat)
      requires Valid()
      modifies ranges, this`largestPacket
      ensures Valid()
      ensures ranges.ranges == Capped(old(ranges.ranges), packet)
      ensures largestPacket == if old(largestPacket).None? || packet > old(largestPacket).value.0
                               then Some((packet, now)) else old(largestPacket)
    {
      hide L.Canonical, L.Has, L.Insert;
      CappedSpec(ranges.ranges, packet);
      NoneIn(packet);
      var _ := ranges.InsertOne(packet);
      if largestPacket.None? || packet > largestPacket.value.0 {
        largestPacket := Some((packet, now));
      }
      if |ranges.ranges| > MAX_ACK_BLOCKS {
        var _ := ranges.PopMin();
      }
    }

    method SubtractBelow(max: nat)
      requires Valid()
      modifies ranges
      ensures Valid()
      ensures ranges.ranges == Below(old(ranges.ranges), max)
    {
      hide L.Canonical, L.Has, L.Remove;
      BelowSpec(ranges.ranges, max);
      NothingBelow(max);
      var _ := ranges.Remove(Range(0, max + 1));
    }

    /** Whether a packet filled a gap, or left one within the window. */
    method IsOutOfOrder(packet: nat, prevLargest: nat, dedup: D.Dedup) returns (b: bool)
      requires dedup.Valid()
      ensures b <==> OutOfOrder(packet, prevLargest, dedup.next, dedup.seen, reorderingThreshold, largestAcked)
    {
      if packet < prevLargest {
        return true;
      }
      if reorderingThreshold == 0 {
        return false;
      }
      var lower := if largestAcked.None? then 0 else largestAcked.value + 1;
      var missing := dedup.SmallestMissing(lower, packet);
      if reorderingThreshold == 1 {
        return missing.Some?;
      }
      return missing.Some? && packet - missing.value >= reorderingThreshold;
    }

    /** Receipt of a packet: it becomes pending, and the reply says whether to
        arm the delayed-ACK timer. */
    method PacketReceived(now: nat, packet: nat, ackEliciting: bool, dedup: D.Dedup) returns (arm: bool)
      requires Valid() && dedup.Valid()
      modifies this, ranges
      ensures Valid()
      ensures ranges.ranges == Capped(old(ranges.ranges), packet)
      ensures ackElicitingSinceAck == old(ackElicitingSinceAck) + (if ackEliciting then 1 else 0)
      ensures nonAckElicitingSinceAck == old(nonAckElicitingSinceAck) + (if ackEliciting then 0 else 1)
      ensures largestAckEliciting == if ackEliciting && (old(largestAckEliciting).None? || packet > old(largestAckEliciting).value)
                                     then Some(packet) else old(largestAckEliciting)
      ensures largestAcked == old(largestAcked)
      ensures ackElicitingThreshold == old(ackElicitingThreshold) && reorderingThreshold == old(reorderingThreshold)
      ensures earliestSinceAck == if ackEliciting && old(earliestSinceAck).None? then Some(now) else old(earliestSinceAck)
      ensures largestPacket == if old(largestPacket).None? || packet > old(largestPacket).value.0
                               then Some((packet, now)) else old(largestPacket)
      ensures
        var prev := if old(largestAckEliciting).None? then 0 else old(largestAckEliciting).value;
        var urgent := ackElicitingSinceAck > ackElicitingThreshold
                      || (ackEliciting && OutOfOrder(packet, prev, dedup.next, dedup.seen, reorderingThreshold, largestAcked));
        && immediateAckRequired == (old(immediateAckRequired) || urgent)
        && arm == (ackEliciting && !immediateAckRequired)
    {
      hide L.Canonical, L.Has, L.Insert, OutOfOrder, Capped, Tidy, D.Tracks;
      var prev := if largestAckEliciting.None? then 0 else largestAckEliciting.value;
      InsertOne(packet, now);
      if ackEliciting {
        ackElicitingSinceAck, earliestSinceAck, largestAckEliciting :=
          ackElicitingSinceAck + 1,
          if earliestSinceAck.None? then Some(now) else earliestSinceAck,
          if largestAckEliciting.None? || packet > largestAckEliciting.value then Some(packet) else largestAckEliciting;
      } else {
        nonAckElicitingSinceAck := nonAckElicitingSinceAck + 1;
      }
      var late := false;
      if ackElicitingSinceAck <= ackElicitingThreshold && ackEliciting {
        late := IsOutOfOrder(packet, prev, dedup);
      }
      if ackElicitingSinceAck > ackElicitingThreshold || late {
        immediateAckRequired := true;
        return false;
      }
      return ackEliciting && !immediateAckRequired;
    }

    method AcksSent()
      requires Valid()
      modifies this
      ensures Valid() && !CanSend()
      ensures !immediateAckRequired && ackElicitingSinceAck == nonAckElicitingSinceAck == 0 && earliestSinceAck.None?
      ensures largestAcked == old(largestAckEliciting) && largestAckEliciting == old(largestAckEliciting)
      ensures largestPacket == old(largestPacket)
      ensures ackElicitingThreshold == old(ackElicitingThreshold) && reorderingThreshold == old(reorderingThreshold)
    {
      immediateAckRequired := false;
      ackElicitingSinceAck, nonAckElicitingSinceAck := 0, 0;
      earliestSinceAck := None;
      largestAcked := largestAckEliciting;
    }

    lemma NoneIn(packet: nat)
      requires Valid()
      ensures ranges.ranges == [] ==> forall y: nat :: !L.Has(ranges.ranges, y)
    {}

    lemma NothingBelow(max: nat)
      ensures Below([], max) == []
    {}
  }

  lemma CappedNotEmpty(s: seq<Range>, x: nat)
    requires L.Canonical(s)
    ensures Capped(s, x) != []
  {
    L.InsertSpec(s, Range(x, x + 1));
    assert L.Has(L.Insert(s, Range(x, x + 1)), x);
  }

  /** After an ACK was sent, one ack-eliciting packet in order makes no ACK due
      but arms the timer, and the next one makes it due, in order or not. */
  method EverySecondPacket(p: PendingAcks, now: nat, first: nat, second: nat, dedup: D.Dedup)
    returns (armed: bool, dueAfterFirst: bool, dueAfterSecond: bool)
    requires p.Valid() && dedup.Valid() && p.ackElicitingThreshold == 1
    requires var prev := if p.largestAckEliciting.None? then 0 else p.largestAckEliciting.value;
             !OutOfOrder(first, prev, dedup.next, dedup.seen, p.reorderingThreshold, p.largestAckEliciting)
    modifies p, p.ranges
    ensures p.Valid() && armed && !dueAfterFirst && dueAfterSecond
    ensures p.ranges.ranges == Capped(Capped(old(p.ranges.ranges), first), second)
  {
    hide L.Canonical, L.Has, L.Insert, OutOfOrder, Capped, Tidy, D.Tracks;
    p.AcksSent();
    armed := p.PacketReceived(now, first, true, dedup);
    dueAfterFirst := p.CanSend();
    CappedNotEmpty(p.ranges.ranges, second);
    var _ := p.PacketReceived(now, second, true, dedup);
    dueAfterSecond := p.CanSend();
  }

  /** The policy of section 13.2.1 of RFC 9000: below the largest, or with a
      number missing that was not yet reported; a threshold above one asks for
      the least missing number to be that far back. */
  ghost predicate OutOfOrder(packet: nat, prevLargest: nat, next: nat, seen: set<nat>, threshold: nat, largestAcked: Option<nat>) {
    var lower := if largestAcked.None? then 0 else largestAcked.value + 1;
    || packet < prevLargest
    || (threshold > 0
        && exists x: nat :: lower <= x < packet && !D.Received(next, seen, x) && x + threshold <= packet)
  }

  // ------------------------------------------------------------------- histories

  /** A packet arrives; an ACK frame is built from what is pending, unless that is
      nothing; the packet that carried the ACK frame of this number is itself
      acknowledged. */
  datatype Happening = Arrived(packet: nat) | Built | Confirmed(ack: nat)

  /** What is pending, and the ACK frames built so far. */
  datatype Tracker = Tracker(pending: seq<Range>, acks: seq<seq<Range>>) {
    function Next(h: Happening): Tracker {
      match h
      case Arrived(x) => this.(pending := Capped(pending, x))
      case Built => if pending == [] then this else this.(acks := acks + [pending])
      case Confirmed(i) => if i < |acks| && acks[i] != [] then this.(pending := Below(pending, Largest(acks[i]) + 1)) else this
    }
  }

  /** The largest number of an ACK frame. */
  function Largest(ranges: seq<Range>): nat
    requires ranges != []
  {
    if ranges[|ranges| - 1].end == 0 then 0 else ranges[|ranges| - 1].end - 1
  }

  function Track(hs: seq<Happening>): Tracker
    decreases |hs|
  {
    if hs == [] then Tracker([], []) else Track(hs[..|hs| - 1]).Next(hs[|hs| - 1])
  }

  function Pending(hs: seq<Happening>): seq<Range> {
    Track(hs).pending
  }

  /** ACK frame `i` lists the number. */
  predicate Listed(hs: seq<Happening>, i: nat, x: nat) {
    i < |Track(hs).acks| && L.Has(Track(hs).acks[i], x)
  }

  /** ACK frame `i` reaches past the number, or to the one below it, without
      listing it. */
  predicate PassedOver(hs: seq<Happening>, i: nat, x: nat) {
    i < |Track(hs).acks| && Track(hs).acks[i] != [] && x <= Largest(Track(hs).acks[i]) + 1 && !L.Has(Track(hs).acks[i], x)
  }

  /** The number arrived, and since then no ACK frame that lists it was
      confirmed: the peer may not know. */
  ghost predicate Owed(hs: seq<Happening>, x: nat)
    decreases |hs|
  {
    hs != [] &&
    var before := hs[..|hs| - 1];
    match hs[|hs| - 1]
    case Arrived(y) => x == y || Owed(before, x)
    case Built => Owed(before, x)
    case Confirmed(i) => Owed(before, x) && !Listed(before, i, x)
  }

  /** Since the number last arrived, an ACK frame was confirmed that passed it
      over. */
  ghost predicate Dropped(hs: seq<Happening>, x: nat)
    decreases |hs|
  {
    hs != [] &&
    var before := hs[..|hs| - 1];
    match hs[|hs| - 1]
    case Arrived(y) => x != y && Dropped(before, x)
    case Built => Dropped(before, x)
    case Confirmed(i) => Dropped(before, x) || PassedOver(before, i, x)
  }

  /** No arrival ever found all the blocks in use. */
  ghost predicate Roomy(hs: seq<Happening>)
    decreases |hs|
  {
    hs != [] ==>
      && Roomy(hs[..|hs| - 1])
      && (hs[|hs| - 1].Arrived? ==>
            |L.Insert(Pending(hs[..|hs| - 1]), Range(hs[|hs| - 1].packet, hs[|hs| - 1].packet + 1))| <= 64)
  }

  ghost predicate WellTracked(t: Tracker) {
    && L.Canonical(t.pending) && |t.pending| <= 64
    && forall i :: 0 <= i < |t.acks| ==> t.acks[i] != [] && L.Canonical(t.acks[i])
  }

  lemma {:induction false} TrackKeeps(hs: seq<Happening>)
    ensures WellTracked(Track(hs))
    decreases |hs|
  {
    hide L.Canonical, L.Has, L.Insert, L.Remove, Capped, Below, Largest;
    if hs == [] {
      Nothing();
    } else {
      var t := Track(hs[..|hs| - 1]);
      TrackKeeps(hs[..|hs| - 1]);
      match hs[|hs| - 1] {
        case Arrived(x) => CappedSpec(t.pending, x);
        case Built =>
        case Confirmed(i) =>
          if i < |t.acks| { BelowSpec(t.pending, Largest(t.acks[i]) + 1); }
      }
    }
  }

  lemma LargestIsGreatest(s: seq<Range>, x: nat)
    requires L.Canonical(s) && s != [] && L.Has(s, x)
    ensures x <= Largest(s)
  {}

  /** What the confirmation of an ACK frame forgets: an unlisted number if and
      only if it is pending, at most one past the largest listed, and absent from
      that frame. So nothing unlisted is forgotten exactly when the frame lists
      every pending number up to there. */
  lemma ConfirmationForgets(hs: seq<Happening>, i: nat)
    requires i < |Track(hs).acks|
    ensures Track(hs).acks[i] != []
    ensures forall x: nat ::
              L.Has(Pending(hs), x) && !L.Has(Track(hs).Next(Confirmed(i)).pending, x) && !Listed(hs, i, x)
              <==> L.Has(Pending(hs), x) && PassedOver(hs, i, x)
    ensures (forall x: nat ::
               L.Has(Pending(hs), x) && !L.Has(Track(hs).Next(Confirmed(i)).pending, x) ==> Listed(hs, i, x))
       <==> (forall x: nat :: L.Has(Pending(hs), x) && x <= Largest(Track(hs).acks[i]) + 1 ==> Listed(hs, i, x))
  {
    hide L.Canonical, L.Has, L.Remove, Below, Largest;
    TrackKeeps(hs);
    var t := Track(hs);
    BelowSpec(t.pending, Largest(t.acks[i]) + 1);
  }

  /** Over any history at most 64 blocks are pending, and only numbers that are
      owed and were not dropped; and all of these as long as the cap was never
      reached. */
  lemma {:induction false} PendingHistory(hs: seq<Happening>)
    ensures L.Canonical(Pending(hs)) && |Pending(hs)| <= 64
    ensures forall x: nat :: L.Has(Pending(hs), x) ==> Owed(hs, x) && !Dropped(hs, x)
    ensures Roomy(hs) ==> forall x: nat :: L.Has(Pending(hs), x) <==> Owed(hs, x) && !Dropped(hs, x)
    decreases |hs|
  {
    hide L.Canonical, L.Has, L.Insert, L.Remove, Capped, Below, Largest;
    TrackKeeps(hs);
    if hs == [] {
      Nothing();
    } else {
      var before := hs[..|hs| - 1];
      var t := Track(before);
      PendingHistory(before);
      TrackKeeps(before);
      match hs[|hs| - 1] {
        case Arrived(x) => CappedSpec(t.pending, x);
        case Built =>
        case Confirmed(i) =>
          if i < |t.acks| {
            BelowSpec(t.pending, Largest(t.acks[i]) + 1);
            forall x: nat | L.Has(t.acks[i], x) ensures x <= Largest(t.acks[i]) { LargestIsGreatest(t.acks[i], x); }
          }
      }
    }
  }

  lemma Nothing()
    ensures L.Canonical([]) && forall x: nat :: !L.Has([], x)
  {}

  lemma TrackNext(hs: seq<Happening>, h: Happening)
    ensures Track(hs + [h]) == Track(hs).Next(h)
  {
    hide Capped, Below, Largest;
    assert (hs + [h])[..|hs|] == hs && (hs + [h])[|hs|] == h;
  }

  lemma ArrivalOwed(hs: seq<Happening>, x: nat)
    ensures Owed(hs + [Arrived(x)], x)
  {
    assert (hs + [Arrived(x)])[..|hs|] == hs;
  }

  lemma ConfirmationDrops(hs: seq<Happening>, i: nat, x: nat)
    requires Owed(hs, x) && PassedOver(hs, i, x)
    ensures Owed(hs + [Confirmed(i)], x) && Dropped(hs + [Confirmed(i)], x)
  {
    hide Track, L.Has, Largest;
    assert (hs + [Confirmed(i)])[..|hs|] == hs;
  }

  /** An ACK frame lists 5. Packet 6, or packet 3, arrives before the frame is
      confirmed, and is then dropped although no ACK frame has listed it. */
  lemma ConfirmationDropsUnlisted(late: nat)
    requires late == 6 || late == 3
    ensures var hs := [] + [Arrived(5)] + [Built] + [Arrived(late)] + [Confirmed(0)];
            && Track(hs) == Tracker([], [[Range(5, 6)]])
            && Owed(hs, late) && Dropped(hs, late)
  {
    hide Track, Owed, Dropped, Below, L.Insert, Capped;
    var h0: seq<Happening> := [];
    var h1 := h0 + [Arrived(5)];
    var h2 := h1 + [Built];
    var h3 := h2 + [Arrived(late)];
    TrackNothing();
    TrackNext(h0, Arrived(5));
    TrackNext(h1, Built);
    TrackNext(h2, Arrived(late));
    TrackNext(h3, Confirmed(0));
    CappedTwice(late);
    assert [] + [[Range(5, 6)]] == [[Range(5, 6)]];
    ArrivalOwed(h2, late);
    ConfirmationDrops(h3, 0, late);
    Cleared(Track(h3).pending);
  }

  lemma TrackNothing()
    ensures Track([]) == Tracker([], [])
  {}

  lemma CappedTwice(late: nat)
    requires late == 6 || late == 3
    ensures Capped([], 5) == [Range(5, 6)]
    ensures Capped([Range(5, 6)], late) == if late == 6 then [Range(5, 7)] else [Range(3, 4), Range(5, 6)]
  {
    var five := [Range(5, 6)];
    assert five[1..] == [] && [Range(3, 4)] + five == [Range(3, 4), Range(5, 6)];
  }

  lemma Cleared(s: seq<Range>)
    requires s == [Range(5, 7)] || s == [Range(3, 4), Range(5, 6)]
    ensures Below(s, 6) == []
  {
    BelowSpec(s, 6);
    if Below(s, 6) != [] {
      L.HasStart(Below(s, 6), 0);
      assert false;
    }
  }
}
