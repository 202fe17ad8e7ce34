/** What the packet layer does to outstanding packets, as events of `InFlight`:
    an ACK frame acknowledges the packets it names, once each, and the loss pass
    gives up the ones it finds lost (`on_ack_received` and `detect_lost_packets`
    in core/src/connection/mod.rs). */
module Handover {
  import opened Core
  import opened InFlight
  import opened StreamFrames
  import opened Recovery
  import ST = Streams
  import C = Connection

  /** Packets with different numbers, all of them outstanding in `w`. */
  ghost predicate Outstanding(w: World, packets: seq<SentPacket>) {
    && (forall i :: 0 <= i < |packets| ==>
          packets[i].number in w.packets && packets[i].number in w.left && w.packets[packets[i].number] == packets[i].frames)
    && (forall i, j :: 0 <= i < j < |packets| ==> packets[i].number != packets[j].number)
  }

  ghost function Numbers(packets: seq<SentPacket>): set<nat> {
    set i | 0 <= i < |packets| :: packets[i].number
  }

  function AckedEvents(packets: seq<SentPacket>): seq<Event> {
    seq(|packets|, i requires 0 <= i < |packets| => Acked(packets[i].number))
  }

  function LostEvents(packets: seq<SentPacket>): seq<Event> {
    seq(|packets|, i requires 0 <= i < |packets| => Lost(packets[i].number))
  }

  lemma {:induction false} ReachesJoin(careful: bool, u: World, a: seq<Event>, v: World, b: seq<Event>, w: World)
    requires Reaches(careful, u, a, v) && Reaches(careful, v, b, w)
    ensures Reaches(careful, u, a + b, w)
    decreases |a|
  {
    hide Defined, Do, Careful;
    if a == [] {
      assert a + b == b;
    } else {
      assert (a + b)[0] == a[0] && (a + b)[1..] == a[1..] + b;
      ReachesJoin(careful, Do(u, a[0]), a[1..], v, b, w);
    }
  }

  lemma ReachesOne(careful: bool, w: World, ev: Event)
    requires Possible(w, ev) && (careful ==> Careful(w, ev))
    ensures Reaches(careful, w, [ev], Do(w, ev))
  {
    hide Defined, Do, Careful;
    assert [ev][1..] == [];
  }

  /** Handing over two lists of frames one after the other. */
  lemma {:induction false} AckAllJoin(s: Streams, a: seq<StreamMeta>, b: seq<StreamMeta>)
    requires AcksDefined(s, a + b)
    ensures AcksDefined(s, a) && AcksDefined(AckAll(s, a), b) && AckAll(s, a + b) == AckAll(AckAll(s, a), b)
    ensures CarefulAcks(s, a + b) ==> CarefulAcks(s, a) && CarefulAcks(AckAll(s, a), b)
    decreases |a|
  {
    hide CarefulAck, ST.AckOf, ST.AckDefined;
    if a == [] {
      assert a + b == b;
    } else {
      assert (a + b)[0] == a[0] && (a + b)[1..] == a[1..] + b;
      AckAllJoin(ST.AckOf(s, a[0]), a[1..], b);
    }
  }

  lemma {:induction false} LoseAllJoin(s: Streams, a: seq<StreamMeta>, b: seq<StreamMeta>)
    ensures LoseAll(s, a + b) == LoseAll(LoseAll(s, a), b)
    decreases |a|
  {
    hide ST.LossOf;
    if a == [] {
      assert a + b == b;
    } else {
      assert (a + b)[0] == a[0] && (a + b)[1..] == a[1..] + b;
      LoseAllJoin(ST.LossOf(s, a[0]), a[1..], b);
    }
  }

  lemma Front(w: World, packets: seq<SentPacket>, packets': seq<SentPacket>, last: SentPacket)
    requires packets == packets' + [last] && Outstanding(w, packets)
    ensures Outstanding(w, packets') && last.number !in Numbers(packets')
    ensures Numbers(packets) == Numbers(packets') + {last.number}
    ensures last.number in w.packets && last.number in w.left && w.packets[last.number] == last.frames
  {
    assert forall i :: 0 <= i < |packets'| ==> packets[i] == packets'[i];
    assert packets[|packets'|] == last;
  }

  /** Acknowledging packets one after the other hands over their frames in
      order. */
  lemma {:induction false} AckedRun(careful: bool, w: World, packets: seq<SentPacket>)
    requires Outstanding(w, packets) && AcksDefined(w.streams, FramesOf(packets))
    requires careful ==> CarefulAcks(w.streams, FramesOf(packets))
    ensures Reaches(careful, w, AckedEvents(packets),
                    w.(packets := w.packets - Numbers(packets), streams := AckAll(w.streams, FramesOf(packets))))
    decreases |packets|
  {
    hide Outstanding, Numbers, AcksDefined, CarefulAcks, AckAll, Reaches, Possible, Do, FramesOf, Careful, Defined;
    FramesLast(packets);
    if packets == [] {
      NoEvents(careful, w);
    } else {
      var front, p := packets[..|packets| - 1], packets[|packets| - 1];
      Front(w, packets, front, p);
      AckAllJoin(w.streams, FramesOf(front), p.frames);
      AckedRun(careful, w, front);
      var v := w.(packets := w.packets - Numbers(front), streams := AckAll(w.streams, FramesOf(front)));
      AckedOne(v, p);
      ReachesOne(careful, v, Acked(p.number));
      ReachesJoin(careful, w, AckedEvents(front), v, [Acked(p.number)], Do(v, Acked(p.number)));
      assert AckedEvents(front) + [Acked(p.number)] == AckedEvents(packets);
      assert v.packets - {p.number} == w.packets - Numbers(packets);
    }
  }

  lemma AckedOne(v: World, p: SentPacket)
    requires p.number in v.packets && p.number in v.left && v.packets[p.number] == p.frames && AcksDefined(v.streams, p.frames)
    ensures Defined(v, Acked(p.number)) && Possible(v, Acked(p.number))
    ensures Careful(v, Acked(p.number)) <==> CarefulAcks(v.streams, p.frames)
    ensures Do(v, Acked(p.number)) == v.(packets := v.packets - {p.number}, streams := AckAll(v.streams, p.frames))
  {
    hide AcksDefined, CarefulAcks, AckAll;
  }

  lemma LostOne(v: World, p: SentPacket)
    requires p.number in v.packets && p.number in v.left && v.packets[p.number] == p.frames
    ensures Defined(v, Lost(p.number)) && Possible(v, Lost(p.number)) && Careful(v, Lost(p.number))
    ensures Do(v, Lost(p.number)) == v.(packets := v.packets - {p.number}, streams := LoseAll(v.streams, p.frames))
  {
    hide LoseAll;
  }

  lemma NoLosses(w: World)
    ensures LoseAll(w.streams, []) == w.streams
  {}

  lemma FramesLast(packets: seq<SentPacket>)
    ensures packets == [] ==> FramesOf(packets) == []
    ensures packets != [] ==>
              FramesOf(packets) == FramesOf(packets[..|packets| - 1]) + packets[|packets| - 1].frames
  {}

  lemma NoEvents(careful: bool, w: World)
    ensures Numbers([]) == {} && w.packets - {} == w.packets && AcksDefined(w.streams, [])
    ensures AckAll(w.streams, []) == w.streams && Reaches(careful, w, [], w)
  {}

  lemma {:induction false} LostRun(careful: bool, w: World, packets: seq<SentPacket>)
    requires Outstanding(w, packets)
    ensures Reaches(careful, w, LostEvents(packets),
                    w.(packets := w.packets - Numbers(packets), streams := LoseAll(w.streams, FramesOf(packets))))
    decreases |packets|
  {
    hide Outstanding, Numbers, Reaches, ST.LossOf, Possible, Do, FramesOf, LoseAll, Careful, Defined;
    FramesLast(packets);
    if packets == [] {
      NoEvents(careful, w);
      NoLosses(w);
    } else {
      var front, p := packets[..|packets| - 1], packets[|packets| - 1];
      Front(w, packets, front, p);
      LoseAllJoin(w.streams, FramesOf(front), p.frames);
      LostRun(careful, w, front);
      var v := w.(packets := w.packets - Numbers(front), streams := LoseAll(w.streams, FramesOf(front)));
      LostOne(v, p);
      ReachesOne(careful, v, Lost(p.number));
      ReachesJoin(careful, w, LostEvents(front), v, [Lost(p.number)], Do(v, Lost(p.number)));
      assert LostEvents(front) + [Lost(p.number)] == LostEvents(packets);
      assert v.packets - {p.number} == w.packets - Numbers(packets);
    }
  }

  // ------------------------------------------------------------ what an ACK takes

  /** `w` knows the outstanding packets of the Data space. */
  ghost predicate Knows(w: World, sent: map<nat, SentPacket>) {
    forall n :: n in sent ==> sent[n].number == n && n in w.packets && n in w.left && w.packets[n] == sent[n].frames
  }

  /** Packets of `sent`, each at most once. */
  ghost predicate Distinct(sent: map<nat, SentPacket>, packets: seq<SentPacket>) {
    && (forall i :: 0 <= i < |packets| ==> packets[i].number in sent && sent[packets[i].number] == packets[i])
    && (forall i, j :: 0 <= i < j < |packets| ==> packets[i].number != packets[j].number)
  }

  /** An ACK takes each packet once, however its ranges overlap. */
  lemma {:induction false} TakenDistinct(sent: map<nat, SentPacket>, ranges: seq<Range>)
    requires forall n :: n in sent ==> sent[n].number == n
    ensures Distinct(sent, TakenAll(sent, ranges))
    ensures WithoutAll(sent, ranges) == sent - Numbers(TakenAll(sent, ranges))
    decreases |ranges|
  {
    if ranges != [] {
      var front, r := ranges[..|ranges| - 1], ranges[|ranges| - 1];
      var mid := WithoutAll(sent, front);
      TakenDistinct(sent, front);
      WithoutAllWithin(sent, front);
      TakenInExact(mid, r.start, r.end);
      Appended(sent, TakenAll(sent, front), mid, TakenIn(mid, r.start, r.end), r);
    }
  }

  lemma Appended(sent: map<nat, SentPacket>, a: seq<SentPacket>, mid: map<nat, SentPacket>, b: seq<SentPacket>, r: Range)
    requires (forall n :: n in sent ==> sent[n].number == n) && Distinct(sent, a) && mid == sent - Numbers(a)
    requires Increasing(mid, b, r.end) && forall k :: k in mid ==> (mid[k] in b <==> r.start <= k < r.end)
    ensures Distinct(sent, a + b) && Without(mid, r.start, r.end) == sent - Numbers(a + b)
  {
    forall i | 0 <= i < |a| ensures a[i].number in Numbers(a) {}
    forall n ensures n in Numbers(a + b) <==> n in Numbers(a) || exists i :: 0 <= i < |b| && b[i].number == n {
      if n in Numbers(a) {
        var i :| 0 <= i < |a| && a[i].number == n;
        assert (a + b)[i].number == n;
      }
      if i :| 0 <= i < |b| && b[i].number == n {
        assert (a + b)[|a| + i].number == n;
      }
    }
    forall k | k in mid ensures k in Numbers(a + b) <==> r.start <= k < r.end {
      if mid[k] in b {
        var i :| 0 <= i < |b| && b[i] == mid[k];
      }
    }
  }

  lemma KnownOutstanding(w: World, sent: map<nat, SentPacket>, packets: seq<SentPacket>)
    requires Knows(w, sent) && Distinct(sent, packets)
    ensures Outstanding(w, packets)
  {}

  /** The world once the acknowledged packets are gone, and at the end. */
  ghost function AfterAcks(w: World, taken: seq<SentPacket>): World
    requires AcksDefined(w.streams, FramesOf(taken))
  {
    w.(packets := w.packets - Numbers(taken), streams := AckAll(w.streams, FramesOf(taken)))
  }

  ghost function AfterLosses(w: World, lost: seq<SentPacket>): World {
    w.(packets := w.packets - Numbers(lost), streams := LoseAll(w.streams, FramesOf(lost)))
  }

  /** The frames that an ACK hands over, acknowledged and then lost, are those of
      the packets that leave, each acknowledged or lost once; so ACK processing
      is a run of `InFlight`. */
  lemma AckIsEvents(careful: bool, w: World, sent: map<nat, SentPacket>, ranges: seq<Range>, cutoff: nat, n: nat)
    requires Knows(w, sent) && AcksDefined(w.streams, FramesOf(TakenAll(sent, ranges)))
    requires careful ==> CarefulAcks(w.streams, FramesOf(TakenAll(sent, ranges)))
    ensures var taken := TakenAll(sent, ranges);
            var kept := WithoutAll(sent, ranges);
            var lost := LostBelow(kept, cutoff, n);
            var mid := AfterAcks(w, taken);
            && Reaches(careful, w, AckedEvents(taken), mid) && Outstanding(mid, lost)
            && Reaches(careful, mid, LostEvents(lost), AfterLosses(mid, lost))
            && Reaches(careful, w, AckedEvents(taken) + LostEvents(lost), AfterLosses(mid, lost))
            && kept == sent - Numbers(taken)
            && (forall k :: k in Numbers(taken) ==> k in sent) && (forall k :: k in Numbers(lost) ==> k in kept)
  {
    hide TakenAll, WithoutAll, LostBelow, FramesOf, AcksDefined, CarefulAcks, AckAll, Reaches, Numbers, Distinct, Outstanding;
    var taken := TakenAll(sent, ranges);
    var kept := WithoutAll(sent, ranges);
    var lost := LostBelow(kept, cutoff, n);
    TakenDistinct(sent, ranges);
    KnownOutstanding(w, sent, taken);
    AckedRun(careful, w, taken);
    var v := AfterAcks(w, taken);
    WithoutAllWithin(sent, ranges);
    assert Knows(v, kept);
    LostDistinct(kept, cutoff, n);
    KnownOutstanding(v, kept, lost);
    LostRun(careful, v, lost);
    ReachesJoin(careful, w, AckedEvents(taken), v, LostEvents(lost), AfterLosses(v, lost));
    DistinctNumbers(sent, taken);
    DistinctNumbers(kept, lost);
  }

  lemma DistinctNumbers(sent: map<nat, SentPacket>, packets: seq<SentPacket>)
    requires Distinct(sent, packets)
    ensures forall k :: k in Numbers(packets) ==> k in sent
  {}

  /** The loss pass by itself. */
  lemma LossIsEvents(careful: bool, w: World, sent: map<nat, SentPacket>, cutoff: nat, n: nat)
    requires Knows(w, sent)
    ensures var lost := LostBelow(sent, cutoff, n);
            && Outstanding(w, lost) && Reaches(careful, w, LostEvents(lost), AfterLosses(w, lost))
            && (forall k :: k in Numbers(lost) ==> k in sent)
  {
    hide LostBelow, FramesOf, Reaches, Numbers, Distinct, Outstanding;
    var lost := LostBelow(sent, cutoff, n);
    LostDistinct(sent, cutoff, n);
    KnownOutstanding(w, sent, lost);
    LostRun(careful, w, lost);
    DistinctNumbers(sent, lost);
  }

  /** What the loss pass leaves. */
  lemma SurvivorsAre(sent: map<nat, SentPacket>, cutoff: nat, n: nat)
    requires forall k :: k in sent ==> sent[k].number == k
    ensures Survivors(sent, cutoff, n) == sent - Numbers(LostBelow(sent, cutoff, n))
  {
    hide LostBelow;
    LostExact(sent, cutoff, n);
    var lost := LostBelow(sent, cutoff, n);
    forall k | k in sent ensures k in Numbers(lost) <==> k < n && sent[k].timeSent <= cutoff {
      if sent[k] in lost {
        var i :| 0 <= i < |lost| && lost[i] == sent[k];
      }
      if k in Numbers(lost) {
        var i :| 0 <= i < |lost| && lost[i].number == k;
        assert sent[k] in lost;
      }
    }
  }

  lemma LostDistinct(sent: map<nat, SentPacket>, cutoff: nat, n: nat)
    requires forall k :: k in sent ==> sent[k].number == k
    ensures Distinct(sent, LostBelow(sent, cutoff, n))
  {
    hide LostBelow;
    LostExact(sent, cutoff, n);
  }
}
