/** A run of two endpoints in which the network repeats a packet more than half a
    window late: the receiver takes it for one that was never sent, acknowledges
    that, and the sender closes the connection. */
module LateDuplicates {
  import opened Core
  import opened VarInt
  import opened PacketNumbers
  import opened Recovery
  import opened AckSoundness
  import A = AckFrame
  import AckRun
  import C = Connection
  import D = Dedup
  import L = RangeList
  import P = PendingAcks

  /** Like `Reaches`, without the condition that packets come in time. */
  ghost predicate Happens(w: World, evs: seq<Event>, w': World)
    decreases |evs|
  {
    if evs == [] then w == w'
    else Feasible(w, evs[0]) && Happens(Do(w, evs[0]), evs[1..], w')
  }

  lemma {:induction false} Then(u: World, evs: seq<Event>, w: World, ev: Event)
    requires Happens(u, evs, w) && Feasible(w, ev)
    ensures Happens(u, evs + [ev], Do(w, ev))
    decreases |evs|
  {
    hide Feasible, Do;
    if evs == [] {
      assert ([] + [ev])[1..] == [];
    } else {
      assert (evs + [ev])[0] == evs[0] && (evs + [ev])[1..] == evs[1..] + [ev];
      Then(Do(u, evs[0]), evs[1..], w, ev);
    }
  }

  // ---------------------------------------------------------------- the first sender

  function Ping(n: nat): Packet {
    Packet(0, n, 0, 0, [], AckRun.PING)
  }

  function Pings(n: nat): seq<Packet>
    ensures |Pings(n)| == n
  {
    seq(n, i requires 0 <= i < n => Ping(i))
  }

  /** The first endpoint has built `n` packets. */
  function Queued(n: nat): World {
    World([FRESH.(acks := FRESH.acks.(next := n)), FRESH], Pings(n), {})
  }

  lemma PingSendable(n: nat)
    requires n < 128
    ensures Ping(n).Sendable() && New(n, 0) == Some(U8(n)) && U8(n).Window() == 256
  {
    Pow256s();
  }

  lemma {:induction false} Queues(n: nat) returns (evs: seq<Event>)
    requires n <= 128
    ensures Happens(START, evs, Queued(n))
    decreases n
  {
    hide Packet.Sendable;
    if n == 0 {
      assert Queued(0) == START;
      evs := [];
    } else {
      var before := Queues(n - 1);
      forall i | 0 <= i < n ensures Ping(i).Sendable() { PingSendable(i); }
      var ev := Schedule(0, 0, AckRun.PING);
      assert Build(Queued(n - 1).ends[0], 0, 0, AckRun.PING) == Ping(n - 1);
      Then(START, before, Queued(n - 1), ev);
      assert Do(Queued(n - 1), ev).net == Pings(n) && Do(Queued(n - 1), ev).ends == Queued(n).ends;
      evs := before + [ev];
    }
  }

  // ----------------------------------------------------------------------- the run

  const BOTH: map<nat, SentPacket> := map[0 := AckRun.Meta(0), 127 := AckRun.Meta(127)]
  const SENDER: End := FRESH.(acks := C.AckState(128, None, BOTH, []))
  /** What the receiver has seen: packet 0, packet 127, and packet 0 once more. */
  const ONE: seq<Range> := [Range(0, 1)]
  const TWO: seq<Range> := [Range(0, 1), Range(127, 128)]
  const THREE: seq<Range> := [Range(0, 1), Range(127, 128), Range(256, 257)]

  function Receiver(ranges: seq<Range>, rx: nat, seen: set<nat>): End {
    End(C.AckState(0, None, map[], ranges), rx, seen, rx + 1, seen, false)
  }

  function Wire(receiver: End): World {
    World([SENDER, receiver], Pings(128), {0, 127})
  }

  lemma Capping()
    ensures P.Capped([], 0) == ONE && P.Capped(ONE, 127) == TWO && P.Capped(TWO, 256) == THREE
    ensures A.Encodable(THREE) && A.Last(THREE) == Range(256, 257)
  {
    assert ONE[1..] == [] && TWO[1..] == [Range(127, 128)] && [Range(127, 128)][1..] == [];
  }

  lemma AllPings(i: nat)
    requires i < 128
    ensures Pings(128)[i] == Ping(i) && Ping(i).Sendable()
  {
    PingSendable(i);
  }

  lemma Departs() returns (evs: seq<Event>)
    ensures Happens(START, evs, Wire(FRESH))
  {
    hide Packet.Sendable, Pings;
    forall i | 0 <= i < 128 ensures Pings(128)[i] == Ping(i) && Ping(i).Sendable() { AllPings(i); }
    var before := Queues(128);
    var e1, e2 := SendOne(0, AckRun.Meta(0)), SendOne(127, AckRun.Meta(127));
    Then(START, before, Queued(128), e1);
    var mid := Do(Queued(128), e1);
    Then(START, before + [e1], mid, e2);
    assert Do(mid, e2).ends == Wire(FRESH).ends && Do(mid, e2).wire == {0, 127};
    evs := before + [e1] + [e2];
  }

  /** A PING that is read as `n`, a number not received before, is taken in. */
  lemma Lands(h: End, i: nat, n: nat, ranges: seq<Range>)
    requires i in {0, 127} && Ping(i).Sendable() && Ping(i).Number(h.rx + 1) == Some(n)
    requires !h.closed && !D.Received(h.top, h.seen, n) && P.Capped(h.acks.ranges, n) == ranges
    ensures Feasible(Wire(h), Deliver(i, true, {}))
    ensures Do(Wire(h), Deliver(i, true, {}))
         == Wire(End(h.acks.(ranges := ranges), Max(h.rx, n), h.seen + {n}, Max(h.top, n + 1), h.got + {n}, false))
  {
    hide Packet.Sendable, Pings, D.Received, P.Capped, Packet.Number;
    forall i | 0 <= i < 128 ensures Pings(128)[i] == Ping(i) && Ping(i).Sendable() { AllPings(i); }
  }

  lemma PingNumber(i: nat, highest: nat)
    requires i < 128
    ensures Ping(i).Sendable()
    ensures highest < i + 127 ==> Ping(i).Number(highest + 1) == Some(i)
    ensures i + 127 == highest ==> Ping(i).Number(highest + 1) == Some(i + 256)
  {
    hide Packet.Number, New;
    PingSendable(i);
    NumberExact(Ping(i), highest);
  }

  /** Packet 0 arrives again after packet 127, and is taken for packet 256. */
  lemma Misread(before: seq<Event>) returns (evs: seq<Event>)
    requires Happens(START, before, Wire(FRESH))
    ensures Happens(START, evs, Wire(Receiver(THREE, 256, {0, 127, 256})))
  {
    hide Packet.Sendable, Packet.Number, P.Capped, Do, Feasible, Happens, Pings;
    Capping();
    var h0, h1, h2 := FRESH, Receiver(ONE, 0, {0}), Receiver(TWO, 127, {0, 127});
    PingNumber(0, 0);
    PingNumber(127, 0);
    PingNumber(0, 127);
    var first, other := Deliver(0, true, {}), Deliver(127, true, {});
    Lands(h0, 0, 0, ONE);
    Then(START, before, Wire(h0), first);
    assert {} + {0} == {0};
    Lands(h1, 127, 127, TWO);
    Then(START, before + [first], Wire(h1), other);
    assert {0} + {127} == {0, 127};
    Lands(h2, 0, 256, THREE);
    Then(START, before + [first] + [other], Wire(h2), first);
    assert {0, 127} + {256} == {0, 127, 256};
    evs := before + [first] + [other] + [first];
  }

  /** The packet that acknowledges all three. */
  const REPLY: Packet := Packet(1, 0, 0, 0, THREE, AckRun.PING)

  lemma Replies()
    ensures REPLY.Sendable() && REPLY.Number(1) == Some(0)
    ensures ReadAck(REPLY.Payload()) == Some(C.Ack(256, 0, A.Reversed(THREE)))
  {
    hide A.Encode, A.Encodable, Packet.Number, A.Reversed, ReadAck;
    Pow256s();
    Capping();
    NumberExact(REPLY, 0);
    AckArrives(REPLY);
  }

  lemma Refuses()
    requires REPLY.Sendable()
    ensures var h := SENDER.Handle(REPLY, 0, true, {}); h.closed && h.acks.next == 128
  {
    hide P.Capped, ReadAck, C.OnAck, Packet.Sendable;
    Replies();
  }

  lemma Answers(before: seq<Event>) returns (evs: seq<Event>, w: World)
    requires Happens(START, before, Wire(Receiver(THREE, 256, {0, 127, 256})))
    ensures Happens(START, evs, w) && |w.net| == 129 && w.net[128] == REPLY && 128 in w.wire
    ensures (forall i :: 0 <= i < |w.net| ==> w.net[i].Sendable())
    ensures |w.ends| == 2 && w.ends[0] == SENDER && w.ends[1].got == {0, 127, 256}
  {
    hide Packet.Sendable, Packet.Number, P.Capped, Happens, Pings, ReadAck, End.Handle;
    Replies();
    forall i | 0 <= i < 128 ensures Pings(128)[i] == Ping(i) && Ping(i).Sendable() { AllPings(i); }
    w := Wire(Receiver(THREE, 256, {0, 127, 256}));
    var e1, e2 := Schedule(1, 0, AckRun.PING), SendOne(128, AckRun.Meta(0));
    assert Build(w.ends[1], 1, 0, AckRun.PING) == REPLY;
    Then(START, before, w, e1);
    w := Do(w, e1);
    assert w.net == Pings(128) + [REPLY];
    Then(START, before + [e1], w, e2);
    evs := before + [e1] + [e2];
    w := Do(w, e2);
  }

  /** The check for unsent packets fires between two endpoints that run this code:
      the receiver acknowledges packet 256 although no packet from 128 on was
      ever built, and the sender closes the connection. */
  lemma LateDuplicateCloses() returns (evs: seq<Event>, w: World)
    ensures Happens(START, evs, w) && |w.ends| == 2 && |w.net| == 129 && w.net[128] == REPLY && REPLY.Sendable()
    ensures 256 in w.ends[1].got && w.ends[0].acks.next == 128 && w.ends[0].closed
    ensures var ack := ReadAck(REPLY.Payload());
            ack.Some? && C.Judge(128, None, ack.value) == C.UnsentPacket
  {
    hide Packet.Sendable, Packet.Number, P.Capped, Happens, ReadAck, End.Handle;
    Replies();
    Refuses();
    evs := Departs();
    evs := Misread(evs);
    evs, w := Answers(evs);
    var last := Deliver(128, true, {});
    Then(START, evs, w, last);
    evs := evs + [last];
    w := Do(w, last);
  }
}
