/** A run of `AckSoundness` in which two ACK frames change places on the way and
    the connection is closed for it. */
module AckRun {
  import opened Core
  import opened VarInt
  import opened PacketNumbers
  import opened Recovery
  import opened AckSoundness
  import A = AckFrame
  import C = Connection
  import D = Dedup
  import L = RangeList
  import P = PendingAcks

  lemma {:induction false} Join(u: World, a: seq<Event>, v: World, b: seq<Event>, w: World)
    requires Reaches(u, a, v) && Reaches(v, b, w)
    ensures Reaches(u, a + b, w)
    decreases |a|
  {
    hide Feasible, InWindow, Do;
    if a == [] {
      assert a + b == b;
    } else {
      assert (a + b)[0] == a[0] && (a + b)[1..] == a[1..] + b;
      Join(Do(u, a[0]), a[1..], v, b, w);
    }
  }

  lemma One(w: World, ev: Event)
    requires Possible(w, ev)
    ensures Reaches(w, [ev], Do(w, ev))
  {
    hide Feasible, InWindow, Do;
    assert [ev][1..] == [];
  }

  /** Of two packets of the same side that are delivered in a reachable state, the
      one with the later ACK frame first, the second closes its receiver. */
  lemma ReorderingCloses(evs: seq<Event>, w: World, older: nat, newer: nat, k: nat, mid: World, v: World)
    requires Reaches(START, evs, w) && older < |w.net| && newer < |w.net|
    requires Possible(w, Deliver(newer, true, {})) && mid == Do(w, Deliver(newer, true, {}))
    requires Possible(mid, Deliver(older, true, {})) && v == Do(mid, Deliver(older, true, {}))
    requires Reordered(w, older, newer, k)
    ensures |v.ends| == 2 && var e := Peer(w.net[newer].from); !w.ends[e].closed && v.ends[e].closed
  {
    hide Reaches, Inv, D.Received, New, Do, L.Has, End.Handle, EndOk, PacketOk, Feasible, InWindow;
    StartInv();
    RunKeeps(START, evs, w);
    Settled(w, older);
    Settled(w, newer);
    var e := Peer(w.net[newer].from);
    DeliverMeans(w, newer, true, {});
    DeliverKeeps(w, newer, true, {});
    DeliverMeans(mid, older, true, {});
    ReorderedAcksClose(w.ends[e], w.ends[Peer(e)], w.net[older], w.net[newer], k, {}, {});
  }

  lemma Settled(w: World, i: nat)
    requires Inv(w) && i < |w.net|
    ensures |w.ends| == 2
    ensures var e := w.net[i].from;
            EndOk(w.ends[e], w.ends[Peer(e)]) && EndOk(w.ends[Peer(e)], w.ends[e]) && PacketOk(w.net[i], w.ends[e], w.ends[Peer(e)])
  {
    hide EndOk, PacketOk;
  }

  /** Two packets of one side, neither of them a duplicate; the later one
      acknowledges packet `k`, still outstanding, and goes beyond the earlier. */
  ghost predicate Reordered(w: World, older: nat, newer: nat, k: nat)
    requires |w.ends| == 2 && older < |w.net| && newer < |w.net|
  {
    var p, q := w.net[older], w.net[newer];
    var h := w.ends[Peer(q.from)];
    && p.from == q.from && p.ranges != [] && q.ranges != [] && A.Last(p.ranges).end < A.Last(q.ranges).end
    && !h.closed && !Late(h, q) && k in h.acks.sent && L.Has(q.ranges, k)
    && !D.Received(h.top, h.seen, q.number)
    && !D.Received(Max(h.top, q.number + 1), h.seen + {q.number}, p.number)
  }

  // ----------------------------------------------------------------- the run itself

  function Meta(n: nat): SentPacket {
    SentPacket(n, 2, 0, 0, true, None, NO_RETRANSMITS, [])
  }

  /** An endpoint that has sent the packets below `next` and received those below
      `got`, in order. */
  function At(next: nat, sent: map<nat, SentPacket>, ranges: seq<Range>, rx: nat, seen: set<nat>, top: nat): End {
    End(C.AckState(next, None, sent, ranges), rx, seen, top, seen, false)
  }

  const ONE: map<nat, SentPacket> := map[][0 := Meta(0)]
  const TWO: map<nat, SentPacket> := ONE[1 := Meta(1)]
  /** The frames of a packet that acknowledges nothing. */
  const PING: Bytes := [1]
  const P0: Packet := Packet(0, 0, 0, 0, [], PING)
  const P1: Packet := Packet(1, 0, 0, 0, [Range(0, 1)], [])
  const P2: Packet := Packet(0, 1, 0, 0, [], PING)
  const P3: Packet := Packet(1, 1, 0, 0, [Range(0, 2)], [])

  lemma Capping()
    ensures P.Capped([], 0) == [Range(0, 1)] && P.Capped([Range(0, 1)], 1) == [Range(0, 2)]
    ensures L.Canonical([Range(0, 1)]) && L.Canonical([Range(0, 2)])
  {
    assert [Range(0, 1)][1..] == [];
  }

  lemma Packets()
    ensures P0.Sendable() && P1.Sendable() && P2.Sendable() && P3.Sendable()
  {
    Capping();
  }

  /** Build and send a packet. */
  lemma Emits(w: World, e: Side, p: Packet, w': World) returns (evs: seq<Event>)
    requires Inv(w) && Build(w.ends[e], e, 0, p.rest) == p && p.Sendable() && w.ends[e].acks.next < PACKET_NUMBER_LIMIT
    requires |w.net| !in w.wire
    requires var h := w.ends[e];
             w' == World(w.ends[e := h.(acks := h.acks.(next := p.number + 1, sent := h.acks.sent[p.number := Meta(p.number)]))],
                         w.net + [p], w.wire + {|w.net|})
    ensures Reaches(w, evs, w') && Inv(w')
  {
    hide EndOk, Reaches, New, A.Encodable;
    var i := |w.net|;
    var e1, e2 := Schedule(e, 0, p.rest), SendOne(i, Meta(p.number));
    AllSendable(w);
    One(w, e1);
    StepKeeps(w, e1);
    var mid := Do(w, e1);
    AllSendable(mid);
    assert mid.net[i] == p;
    One(mid, e2);
    StepKeeps(mid, e2);
    assert Do(mid, e2).ends == w'.ends;
    Join(w, [e1], mid, [e2], w');
    evs := [e1] + [e2];
  }

  lemma AllSendable(w: World)
    requires Inv(w)
    ensures |w.ends| == 2 && forall i :: 0 <= i < |w.net| ==> w.net[i].Sendable()
  {
    hide EndOk, New, A.Encodable;
    forall i | 0 <= i < |w.net| ensures w.net[i].Sendable() {
      assert PacketOk(w.net[i], w.ends[w.net[i].from], w.ends[Peer(w.net[i].from)]);
    }
  }

  /** The smallest window leaves room for 127 packets. */
  lemma InTime(w: World, i: nat, ready: bool, lost: set<nat>)
    requires Inv(w) && i in w.wire && i < |w.net| && w.ends[Peer(w.net[i].from)].rx < w.net[i].number + 127
    ensures Possible(w, Deliver(i, ready, lost))
  {
    hide EndOk, New, A.Encodable, PacketNumber.Window;
    AllSendable(w);
    SmallestWindow(New(w.net[i].number, w.net[i].known).value);
  }

  lemma SmallestWindow(pn: PacketNumber)
    ensures pn.Window() >= 256
  {}

  /** Deliver a packet without an ACK frame to a receiver that is up to date. */
  lemma Lands(w: World, i: nat, ranges: seq<Range>)
    requires Inv(w) && i in w.wire && i < |w.net| && w.net[i].ranges == [] && w.net[i].number <= 1
    requires var h := w.ends[Peer(w.net[i].from)];
             !h.closed && h.rx <= w.net[i].number && !D.Received(h.top, h.seen, w.net[i].number)
             && h.seen == h.got && P.Capped(h.acks.ranges, w.net[i].number) == ranges
    ensures Possible(w, Deliver(i, true, {})) && Inv(Do(w, Deliver(i, true, {})))
    ensures var e, n := Peer(w.net[i].from), w.net[i].number;
            var h := w.ends[e];
            Do(w, Deliver(i, true, {})) == w.(ends := w.ends[e :=
              End(h.acks.(ranges := ranges), n, h.seen + {n}, Max(h.top, n + 1), h.got + {n}, false)])
  {
    hide EndOk, PacketOk, A.Encodable, D.Received, P.Capped, New, Packet.Number, InWindow;
    AllSendable(w);
    InTime(w, i, true, {});
    DeliverMeans(w, i, true, {});
    StepKeeps(w, Deliver(i, true, {}));
  }

  const W1: World := World([At(1, ONE, [], 0, {}, 0), FRESH], [P0], {} + {0})
  const W2: World := W1.(ends := [At(1, ONE, [], 0, {}, 0), At(0, map[], [Range(0, 1)], 0, {} + {0}, 1)])
  const W3: World :=
    World([At(1, ONE, [], 0, {}, 0), At(1, ONE, [Range(0, 1)], 0, {} + {0}, 1)], [P0] + [P1], {} + {0} + {1})
  const W4: World :=
    World([At(2, TWO, [], 0, {}, 0), At(1, ONE, [Range(0, 1)], 0, {} + {0}, 1)], [P0] + [P1] + [P2], {} + {0} + {1} + {2})
  const W5: World := W4.(ends := [At(2, TWO, [], 0, {}, 0), At(1, ONE, [Range(0, 2)], 1, {} + {0} + {1}, 2)])
  const W6: World :=
    World([At(2, TWO, [], 0, {}, 0), At(2, TWO, [Range(0, 2)], 1, {} + {0} + {1}, 2)], [P0] + [P1] + [P2] + [P3],
          {} + {0} + {1} + {2} + {3})

  lemma FirstHalf() returns (evs: seq<Event>)
    ensures Reaches(START, evs, W3) && Inv(W3)
  {
    hide Inv, Do, Possible, Reaches, Packet.Sendable, D.Received, P.Capped;
    StartInv();
    Packets();
    Capping();
    Fresh();
    var a := Emits(START, 0, P0, W1);
    Lands(W1, 0, [Range(0, 1)]);
    One(W1, Deliver(0, true, {}));
    assert Do(W1, Deliver(0, true, {})) == W2;
    var b := Emits(W2, 1, P1, W3);
    Join(START, a, W1, [Deliver(0, true, {})], W2);
    Join(START, a + [Deliver(0, true, {})], W2, b, W3);
    evs := a + [Deliver(0, true, {})] + b;
  }

  lemma SecondHalf() returns (evs: seq<Event>)
    requires Inv(W3)
    ensures Reaches(W3, evs, W6) && Inv(W6)
  {
    hide Inv, Do, Possible, Reaches, Packet.Sendable, D.Received, P.Capped;
    Packets();
    Capping();
    Fresh();
    var a := Emits(W3, 0, P2, W4);
    assert W4.net[2] == P2;
    Lands(W4, 2, [Range(0, 2)]);
    One(W4, Deliver(2, true, {}));
    assert Do(W4, Deliver(2, true, {})) == W5;
    var b := Emits(W5, 1, P3, W6);
    Join(W3, a, W4, [Deliver(2, true, {})], W5);
    Join(W3, a + [Deliver(2, true, {})], W5, b, W6);
    evs := a + [Deliver(2, true, {})] + b;
  }

  lemma Fresh()
    ensures !D.Received(0, {}, 0) && !D.Received(1, {} + {0}, 1)
    ensures !D.Received(0, {}, 1) && !D.Received(2, {} + {1}, 0)
  {}

  /** The second ACK frame overtakes the first, and the connection is closed. */
  lemma OvertakenAckCloses() returns (evs: seq<Event>, w: World)
    ensures Reaches(START, evs, w) && |w.ends| == 2 && w.ends[0].closed
  {
    hide Inv, Do, Reaches, D.Received, EndOk, PacketOk, Packet.Sendable;
    var a := FirstHalf();
    var b := SecondHalf();
    Join(START, a, W3, b, W6);
    Fresh();
    assert W6.net[1] == P1 && W6.net[3] == P3;
    Crosses();
    var mid := Do(W6, Deliver(3, true, {}));
    w := Do(mid, Deliver(1, true, {}));
    ReorderingCloses(a + b, W6, 1, 3, 0, mid, w);
    One(W6, Deliver(3, true, {}));
    One(mid, Deliver(1, true, {}));
    Join(W6, [Deliver(3, true, {})], mid, [Deliver(1, true, {})], w);
    evs := a + b + ([Deliver(3, true, {})] + [Deliver(1, true, {})]);
    Join(START, a + b, W6, [Deliver(3, true, {})] + [Deliver(1, true, {})], w);
    StepKeeps(W6, Deliver(3, true, {}));
    StepKeeps(mid, Deliver(1, true, {}));
    InvShape(w);
  }

  lemma Crosses()
    requires Inv(W6)
    ensures Reordered(W6, 1, 3, 0) && Possible(W6, Deliver(3, true, {}))
    ensures Possible(Do(W6, Deliver(3, true, {})), Deliver(1, true, {}))
  {
    hide EndOk, PacketOk, D.Received, P.Capped, A.Encodable, End.Process, End.Handle, New, Packet.Number, Packet.Sendable, InWindow;
    Fresh();
    assert W6.net[1] == P1 && W6.net[3] == P3;
    assert [Range(0, 2)][0].Contains(0);
    InTime(W6, 3, true, {});
    DeliverMeans(W6, 3, true, {});
    DeliverKeeps(W6, 3, true, {});
    var mid := Do(W6, Deliver(3, true, {}));
    AllSendable(W6);
    ReceiverMoves();
    InTime(mid, 1, true, {});
  }

  lemma ReceiverMoves()
    requires P3.Sendable()
    ensures At(2, TWO, [], 0, {}, 0).Handle(P3, 1, true, {}).rx == 1
  {
    hide P.Capped, ReadAck, C.OnAck, C.Judge, A.Encodable;
    Fresh();
  }
}
