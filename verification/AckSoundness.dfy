/** Two endpoints that acknowledge each other's packets in one packet number
    space, over a network that drops, duplicates and reorders
    (core/src/connection/mod.rs and space.rs). Packet numbers and ACK frames
    travel as bytes. */
module AckSoundness {
  import opened Core
  import opened VarInt
  import opened PacketNumbers
  import opened Recovery
  import A = AckFrame
  import C = Connection
  import D = Dedup
  import F = Frames
  import L = RangeList
  import P = PendingAcks

  type Side = n: nat | n < 2

  function Peer(e: Side): Side {
    1 - e
  }

  /** A packet as its sender built it. The receiver sees `Number` and `Payload`
      only. */
  datatype Packet = Packet(from: Side, number: nat, known: nat, delay: nat, ranges: seq<Range>, rest: Bytes) {
    ghost predicate Sendable() {
      && known <= number && New(number, known).Some?
      && (ranges != [] ==> A.Encodable(ranges) && delay <= VARINT_MAX && |ranges| <= P.MAX_ACK_BLOCKS)
    }

    /** The number that the header bytes expand to. */
    ghost function Number(expected: nat): Option<nat>
      requires Sendable()
    {
      var pn := New(number, known).value;
      match Decode(DecodeLen(pn.Tag()), pn.Encode() + Payload())
      case Short => None
      case Got(got, _) => if got.value < got.Window() then Some(got.Expand(expected)) else None
    }

    /** The frames: an ACK first if anything is pending. */
    ghost function Payload(): Bytes
      requires Sendable()
    {
      if ranges == [] then rest else A.Encode(delay, ranges, None) + rest
    }
  }

  /** Parsing and iterating the ACK frame at the front of a payload. */
  function ReadAck(payload: Bytes): Option<C.Ack> {
    match F.ParseFrame(payload)
    case Fail(_) => None
    case Done(frame, _) =>
      if !frame.Ack? then None
      else
        match A.Ranges(frame.largest, frame.additional)
        case None => None
        case Some(rs) => Some(C.Ack(frame.largest, frame.delay, rs))
  }

  /** One endpoint: its ACK state, the highest number received, what the
      duplicate filter has seen, the numbers taken in, and whether a protocol
      error has closed it. */
  datatype End = End(acks: C.AckState, rx: nat, seen: set<nat>, top: nat, got: set<nat>, closed: bool) {
    /** `on_packet_authenticated`. */
    function Authenticate(n: nat): End {
      if closed then this
      else this.(acks := acks.(ranges := P.Capped(acks.ranges, n)), rx := Max(rx, n), got := got + {n})
    }

    /** The ACK frame of a packet; `lost` are the packets that the loss pass
        after it gives up. */
    ghost function Process(p: Packet, lost: set<nat>): End
      requires p.Sendable()
    {
      if p.ranges == [] then this
      else
        match ReadAck(p.Payload())
        case None => this.(closed := true)
        case Some(ack) =>
          if C.Judge(acks.next, acks.largestAcked, ack).AckOk? then this.(acks := C.OnAck(acks, ack, lost))
          else this.(closed := true)
    }

    /** `handle_data`: a likely duplicate is dropped, and so is a packet that
        comes too early in the handshake. */
    ghost function Handle(p: Packet, n: nat, ready: bool, lost: set<nat>): End
      requires p.Sendable()
    {
      var marked := this.(seen := seen + {n}, top := Max(top, n + 1));
      if D.Received(top, seen, n) || !ready then marked
      else marked.Authenticate(n).Process(p, lost)
    }
  }

  const FRESH: End := End(C.AckState(0, None, map[], []), 0, {}, 0, {}, false)

  /** Every packet built so far, and which of them are on the wire. */
  datatype World = World(ends: seq<End>, net: seq<Packet>, wire: set<nat>)

  const START: World := World([FRESH, FRESH], [], {})

  datatype Event =
    | Schedule(e: Side, delay: nat, rest: Bytes)
    | SendOne(i: nat, meta: SentPacket)
    | Lose(e: Side, lost: set<nat>)
    | Deliver(i: nat, ready: bool, lost: set<nat>)
    | DeliverFirst(i: nat, lost: set<nat>)

  /** The packet that an endpoint builds next. */
  function Build(h: End, e: Side, delay: nat, rest: Bytes): Packet {
    Packet(e, h.acks.next, if h.acks.largestAcked.Some? then h.acks.largestAcked.value else 0, delay, h.acks.ranges, rest)
  }

  /** Events that can happen. A number or a delay that does not fit, or a number
      too far ahead of the last acknowledged one, panics instead of being sent.
      A packet is delivered, any number of times, only once it is on the wire. */
  ghost predicate Feasible(w: World, ev: Event) {
    && |w.ends| == 2
    && (forall i :: 0 <= i < |w.net| ==> w.net[i].Sendable())
    && match ev
       case Schedule(e, delay, rest) =>
         w.ends[e].acks.next < PACKET_NUMBER_LIMIT && Build(w.ends[e], e, delay, rest).Sendable()
       case SendOne(i, meta) =>
         && i < |w.net| && i !in w.wire && meta.number == w.net[i].number
         && (meta.largestAcked.Some? ==> w.net[i].ranges != [] && meta.largestAcked.value == A.Last(w.net[i].ranges).end - 1)
       case Lose(_, _) => true
       case Deliver(i, _, _) => i in w.wire && i < |w.net|
       case DeliverFirst(i, _) => i in w.wire && i < |w.net| && w.ends[Peer(w.net[i].from)].got == {}
  }

  /** Events that happen in time: a packet is delivered while the receiver is not
      half a window past it. The packet that creates the receiver's state is free
      of that. */
  ghost predicate Possible(w: World, ev: Event) {
    Feasible(w, ev) && (ev.Deliver? ==> InWindow(w, ev.i))
  }

  ghost predicate InWindow(w: World, i: nat)
    requires |w.ends| == 2 && i < |w.net| && w.net[i].Sendable()
  {
    var p := w.net[i];
    w.ends[Peer(p.from)].rx + 1 < p.number + New(p.number, p.known).value.Window() / 2
  }

  ghost function Do(w: World, ev: Event): World
    requires Feasible(w, ev)
  {
    match ev
    case Schedule(e, delay, rest) =>
      var h := w.ends[e];
      w.(net := w.net + [Build(h, e, delay, rest)], ends := w.ends[e := h.(acks := h.acks.(next := h.acks.next + 1))])
    case SendOne(i, meta) =>
      var e := w.net[i].from;
      var h := w.ends[e];
      w.(wire := w.wire + {i}, ends := w.ends[e := h.(acks := h.acks.(sent := h.acks.sent[meta.number := meta]))])
    case Lose(e, lost) =>
      var h := w.ends[e];
      w.(ends := w.ends[e := h.(acks := h.acks.(sent := h.acks.sent - lost))])
    case Deliver(i, ready, lost) =>
      var e := Peer(w.net[i].from);
      (match w.net[i].Number(w.ends[e].rx + 1)
       case None => w
       case Some(n) => w.(ends := w.ends[e := w.ends[e].Handle(w.net[i], n, ready, lost)]))
    case DeliverFirst(i, lost) =>
      var e := Peer(w.net[i].from);
      match w.net[i].Number(0)
      case None => w
      case Some(n) => w.(ends := w.ends[e := w.ends[e].Authenticate(n).Process(w.net[i], lost)])
  }

  // ------------------------------------------------------------------- invariant

  /** An endpoint against its peer: what it owes it has received, what it has
      received the peer has numbered, and what it takes to be acknowledged the
      peer has received. */
  ghost predicate EndOk(h: End, peer: End) {
    && L.Canonical(h.acks.ranges) && |h.acks.ranges| <= P.MAX_ACK_BLOCKS
    && (forall x: nat :: L.Has(h.acks.ranges, x) ==> x in h.got)
    && (forall x :: x in h.got ==> x < peer.acks.next && x <= h.rx)
    && (h.acks.largestAcked.Some? ==> h.acks.largestAcked.value in peer.got)
    && h.acks.next <= PACKET_NUMBER_LIMIT && Filed(h.acks.sent)
  }

  /** Packets are filed under their own numbers. */
  ghost predicate Filed(sent: map<nat, SentPacket>) {
    forall k :: k in sent ==> sent[k].number == k
  }

  ghost predicate PacketOk(p: Packet, sender: End, receiver: End) {
    && p.Sendable() && p.number < sender.acks.next
    && (p.known == 0 || p.known in receiver.got)
    && (forall x: nat :: L.Has(p.ranges, x) ==> x in sender.got)
  }

  ghost predicate Inv(w: World) {
    && |w.ends| == 2
    && EndOk(w.ends[0], w.ends[1]) && EndOk(w.ends[1], w.ends[0])
    && forall i :: 0 <= i < |w.net| ==> PacketOk(w.net[i], w.ends[w.net[i].from], w.ends[Peer(w.net[i].from)])
  }

  /** Later states of an endpoint know more. */
  ghost predicate Grows(h: End, h': End) {
    && h.got <= h'.got && h.acks.next <= h'.acks.next && h.rx <= h'.rx
    && h.seen <= h'.seen && h.top <= h'.top
  }

  lemma PacketStays(p: Packet, s: End, r: End, s': End, r': End)
    requires PacketOk(p, s, r) && Grows(s, s') && Grows(r, r')
    ensures PacketOk(p, s', r')
  {
    hide L.Has;
  }

  /** Changing one endpoint so that it grows and is still right keeps the
      invariant. */
  lemma Updated(w: World, e: Side, h: End)
    requires Inv(w) && Grows(w.ends[e], h) && EndOk(h, w.ends[Peer(e)])
    ensures Inv(w.(ends := w.ends[e := h]))
  {
    hide L.Has, L.Canonical, PacketOk;
    var w' := w.(ends := w.ends[e := h]);
    forall i | 0 <= i < |w.net|
      ensures PacketOk(w.net[i], w'.ends[w.net[i].from], w'.ends[Peer(w.net[i].from)])
    {
      PacketStays(w.net[i], w.ends[w.net[i].from], w.ends[Peer(w.net[i].from)],
                  w'.ends[w.net[i].from], w'.ends[Peer(w.net[i].from)]);
    }
  }

  // ----------------------------------------------------- what crosses the network

  /** Exactly inside the window does the receiver recover the number that was
      sent. */
  lemma NumberArrives(p: Packet, sender: End, receiver: End)
    requires PacketOk(p, sender, receiver) && EndOk(receiver, sender)
    ensures receiver.rx + 1 < p.number + New(p.number, p.known).value.Window() / 2
            <==> p.Number(receiver.rx + 1) == Some(p.number)
    ensures receiver.got == {} ==> p.Number(0) == Some(p.number)
  {
    hide L.Has, L.Canonical, A.Encodable, A.Encode, Decode, New;
    NumberExact(p, receiver.rx);
    if receiver.got == {} {
      FirstArrives(p);
    }
  }

  /** Outside it, the packet is taken for one at least a window later. */
  lemma NumberExact(p: Packet, highest: nat)
    requires p.Sendable() && p.known <= highest
    ensures p.Number(highest + 1).Some?
    ensures var m, win := p.Number(highest + 1).value, New(p.number, p.known).value.Window();
            if highest + 1 < p.number + win / 2 then m == p.number
            else p.number + win <= m <= highest + 1 + win / 2 && m % win == p.number % win
  {
    hide L.Has, L.Canonical, A.Encodable, A.Encode, Decode;
    Recovered(p.number, p.known, highest, p.Payload());
    WireTruncates(p.number, p.known, p.Payload());
    var pn := New(p.number, p.known).value;
    if p.number + pn.Window() / 2 <= highest + 1 {
      ExpandMisreads(Decode(pn.Len(), pn.Encode() + p.Payload()).value, p.number, highest + 1);
    }
  }

  lemma FirstArrives(p: Packet)
    requires p.Sendable() && p.known == 0
    ensures p.Number(0) == Some(p.number)
  {
    hide L.Has, L.Canonical, A.Encodable, A.Encode, Decode;
    WireTruncates(p.number, p.known, p.Payload());
    SentWithinHalf(p.number, p.known);
    var pn := New(p.number, p.known).value;
    ExpandExact(Decode(pn.Len(), pn.Encode() + p.Payload()).value, p.number, 0);
  }

  /** An ACK frame is read back as its sender's pending ranges, largest first. */
  lemma AckArrives(p: Packet)
    requires p.Sendable() && p.ranges != []
    ensures ReadAck(p.Payload()) == Some(C.Ack(A.Last(p.ranges).end - 1, p.delay, A.Reversed(p.ranges)))
  {
    hide L.Canonical, A.Encode, A.Ranges, A.Reversed, F.ParseFrame;
    F.AckFits(p.delay, p.ranges, None, p.rest);
    A.RangesRoundTrip(p.ranges);
  }

  /** The largest number listed is one of the pending ones. */
  lemma LargestListed(p: Packet)
    requires p.Sendable() && p.ranges != []
    ensures L.Has(p.ranges, A.Last(p.ranges).end - 1)
  {
    assert p.ranges[|p.ranges| - 1].Contains(A.Last(p.ranges).end - 1);
  }

  lemma {:induction false} ReversedHas(s: seq<Range>, x: nat)
    ensures L.Has(A.Reversed(s), x) <==> L.Has(s, x)
    decreases |s|
  {
    if s != [] {
      ReversedHas(A.Front(s), x);
      L.HasCons(A.Last(s), A.Reversed(A.Front(s)), x);
      L.HasConcat(A.Front(s), [A.Last(s)], x);
      L.HasCons(A.Last(s), [], x);
      assert s == A.Front(s) + [A.Last(s)];
      assert [A.Last(s)] + [] == [A.Last(s)];
    }
  }

  // ---------------------------------------------------------------- steps keep it

  lemma {:induction false} ForgetWithin(ranges: seq<Range>, packets: seq<SentPacket>)
    requires L.Canonical(ranges)
    ensures var r := ForgetAll(ranges, packets);
            L.Canonical(r) && |r| <= |ranges| && forall x: nat :: L.Has(r, x) ==> L.Has(ranges, x)
    decreases |packets|
  {
    hide L.Has, L.Canonical, L.Remove;
    if packets != [] {
      var front, p := packets[..|packets| - 1], packets[|packets| - 1];
      ForgetWithin(ranges, front);
      if p.largestAcked.Some? { P.BelowSpec(ForgetAll(ranges, front), p.largestAcked.value + 1); }
    }
  }

  lemma AuthenticateKeeps(h: End, peer: End, n: nat)
    requires EndOk(h, peer) && n < peer.acks.next
    ensures EndOk(h.Authenticate(n), peer) && Grows(h, h.Authenticate(n))
  {
    hide L.Has, L.Canonical, P.Capped;
    P.CappedSpec(h.acks.ranges, n);
  }

  /** An ACK frame that this peer built leaves the endpoint right, and closes it
      exactly when its largest number is below one acknowledged before. */
  lemma ProcessKeeps(h: End, peer: End, p: Packet, lost: set<nat>)
    requires EndOk(h, peer) && EndOk(peer, h) && PacketOk(p, peer, h)
    ensures var h' := h.Process(p, lost);
            && EndOk(h', peer) && Grows(h, h') && h'.acks.next == h.acks.next
            && (h'.acks.largestAcked == h.acks.largestAcked
                || (p.ranges != [] && h'.acks.largestAcked == Some(A.Last(p.ranges).end - 1)
                    && (h.acks.largestAcked.Some? ==> h.acks.largestAcked.value <= A.Last(p.ranges).end - 1)))
            && (h'.closed <==> h.closed || Late(h, p))
  {
    hide L.Has, L.Canonical, A.Encodable, A.Encode, TakenAll, WithoutAll, ForgetAll, ReadAck;
    if p.ranges != [] {
      AckArrives(p);
      LargestListed(p);
      var ack := ReadAck(p.Payload()).value;
      assert ack.largest in peer.got;
      ForgetWithin(h.acks.ranges, TakenAll(h.acks.sent, ack.ranges));
      WithoutAllWithin(h.acks.sent, ack.ranges);
    }
  }

  /** An ACK frame overtaken by a later one. */
  predicate Late(h: End, p: Packet) {
    p.ranges != [] && h.acks.largestAcked.Some? && A.Last(p.ranges).end <= h.acks.largestAcked.value
  }

  lemma BuildOk(h: End, peer: End, e: Side, delay: nat, rest: Bytes)
    requires EndOk(h, peer) && EndOk(peer, h)
    requires h.acks.next < PACKET_NUMBER_LIMIT && Build(h, e, delay, rest).Sendable()
    ensures PacketOk(Build(h, e, delay, rest), h.(acks := h.acks.(next := h.acks.next + 1)), peer)
  {
    hide L.Has, L.Canonical, A.Encodable;
  }

  /** The only reasons not to send are the three panics: a packet is well formed
      whenever its number and delay fit and it is not too far ahead. */
  lemma BuildSendable(h: End, peer: End, e: Side, delay: nat, rest: Bytes)
    requires EndOk(h, peer) && EndOk(peer, h)
    ensures var known := if h.acks.largestAcked.Some? then h.acks.largestAcked.value else 0;
            && known <= h.acks.next
            && (New(h.acks.next, known).Some? && delay <= VARINT_MAX ==> Build(h, e, delay, rest).Sendable())
  {
    hide L.Has;
    var s := h.acks.ranges;
    if s != [] {
      HasLast(s);
    }
  }

  lemma HasLast(s: seq<Range>)
    requires L.Canonical(s) && s != []
    ensures L.Has(s, A.Last(s).end - 1)
  {
    assert s[|s| - 1].Contains(A.Last(s).end - 1);
  }

  lemma HandleKeeps(h: End, peer: End, p: Packet, ready: bool, lost: set<nat>)
    requires EndOk(h, peer) && EndOk(peer, h) && PacketOk(p, peer, h)
    ensures var h' := h.Handle(p, p.number, ready, lost);
            && EndOk(h', peer) && Grows(h, h') && h'.acks.next == h.acks.next && LargestGrows(h, h')
            && (h'.closed <==> h.closed || Closes(h, p, ready))
  {
    hide L.Has, L.Canonical, P.Capped, New, D.Received, End.Process;
    var marked := h.(seen := h.seen + {p.number}, top := Max(h.top, p.number + 1));
    AuthenticateKeeps(marked, peer, p.number);
    var h1 := marked.Authenticate(p.number);
    PacketStays(p, peer, h, peer, h1);
    ProcessKeeps(h1, peer, p, lost);
  }

  ghost predicate LargestGrows(h: End, h': End) {
    h.acks.largestAcked.Some? ==> h'.acks.largestAcked.Some? && h.acks.largestAcked.value <= h'.acks.largestAcked.value
  }

  /** Every event keeps the invariant, and no endpoint's largest acknowledged
      number ever decreases. */
  lemma StepKeeps(w: World, ev: Event)
    requires Inv(w) && Possible(w, ev)
    ensures Inv(Do(w, ev))
    ensures forall e: Side :: LargestGrows(w.ends[e], Do(w, ev).ends[e]) && Grows(w.ends[e], Do(w, ev).ends[e])
    ensures w.net <= Do(w, ev).net
  {
    hide L.Has, L.Canonical, PacketOk, EndOk, New, D.Received;
    match ev {
      case Schedule(e, delay, rest) => ScheduleKeeps(w, e, delay, rest);
      case SendOne(i, meta) =>
        var e := w.net[i].from;
        var h := w.ends[e];
        FiledEnds(w, e);
        SentKeeps(w, e, h.acks.sent[meta.number := meta]);
      case Lose(e, lost) =>
        FiledEnds(w, e);
        SentKeeps(w, e, w.ends[e].acks.sent - lost);
      case Deliver(i, ready, lost) => DeliverKeeps(w, i, ready, lost);
      case DeliverFirst(i, lost) => FirstKeeps(w, i, lost);
    }
  }

  lemma ScheduleKeeps(w: World, e: Side, delay: nat, rest: Bytes)
    requires Inv(w) && Possible(w, Schedule(e, delay, rest))
    ensures Inv(Do(w, Schedule(e, delay, rest)))
  {
    hide L.Has, L.Canonical, PacketOk, New;
    var h := w.ends[e];
    BuildOk(h, w.ends[Peer(e)], e, delay, rest);
    Updated(w, e, h.(acks := h.acks.(next := h.acks.next + 1)));
  }

  lemma FiledEnds(w: World, e: Side)
    requires Inv(w)
    ensures Filed(w.ends[e].acks.sent)
  {
    hide L.Has, L.Canonical, PacketOk;
  }

  lemma SentKeeps(w: World, e: Side, sent: map<nat, SentPacket>)
    requires Inv(w) && Filed(sent)
    ensures var h := w.ends[e].(acks := w.ends[e].acks.(sent := sent));
            Inv(w.(ends := w.ends[e := h])) && Grows(w.ends[e], h) && LargestGrows(w.ends[e], h)
  {
    hide L.Has, L.Canonical, PacketOk;
    Updated(w, e, w.ends[e].(acks := w.ends[e].acks.(sent := sent)));
  }

  /** Inside the window, delivery hands over the number that was sent. */
  lemma DeliverMeans(w: World, i: nat, ready: bool, lost: set<nat>)
    requires Inv(w) && Possible(w, Deliver(i, ready, lost))
    ensures var e := Peer(w.net[i].from);
            Do(w, Deliver(i, ready, lost))
            == w.(ends := w.ends[e := w.ends[e].Handle(w.net[i], w.net[i].number, ready, lost)])
  {
    hide L.Has, L.Canonical, PacketOk, EndOk, New, D.Received, Packet.Number, End.Handle, A.Encode, A.Encodable;
    var p := w.net[i];
    NumberArrives(p, w.ends[p.from], w.ends[Peer(p.from)]);
  }

  ghost predicate Closes(h: End, p: Packet, ready: bool) {
    !D.Received(h.top, h.seen, p.number) && ready && Late(h, p)
  }

  lemma DeliverKeeps(w: World, i: nat, ready: bool, lost: set<nat>)
    requires Inv(w) && Possible(w, Deliver(i, ready, lost))
    ensures var e := Peer(w.net[i].from);
            var w' := Do(w, Deliver(i, ready, lost));
            && w' == w.(ends := w.ends[e := w'.ends[e]])
            && Inv(w') && LargestGrows(w.ends[e], w'.ends[e]) && Grows(w.ends[e], w'.ends[e])
            && (w'.ends[e].closed <==> w.ends[e].closed || Closes(w.ends[e], w.net[i], ready))
  {
    hide L.Has, L.Canonical, PacketOk, EndOk, New, D.Received, Do, Late;
    var p := w.net[i];
    var e := Peer(p.from);
    DeliverMeans(w, i, ready, lost);
    HandleKeeps(w.ends[e], w.ends[p.from], p, ready, lost);
    Updated(w, e, w.ends[e].Handle(p, p.number, ready, lost));
  }

  lemma FirstKeeps(w: World, i: nat, lost: set<nat>)
    requires Inv(w) && Possible(w, DeliverFirst(i, lost))
    ensures var e := Peer(w.net[i].from);
            var h' := w.ends[e].Authenticate(w.net[i].number).Process(w.net[i], lost);
            && Do(w, DeliverFirst(i, lost)) == w.(ends := w.ends[e := h'])
            && Inv(w.(ends := w.ends[e := h'])) && LargestGrows(w.ends[e], h') && Grows(w.ends[e], h')
  {
    hide L.Has, L.Canonical, New;
    var p := w.net[i];
    var e := Peer(p.from);
    var h := w.ends[e];
    NumberArrives(p, w.ends[p.from], h);
    AuthenticateKeeps(h, w.ends[p.from], p.number);
    var h1 := h.Authenticate(p.number);
    PacketStays(p, w.ends[p.from], h, w.ends[p.from], h1);
    ProcessKeeps(h1, w.ends[p.from], p, lost);
    Updated(w, e, h1.Process(p, lost));
  }

  // ------------------------------------------------------------------- duplicates

  /** A duplicate of a packet that was handled before. In time it changes nothing.
      When the receiver is half a window past it, it is taken for a packet at
      least a window later, and is dropped exactly if that one counts as received:
      otherwise its frames are processed again. */
  lemma DuplicateExact(h: End, p: Packet, lost: set<nat>)
    requires p.Sendable() && p.known <= h.rx && p.number in h.seen && p.number < h.top && !h.closed
    ensures p.Number(h.rx + 1).Some?
    ensures var m, win := p.Number(h.rx + 1).value, New(p.number, p.known).value.Window();
            var h' := h.Handle(p, m, true, lost);
            && (h.rx + 1 < p.number + win / 2 ==> m == p.number && h' == h)
            && (p.number + win / 2 <= h.rx + 1 ==> p.number + win <= m && m % win == p.number % win)
            && h'.got == if D.Received(h.top, h.seen, m) then h.got else h.got + {m}
  {
    hide New, A.Encodable, P.Capped, Packet.Number, End.Process;
    NumberExact(p, h.rx);
    var m := p.Number(h.rx + 1).value;
    ProcessGot(h.(seen := h.seen + {m}, top := Max(h.top, m + 1)).Authenticate(m), p, lost);
    assert p.number in h.seen ==> h.seen + {p.number} == h.seen;
  }

  // ------------------------------------------------------------------- whole runs

  ghost predicate Reaches(w: World, evs: seq<Event>, w': World)
    decreases |evs|
  {
    if evs == [] then w == w'
    else Possible(w, evs[0]) && Reaches(Do(w, evs[0]), evs[1..], w')
  }

  lemma StartInv()
    ensures Inv(START) && WireOk(START)
  {}

  /** A packet of this side and number is on the wire. */
  ghost predicate OnWire(w: World, from: Side, x: nat) {
    exists i :: i in w.wire && 0 <= i < |w.net| && w.net[i].from == from && w.net[i].number == x
  }

  /** What an endpoint has taken in, its peer has really sent. */
  ghost predicate WireOk(w: World) {
    |w.ends| == 2 && forall e: Side, x :: x in w.ends[e].got ==> OnWire(w, Peer(e), x)
  }

  lemma OnWireStays(w: World, w': World, from: Side, x: nat)
    requires OnWire(w, from, x) && w.wire <= w'.wire && w.net <= w'.net
    ensures OnWire(w', from, x)
  {
    var i :| i in w.wire && 0 <= i < |w.net| && w.net[i].from == from && w.net[i].number == x;
    assert w'.net[i] == w.net[i];
  }

  lemma ProcessGot(h: End, p: Packet, lost: set<nat>)
    requires p.Sendable()
    ensures h.Process(p, lost).got == h.got
  {
    hide C.OnAck, C.Judge, ReadAck, New, A.Encodable;
  }

  /** Nothing but the packet delivered is taken in. */
  lemma StepGot(w: World, ev: Event, e: Side, x: nat)
    requires Inv(w) && Possible(w, ev)
    ensures w.wire <= Do(w, ev).wire
    ensures x in Do(w, ev).ends[e].got ==>
              x in w.ends[e].got
              || ((ev.Deliver? || ev.DeliverFirst?) && e == Peer(w.net[ev.i].from) && x == w.net[ev.i].number)
  {
    hide L.Has, L.Canonical, PacketOk, EndOk, New, D.Received, Packet.Number, End.Process, P.Capped, A.Encode, A.Encodable;
    match ev {
      case Deliver(i, ready, lost) =>
        var p := w.net[i];
        DeliverMeans(w, i, ready, lost);
        var h := w.ends[Peer(p.from)];
        ProcessGot(h.(seen := h.seen + {p.number}, top := Max(h.top, p.number + 1)).Authenticate(p.number), p, lost);
      case DeliverFirst(i, lost) =>
        var p := w.net[i];
        FirstKeeps(w, i, lost);
        ProcessGot(w.ends[Peer(p.from)].Authenticate(p.number), p, lost);
      case _ =>
    }
  }

  lemma WireKeeps(w: World, ev: Event)
    requires Inv(w) && WireOk(w) && Possible(w, ev)
    ensures WireOk(Do(w, ev))
  {
    hide Inv, Do, OnWire, New, A.Encodable;
    StepKeeps(w, ev);
    var w' := Do(w, ev);
    InvShape(w');
    forall e: Side, x | x in w'.ends[e].got ensures OnWire(w', Peer(e), x) {
      StepGot(w, ev, e, x);
      if x in w.ends[e].got {
        OnWireStays(w, w', Peer(e), x);
      } else {
        Delivered(w, ev.i);
        OnWireStays(w, w', Peer(e), x);
      }
    }
  }

  lemma Delivered(w: World, i: nat)
    requires i in w.wire && i < |w.net|
    ensures OnWire(w, w.net[i].from, w.net[i].number)
  {}

  lemma {:induction false} RunKeeps(w: World, evs: seq<Event>, w': World)
    requires Inv(w) && Reaches(w, evs, w')
    ensures Inv(w') && (WireOk(w) ==> WireOk(w'))
    ensures forall e: Side :: LargestGrows(w.ends[e], w'.ends[e]) && Grows(w.ends[e], w'.ends[e])
    ensures w.net <= w'.net
    decreases |evs|
  {
    hide Inv, Feasible, InWindow, Do, WireOk;
    InvShape(w);
    if evs != [] {
      StepKeeps(w, evs[0]);
      if WireOk(w) { WireKeeps(w, evs[0]); }
      InvShape(Do(w, evs[0]));
      RunKeeps(Do(w, evs[0]), evs[1..], w');
    }
    InvShape(w');
  }

  lemma InvShape(w: World)
    ensures Inv(w) ==> |w.ends| == 2
  {}

  /** ACK soundness over every run: each ACK frame that was ever built lists only
      numbers of packets that the peer has sent, so the check for unsent packets
      never fires, now or later. */
  lemma AcksAreSound(evs: seq<Event>, w: World, i: nat)
    requires Reaches(START, evs, w) && i < |w.net| && w.net[i].ranges != []
    ensures |w.ends| == 2 && w.net[i].Sendable()
    ensures var target := w.ends[Peer(w.net[i].from)].acks;
            var ack := ReadAck(w.net[i].Payload());
            && ack.Some?
            && (forall x: nat :: L.Has(ack.value.ranges, x) ==> x < target.next && OnWire(w, Peer(w.net[i].from), x))
            && L.Has(ack.value.ranges, ack.value.largest)
            && C.Judge(target.next, target.largestAcked, ack.value) != C.UnsentPacket
  {
    hide L.Has, L.Canonical, A.Reversed, ReadAck, Reaches, New, A.Encode, A.Encodable, OnWire;
    StartInv();
    RunKeeps(START, evs, w);
    var p := w.net[i];
    AckArrives(p);
    LargestListed(p);
    forall x: nat ensures L.Has(A.Reversed(p.ranges), x) <==> L.Has(p.ranges, x) { ReversedHas(p.ranges, x); }
  }

  /** In every reachable state the largest acknowledged number has been
      allocated. */
  lemma LargestIsAllocated(evs: seq<Event>, w: World, e: Side)
    requires Reaches(START, evs, w)
    ensures |w.ends| == 2
    ensures w.ends[e].acks.largestAcked.Some? ==> w.ends[e].acks.largestAcked.value < w.ends[e].acks.next
  {
    hide L.Has, L.Canonical, Reaches, PacketOk;
    StartInv();
    RunKeeps(START, evs, w);
  }

  /** Delivery closes the receiver exactly when the packet is no duplicate and
      its ACK frame was overtaken by one with a larger largest number. */
  lemma ClosedOnlyByOvertaking(evs: seq<Event>, w: World, i: nat, ready: bool, lost: set<nat>)
    requires Reaches(START, evs, w) && Possible(w, Deliver(i, ready, lost))
    ensures var e := Peer(w.net[i].from);
            Do(w, Deliver(i, ready, lost)).ends[e].closed <==> w.ends[e].closed || Closes(w.ends[e], w.net[i], ready)
  {
    hide Reaches, Inv, D.Received, New, Do, Late;
    StartInv();
    RunKeeps(START, evs, w);
    DeliverKeeps(w, i, ready, lost);
  }

  /** While packets come in time, the network may repeat them as it likes: after
      the first delivery of a packet every later one changes nothing. */
  lemma TakenOnce(before: seq<Event>, w: World, i: nat, ready: bool, lost: set<nat>,
                  between: seq<Event>, v: World, ready': bool, lost': set<nat>)
    requires Reaches(START, before, w) && Possible(w, Deliver(i, ready, lost))
    requires Reaches(Do(w, Deliver(i, ready, lost)), between, v) && Possible(v, Deliver(i, ready', lost'))
    ensures Do(v, Deliver(i, ready', lost')) == v
  {
    hide Reaches, Inv, New, Do, PacketOk, EndOk, End.Process, P.Capped, A.Encodable;
    StartInv();
    RunKeeps(START, before, w);
    DeliverMeans(w, i, ready, lost);
    DeliverKeeps(w, i, ready, lost);
    var u := Do(w, Deliver(i, ready, lost));
    RunKeeps(u, between, v);
    InvShape(v);
    assert v.net[i] == w.net[i];
    HandleSees(w.ends[Peer(w.net[i].from)], w.net[i], ready, lost);
    DeliverMeans(v, i, ready', lost');
    var h := v.ends[Peer(v.net[i].from)];
    assert h.seen + {v.net[i].number} == h.seen;
  }

  lemma HandleSees(h: End, p: Packet, ready: bool, lost: set<nat>)
    requires p.Sendable()
    ensures var h' := h.Handle(p, p.number, ready, lost); p.number in h'.seen && p.number < h'.top
  {
    hide L.Has, L.Canonical, New, D.Received, C.OnAck, P.Capped, ReadAck, Packet.Sendable;
  }

  /** Reordering is fatal: of two packets of the peer whose ACK frames arrive in
      the wrong order, the first for a packet `k` that is still outstanding, the
      second closes the connection. */
  lemma ReorderedAcksClose(h: End, peer: End, older: Packet, newer: Packet, k: nat, lost: set<nat>, lost': set<nat>)
    requires EndOk(h, peer) && EndOk(peer, h) && PacketOk(older, peer, h) && PacketOk(newer, peer, h)
    requires older.ranges != [] && newer.ranges != [] && A.Last(older.ranges).end < A.Last(newer.ranges).end
    requires !h.closed && !Late(h, newer) && k in h.acks.sent && L.Has(newer.ranges, k)
    requires !D.Received(h.top, h.seen, newer.number)
    requires !D.Received(Max(h.top, newer.number + 1), h.seen + {newer.number}, older.number)
    ensures var mid := h.Handle(newer, newer.number, true, lost);
            !mid.closed && mid.Handle(older, older.number, true, lost').closed
  {
    hide L.Has, L.Canonical, New, D.Received, PacketOk, EndOk, End.Handle, Packet.Sendable;
    Sound(older, peer, h);
    Sound(newer, peer, h);
    HandleKeeps(h, peer, newer, true, lost);
    LargestFollows(h, peer, newer, k, lost);
    HandleMarks(h, newer, lost);
    var mid := h.Handle(newer, newer.number, true, lost);
    PacketStays(older, peer, h, peer, mid);
    StillOk(peer, h, mid);
    HandleKeeps(mid, peer, older, true, lost');
  }

  lemma Sound(p: Packet, sender: End, receiver: End)
    requires PacketOk(p, sender, receiver)
    ensures p.Sendable()
  {}

  lemma HandleMarks(h: End, p: Packet, lost: set<nat>)
    requires p.Sendable()
    ensures var h' := h.Handle(p, p.number, true, lost);
            h'.seen == h.seen + {p.number} && h'.top == Max(h.top, p.number + 1)
  {
    hide L.Has, L.Canonical, New, D.Received, C.OnAck, P.Capped, ReadAck, Packet.Sendable;
  }

  /** An endpoint stays right when its peer learns more. */
  lemma StillOk(h: End, peer: End, peer': End)
    requires EndOk(h, peer) && Grows(peer, peer')
    ensures EndOk(h, peer')
  {
    hide L.Has, L.Canonical;
  }

  /** An ACK frame for an outstanding packet moves the largest acknowledged
      number to its own. */
  lemma LargestFollows(h: End, peer: End, p: Packet, k: nat, lost: set<nat>)
    requires EndOk(h, peer) && EndOk(peer, h) && PacketOk(p, peer, h) && p.ranges != []
    requires !Late(h, p) && k in h.acks.sent && L.Has(p.ranges, k) && !D.Received(h.top, h.seen, p.number)
    ensures h.Handle(p, p.number, true, lost).acks.largestAcked == Some(A.Last(p.ranges).end - 1)
  {
    hide L.Has, L.Canonical, A.Encodable, A.Encode, A.Reversed, TakenAll, WithoutAll, ForgetAll, ReadAck, New, D.Received,
         P.Capped;
    AckArrives(p);
    LargestListed(p);
    TakesOne(h.acks.sent, A.Reversed(p.ranges), p.ranges, k);
  }

  lemma TakesOne(sent: map<nat, SentPacket>, ranges: seq<Range>, s: seq<Range>, k: nat)
    requires Filed(sent) && k in sent && L.Has(s, k) && ranges == A.Reversed(s)
    ensures TakenAll(sent, ranges) != []
  {
    hide TakenAll, WithoutAll, A.Reversed;
    ReversedHas(s, k);
    TakenExact(sent, ranges, k);
  }
}
