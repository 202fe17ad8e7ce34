/** Four runs of `StreamTransfer`: a finished stream is opened again by a second
    copy of its data, late duplicates make its end be reported twice, a write after
    the end spoils the transfer, and a stream of one frame is acknowledged and
    never arrives. */
module TransferRuns {
  import opened Core
  import opened VarInt
  import opened SendBuffer
  import opened SendLaws
  import opened SendStream
  import S = OffsetConservation
  import L = RangeList
  import opened Assembler
  import opened RecvStream
  import opened StreamTransfer

  /** The events are possible one after the other and lead from `w` to `v`. */
  ghost predicate Leads(w: World, events: seq<Event>, v: World) {
    S.Sound(w.sender) && Legal(w, events) && Run(w, events) == v
  }

  lemma Begin(w: World)
    requires S.Sound(w.sender)
    ensures Leads(w, [], w)
  {}

  lemma Step(w: World, e: Event, v: World)
    requires S.Sound(w.sender) && Enabled(w, e) && Do(w, e) == v
    ensures Leads(w, [e], v)
  {
    SoundKept(w, e);
    assert [e][1..] == [];
  }

  /** One event more. */
  lemma {:induction false} Then(u: World, events: seq<Event>, w: World, e: Event, v: World)
    requires Leads(u, events, w) && S.Sound(w.sender) && Enabled(w, e) && Do(w, e) == v
    ensures Leads(u, events + [e], v) && S.Sound(v.sender)
    decreases |events|
  {
    hide S.Sound, Enabled, Do;
    SoundKept(w, e);
    if events == [] {
      Step(w, e, v);
      assert [] + [e] == [e];
    } else {
      SoundKept(u, events[0]);
      assert (events + [e])[0] == events[0] && (events + [e])[1..] == events[1..] + [e];
      Then(Do(u, events[0]), events[1..], w, e, v);
    }
  }

  // ------------------------------------------------------------ steps of the sender

  /** One write `d`, sent up to `unsent`, with `again` to be sent again. */
  function Buf(d: Bytes, unsent: nat, again: seq<Range>): SendBuf {
    SendBuf([d], |d|, |d|, unsent, [], again)
  }

  function At(d: Bytes, state: SendState, finPending: bool, unsent: nat, again: seq<Range>, carried: map<S.Id, Frame>,
              sent: set<nat>): S.Sender {
    S.START.(tx := NEW_SEND.(state := state, pending := Buf(d, unsent, again), finPending := finPending), written := d,
             carried := carried, sent := sent)
  }

  /** A short write. */
  predicate Short(d: Bytes) {
    1 <= |d| <= 2
  }

  lemma BufValid(d: Bytes, unsent: nat)
    requires Short(d) && unsent <= |d|
    ensures Buf(d, unsent, []).Valid() && Joined([d]) == d
  {
    hide L.Canonical;
    assert [d][1..] == [];
    assert Total([d]) == |d|;
    JoinedOne(d);
    S.NoneQueued([]);
    NoRanges();
  }

  lemma NoRanges()
    ensures L.Canonical([])
  {}

  lemma AgainValid(d: Bytes)
    requires Short(d)
    ensures Buf(d, |d|, [Range(0, |d|)]).Valid()
  {
    hide Total, Joined, L.Canonical;
    BufValid(d, |d|);
    L.PieceSpec(Range(0, |d|));
  }

  lemma Writes(d: Bytes)
    ensures S.Sound(S.START) && S.Enabled(S.START, S.Write(d))
    ensures S.Do(S.START, S.Write(d)) == At(d, Ready, false, 0, [], map[], {})
  {
    hide Total, Joined, L.Has, L.Canonical;
    S.StartSound();
    assert [] + [d] == [d] && [] + d == d;
  }

  lemma Finishes(d: Bytes, unsent: nat, carried: map<S.Id, Frame>, sent: set<nat>)
    requires S.Sound(At(d, Ready, false, unsent, [], carried, sent))
    ensures var s := At(d, Ready, false, unsent, [], carried, sent);
            S.Enabled(s, S.Finish) && S.Do(s, S.Finish) == At(d, DataSent(false), true, unsent, [], carried, sent)
  {
    hide SendBuf.Valid;
  }

  lemma Departs(s: S.Sender, n: nat)
    requires S.Sound(s)
    ensures S.Enabled(s, S.SendPacket(n)) && S.Do(s, S.SendPacket(n)) == s.(sent := s.sent + {n})
  {
    hide SendBuf.Valid;
  }

  /** The write goes out, with FIN if that is pending. */
  lemma Transmits(d: Bytes, fin: bool, carried: map<S.Id, Frame>, sent: set<nat>, id: S.Id)
    requires Short(d) && id !in carried && id.packet !in sent
    ensures Buf(d, 0, []).Valid() && Buf(d, |d|, []).Valid()
    ensures var state := if fin then DataSent(false) else Ready;
            var s := At(d, state, fin, 0, [], carried, sent);
            var f := Frame(Range(0, |d|), fin);
            var t := At(d, state, false, |d|, [], carried[id := f], sent);
            && s.tx.Transmit(100) == (t.tx, Some(f), true)
            && (S.Sound(s) ==> S.Enabled(s, S.Transmit(id, 100)) && S.Do(s, S.Transmit(id, 100)) == t)
  {
    hide Total, Joined, L.Has, L.Canonical, L.Insert, SendBuf.Valid, Holds;
    BufValid(d, 0);
    BufValid(d, |d|);
  }

  /** It goes out a second time after it was declared lost. */
  lemma TransmitsAgain(d: Bytes, carried: map<S.Id, Frame>, sent: set<nat>, id: S.Id)
    requires Short(d) && id !in carried && id.packet !in sent
    ensures Buf(d, |d|, [Range(0, |d|)]).Valid()
    ensures var s := At(d, Ready, false, |d|, [Range(0, |d|)], carried, sent);
            var f := Frame(Range(0, |d|), false);
            var t := At(d, Ready, false, |d|, [], carried[id := f], sent);
            && s.tx.Transmit(100) == (t.tx, Some(f), true)
            && (S.Sound(s) ==> S.Enabled(s, S.Transmit(id, 100)) && S.Do(s, S.Transmit(id, 100)) == t)
  {
    hide Total, Joined, L.Has, L.Canonical, L.Insert, SendBuf.Valid, Holds;
    AgainValid(d);
    assert [Range(0, |d|)][1..] == [];
  }

  /** FIN goes out by itself. */
  lemma TransmitsFin(d: Bytes, carried: map<S.Id, Frame>, sent: set<nat>, id: S.Id)
    requires Short(d) && id !in carried && id.packet !in sent
    ensures Buf(d, |d|, []).Valid()
    ensures var s := At(d, DataSent(false), true, |d|, [], carried, sent);
            var f := Frame(Range(|d|, |d|), true);
            var t := At(d, DataSent(false), false, |d|, [], carried[id := f], sent);
            && s.tx.Transmit(100) == (t.tx, Some(f), true)
            && (S.Sound(s) ==> S.Enabled(s, S.Transmit(id, 100)) && S.Do(s, S.Transmit(id, 100)) == t)
  {
    hide Total, Joined, L.Has, L.Canonical, L.Insert, SendBuf.Valid, Holds;
    BufValid(d, |d|);
  }

  lemma Loses(d: Bytes, carried: map<S.Id, Frame>, sent: set<nat>, id: S.Id)
    requires Short(d) && id in carried && carried[id] == Frame(Range(0, |d|), false) && id.packet in sent
    requires S.Sound(At(d, Ready, false, |d|, [], carried, sent))
    ensures var s := At(d, Ready, false, |d|, [], carried, sent);
            && S.Enabled(s, S.LoseFrame(id))
            && S.Do(s, S.LoseFrame(id)) == At(d, Ready, false, |d|, [Range(0, |d|)], carried - {id}, sent)
  {
    hide Total, Joined, L.Has, L.Canonical, SendBuf.Valid;
  }

  /** The stream once its only frame is acknowledged: nothing is buffered, and it
      is forgotten. */
  function Forgotten(d: Bytes, sent: set<nat>): S.Sender {
    S.START.(tx := NEW_SEND.(state := DataSent(true), pending := SendBuf([], 0, |d|, |d|, [], [])), written := d,
             sent := sent, gone := true, acked := {} + S.Offsets(Range(0, |d|)), finAcked := true)
  }

  lemma AckFrees(d: Bytes)
    requires Short(d)
    ensures var b := Buf(d, |d|, []);
            && b.Valid() && b.AckDefined(Range(0, |d|))
            && b.Ack(Range(0, |d|)) == SendBuf([], 0, |d|, |d|, [], [])
  {
    hide Total, Drainable, SendBuf.Ack, SendBuf.Valid, L.Remove, L.Canonical, L.Insert;
    BufValid(d, |d|);
    var r := Range(0, |d|);
    InsertFirst(r);
    AckOneSegment(Buf(d, |d|, []), d, r);
    L.PieceSpec(r);
    assert [r][0].Contains(0) && [r][0].Contains(|d| - 1);
    RemoveEverything([r], r);
  }

  lemma InsertFirst(r: Range)
    requires !r.Empty()
    ensures L.Insert([], r) == [r]
  {}

  lemma Forgets(d: Bytes, sent: set<nat>, id: S.Id)
    requires Short(d) && id.packet in sent
    requires S.Sound(At(d, DataSent(false), false, |d|, [], map[id := Frame(Range(0, |d|), true)], sent))
    ensures var s := At(d, DataSent(false), false, |d|, [], map[id := Frame(Range(0, |d|), true)], sent);
            S.Enabled(s, S.AckFrame(id)) && S.Do(s, S.AckFrame(id)) == Forgotten(d, sent)
  {
    hide Total, Joined, L.Has, L.Canonical, L.Insert, SendBuf.Ack, SendBuf.Valid, SendBuf.AckDefined, S.Offsets, Holds;
    AckFrees(d);
  }

  // ---------------------------------------------------------- messages and receiver

  lemma SentWhole(d: Bytes, fin: bool)
    requires Short(d)
    ensures var b := Buf(d, |d|, []);
            && FrameIsWhole(b, Range(0, |d|)) && Sent(b, Frame(Range(0, |d|), fin)) == Data(0, d, fin)
            && FrameIsWhole(b, Range(|d|, |d|)) && Sent(b, Frame(Range(|d|, |d|), true)) == Data(|d|, [], true)
  {
    assert [d][0] == d && d[0..|d|] == d;
  }

  /** A local action other than a transmission. */
  lemma Act(u: World, events: seq<Event>, w: World, a: S.Action, s: S.Sender)
    requires Leads(u, events, w) && S.Sound(w.sender) && !a.Transmit? && S.Enabled(w.sender, a) && S.Do(w.sender, a) == s
    requires !w.failed && (a.Write? ==> (if w.sender.gone then 0 else |w.sender.written|) + |a.data| < OFFSET_LIMIT)
    ensures S.Sound(s) && Leads(u, events + [Local(a)], w.(sender := s))
  {
    hide S.Sound, S.Do, S.Enabled, Leads;
    Then(u, events, w, Local(a), w.(sender := s));
  }

  /** A transmission of a whole frame. */
  lemma Send(u: World, events: seq<Event>, w: World, id: S.Id, t: S.Sender, f: Frame, m: Message)
    requires Leads(u, events, w) && S.Sound(w.sender) && !w.failed && id !in w.net
    requires S.Enabled(w.sender, S.Transmit(id, 100)) && S.Do(w.sender, S.Transmit(id, 100)) == t
    requires w.sender.tx.Transmit(100) == (t.tx, Some(f), true)
    requires t.tx.pending.unackedLen <= t.tx.pending.offset && FrameIsWhole(t.tx.pending, f.offsets) && Sent(t.tx.pending, f) == m
    ensures S.Sound(t) && Leads(u, events + [Local(S.Transmit(id, 100))], w.(sender := t, net := w.net[id := m]))
  {
    hide S.Sound, S.Do, FrameIsWhole, Sent, Tx.Transmit, Leads;
    Then(u, events, w, Local(S.Transmit(id, 100)), w.(sender := t, net := w.net[id := m]));
  }

  /** The receiver with the data `d` buffered, and after it was read. */
  function Arrived(d: Bytes, size: Option<nat>): Rx {
    Rx(Receiving(size), Asm([Buffer(0, d, |d|)], |d|, |d|, 0, |d|), |d|, false)
  }

  function Drained(d: Bytes, size: Option<nat>): Rx {
    Rx(Receiving(size), Asm([], 0, 0, |d|, |d|), |d|, false)
  }

  lemma Receives(d: Bytes, fin: bool)
    requires Short(d)
    ensures var size := if fin then Some(|d|) else None;
            && NEW_RECV.Ingest(0, d, fin, |d|) == (Arrived(d, size), Ingested(|d|, false))
            && NEW_RECV.IngestDefined(0, d, fin)
  {
    var b := Buffer(0, d, |d|);
    assert NEW.Unread(0, d, |d|) == Some(b);
    assert Place([], b) == [b] + [] == [b];
    assert [b][1..] == [];
    assert Length([b]) == |d| && Allocation([b]) == |d|;
  }

  lemma Reads(d: Bytes, size: Option<nat>)
    requires Short(d)
    ensures Arrived(d, size).Next(2) == (Drained(d, size), Read(Chunk(0, d)))
    ensures size == Some(|d|) ==> Drained(d, size).Next(2).1 == EndOfStream
  {
    var b := Buffer(0, d, |d|);
    assert [b][1..] == [] && d[..|d|] == d;
  }

  lemma ReceivesFin(d: Bytes)
    requires Short(d)
    ensures Drained(d, None).Ingest(|d|, [], true, 0) == (Drained(d, Some(|d|)), Ingested(0, false))
    ensures Drained(d, None).IngestDefined(|d|, [], true)
  {}

  // ----------------------------------------------------------------------- the runs

  const P0: S.Id := S.Id(0, 0)
  const P1: S.Id := S.Id(1, 0)
  const P2: S.Id := S.Id(2, 0)

  /** The sender writes, sends, takes the packet for lost, sends the data again in
      a second packet, and FIN in a third. */
  lemma SendsTwice(d: Bytes) returns (events: seq<Event>)
    requires Short(d)
    ensures var first, last := Frame(Range(0, |d|), false), Frame(Range(|d|, |d|), true);
            var s := At(d, DataSent(false), false, |d|, [], map[][P0 := first] - {P0} + map[P1 := first, P2 := last],
                        {} + {0} + {1} + {2});
            && S.Sound(s)
            && Leads(Start(false), events,
                     Start(false).(sender := s, net := map[][P0 := Data(0, d, false)][P1 := Data(0, d, false)][P2 := Data(|d|, [], true)]))
  {
    hide Leads, S.Sound, S.Do, S.Enabled, FrameIsWhole, Sent, Tx.Transmit;
    var u := Start(false);
    var first, last := Frame(Range(0, |d|), false), Frame(Range(|d|, |d|), true);
    var c0 := map[][P0 := first];
    var c1 := (c0 - {P0})[P1 := first];
    var c2 := c1[P2 := last];
    SentWhole(d, false);
    Writes(d);
    Begin(u);
    var s1 := At(d, Ready, false, 0, [], map[], {});
    Act(u, [], u, S.Write(d), s1);
    events := [] + [Local(S.Write(d))];
    var w := u.(sender := s1);
    Transmits(d, false, map[], {}, P0);
    var s2 := At(d, Ready, false, |d|, [], c0, {});
    Send(u, events, w, P0, s2, first, Data(0, d, false));
    events := events + [Local(S.Transmit(P0, 100))];
    w := w.(sender := s2, net := w.net[P0 := Data(0, d, false)]);
    Departs(s2, 0);
    var s3 := At(d, Ready, false, |d|, [], c0, {} + {0});
    Act(u, events, w, S.SendPacket(0), s3);
    events := events + [Local(S.SendPacket(0))];
    w := w.(sender := s3);
    Loses(d, c0, {} + {0}, P0);
    var s4 := At(d, Ready, false, |d|, [Range(0, |d|)], c0 - {P0}, {} + {0});
    Act(u, events, w, S.LoseFrame(P0), s4);
    events := events + [Local(S.LoseFrame(P0))];
    w := w.(sender := s4);
    TransmitsAgain(d, c0 - {P0}, {} + {0}, P1);
    var s5 := At(d, Ready, false, |d|, [], c1, {} + {0});
    Send(u, events, w, P1, s5, first, Data(0, d, false));
    events := events + [Local(S.Transmit(P1, 100))];
    w := w.(sender := s5, net := w.net[P1 := Data(0, d, false)]);
    Departs(s5, 1);
    var s6 := At(d, Ready, false, |d|, [], c1, {} + {0} + {1});
    Act(u, events, w, S.SendPacket(1), s6);
    events := events + [Local(S.SendPacket(1))];
    w := w.(sender := s6);
    Finishes(d, |d|, c1, {} + {0} + {1});
    var s7 := At(d, DataSent(false), true, |d|, [], c1, {} + {0} + {1});
    Act(u, events, w, S.Finish, s7);
    events := events + [Local(S.Finish)];
    w := w.(sender := s7);
    TransmitsFin(d, c1, {} + {0} + {1}, P2);
    var s8 := At(d, DataSent(false), false, |d|, [], c2, {} + {0} + {1});
    Send(u, events, w, P2, s8, last, Data(|d|, [], true));
    events := events + [Local(S.Transmit(P2, 100))];
    w := w.(sender := s8, net := w.net[P2 := Data(|d|, [], true)]);
    Departs(s8, 2);
    var s9 := At(d, DataSent(false), false, |d|, [], c2, {} + {0} + {1} + {2});
    Act(u, events, w, S.SendPacket(2), s9);
    events := events + [Local(S.SendPacket(2))];
    assert c2 == map[][P0 := first] - {P0} + map[P1 := first, P2 := last];
  }

  /** The stream as `SendsTwice` leaves it on the wire. */
  ghost predicate OnTheWay(w: World, d: Bytes) {
    && Short(d) && S.Sound(w.sender) && !w.local && !w.failed && {0, 1, 2} <= w.sender.sent
    && P0 in w.net && P1 in w.net && P2 in w.net
    && w.net[P0] == w.net[P1] == Data(0, d, false) && w.net[P2] == Data(|d|, [], true)
  }

  /** A copy of the data opens the stream and is read. */
  lemma Opens(u: World, before: seq<Event>, w: World, d: Bytes, copy: S.Id) returns (events: seq<Event>, v: World)
    requires OnTheWay(w, d) && Leads(u, before, w) && w.entry == Vacant && copy in {P0, P1}
    ensures Leads(u, events, v) && v == w.(taken := w.taken + [copy], entry := Open(Drained(d, None)), out := d)
  {
    hide Leads, S.Sound, Rx.Ingest, Rx.Next, Rx.IngestDefined;
    Receives(d, false);
    Reads(d, None);
    assert [] + d == d;
    var w1 := w.(taken := w.taken + [copy], entry := Open(Arrived(d, None)), out := []);
    v := w1.(entry := Open(Drained(d, None)), out := d);
    Then(u, before, w, Deliver(copy, |d|), w1);
    events := before + [Deliver(copy, |d|)];
    Then(u, events, w1, ReadChunk(2), v);
    events := events + [ReadChunk(2)];
  }

  /** FIN arrives and the end is reported. */
  lemma Ending(u: World, before: seq<Event>, w: World, d: Bytes) returns (events: seq<Event>, v: World)
    requires OnTheWay(w, d) && Leads(u, before, w) && w.entry == Open(Drained(d, None)) && w.out == d
    ensures Leads(u, events, v) && v == w.(taken := w.taken + [P2], entry := Vacant, complete := w.complete + [d])
  {
    hide Leads, S.Sound, Rx.Ingest, Rx.Next, Rx.IngestDefined;
    Reads(d, Some(|d|));
    ReceivesFin(d);
    var w1 := w.(taken := w.taken + [P2], entry := Open(Drained(d, Some(|d|))));
    v := w1.(entry := Vacant, complete := w.complete + [d]);
    Then(u, before, w, Deliver(P2, 0), w1);
    events := before + [Deliver(P2, 0)];
    Then(u, events, w1, ReadChunk(2), v);
    events := events + [ReadChunk(2)];
  }

  /** The stream is sent, read to its end, and opened again by a copy. */
  lemma ReadsAgain(d: Bytes, copy: S.Id) returns (events: seq<Event>, v: World)
    requires Short(d) && copy in {P0, P1}
    ensures Leads(Start(false), events, v) && OnTheWay(v, d)
    ensures v.taken == [P0, P2, copy] && v.complete == [d] && v.entry == Open(Drained(d, None)) && v.out == d
  {
    hide Leads, S.Sound;
    var sends := SendsTwice(d);
    var first, last := Frame(Range(0, |d|), false), Frame(Range(|d|, |d|), true);
    var s := At(d, DataSent(false), false, |d|, [], map[][P0 := first] - {P0} + map[P1 := first, P2 := last],
                {} + {0} + {1} + {2});
    var w := Start(false).(sender := s,
                           net := map[][P0 := Data(0, d, false)][P1 := Data(0, d, false)][P2 := Data(|d|, [], true)]);
    events, v := Opens(Start(false), sends, w, d, P0);
    events, v := Ending(Start(false), events, v, d);
    events, v := Opens(Start(false), events, v, d, copy);
  }

  /** A stream that was read to its end can come back: data that were sent twice,
      in two packets, arrive once more, open the stream again and are read again.
      Its end is not reported again, because no message was taken in twice
      (`ReportedOnce`). */
  lemma StreamReopened(d: Bytes) returns (events: seq<Event>)
    requires Short(d)
    ensures Possible(false, events)
    ensures var w := Reached(false, events);
            NoneTwice(w.taken) && w.complete == [d] && w.entry.Open? && w.out == d
  {
    hide Leads, OnTheWay, Possible, Reached;
    var v;
    events, v := ReadsAgain(d, P1);
    LeadsReached(false, events, v);
  }

  /** When duplicates of both packets are taken for new ones, the whole stream is
      read twice, and its end reported twice. */
  lemma ReportedTwice(d: Bytes) returns (events: seq<Event>)
    requires Short(d)
    ensures Possible(false, events)
    ensures var w := Reached(false, events); w.taken == [P0, P2, P0, P2] && w.complete == [d, d]
  {
    hide Leads, Possible, Reached;
    var v;
    events, v := ReadsAgain(d, P0);
    events, v := Ending(Start(false), events, v, d);
    LeadsReached(false, events, v);
  }

  lemma LeadsReached(local: bool, events: seq<Event>, v: World)
    requires Leads(Start(local), events, v)
    ensures Possible(local, events) && Reached(local, events) == v
  {
    hide Legal, Run, S.Sound;
    S.StartSound();
  }

  /** The stream with FIN in its only frame, sent and, by `taken`, delivered. */
  function OneFrame(local: bool, d: Bytes): World {
    Start(local).(sender := At(d, DataSent(false), false, |d|, [], map[P0 := Frame(Range(0, |d|), true)], {} + {0}),
                  net := map[P0 := Data(0, d, true)])
  }

  lemma SendsWhole(local: bool, d: Bytes) returns (events: seq<Event>)
    requires Short(d)
    ensures S.Sound(OneFrame(local, d).sender) && Leads(Start(local), events, OneFrame(local, d))
  {
    hide Leads, S.Sound, S.Do, S.Enabled, FrameIsWhole, Sent, Tx.Transmit;
    var u := Start(local);
    var f := Frame(Range(0, |d|), true);
    SentWhole(d, true);
    Writes(d);
    Begin(u);
    var s1 := At(d, Ready, false, 0, [], map[], {});
    Act(u, [], u, S.Write(d), s1);
    events := [] + [Local(S.Write(d))];
    var w := u.(sender := s1);
    Finishes(d, 0, map[], {});
    var s2 := At(d, DataSent(false), true, 0, [], map[], {});
    Act(u, events, w, S.Finish, s2);
    events := events + [Local(S.Finish)];
    w := w.(sender := s2);
    Transmits(d, true, map[], {}, P0);
    var s3 := At(d, DataSent(false), false, |d|, [], map[][P0 := f], {});
    Send(u, events, w, P0, s3, f, Data(0, d, true));
    events := events + [Local(S.Transmit(P0, 100))];
    w := w.(sender := s3, net := w.net[P0 := Data(0, d, true)]);
    Departs(s3, 0);
    Act(u, events, w, S.SendPacket(0), OneFrame(local, d).sender);
    events := events + [Local(S.SendPacket(0))];
    assert w.(sender := OneFrame(local, d).sender).net == OneFrame(local, d).net;
  }

  /** A stream of one frame that carries FIN never arrives, if the peer opened it:
      the frame is delivered and acknowledged, the sender reports the stream
      finished, and the receiver has dropped it. */
  lemma OneFrameStreamLost(d: Bytes) returns (events: seq<Event>)
    requires Short(d)
    ensures Possible(false, events)
    ensures var w := Reached(false, events);
            && w.sender.gone && w.sender.finAcked && (forall x: nat :: x < |d| ==> x in w.sender.acked) && w.sender.written == d
            && w.taken == [P0] && w.net == map[P0 := Data(0, d, true)]
            && w.entry == Vacant && w.out == [] && w.complete == []
  {
    hide Legal, Run, S.Sound, S.Do, S.Enabled, Leads, Possible;
    events := SendsWhole(false, d);
    var u, w := Start(false), OneFrame(false, d);
    var w1 := w.(taken := [] + [P0]);
    Then(u, events, w, Deliver(P0, |d|), w1);
    events := events + [Deliver(P0, |d|)];
    Forgets(d, {} + {0}, P0);
    Act(u, events, w1, S.AckFrame(P0), Forgotten(d, {} + {0}));
    events := events + [Local(S.AckFrame(P0))];
    LeadsReached(false, events, w1.(sender := Forgotten(d, {} + {0})));
  }

  // -------------------------------------------------------- a write after the end

  function Again(d: Bytes, e: Bytes): S.Sender {
    S.Reborn(Forgotten(d, {} + {0}), e)
  }

  lemma Rewrites(d: Bytes, e: Bytes)
    requires S.Sound(Forgotten(d, {} + {0}))
    ensures var s := Forgotten(d, {} + {0});
            S.Enabled(s, S.Write(e)) && S.Do(s, S.Write(e)) == Again(d, e)
  {
    hide SendBuf.Valid;
  }

  lemma TransmitsStray(d: Bytes, e: Bytes)
    requires Short(e)
    ensures var s := Again(d, e);
            var f := Frame(Range(0, |e|), false);
            var t := s.(tx := NEW_SEND.(pending := Buf(e, |e|, [])), carried := map[][P1 := f]);
            && Buf(e, 0, []).Valid() && s.tx.pending == Buf(e, 0, [])
            && s.tx.Transmit(100) == (t.tx, Some(f), true)
            && (S.Sound(s) ==> S.Enabled(s, S.Transmit(P1, 100)) && S.Do(s, S.Transmit(P1, 100)) == t)
  {
    hide Total, Joined, L.Has, L.Canonical, L.Insert, SendBuf.Valid, Holds;
    assert [] + [e] == [e];
    BufValid(e, 0);
  }

  lemma RefusesStray(d: Bytes, e: Bytes)
    requires |d| < |e| <= 2
    ensures Drained(d, Some(|d|)).Ingest(0, e, false, |e|).1 == FinalSizeError
    ensures Drained(d, Some(|d|)).IngestDefined(0, e, false)
  {}

  /** The stream read, acknowledged and forgotten. */
  function AllRead(d: Bytes): World {
    OneFrame(true, d).(sender := Forgotten(d, {} + {0}), taken := [] + [P0], entry := Open(Drained(d, Some(|d|))), out := d)
  }

  lemma ReadsWhole(d: Bytes) returns (events: seq<Event>)
    requires Short(d)
    ensures S.Sound(AllRead(d).sender) && Leads(Start(true), events, AllRead(d))
  {
    hide S.Sound, S.Do, S.Enabled, Leads, Rx.Ingest, Rx.Next, Rx.IngestDefined;
    events := SendsWhole(true, d);
    var u, w := Start(true), OneFrame(true, d);
    Receives(d, true);
    Reads(d, Some(|d|));
    assert [] + d == d;
    var w1 := w.(taken := [] + [P0], entry := Open(Arrived(d, Some(|d|))));
    Then(u, events, w, Deliver(P0, |d|), w1);
    events := events + [Deliver(P0, |d|)];
    var w2 := w1.(entry := Open(Drained(d, Some(|d|))), out := d);
    Then(u, events, w1, ReadChunk(2), w2);
    events := events + [ReadChunk(2)];
    Forgets(d, {} + {0}, P0);
    Act(u, events, w2, S.AckFrame(P0), Forgotten(d, {} + {0}));
    events := events + [Local(S.AckFrame(P0))];
  }

  /** The sender of the second stream, with its frame on the way. */
  function Rewritten(d: Bytes, e: Bytes): World {
    AllRead(d).(sender := Again(d, e).(tx := NEW_SEND.(pending := Buf(e, |e|, [])),
                                       carried := map[][P1 := Frame(Range(0, |e|), false)], sent := {} + {0} + {1}),
                net := map[P0 := Data(0, d, true)][P1 := Data(0, e, false)])
  }

  lemma SendsStray(d: Bytes, e: Bytes) returns (events: seq<Event>)
    requires |d| == 1 && |e| == 2
    ensures S.Sound(Rewritten(d, e).sender) && Leads(Start(true), events, Rewritten(d, e))
  {
    hide Leads, S.Sound, S.Do, S.Enabled, Tx.Transmit, FrameIsWhole, Sent;
    events := ReadsWhole(d);
    var u, w3 := Start(true), AllRead(d);
    Rewrites(d, e);
    Act(u, events, w3, S.Write(e), Again(d, e));
    events := events + [Local(S.Write(e))];
    var w4 := w3.(sender := Again(d, e));
    TransmitsStray(d, e);
    SentWhole(e, false);
    var f := Frame(Range(0, |e|), false);
    var t := Again(d, e).(tx := NEW_SEND.(pending := Buf(e, |e|, [])), carried := map[][P1 := f]);
    Send(u, events, w4, P1, t, f, Data(0, e, false));
    events := events + [Local(S.Transmit(P1, 100))];
    var w5 := w4.(sender := t, net := w4.net[P1 := Data(0, e, false)]);
    Departs(t, 1);
    Act(u, events, w5, S.SendPacket(1), Rewritten(d, e).sender);
    events := events + [Local(S.SendPacket(1))];
  }

  /** A write to a stream that was finished, read, wholly acknowledged and
      forgotten begins it anew at offset zero. The receiver has read bytes that are
      no prefix of what is now written, and takes the new frame for a violation of
      the final size. */
  lemma RewriteBreaksTransfer(d: Bytes, e: Bytes) returns (events: seq<Event>)
    requires |d| == 1 && |e| == 2 && d[0] != e[0]
    ensures Possible(true, events) && !SingleUse(true, events)
    ensures var w := Reached(true, events);
            w.out == d && w.sender.written == e && w.sender.earlier == [d] && w.failed
  {
    hide Legal, Run, S.Sound, Leads, Possible, AllOnce, Rx.Ingest, Rx.IngestDefined;
    events := SendsStray(d, e);
    var w := Rewritten(d, e);
    RefusesStray(d, e);
    var v := w.(taken := w.taken + [P1], failed := true);
    Then(Start(true), events, w, Deliver(P1, |e|), v);
    events := events + [Deliver(P1, |e|)];
    LeadsReached(true, events, v);
    if SingleUse(true, events) {
      BytesReadArePrefix(true, events);
      assert false;
    }
  }
}
