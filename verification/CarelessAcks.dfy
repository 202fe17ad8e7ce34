/** Runs in which the endpoint test of `SendBuffer::ack` is met by two separate
    acknowledgements: one byte and then 119 more are written, travel in three
    frames, and the first and the last frame are acknowledged. */
module CarelessAcks {
  import opened Core
  import opened VarInt
  import L = RangeList
  import opened SendBuffer
  import opened SendLaws
  import opened SendStream
  import opened OffsetConservation
  import F = StreamFrames

  const FIRST: Range := Range(0, 25)
  const MIDDLE: Range := Range(25, 116)
  const LAST: Range := Range(116, 120)

  predicate Sizes(a: Bytes, b: Bytes) {
    |a| == 1 && |b| == 119
  }

  /** The buffer of the two writes, sent up to `unsent`. */
  function Held(a: Bytes, b: Bytes, unsent: nat): SendBuf {
    SendBuf([a, b], 120, 120, unsent, [], [])
  }

  lemma HeldValid(a: Bytes, b: Bytes, unsent: nat)
    requires Sizes(a, b) && unsent <= 120
    ensures Held(a, b, unsent).Valid() && Joined([a, b]) == a + b && Total([a, b]) == 120
  {
    assert [a, b][1..] == [b];
    JoinedOne(b);
    TotalOne(b);
  }

  /** With rooms of 25, 100 and 100 bytes, they take three frames. */
  lemma Polls(a: Bytes, b: Bytes)
    requires Sizes(a, b)
    ensures Held(a, b, 0).Valid() && Held(a, b, 25).Valid() && Held(a, b, 116).Valid()
    ensures Held(a, b, 0).PollTransmit(25) == (Held(a, b, 25), FIRST, false)
    ensures Held(a, b, 25).PollTransmit(100) == (Held(a, b, 116), MIDDLE, true)
    ensures Held(a, b, 116).PollTransmit(100) == (Held(a, b, 120), LAST, true)
  {
    hide Total, Joined, L.Has, L.Canonical, L.Insert, SendBuf.Valid;
    HeldValid(a, b, 0);
    HeldValid(a, b, 25);
    HeldValid(a, b, 116);
  }

  /** Each of the frames fits its room, so none of them makes the source panic;
      the first carries a single byte of the 25 that it stands for. */
  predicate AllFit(a: Bytes, b: Bytes, id: nat)
    requires id <= VARINT_MAX
  {
    F.Fits(Held(a, b, 0), id, 25) && F.Fits(Held(a, b, 25), id, 100) && F.Fits(Held(a, b, 116), id, 100)
  }

  lemma Fitting(a: Bytes, b: Bytes, id: nat)
    requires Sizes(a, b) && id < 64
    ensures AllFit(a, b, id)
  {
    assert [a, b][1..] == [b];
    assert F.SegmentRest([a, b], 0) == 1;
    assert F.SegmentRest([a, b], 25) == F.SegmentRest([b], 24) == 95;
    assert F.SegmentRest([a, b], 116) == F.SegmentRest([b], 115) == 4;
  }

  /** The stream with `buf` as its buffer, closed or not. */
  function With(buf: SendBuf, fin: bool, finPending: bool): Tx {
    NEW_SEND.(pending := buf, state := if fin then DataSent(false) else Ready, finPending := finPending)
  }

  function Three(fin: bool): map<Id, Frame> {
    map[Id(0, 0) := Frame(FIRST, false)][Id(1, 0) := Frame(MIDDLE, false)][Id(2, 0) := Frame(LAST, fin)]
  }

  function Wrote(a: Bytes, b: Bytes, fin: bool): Sender {
    START.(tx := With(Held(a, b, 0), fin, fin), written := a + b)
  }

  function Opening(a: Bytes, b: Bytes, fin: bool): seq<Action> {
    [Write(a)] + [Write(b)] + if fin then [Finish] else []
  }

  lemma WritesOne(a: Bytes)
    ensures Sound(START) && Do(START, Write(a)) == START.(tx := With(SendBuf([a], |a|, |a|, 0, [], []), false, false), written := a)
  {
    hide Total, Joined, L.Has, L.Canonical;
    StartSound();
    assert [] + [a] == [a] && [] + a == a;
  }

  lemma WritesTwo(a: Bytes, b: Bytes)
    requires Sizes(a, b)
    ensures var s := START.(tx := With(SendBuf([a], |a|, |a|, 0, [], []), false, false), written := a);
            Sound(s) ==> Do(s, Write(b)) == Wrote(a, b, false)
  {
    hide Total, Joined, L.Has, L.Canonical, SendBuf.Valid, Holds;
    assert [a] + [b] == [a, b];
  }

  lemma Opens(a: Bytes, b: Bytes, fin: bool)
    requires Sizes(a, b)
    ensures Sound(Wrote(a, b, fin)) && Leads(START, Opening(a, b, fin), Wrote(a, b, fin))
  {
    hide Leads, Do, Sound, Enabled, AllClean, AllCareful;
    WritesOne(a);
    WritesTwo(a, b);
    var s := START.(tx := With(SendBuf([a], |a|, |a|, 0, [], []), false, false), written := a);
    AlwaysEnabled(START, Write(a));
    Step(START, Write(a), s);
    AlwaysEnabled(s, Write(b));
    Step(s, Write(b), Wrote(a, b, false));
    Join(START, [Write(a)], s, [Write(b)], Wrote(a, b, false));
    if fin {
      AlwaysEnabled(Wrote(a, b, false), Finish);
      Finishes(a, b);
      Step(Wrote(a, b, false), Finish, Wrote(a, b, true));
      Join(START, [Write(a)] + [Write(b)], Wrote(a, b, false), [Finish], Wrote(a, b, true));
    } else {
      assert [Write(a)] + [Write(b)] + [] == [Write(a)] + [Write(b)];
    }
  }

  lemma AlwaysEnabled(s: Sender, a: Action)
    requires Sound(s) && (a.Write? || a.Finish? || a.SendPacket?)
    ensures s.tx.pending.unackedLen <= s.tx.pending.offset && Enabled(s, a)
  {
    hide SendBuf.Valid;
  }

  lemma Finishes(a: Bytes, b: Bytes)
    requires Sound(Wrote(a, b, false))
    ensures Do(Wrote(a, b, false), Finish) == Wrote(a, b, true)
  {
    hide SendBuf.Valid, Holds;
  }

  const FLIGHT: seq<Action> := [
    Transmit(Id(0, 0), 25), Transmit(Id(1, 0), 100), Transmit(Id(2, 0), 100), SendPacket(0), SendPacket(1), SendPacket(2)
  ]

  /** The stream when `n` of the frames are transmitted, up to `unsent`. */
  function Transmitted(a: Bytes, b: Bytes, fin: bool, unsent: nat, pending: bool, carried: map<Id, Frame>, sent: set<nat>): Sender {
    START.(tx := With(Held(a, b, unsent), fin, pending), written := a + b, carried := carried, sent := sent)
  }

  function Flown(a: Bytes, b: Bytes, fin: bool): Sender {
    Transmitted(a, b, fin, 120, false, Three(fin), {} + {0} + {1} + {2})
  }

  /** One transmission of the run. */
  lemma TransmitsOne(a: Bytes, b: Bytes, fin: bool, from: nat, to: nat, room: nat, r: Range, length: bool,
                     carried: map<Id, Frame>, n: nat)
    requires Sound(Transmitted(a, b, fin, from, fin, carried, {})) && Held(a, b, from).Valid() && room >= 25 && from < 120
    requires Held(a, b, from).PollTransmit(room) == (Held(a, b, to), r, length)
    requires Id(n, 0) !in carried && !r.Empty() && (r.end == 120 <==> to == 120)
    ensures var s := Transmitted(a, b, fin, from, fin, carried, {});
            var f := Frame(r, fin && to == 120);
            var t := Transmitted(a, b, fin, to, fin && to < 120, carried[Id(n, 0) := f], {});
            Enabled(s, Transmit(Id(n, 0), room)) && (to <= 120 ==> Do(s, Transmit(Id(n, 0), room)) == t)
  {
    hide Total, Joined, L.Has, L.Canonical, SendBuf.Valid, Holds, SendBuf.PollTransmit;
  }

  lemma Transmits(a: Bytes, b: Bytes, fin: bool)
    requires Sizes(a, b) && Sound(Wrote(a, b, fin))
    ensures var s := Transmitted(a, b, fin, 120, false, Three(fin), {});
            Sound(s) && Leads(Wrote(a, b, fin), [FLIGHT[0]] + [FLIGHT[1]] + [FLIGHT[2]], s)
  {
    hide Leads, Do, Sound, Enabled, SendBuf.PollTransmit, SendBuf.Valid, AllClean, AllCareful, Clean, Careful;
    Polls(a, b);
    var one := map[Id(0, 0) := Frame(FIRST, false)];
    var two := one[Id(1, 0) := Frame(MIDDLE, false)];
    var s0, s1, s2, s3 := Wrote(a, b, fin), Transmitted(a, b, fin, 25, fin, one, {}),
                          Transmitted(a, b, fin, 116, fin, two, {}), Transmitted(a, b, fin, 120, false, Three(fin), {});
    assert s0 == Transmitted(a, b, fin, 0, fin, map[], {});
    TransmitsOne(a, b, fin, 0, 25, 25, FIRST, false, map[], 0);
    Step(s0, FLIGHT[0], s1);
    TransmitsOne(a, b, fin, 25, 116, 100, MIDDLE, true, one, 1);
    Step(s1, FLIGHT[1], s2);
    TransmitsOne(a, b, fin, 116, 120, 100, LAST, true, two, 2);
    Step(s2, FLIGHT[2], s3);
    Join(s0, [FLIGHT[0]], s1, [FLIGHT[1]], s2);
    Join(s0, [FLIGHT[0]] + [FLIGHT[1]], s2, [FLIGHT[2]], s3);
  }

  lemma Flies(a: Bytes, b: Bytes, fin: bool)
    requires Sizes(a, b) && Sound(Wrote(a, b, fin))
    ensures Sound(Flown(a, b, fin)) && Leads(Wrote(a, b, fin), FLIGHT, Flown(a, b, fin))
  {
    hide Leads, Do, Sound, Enabled, AllClean, AllCareful, Clean, Careful;
    Transmits(a, b, fin);
    var s0 := Wrote(a, b, fin);
    var s3 := Transmitted(a, b, fin, 120, false, Three(fin), {});
    var s4 := s3.(sent := {} + {0});
    var s5 := s3.(sent := {} + {0} + {1});
    var s6 := Flown(a, b, fin);
    Departs(s3, 0);
    Step(s3, FLIGHT[3], s4);
    Departs(s4, 1);
    Step(s4, FLIGHT[4], s5);
    Departs(s5, 2);
    Step(s5, FLIGHT[5], s6);
    var done := [FLIGHT[0]] + [FLIGHT[1]] + [FLIGHT[2]];
    Join(s0, done, s3, [FLIGHT[3]], s4);
    Join(s0, done + [FLIGHT[3]], s4, [FLIGHT[4]], s5);
    Join(s0, done + [FLIGHT[3]] + [FLIGHT[4]], s5, [FLIGHT[5]], s6);
    assert done + [FLIGHT[3]] + [FLIGHT[4]] + [FLIGHT[5]] == FLIGHT;
  }

  lemma Departs(s: Sender, n: nat)
    requires Sound(s)
    ensures s.tx.pending.unackedLen <= s.tx.pending.offset && Enabled(s, SendPacket(n))
    ensures Do(s, SendPacket(n)) == s.(sent := s.sent + {n})
  {
    hide SendBuf.Valid;
  }

  // ------------------------------------------------------- the two acknowledgements

  /** The buffer after the first acknowledgement, which frees the first write. */
  function Half(b: Bytes): SendBuf {
    SendBuf([b], 119, 120, 120, [Range(1, 25)], [])
  }

  /** The buffer after both. */
  function Freed(): SendBuf {
    SendBuf([], 0, 120, 120, [], [])
  }

  lemma AckFirst(a: Bytes, b: Bytes)
    requires Sizes(a, b)
    ensures var buf := Held(a, b, 120); buf.Valid() && buf.AckDefined(FIRST) && buf.Ack(FIRST) == Half(b)
    ensures Half(b).Valid()
  {
    hide Total, Joined, SendBuf.Ack, SendBuf.Valid, L.Canonical, L.Remove, L.Has, Drainable;
    HeldValid(a, b, 120);
    var buf := Held(a, b, 120);
    FirstDrains(a, b);
    AckParts(buf, FIRST);
    TrimmedFirst();
    assert [a, b][1..] == [b] && [a, b][..1] == [a];
    TotalOne(a);
    assert buf.Base() == 0 && L.Insert(buf.acks, FIRST) == [FIRST];
    assert Drainable(buf.segments, buf.Base(), [FIRST]) == 1;
  }

  lemma TotalOne(a: Bytes)
    ensures Total([a]) == |a|
  {
    assert [a][1..] == [];
  }

  lemma FirstDrains(a: Bytes, b: Bytes)
    requires Sizes(a, b)
    ensures L.Insert([], FIRST) == [FIRST] && Drainable([a, b], 0, [FIRST]) == 1
  {
    assert [FIRST][0].Contains(0) && L.Has([FIRST], 0) && L.Has([FIRST], 1) && !L.Has([FIRST], 119);
    assert [a, b][1..] == [b];
    assert !EndsAcked(b, 1, [FIRST]);
    assert Drainable([b], 1, [FIRST]) == 0;
  }

  lemma TrimmedFirst()
    ensures L.Remove([FIRST], Range(0, 1)) == [Range(1, 25)]
  {
    assert [FIRST][1..] == [];
    assert L.Cut(FIRST, Range(0, 1)) == [] + [Range(1, 25)];
    assert [Range(1, 25)] + [] == [Range(1, 25)];
  }

  /** The second write has both ends acknowledged, by two frames. */
  lemma AckLast(b: Bytes)
    requires |b| == 119 && Half(b).Valid()
    ensures Half(b).AckDefined(LAST) && Half(b).Ack(LAST) == Freed()
  {
    hide Total, Joined, Drainable, SendBuf.Ack, SendBuf.Valid, L.Canonical, L.Remove, L.Insert;
    var both := [Range(1, 25), LAST];
    InsertLast();
    assert both[0].Contains(1) && both[1].Contains(119);
    AckOneSegment(Half(b), b, LAST);
    RemoveEverything(both, Range(1, 120));
  }

  lemma InsertLast()
    ensures L.Insert([Range(1, 25)], LAST) == [Range(1, 25), LAST] && L.Canonical([Range(1, 25), LAST])
  {
    assert [Range(1, 25)][1..] == [] && [Range(1, 25)] + [LAST] == [Range(1, 25), LAST];
  }

  /** The stream after the first acknowledgement, and after both. */
  function Halfway(a: Bytes, b: Bytes, fin: bool): Sender {
    Flown(a, b, fin).(tx := With(Half(b), fin, false), carried := Three(fin) - {Id(0, 0)}, acked := {} + Offsets(FIRST))
  }

  function Acked(a: Bytes, b: Bytes, fin: bool): Sender {
    Halfway(a, b, fin).(tx := NEW_SEND.(pending := Freed(), state := if fin then DataSent(true) else Ready),
                        carried := Three(fin) - {Id(0, 0)} - {Id(2, 0)}, gone := fin,
                        acked := {} + Offsets(FIRST) + Offsets(LAST), finAcked := fin)
  }

  const ACKS: seq<Action> := [AckFrame(Id(0, 0)), AckFrame(Id(2, 0))]

  lemma AcksFirst(a: Bytes, b: Bytes, fin: bool)
    requires Sizes(a, b) && Sound(Flown(a, b, fin))
    ensures Enabled(Flown(a, b, fin), ACKS[0]) && Do(Flown(a, b, fin), ACKS[0]) == Halfway(a, b, fin)
  {
    hide Total, Joined, Drainable, SendBuf.Ack, SendBuf.Valid, L.Has, L.Insert, Holds, Offsets, SendBuf.AckDefined;
    AckFirst(a, b);
  }

  lemma AcksSecond(a: Bytes, b: Bytes, fin: bool)
    requires Sizes(a, b) && Sound(Halfway(a, b, fin))
    ensures Enabled(Halfway(a, b, fin), ACKS[1]) && Do(Halfway(a, b, fin), ACKS[1]) == Acked(a, b, fin)
  {
    hide Total, Joined, Drainable, SendBuf.Ack, SendBuf.Valid, L.Has, L.Insert, Holds, Offsets, SendBuf.AckDefined;
    AckFirst(a, b);
    AckLast(b);
  }

  lemma AcksOuter(a: Bytes, b: Bytes, fin: bool)
    requires Sizes(a, b) && Sound(Flown(a, b, fin))
    ensures Sound(Acked(a, b, fin)) && Leads(Flown(a, b, fin), ACKS, Acked(a, b, fin))
  {
    hide Leads, Do, Sound, Enabled, AllClean, AllCareful, Clean, Careful;
    var s0, s1, s2 := Flown(a, b, fin), Halfway(a, b, fin), Acked(a, b, fin);
    AcksFirst(a, b, fin);
    Step(s0, ACKS[0], s1);
    AcksSecond(a, b, fin);
    Step(s1, ACKS[1], s2);
    Join(s0, [ACKS[0]], s1, [ACKS[1]], s2);
    assert [ACKS[0]] + [ACKS[1]] == ACKS;
  }

  function Careless(a: Bytes, b: Bytes, fin: bool): seq<Action> {
    Opening(a, b, fin) + FLIGHT + ACKS
  }

  lemma Reaches(a: Bytes, b: Bytes, fin: bool)
    requires Sizes(a, b)
    ensures Sound(Acked(a, b, fin)) && Leads(START, Careless(a, b, fin), Acked(a, b, fin))
  {
    hide Leads, Sound, AllClean, AllCareful;
    Opens(a, b, fin);
    Flies(a, b, fin);
    AcksOuter(a, b, fin);
    Join(START, Opening(a, b, fin), Wrote(a, b, fin), FLIGHT, Flown(a, b, fin));
    Join(START, Opening(a, b, fin) + FLIGHT, Flown(a, b, fin), ACKS, Acked(a, b, fin));
  }

  lemma LeftCarried(fin: bool)
    ensures Three(fin) - {Id(0, 0)} - {Id(2, 0)} == map[Id(1, 0) := Frame(MIDDLE, false)]
  {}

  /** `Finished` is emitted although bytes 25 to 115 were never acknowledged: they
      are gone from the buffer while a packet still carries them. No frame of the
      run overruns its packet. */
  lemma FinishedTooSoon(a: Bytes, b: Bytes)
    requires Sizes(a, b)
    ensures forall id :: 0 <= id < 64 ==> AllFit(a, b, id)
    ensures Possible(Careless(a, b, true))
    ensures var s := Reached(Careless(a, b, true));
            && s.gone && s.carried == map[Id(1, 0) := Frame(MIDDLE, false)]
            && (forall x :: 25 <= x < 116 ==> x !in s.acked)
            && s.tx.pending.segments == [] && |s.written| == 120
    ensures !CarefulRun(Careless(a, b, true))
  {
    hide Legal, Run, Sound, AllCareful, F.Fits;
    forall id | 0 <= id < 64 ensures AllFit(a, b, id) { Fitting(a, b, id); }
    StartSound();
    Reaches(a, b, true);
    LeftCarried(true);
    if CarefulRun(Careless(a, b, true)) {
      FinishedMeansAcked(Careless(a, b, true), 25);
      assert false;
    }
  }

  /** A write under the id of that stream then makes offset 25 wait to be sent
      while a packet already carries it. */
  lemma DirtyRebirth(a: Bytes, b: Bytes, data: Bytes)
    requires Sizes(a, b) && |data| > 25
    ensures forall id :: 0 <= id < 64 ==> AllFit(a, b, id)
    ensures var run := Careless(a, b, true) + [Write(data)];
            && Possible(run) && !CleanRun(run)
            && Reached(run).Live() && Places(Reached(run), 25) == 2
  {
    hide Legal, Run, Sound, AllClean, AllCareful, F.Fits, L.Has, Careless;
    forall id | 0 <= id < 64 ensures AllFit(a, b, id) { Fitting(a, b, id); }
    StartSound();
    Reaches(a, b, true);
    var s := Acked(a, b, true);
    var t := Reborn(s, data);
    WriteEnabled(s, data);
    Step(s, Write(data), t);
    var run := Careless(a, b, true);
    Join(START, run, s, [Write(data)], t);
    LeftCarried(true);
    TwoPlaces(t);
    if CleanRun(run + [Write(data)]) {
      OffsetConserved(run + [Write(data)], 25);
      assert false;
    }
  }

  lemma TwoPlaces(t: Sender)
    requires t.carried == map[Id(1, 0) := Frame(MIDDLE, false)] && t.tx.pending.unsent == 0
    requires t.tx.pending.retransmits == [] && t.acked == {}
    ensures Places(t, 25) == 2
  {
    assert Carriers(t, 25) == {Id(1, 0)};
    NoneQueued(t.tx.pending.retransmits);
  }

  lemma WriteEnabled(s: Sender, data: Bytes)
    requires Sound(s) && s.gone
    ensures Enabled(s, Write(data)) && Do(s, Write(data)) == Reborn(s, data)
  {
    hide SendBuf.Valid, Holds;
  }

  /** The stream, still open, once the middle frame is lost as well. */
  function Broken(a: Bytes, b: Bytes): Sender {
    Acked(a, b, false).(tx := NEW_SEND.(pending := Freed().(retransmits := [MIDDLE])),
                        carried := Three(false) - {Id(0, 0)} - {Id(2, 0)} - {Id(1, 0)})
  }

  /** And if the stream is still open, the loss of the middle frame queues bytes
      that the buffer no longer has: the next frame asks `get` for offset 25,
      below its base of 120, and the subtraction underflows. */
  lemma LostAndFreed(a: Bytes, b: Bytes)
    requires Sizes(a, b)
    ensures forall id :: 0 <= id < 64 ==> AllFit(a, b, id)
    ensures var run := Careless(a, b, false) + [LoseFrame(Id(1, 0))];
            Possible(run) && Reached(run) == Broken(a, b)
    ensures var tx := Broken(a, b).tx;
            && Broken(a, b).Live() && !F.Sendable(tx) && tx.pending.Valid() && tx.pending.Base() == 120
            && tx.Transmit(100).1 == Some(Frame(MIDDLE, false))
  {
    hide Legal, Run, Sound, AllClean, AllCareful, F.Fits, Careless, F.Sendable, SendBuf.Valid, Do, Enabled, Tx.Transmit;
    forall id | 0 <= id < 64 ensures AllFit(a, b, id) { Fitting(a, b, id); }
    StartSound();
    Reaches(a, b, false);
    var s := Acked(a, b, false);
    Loses(a, b);
    Step(s, LoseFrame(Id(1, 0)), Broken(a, b));
    Join(START, Careless(a, b, false), s, [LoseFrame(Id(1, 0))], Broken(a, b));
    Stuck(a, b);
  }

  lemma Loses(a: Bytes, b: Bytes)
    requires Sound(Acked(a, b, false))
    ensures Enabled(Acked(a, b, false), LoseFrame(Id(1, 0)))
    ensures Do(Acked(a, b, false), LoseFrame(Id(1, 0))) == Broken(a, b)
  {
    hide Total, Joined, L.Has, L.Canonical, SendBuf.Valid, Holds, Drainable;
    LeftCarried(false);
    assert L.Insert([], MIDDLE) == [MIDDLE];
  }

  lemma Stuck(a: Bytes, b: Bytes)
    requires Sound(Broken(a, b))
    ensures var tx := Broken(a, b).tx;
            && !F.Sendable(tx) && tx.pending.Valid() && tx.pending.Base() == 120
            && tx.Transmit(100).1 == Some(Frame(MIDDLE, false))
  {
    hide Total, Joined, L.Canonical, L.Insert, Drainable;
    assert [MIDDLE][0].Contains(25);
    assert L.Has([MIDDLE], 25);
  }
}
