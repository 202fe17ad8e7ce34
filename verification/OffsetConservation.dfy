/** Where every byte of an outgoing stream is, in every run of the sender: over
    all interleavings of writes, transmissions, acknowledgements and losses
    (core/src/connection/stream/send.rs, state.rs and connection/mod.rs). A
    stream that is finished and wholly acknowledged is forgotten, and a later
    write under its id begins it anew. */
module OffsetConservation {
  import opened Core
  import opened VarInt
  import L = RangeList
  import opened SendBuffer
  import opened SendLaws
  import opened SendStream

  /** A frame is named by its packet and its place in that packet. */
  datatype Id = Id(packet: nat, index: nat)

  /** One stream id, the frames of it that scheduled or outstanding packets carry,
      the packets that have left, and, for the record, what was written and
      what has been acknowledged since the stream began; `earlier` are the bytes
      of streams that were forgotten before it. */
  datatype Sender = Sender(
    tx: Tx,
    carried: map<Id, Frame>,
    sent: set<nat>,
    gone: bool,
    written: Bytes,
    acked: set<nat>,
    finAcked: bool,
    earlier: seq<Bytes>)
  {
    /** Acknowledgements and losses reach the stream only while it is neither
        reset nor forgotten. */
    predicate Live() {
      !gone && tx.state != ResetSent
    }
  }

  const START: Sender := Sender(NEW_SEND, map[], {}, false, [], {}, false, [])

  datatype Action =
    | Write(data: Bytes)
    | Finish
    | Reset
    | Stop(code: nat)
    | Prioritise(priority: int)
    | Transmit(id: Id, maxLen: nat)
    | SendPacket(packet: nat)
    | AckFrame(id: Id)
    | LoseFrame(id: Id)

  function Offsets(r: Range): set<nat> {
    set x: nat | x < r.end && r.Contains(x)
  }

  /** The action is possible and does not make the code panic: `retransmit`
      asserts that what is lost has been sent. */
  predicate Enabled(s: Sender, a: Action)
    requires s.tx.pending.unackedLen <= s.tx.pending.offset
  {
    match a
    case Write(_) => true
    case Finish => true
    case Reset => true
    case Stop(_) => true
    case Prioritise(_) => true
    case Transmit(id, maxLen) =>
      && s.Live() && s.tx.IsPending() && maxLen >= 25 && s.tx.pending.offset <= VARINT_MAX
      && id !in s.carried && id.packet !in s.sent
    case SendPacket(_) => true
    case AckFrame(id) =>
      && id in s.carried && id.packet in s.sent
      && (s.Live() ==> s.tx.pending.AckDefined(s.carried[id].offsets))
    case LoseFrame(id) =>
      && id in s.carried && id.packet in s.sent
      && (s.Live() ==> s.carried[id].offsets.end <= s.tx.pending.unsent)
  }

  ghost predicate Sound(s: Sender) {
    s.tx.pending.Valid() && Holds(s.tx.pending, s.written)
  }

  /** A write to a forgotten stream finds no entry and makes a new one, at
      offset zero under the same id; packets may still carry the old frames. */
  function Reborn(s: Sender, data: Bytes): Sender {
    s.(tx := NEW_SEND.Write(data).0, gone := false, written := data, acked := {}, finAcked := false,
       earlier := s.earlier + [s.written])
  }

  ghost function Do(s: Sender, a: Action): Sender
    requires Sound(s) && Enabled(s, a)
  {
    match a
    case Write(data) =>
      if s.gone then Reborn(s, data)
      else
        var (tx, r) := s.tx.Write(data);
        s.(tx := tx, written := if r == Written then s.written + data else s.written)
    case Finish => if s.gone then s else s.(tx := s.tx.Finish().0)
    case Reset => if s.gone then s else s.(tx := s.tx.Reset())
    case Stop(code) => if s.gone then s else s.(tx := s.tx.TryStop(code).0)
    case Prioritise(p) => if s.gone then s else s.(tx := s.tx.(priority := p))
    case Transmit(id, maxLen) =>
      var (tx, frame, _) := s.tx.Transmit(maxLen);
      s.(tx := tx, carried := if frame.Some? then s.carried[id := frame.value] else s.carried)
    case SendPacket(packet) => s.(sent := s.sent + {packet})
    case AckFrame(id) =>
      var f := s.carried[id];
      if !s.Live() then s.(carried := s.carried - {id})
      else
        var (tx, finished) := s.tx.Ack(f);
        s.(tx := tx, carried := s.carried - {id}, gone := finished,
           acked := s.acked + Offsets(f.offsets), finAcked := s.finAcked || f.fin)
    case LoseFrame(id) =>
      if !s.Live() then s.(carried := s.carried - {id})
      else s.(tx := s.tx.(pending := s.tx.pending.Retransmit(s.carried[id].offsets)), carried := s.carried - {id})
  }

  // ------------------------------------------------------------- conservation

  ghost predicate Carries(carried: map<Id, Frame>, x: nat) {
    exists id :: id in carried && carried[id].offsets.Contains(x)
  }

  /** Four disjoint places, no two frames sharing an offset, and nothing
      missing below the send point. */
  ghost predicate Split(unsent: nat, queued: seq<Range>, acked: set<nat>, carried: map<Id, Frame>) {
    && (forall id :: id in carried ==> carried[id].offsets.start <= carried[id].offsets.end <= unsent)
    && (forall x :: x in acked ==> x < unsent)
    && (forall id, x: nat :: id in carried && carried[id].offsets.Contains(x) ==> !L.Has(queued, x) && x !in acked)
    && (forall x: nat :: L.Has(queued, x) ==> x !in acked)
    && (forall i, j, x: nat :: i in carried && j in carried && i != j && carried[i].offsets.Contains(x) ==>
          !carried[j].offsets.Contains(x))
    && (forall x: nat :: x < unsent ==> L.Has(queued, x) || x in acked || Carries(carried, x))
  }

  ghost predicate Partitioned(s: Sender) {
    Split(s.tx.pending.unsent, s.tx.pending.retransmits, s.acked, s.carried)
  }

  /** FIN is pending, carried by one frame or acknowledged, at most one of these,
      and none before the stream was closed; and no frame is idle. */
  ghost predicate FinOnce(s: Sender) {
    && (forall id :: id in s.carried ==> !s.carried[id].offsets.Empty() || s.carried[id].fin)
    && (forall i, j :: i in s.carried && j in s.carried && s.carried[i].fin && s.carried[j].fin ==> i == j)
    && (s.tx.state == Ready ==> !s.tx.finPending && !s.finAcked)
    && (s.tx.finPending ==> !s.finAcked)
    && (s.tx.state == Ready || s.tx.finPending || s.finAcked ==> forall id :: id in s.carried ==> !s.carried[id].fin)
  }

  ghost predicate Inv(s: Sender) {
    Sound(s) && (s.Live() ==> Partitioned(s) && FinOnce(s))
  }

  lemma SoundKept(s: Sender, a: Action)
    requires Sound(s) && Enabled(s, a)
    ensures Sound(Do(s, a))
  {
    hide Sound, Do;
    match a {
      case Write(data) => SoundWrite(s, data);
      case Transmit(id, maxLen) => SoundTransmit(s, id, maxLen);
      case AckFrame(id) => SoundAck(s, id);
      case LoseFrame(id) => SoundLose(s, id);
      case _ => SoundOther(s, a);
    }
  }

  lemma SoundWrite(s: Sender, data: Bytes)
    requires Sound(s)
    ensures Sound(Do(s, Write(data)))
  {
    hide SendBuf.Valid, Holds;
    WriteHolds(s.tx.pending, s.written, data);
    RebornSound(s, data);
  }

  lemma SoundTransmit(s: Sender, id: Id, maxLen: nat)
    requires Sound(s) && Enabled(s, Transmit(id, maxLen))
    ensures Sound(Do(s, Transmit(id, maxLen)))
  {
    hide SendBuf.Valid, Total, Joined, SendBuf.PollTransmit;
    PollKeeps(s.tx.pending, maxLen);
  }

  lemma SoundAck(s: Sender, id: Id)
    requires Sound(s) && Enabled(s, AckFrame(id))
    ensures Sound(Do(s, AckFrame(id)))
  {
    hide SendBuf.Valid, Holds, SendBuf.Ack, SendBuf.AckDefined;
    AckHolds(s.tx.pending, s.written, s.carried[id].offsets);
  }

  lemma SoundLose(s: Sender, id: Id)
    requires Sound(s) && Enabled(s, LoseFrame(id))
    ensures Sound(Do(s, LoseFrame(id)))
  {
    hide SendBuf.Valid, Total, Joined, L.Insert;
    if s.Live() { RetransmitKeeps(s.tx.pending, s.carried[id].offsets); }
  }

  lemma SoundOther(s: Sender, a: Action)
    requires Sound(s) && (a.Finish? || a.Reset? || a.Stop? || a.Prioritise? || a.SendPacket?)
    ensures Sound(Do(s, a))
  {
    hide SendBuf.Valid, Holds;
  }

  lemma RebornSound(s: Sender, data: Bytes)
    ensures Sound(Reborn(s, data))
  {
    hide SendBuf.Valid, Holds;
    EmptyBuffer();
    WriteHolds(EMPTY, [], data);
    assert [] + data == data;
  }

  lemma EmptyBuffer()
    ensures EMPTY.Valid() && Holds(EMPTY, []) && (forall x: nat :: !L.Has([], x))
  {
    hide L.Has, L.Canonical;
    NoneQueued([]);
    EmptyRanges();
  }

  lemma EmptyRanges()
    ensures L.Canonical([])
  {}

  lemma StartSound()
    ensures Sound(START)
  {
    hide SendBuf.Valid, Holds;
    EmptyBuffer();
  }

  lemma RetransmitKeeps(b: SendBuf, r: Range)
    requires b.Valid() && r.end <= b.unsent
    ensures b.Retransmit(r).Valid()
  {
    hide L.Insert, Total;
    L.InsertSpec(b.retransmits, r);
  }

  lemma CarriesWith(carried: map<Id, Frame>, id: Id, f: Frame, x: nat)
    requires id !in carried
    ensures Carries(carried[id := f], x) <==> f.offsets.Contains(x) || Carries(carried, x)
  {
    var c := carried[id := f];
    assert id in c && c[id] == f;
    if Carries(carried, x) {
      var i :| i in carried && carried[i].offsets.Contains(x);
      assert i in c && c[i].offsets.Contains(x);
    }
  }

  lemma CarriesWithout(carried: map<Id, Frame>, id: Id, x: nat)
    requires id in carried
    ensures Carries(carried, x) <==> carried[id].offsets.Contains(x) || Carries(carried - {id}, x)
  {
    CarriesWith(carried - {id}, id, carried[id], x);
    assert (carried - {id})[id := carried[id]] == carried;
  }

  /** Moving a range out of the queue, or over the send point, into a new
      frame. */
  lemma SplitMoves(unsent: nat, queued: seq<Range>, unsent': nat, queued': seq<Range>,
                   acked: set<nat>, carried: map<Id, Frame>, id: Id, f: Frame)
    requires Split(unsent, queued, acked, carried) && id !in carried && unsent <= unsent'
    requires f.offsets.start <= f.offsets.end <= unsent'
    requires forall x: nat :: L.Has(queued', x) ==> L.Has(queued, x) && !f.offsets.Contains(x)
    requires forall x: nat :: L.Has(queued, x) ==> L.Has(queued', x) || f.offsets.Contains(x)
    requires forall x: nat :: f.offsets.Contains(x) ==> L.Has(queued, x) || unsent <= x
    requires forall x: nat :: unsent <= x < unsent' ==> f.offsets.Contains(x)
    ensures Split(unsent', queued', acked, carried[id := f])
    ensures f.offsets.Empty() ==> Split(unsent', queued', acked, carried)
  {
    hide L.Has, Carries;
    forall x: nat | x < unsent' ensures L.Has(queued', x) || x in acked || Carries(carried[id := f], x) {
      CarriesWith(carried, id, f, x);
      assert x < unsent ==> L.Has(queued, x) || x in acked || Carries(carried, x);
    }
    assert forall i, x: nat :: i in carried && carried[i].offsets.Contains(x) ==> !f.offsets.Contains(x);
    assert f.offsets.Empty() ==> !f.offsets.Contains(unsent);
  }

  lemma PollMoves(b: SendBuf, maxLen: nat)
    requires b.Valid() && maxLen >= 16 && b.offset <= VARINT_MAX
    ensures var (b', r, _) := b.PollTransmit(maxLen);
            && b.unsent <= b'.unsent && r.start <= r.end <= b'.unsent
            && (forall x: nat :: L.Has(b'.retransmits, x) ==> L.Has(b.retransmits, x) && !r.Contains(x))
            && (forall x: nat :: L.Has(b.retransmits, x) ==> L.Has(b'.retransmits, x) || r.Contains(x))
            && (forall x: nat :: r.Contains(x) ==> L.Has(b.retransmits, x) || b.unsent <= x)
            && (forall x: nat :: b.unsent <= x < b'.unsent ==> r.Contains(x))
  {
    hide L.Insert, L.Has, L.Canonical, Total, SendBuf.PollTransmit;
    PollKeeps(b, maxLen);
    if b.retransmits == [] { NoneQueued(b.retransmits); }
  }

  lemma NoneQueued(s: seq<Range>)
    requires s == []
    ensures forall x: nat :: !L.Has(s, x)
  {}

  lemma TransmitKept(s: Sender, id: Id, maxLen: nat)
    requires Sound(s) && Partitioned(s) && Enabled(s, Transmit(id, maxLen))
    ensures Partitioned(Do(s, Transmit(id, maxLen)))
  {
    hide L.Has, Split, SendBuf.PollTransmit, SendBuf.Valid, Holds;
    var b := s.tx.pending;
    var (b', r, _) := b.PollTransmit(maxLen);
    PollMoves(b, maxLen);
    var fin := s.tx.finPending && r.end == b.offset;
    SplitMoves(b.unsent, b.retransmits, b'.unsent, b'.retransmits, s.acked, s.carried, id, Frame(r, fin));
  }

  lemma AckKept(s: Sender, id: Id)
    requires Sound(s) && Partitioned(s) && s.Live() && Enabled(s, AckFrame(id))
    ensures Partitioned(Do(s, AckFrame(id)))
  {
    hide L.Insert, L.Remove, L.Has, L.Canonical, Total, Joined, Drainable;
    forall x: nat { CarriesWithout(s.carried, id, x); }
  }

  lemma LoseKept(s: Sender, id: Id)
    requires Sound(s) && Partitioned(s) && s.Live() && Enabled(s, LoseFrame(id))
    ensures Partitioned(Do(s, LoseFrame(id)))
  {
    hide L.Insert, L.Has, L.Canonical, Total, Joined;
    forall x: nat { CarriesWithout(s.carried, id, x); }
    assert s.tx.pending.Valid() ==> L.Canonical(s.tx.pending.retransmits);
    L.InsertSpec(s.tx.pending.retransmits, s.carried[id].offsets);
  }

  /** A write to a forgotten stream while packets still carry frames of it is
      the one action that mixes two streams up. */
  predicate Clean(s: Sender, a: Action) {
    a.Write? && s.gone ==> s.carried == map[]
  }

  lemma InvKept(s: Sender, a: Action)
    requires Inv(s) && Enabled(s, a) && Clean(s, a)
    ensures Inv(Do(s, a))
  {
    hide Sound, Partitioned, FinOnce, SendBuf.Ack, SendBuf.PollTransmit, L.Insert;
    SoundKept(s, a);
    if s.Live() {
      FinKept(s, a);
      match a {
        case Transmit(id, maxLen) => TransmitKept(s, id, maxLen);
        case AckFrame(id) => AckKept(s, id);
        case LoseFrame(id) => LoseKept(s, id);
        case _ => OtherKept(s, a);
      }
    } else if a.Write? && s.gone {
      RebornExact(s, a.data);
    }
  }

  /** Exactly when no frame is carried does a new stream begin in order. */
  lemma RebornExact(s: Sender, data: Bytes)
    requires s.gone
    ensures Inv(Reborn(s, data)) <==> s.carried == map[]
  {
    hide L.Has, SendBuf.Valid, Sound;
    var t := Reborn(s, data);
    RebornSound(s, data);
    NoneQueued(t.tx.pending.retransmits);
    if s.carried != map[] {
      var id :| id in s.carried;
      assert id in t.carried;
    }
  }

  lemma FinKept(s: Sender, a: Action)
    requires Sound(s) && s.Live() && FinOnce(s) && Enabled(s, a)
    ensures FinOnce(Do(s, a))
  {
    hide L.Has, L.Canonical, L.Insert, SendBuf.Ack, SendBuf.PollTransmit, SendBuf.Valid, Holds;
  }

  lemma OtherKept(s: Sender, a: Action)
    requires Sound(s) && s.Live() && Partitioned(s) && Enabled(s, a)
    requires !a.Transmit? && !a.AckFrame? && !a.LoseFrame?
    ensures Partitioned(Do(s, a))
  {}

  /** A run: every action is possible when its turn comes. */
  ghost predicate Legal(s: Sender, actions: seq<Action>)
    requires Sound(s)
    decreases |actions|
  {
    actions != [] ==>
      && Enabled(s, actions[0])
      && (SoundKept(s, actions[0]); Legal(Do(s, actions[0]), actions[1..]))
  }

  ghost function Run(s: Sender, actions: seq<Action>): Sender
    requires Sound(s) && Legal(s, actions)
    decreases |actions|
  {
    if actions == [] then s
    else
      SoundKept(s, actions[0]);
      Run(Do(s, actions[0]), actions[1..])
  }

  /** No action of a run mixes two streams up. */
  ghost predicate AllClean(s: Sender, actions: seq<Action>)
    requires Sound(s) && Legal(s, actions)
    decreases |actions|
  {
    actions != [] ==>
      && Clean(s, actions[0])
      && (SoundKept(s, actions[0]); AllClean(Do(s, actions[0]), actions[1..]))
  }

  lemma {:induction false} RunKeeps(s: Sender, actions: seq<Action>)
    requires Inv(s) && Legal(s, actions) && AllClean(s, actions)
    ensures Sound(Run(s, actions)) && Inv(Run(s, actions))
    decreases |actions|
  {
    hide Sound, Partitioned, FinOnce, Do, Enabled;
    if actions != [] {
      InvKept(s, actions[0]);
      RunKeeps(Do(s, actions[0]), actions[1..]);
    }
  }

  lemma StartInv()
    ensures Inv(START) && Retained(START)
  {
    hide SendBuf.Valid, Holds, L.Has;
    StartSound();
    EmptyBuffer();
  }

  /** The runs of a new stream, and the states they reach. */
  ghost predicate Possible(actions: seq<Action>) {
    StartSound();
    Legal(START, actions)
  }

  ghost function Reached(actions: seq<Action>): Sender
    requires Possible(actions)
  {
    StartSound();
    Run(START, actions)
  }

  /** The runs in which no stream begins anew while frames of the one before it
      are still carried. */
  ghost predicate CleanRun(actions: seq<Action>) {
    Possible(actions) && (StartSound(); AllClean(START, actions))
  }

  lemma ReachedKeeps(actions: seq<Action>)
    requires CleanRun(actions)
    ensures Inv(Reached(actions))
  {
    hide Inv, Run, Legal, AllClean;
    StartInv();
    StartSound();
    RunKeeps(START, actions);
  }

  /** The frames that carry an offset. */
  ghost function Carriers(s: Sender, x: nat): set<Id> {
    set id | id in s.carried && s.carried[id].offsets.Contains(x)
  }

  /** How many places hold an offset. */
  ghost function Places(s: Sender, x: nat): nat {
    (if s.tx.pending.unsent <= x then 1 else 0)
    + (if L.Has(s.tx.pending.retransmits, x) then 1 else 0)
    + (if x in s.acked then 1 else 0)
    + |Carriers(s, x)|
  }

  lemma AtMostOne<T>(ids: set<T>)
    requires forall i, j :: i in ids && j in ids ==> i == j
    ensures |ids| <= 1 && (|ids| == 0 <==> ids == {})
  {
    if i :| i in ids {
      assert ids == {i};
    }
  }

  lemma CarriersEmpty(s: Sender, x: nat)
    ensures Carriers(s, x) == {} <==> !Carries(s.carried, x)
  {
    if Carries(s.carried, x) {
      var id :| id in s.carried && s.carried[id].offsets.Contains(x);
      assert id in Carriers(s, x);
    }
  }

  /** Sender offset conservation: in every state that a clean run reaches, each
      written offset of a live stream is in exactly one place: unsent, queued
      for retransmission, acknowledged, or carried by exactly one frame. */
  lemma OffsetConserved(actions: seq<Action>, x: nat)
    requires CleanRun(actions)
    ensures var s := Reached(actions);
            s.Live() && x < |s.written| ==> Places(s, x) == 1
  {
    hide L.Has, Run, Legal, AllClean;
    ReachedKeeps(actions);
    var s := Reached(actions);
    if s.Live() && x < |s.written| {
      AtMostOne(Carriers(s, x));
      CarriersEmpty(s, x);
    }
  }

  /** So no offset is acknowledged twice, and what is lost had been sent. */
  lemma FramesOnce(actions: seq<Action>, id: Id)
    requires CleanRun(actions)
    ensures var s := Reached(actions);
            s.Live() && id in s.carried ==>
              && s.carried[id].offsets.end <= s.tx.pending.unsent
              && Offsets(s.carried[id].offsets) !! s.acked
              && (s.carried[id].fin ==> !s.finAcked && !s.tx.finPending)
  {
    hide L.Has, Run, Legal, AllClean;
    ReachedKeeps(actions);
  }

  // ----------------------------------------------------------------- retention

  /** The endpoint test of this acknowledgement is met inside single ranges. */
  predicate Careful(s: Sender, a: Action)
    requires s.tx.pending.unackedLen <= s.tx.pending.offset
  {
    a.AckFrame? && a.id in s.carried && s.Live() ==>
      EndsShareRange(s.tx.pending.segments, s.tx.pending.Base(),
                     L.Insert(s.tx.pending.acks, s.carried[a.id].offsets))
  }

  ghost predicate AllCareful(s: Sender, actions: seq<Action>)
    requires Sound(s) && Legal(s, actions)
    decreases |actions|
  {
    actions != [] ==>
      && Careful(s, actions[0])
      && (SoundKept(s, actions[0]); AllCareful(Do(s, actions[0]), actions[1..]))
  }

  /** A run of a new stream all of whose acknowledgements are careful. */
  ghost predicate CarefulRun(actions: seq<Action>) {
    Possible(actions) && (StartSound(); AllCareful(START, actions))
  }

  /** The actions are possible one after the other and lead from `s` to `t`. */
  ghost predicate Leads(s: Sender, actions: seq<Action>, t: Sender) {
    Sound(s) && Legal(s, actions) && Run(s, actions) == t
  }

  /** The same without mixing two streams up and, if asked, with careful
      acknowledgements only. */
  ghost predicate LeadsWell(careful: bool, s: Sender, actions: seq<Action>, t: Sender) {
    Leads(s, actions, t) && AllClean(s, actions) && (careful ==> AllCareful(s, actions))
  }

  lemma Step(s: Sender, a: Action, t: Sender)
    requires Sound(s) && Enabled(s, a) && Do(s, a) == t
    ensures Sound(t) && Leads(s, [a], t)
    ensures Clean(s, a) ==> AllClean(s, [a])
    ensures Careful(s, a) ==> AllCareful(s, [a])
  {
    SoundKept(s, a);
    assert [a][1..] == [];
  }

  lemma {:induction false} Join(s: Sender, a: seq<Action>, t: Sender, b: seq<Action>, u: Sender)
    requires Leads(s, a, t) && Leads(t, b, u)
    ensures Leads(s, a + b, u)
    ensures AllClean(s, a) && AllClean(t, b) ==> AllClean(s, a + b)
    ensures AllCareful(s, a) && AllCareful(t, b) ==> AllCareful(s, a + b)
    decreases |a|
  {
    hide Sound, Enabled, Do, Careful, Clean;
    if a == [] {
      assert a + b == b;
    } else {
      SoundKept(s, a[0]);
      assert (a + b)[0] == a[0] && (a + b)[1..] == a[1..] + b;
      Join(Do(s, a[0]), a[1..], t, b, u);
    }
  }

  /** Some such sequence of actions leads from one state to the other. */
  ghost predicate Moves(careful: bool, s: Sender, t: Sender) {
    exists actions :: LeadsWell(careful, s, actions, t)
  }

  lemma MovesNone(careful: bool, s: Sender)
    requires Sound(s)
    ensures Moves(careful, s, s)
  {
    assert LeadsWell(careful, s, [], s);
  }

  lemma MovesOne(careful: bool, s: Sender, a: Action)
    requires Sound(s) && Enabled(s, a) && Clean(s, a) && (careful ==> Careful(s, a))
    ensures Sound(Do(s, a)) && Moves(careful, s, Do(s, a))
  {
    hide Leads, Do, Enabled, Careful, Clean, Sound, Legal, AllClean, AllCareful;
    Step(s, a, Do(s, a));
    assert LeadsWell(careful, s, [a], Do(s, a));
  }

  lemma MovesThen(careful: bool, s: Sender, t: Sender, u: Sender)
    requires Moves(careful, s, t) && Moves(careful, t, u)
    ensures Moves(careful, s, u)
  {
    hide Legal, Run, AllCareful, AllClean, Sound;
    var a :| LeadsWell(careful, s, a, t);
    var b :| LeadsWell(careful, t, b, u);
    Join(s, a, t, b, u);
    assert LeadsWell(careful, s, a + b, u);
  }

  lemma MovesCarelessly(s: Sender, t: Sender)
    requires Moves(true, s, t)
    ensures Moves(false, s, t)
  {
    hide Leads, AllClean, AllCareful;
    var a :| LeadsWell(true, s, a, t);
    assert LeadsWell(false, s, a, t);
  }

  /** What has left the buffer is acknowledged, and the buffer knows every
      acknowledgement of what it still holds. */
  ghost predicate Retained(s: Sender) {
    var b := s.tx.pending;
    && Sound(s)
    && (forall x: nat :: x < b.Base() ==> x in s.acked)
    && (forall x: nat :: L.Has(b.acks, x) ==> x in s.acked)
    && (s.tx.state == DataSent(true) ==> s.finAcked)
    && (s.gone ==> Settled(s))
  }

  /** Everything written and FIN are acknowledged, and no packet carries a frame
      of the stream. */
  ghost predicate Settled(s: Sender) {
    s.finAcked && s.carried == map[] && forall x: nat :: x < |s.written| ==> x in s.acked
  }

  lemma RetainedKept(s: Sender, a: Action)
    requires Inv(s) && Retained(s) && Enabled(s, a) && Careful(s, a)
    ensures Clean(s, a) && Retained(Do(s, a))
  {
    hide Sound, Partitioned, FinOnce, SendBuf.Ack, SendBuf.PollTransmit, L.Insert, L.Has, EndsShareRange, SendBuf.Valid;
    InvKept(s, a);
    SoundIs(s);
    SoundIs(Do(s, a));
    if a.AckFrame? && s.Live() {
      AckRetains(s, a.id);
      AckSettles(s, a.id);
    } else if a.Transmit? {
      PollKeeps(s.tx.pending, a.maxLen);
    } else if a.Write? && s.gone {
      NoneQueued(Do(s, a).tx.pending.acks);
    }
  }

  lemma CarriedUnacked(s: Sender, id: Id)
    requires Partitioned(s) && FinOnce(s) && id in s.carried
    ensures var f := s.carried[id];
            if f.offsets.Empty() then f.fin && !s.finAcked else f.offsets.start < s.tx.pending.unsent && f.offsets.start !in s.acked
  {
    var r := s.carried[id].offsets;
    assert !r.Empty() ==> r.Contains(r.start);
  }

  /** A careful acknowledgement that completes the stream was its last frame:
      any other would carry an offset that is not acknowledged, or a second
      FIN. */
  lemma AckSettles(s: Sender, id: Id)
    requires Inv(s) && Retained(s) && s.Live() && Enabled(s, AckFrame(id)) && Careful(s, AckFrame(id))
    ensures var t := Do(s, AckFrame(id)); t.gone ==> Settled(t)
  {
    hide L.Insert, L.Remove, L.Has, L.Canonical, EndsShareRange, Total, Joined, SendBuf.Ack, SendBuf.Valid, Holds;
    var t := Do(s, AckFrame(id));
    AckRetains(s, id);
    SoundKept(s, AckFrame(id));
    SoundIs(s);
    SoundIs(t);
    if t.gone {
      FinKept(s, AckFrame(id));
      AckKept(s, id);
      assert forall x: nat :: x < |t.written| ==> x in t.acked;
      if other :| other in t.carried {
        CarriedUnacked(t, other);
        assert false;
      }
    }
  }

  lemma SoundIs(s: Sender)
    requires Sound(s)
    ensures s.tx.pending.Valid() && s.tx.pending.unackedLen <= s.tx.pending.offset == |s.written|
    ensures s.tx.pending.unsent <= s.tx.pending.offset
  {}

  lemma AckRetains(s: Sender, id: Id)
    requires Inv(s) && Retained(s) && s.Live() && Enabled(s, AckFrame(id)) && Careful(s, AckFrame(id))
    ensures var b' := s.tx.pending.Ack(s.carried[id].offsets);
            var acked := s.acked + Offsets(s.carried[id].offsets);
            && b'.Valid()
            && (forall x: nat :: x < b'.Base() ==> x in acked)
            && (forall x: nat :: L.Has(b'.acks, x) ==> x in acked)
  {
    hide L.Insert, L.Remove, L.Has, L.Canonical, EndsShareRange, Drainable, Total, Joined, Partitioned, SendBuf.Ack;
    var b, r := s.tx.pending, s.carried[id].offsets;
    AckParts(b, r);
    AckFreesOnlyAcked(b, r);
    AckShrinks(b, r);
    L.InsertSpec(b.acks, r);
  }

  /** `Ack` remembers no more than it was told. */
  lemma AckShrinks(b: SendBuf, r: Range)
    requires b.Valid()
    ensures forall x: nat :: L.Has(b.Ack(r).acks, x) ==> L.Has(L.Insert(b.acks, r), x)
  {
    hide L.Insert, L.Remove, L.Has, Drainable, Total;
    AckParts(b, r);
    var acked := L.Insert(b.acks, r);
    L.InsertCanonical(b.acks, r);
    L.RemoveSpec(acked, Range(b.Base(), b.Base() + Total(b.segments[..Drainable(b.segments, b.Base(), acked)])));
  }

  lemma {:induction false} RunRetains(s: Sender, actions: seq<Action>)
    requires Inv(s) && Retained(s) && Legal(s, actions) && AllCareful(s, actions)
    ensures AllClean(s, actions) && Inv(Run(s, actions)) && Retained(Run(s, actions))
    decreases |actions|
  {
    hide Sound, Partitioned, FinOnce, Retained, Do, Enabled, Careful, Clean;
    if actions != [] {
      RetainedKept(s, actions[0]);
      InvKept(s, actions[0]);
      RunRetains(Do(s, actions[0]), actions[1..]);
    }
  }

  /** Sender retention: in every run whose acknowledgements are careful, an
      unacknowledged range is still in the buffer, and `Get` on it returns a
      non-empty prefix of the bytes written there. */
  lemma UnackedIsBuffered(actions: seq<Action>, r: Range)
    requires CarefulRun(actions)
    ensures var s := Reached(actions);
            var b := s.tx.pending;
            && b.unackedLen <= b.offset
            && (r.start < r.end <= |s.written| && r.start !in s.acked ==>
                  && b.Base() <= r.start
                  && 0 < |b.Get(r)| <= r.end - r.start
                  && b.Get(r) == s.written[r.start..r.start + |b.Get(r)|])
  {
    hide Reached, Retained, SendBuf.Get;
    ReachedRetained(actions);
    RetainedGet(Reached(actions), r);
  }

  lemma RetainedGet(s: Sender, r: Range)
    requires Retained(s)
    ensures var b := s.tx.pending;
            && b.unackedLen <= b.offset
            && (r.start < r.end <= |s.written| && r.start !in s.acked ==>
                  && b.Base() <= r.start
                  && 0 < |b.Get(r)| <= r.end - r.start
                  && b.Get(r) == s.written[r.start..r.start + |b.Get(r)|])
  {
    hide L.Has, Total, Joined, Slice, SendBuf.Get;
    if r.start < r.end <= |s.written| && r.start !in s.acked {
      GetIsPrefix(s.tx.pending, s.written, r);
    }
  }

  lemma ReachedRetained(actions: seq<Action>)
    requires CarefulRun(actions)
    ensures CleanRun(actions) && Inv(Reached(actions)) && Retained(Reached(actions))
  {
    hide Inv, Retained, Run, Legal, AllCareful, AllClean;
    StartInv();
    StartSound();
    RunRetains(START, actions);
  }

  /** `Finished` is emitted only when the FIN and every written byte have been
      acknowledged, and then no packet carries a frame of the stream: whatever
      is written under the id afterwards begins cleanly. */
  lemma FinishedMeansAcked(actions: seq<Action>, x: nat)
    requires CarefulRun(actions)
    ensures CleanRun(actions)
    ensures var s := Reached(actions);
            s.gone ==> s.finAcked && s.carried == map[] && (x < |s.written| ==> x in s.acked)
  {
    hide Reached, CarefulRun, CleanRun, Inv;
    ReachedRetained(actions);
  }
}
