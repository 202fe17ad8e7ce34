/** When a write to a stream that was finished, wholly acknowledged and forgotten
    is harmless. The stream begins anew under the same id while frames of the old
    one may still be delivered. */
module Rewrites {
  import opened Core
  import opened VarInt
  import L = RangeList
  import opened SendBuffer
  import opened SendLaws
  import opened SendStream
  import S = OffsetConservation
  import opened Assembler
  import opened AssemblerLaws
  import opened RecvStream
  import opened StreamTransfer

  // ------------------------------------------------------------- writes that extend

  /** A write to a forgotten stream repeats what was written before, and may go on. */
  predicate Extends(w: World, e: Event) {
    e.Local? && e.action.Write? && w.sender.gone ==> w.sender.written <= e.action.data
  }

  /** Everything under way, held or read is the beginning of what is written. */
  ghost predicate PrefixInv(w: World) {
    && S.Sound(w.sender) && |w.sender.written| < OFFSET_LIMIT
    && (w.sender.tx.finPending ==> w.sender.tx.state != Ready)
    && (forall id :: id in w.net ==> Matches(w.net[id], w.sender.written))
    && (w.entry.Open? ==> Holding(w.entry.rx, w.out, w.sender.written))
    && w.out <= w.sender.written
  }

  lemma IngestHolds(rx: Rx, out: Bytes, m: Message, payloadLen: nat, written: Bytes)
    requires Holding(rx, out, written) && m.Data? && Matches(m, written) && |m.bytes| <= payloadLen
    ensures Holding(rx.Ingest(m.offset, m.bytes, m.fin, payloadLen).0, out, written)
  {
    hide Ordered, Length, Allocation, Place, Faithful;
    IngestKeeps(rx, m.offset, m.bytes, m.fin, payloadLen);
    InsertFaithful(rx.assembler, m.offset, m.bytes, payloadLen, written);
  }

  lemma ClearHolds(rx: Rx, out: Bytes, written: Bytes)
    requires Holding(rx, out, written)
    ensures Holding(rx.(assembler := rx.assembler.Clear()), out, written)
  {
    hide Ordered, Length, Allocation;
    ClearKeeps(rx.assembler, written);
  }

  lemma StopHolds(rx: Rx, out: Bytes, written: Bytes)
    requires Holding(rx, out, written) && rx.assembler.bytesRead <= rx.end
    ensures Holding(rx.Stop().0, out, written)
  {
    hide Ordered, Length, Allocation, Faithful;
    ClearHolds(rx, out, written);
  }

  lemma ResetHolds(rx: Rx, out: Bytes, errorCode: nat, finalOffset: nat, written: Bytes)
    requires Holding(rx, out, written)
    ensures Holding(rx.Reset(errorCode, finalOffset).0, out, written)
  {
    hide Ordered, Length, Allocation, Faithful;
    ClearHolds(rx, out, written);
  }

  lemma NextHolds(rx: Rx, out: Bytes, maxLength: nat, written: Bytes)
    requires Holding(rx, out, written)
    ensures var (rx', r) := rx.Next(maxLength);
            Holding(rx', if r.Read? then out + r.chunk.bytes else out, written)
  {
    hide Ordered, Length, Allocation, Faithful, Asm.Read;
    ReadKeeps(rx.assembler, maxLength);
    ReadFaithful(rx.assembler, maxLength, written);
    ReadEnd(rx.assembler, maxLength);
    var (a, chunk) := rx.assembler.Read(maxLength);
    if chunk.Some? {
      assert written[..rx.assembler.bytesRead] + chunk.value.bytes == written[..a.bytesRead];
    }
  }

  lemma GrowHolds(rx: Rx, out: Bytes, written: Bytes, data: Bytes)
    requires Holding(rx, out, written) && written <= data && |data| < OFFSET_LIMIT
    ensures Holding(rx, out, data)
  {
    hide Ordered, Length, Allocation, Faithful;
    FaithfulGrows(rx.assembler.data, written, data[|written|..]);
    assert data == written + data[|written|..];
  }

  lemma GrowMatches(m: Message, written: Bytes, data: Bytes)
    requires Matches(m, written) && written <= data
    ensures Matches(m, data)
  {
    if m.Data? {
      assert data[..|written|] == written;
      assert data[m.offset..m.offset + |m.bytes|] == written[m.offset..m.offset + |m.bytes|];
    }
  }

  /** A local action extends what is written or leaves it alone. */
  lemma LocalGrows(s: S.Sender, a: S.Action)
    requires S.Sound(s) && S.Enabled(s, a) && (s.tx.finPending ==> s.tx.state != Ready)
    requires a.Write? && s.gone ==> s.written <= a.data
    ensures var t := S.Do(s, a);
            && s.written <= t.written && (t.tx.finPending ==> t.tx.state != Ready)
            && (t.written != s.written ==> a.Write? && t.written == if s.gone then a.data else s.written + a.data)
  {
    hide SendBuf.Ack, SendBuf.PollTransmit, SendBuf.Valid, Holds;
  }

  lemma LocalMatches(w: World, a: S.Action)
    requires PrefixInv(w) && Enabled(w, Local(a)) && Extends(w, Local(a))
    ensures PrefixInv(Do(w, Local(a)))
  {
    hide SendBuf.Ack, SendBuf.PollTransmit, SendBuf.Valid, Holds, Holding, Matches, S.Do, Tx.Transmit, S.Enabled, S.Sound,
         FrameIsWhole;
    var s := w.sender;
    var t := S.Do(s, a);
    LocalGrows(s, a);
    S.SoundKept(s, a);
    var w' := Do(w, Local(a));
    if a.Transmit? { TransmitMatches(s, a); }
    forall id | id in w'.net ensures Matches(w'.net[id], t.written) {
      if id in w.net && w'.net[id] == w.net[id] { GrowMatches(w.net[id], s.written, t.written); }
    }
    if w.entry.Open? { GrowHolds(w.entry.rx, w.out, s.written, t.written); }
  }

  lemma TransmitMatches(s: S.Sender, a: S.Action)
    requires S.Sound(s) && a.Transmit? && S.Enabled(s, a) && (s.tx.finPending ==> s.tx.state != Ready)
    ensures S.Do(s, a).written == s.written
    ensures var (tx, frame, _) := s.tx.Transmit(a.maxLen);
            && tx.pending.unackedLen <= tx.pending.offset
            && (frame.Some? && FrameIsWhole(tx.pending, frame.value.offsets) ==> Matches(Sent(tx.pending, frame.value), s.written))
  {
    hide SendBuf.PollTransmit, SendBuf.Valid, Holds, FrameIsWhole, Sent;
    SentGenuine(s, a.maxLen);
  }

  lemma PrefixKept(w: World, e: Event)
    requires PrefixInv(w) && Enabled(w, e) && Extends(w, e)
    ensures PrefixInv(Do(w, e))
  {
    hide Holding, S.Sound, S.Enabled, S.Do, Rx.Ingest, Rx.Reset, Rx.Next, FrameIsWhole, Matches;
    match e {
      case Local(a) => LocalMatches(w, a);
      case SendReset(id, code) => NoBytes(ResetStream(code, w.sender.tx.pending.offset), w.sender.written);
      case Deliver(id, payloadLen) => DeliverMatches(w, id, payloadLen);
      case ReadChunk(maxLength) =>
        NextHolds(w.entry.rx, w.out, maxLength, w.sender.written);
        HoldingPrefix(ReadOne(w, maxLength), w.sender.written);
      case StopReading => StopHolds(w.entry.rx, w.out, w.sender.written);
    }
  }

  lemma NoBytes(m: Message, written: Bytes)
    requires m.ResetStream?
    ensures Matches(m, written)
  {}

  lemma HoldingPrefix(w: World, written: Bytes)
    ensures w.entry.Open? && Holding(w.entry.rx, w.out, written) ==> w.out <= written
  {
    hide Ordered, Length, Allocation, Faithful;
  }

  lemma DeliverMatches(w: World, id: S.Id, payloadLen: nat)
    requires PrefixInv(w) && Enabled(w, Deliver(id, payloadLen))
    ensures PrefixInv(Do(w, Deliver(id, payloadLen)))
  {
    hide Holding, S.Sound, Rx.Ingest, Rx.Reset, Rx.IngestDefined, Matches;
    var m, written := w.net[id], w.sender.written;
    NewHolds(written);
    if m.Data? {
      var e := EntryFor(w, m);
      if e.Open? && e.rx.IsReceiving() {
        IngestHolds(e.rx, if e == w.entry then w.out else [], m, payloadLen, written);
      }
    } else {
      ResetHolds(if w.entry.Open? then w.entry.rx else NEW_RECV, if w.entry.Open? then w.out else [],
                 m.errorCode, m.finalOffset, written);
    }
  }

  lemma NewHolds(written: Bytes)
    requires |written| < OFFSET_LIMIT
    ensures Holding(NEW_RECV, [], written)
  {}

  // ------------------------------------------------------------------------ runs

  ghost predicate AllExtend(w: World, events: seq<Event>)
    requires S.Sound(w.sender) && Legal(w, events)
    decreases |events|
  {
    events != [] ==>
      && Extends(w, events[0])
      && (SoundKept(w, events[0]); AllExtend(Do(w, events[0]), events[1..]))
  }

  lemma {:induction false} PrefixOverRun(w: World, events: seq<Event>)
    requires PrefixInv(w) && Legal(w, events) && AllExtend(w, events)
    ensures PrefixInv(Run(w, events))
    decreases |events|
  {
    hide Do, Enabled, Extends, Holding, Matches;
    if events != [] {
      SoundKept(w, events[0]);
      PrefixKept(w, events[0]);
      PrefixOverRun(Do(w, events[0]), events[1..]);
    }
  }

  /** A run in which every write to a forgotten stream extends it. */
  ghost predicate ExtendingRun(local: bool, events: seq<Event>) {
    Possible(local, events) && (S.StartSound(); AllExtend(Start(local), events))
  }

  /** The prefix property does not need single use: it survives any number of new
      streams under the same id, if each of them begins like the one before. */
  lemma PrefixWhileExtending(local: bool, events: seq<Event>)
    requires ExtendingRun(local, events)
    ensures Reached(local, events).out <= Reached(local, events).sender.written
  {
    hide Run, Legal, AllExtend, S.Sound;
    S.StartSound();
    StartPrefix(local);
    PrefixOverRun(Start(local), events);
  }

  lemma StartPrefix(local: bool)
    ensures PrefixInv(Start(local))
  {
    hide S.Sound;
    S.StartSound();
    NewHolds([]);
  }

  /** Whatever happens from here on, what the application has read is a prefix of
      what is written, as long as no further stream under this id differs. */
  ghost predicate Safe(w: World)
    requires S.Sound(w.sender)
  {
    forall events :: Legal(w, events) && AllExtend(w, events) ==> Run(w, events).out <= Run(w, events).sender.written
  }

  // ------------------------------------------------------------- the reader is done

  /** The receiver opened the stream, and reads nothing more of it. */
  ghost predicate Silent(w: World) {
    && w.local && w.out <= w.sender.written
    && (w.entry.Open? ==> w.entry.rx.stopped || (w.entry.rx.state.ResetRecvd? && w.entry.rx.assembler.data == []))
  }

  lemma SilentKept(w: World, e: Event)
    requires S.Sound(w.sender) && Silent(w) && Enabled(w, e) && Extends(w, e)
    ensures Silent(Do(w, e))
  {
    hide S.Sound, S.Enabled, S.Do, Asm.Insert, Asm.InsertDefined, FrameIsWhole, Sent, Tx.Transmit;
    if e.Local? { OnlyGrows(w.sender, e.action); }
  }

  lemma OnlyGrows(s: S.Sender, a: S.Action)
    requires S.Sound(s) && S.Enabled(s, a) && (a.Write? && s.gone ==> s.written <= a.data)
    ensures s.written <= S.Do(s, a).written
  {
    hide SendBuf.Ack, SendBuf.PollTransmit, SendBuf.Valid, Holds;
  }

  lemma {:induction false} SilentOverRun(w: World, events: seq<Event>)
    requires S.Sound(w.sender) && Silent(w) && Legal(w, events) && AllExtend(w, events)
    ensures Silent(Run(w, events))
    decreases |events|
  {
    hide Do, Enabled, Extends, S.Sound;
    if events != [] {
      SoundKept(w, events[0]);
      SilentKept(w, events[0]);
      SilentOverRun(Do(w, events[0]), events[1..]);
    }
  }

  // ----------------------------------------------------- the whole stream is under way

  ghost predicate Covers(net: map<S.Id, Message>, x: nat) {
    exists id :: id in net && net[id].Data? && net[id].offset <= x < net[id].offset + |net[id].bytes|
  }

  ghost predicate FinSent(net: map<S.Id, Message>) {
    exists id :: id in net && Ends(net[id])
  }

  /** What counts as sent is under way, and no more than that is acknowledged. */
  ghost predicate SenderBacked(s: S.Sender, net: map<S.Id, Message>) {
    var b := s.tx.pending;
    && (forall x: nat :: x < b.unsent ==> Covers(net, x))
    && b.unackedLen <= b.offset && b.Base() <= b.unsent
    && (forall x: nat :: L.Has(b.acks, x) ==> x < b.unsent)
    && (s.tx.state.DataSent? && !s.tx.finPending ==> FinSent(net))
    && (s.tx.state == DataSent(true) ==> s.finAcked)
    && (s.gone ==> b.unsent == |s.written| && s.tx.state == DataSent(true) && !s.tx.finPending)
  }

  predicate EntryBacked(entry: Entry, reset: bool) {
    entry.Open? ==> (entry.rx.state.ResetRecvd? ==> reset) && (entry.rx.stopped ==> entry.rx.FinalOffset().None?)
  }

  ghost predicate Backed(w: World) {
    SenderBacked(w.sender, w.net) && EntryBacked(w.entry, w.sender.tx.state == ResetSent)
  }

  lemma MoreUnderWay(net: map<S.Id, Message>, id: S.Id, m: Message, net': map<S.Id, Message>)
    requires id !in net && net' == net[id := m]
    ensures forall x: nat :: Covers(net, x) ==> Covers(net', x)
    ensures FinSent(net) ==> FinSent(net')
    ensures forall x: nat :: m.Data? && m.offset <= x < m.offset + |m.bytes| ==> Covers(net', x)
    ensures Ends(m) ==> FinSent(net')
  {
    forall x: nat | Covers(net, x) ensures Covers(net', x) {
      var i :| i in net && net[i].Data? && net[i].offset <= x < net[i].offset + |net[i].bytes|;
      assert i in net' && net'[i] == net[i];
    }
    if FinSent(net) {
      var i :| i in net && Ends(net[i]);
      assert i in net' && net'[i] == net[i];
    }
    assert id in net' && net'[id] == m;
  }

  lemma {:induction false} DrainsBelow(segments: seq<Bytes>, start: nat, acks: seq<Range>, unsent: nat)
    requires start <= unsent && forall x: nat :: L.Has(acks, x) ==> x < unsent
    ensures start + Total(segments[..Drainable(segments, start, acks)]) <= unsent
    decreases |segments|
  {
    hide L.Has;
    if segments != [] && EndsAcked(segments[0], start, acks) {
      var rest, mid := segments[1..], start + |segments[0]|;
      DrainsBelow(rest, mid, acks, unsent);
      var k := Drainable(rest, mid, acks);
      assert segments[..k + 1][0] == segments[0] && segments[..k + 1][1..] == rest[..k];
    }
  }

  lemma AckBelow(b: SendBuf, r: Range)
    requires b.Valid() && b.Base() <= b.unsent && r.end <= b.unsent
    requires forall x: nat :: L.Has(b.acks, x) ==> x < b.unsent
    ensures var b' := b.Ack(r);
            && b'.Valid() && b'.Base() <= b'.unsent == b.unsent && b'.offset == b.offset
            && forall x: nat :: L.Has(b'.acks, x) ==> x < b.unsent
  {
    hide L.Insert, L.Remove, L.Has, L.Canonical, Drainable, Total, Joined;
    AckParts(b, r);
    S.AckShrinks(b, r);
    InsertBelow(b, r);
    DrainsBelow(b.segments, b.Base(), L.Insert(b.acks, r), b.unsent);
  }

  lemma InsertBelow(b: SendBuf, r: Range)
    requires b.Valid() && r.end <= b.unsent && forall x: nat :: L.Has(b.acks, x) ==> x < b.unsent
    ensures forall x: nat :: L.Has(L.Insert(b.acks, r), x) ==> x < b.unsent
  {
    hide L.Insert, L.Has, Total;
    L.InsertSpec(b.acks, r);
  }

  lemma AckBacked(s: S.Sender, net: map<S.Id, Message>, id: S.Id)
    requires S.Inv(s) && SenderBacked(s, net) && S.Enabled(s, S.AckFrame(id))
    ensures SenderBacked(S.Do(s, S.AckFrame(id)), net)
  {
    hide L.Insert, L.Remove, L.Has, L.Canonical, Total, Joined, SendBuf.Ack, SendBuf.Valid, Covers, FinSent;
    S.SoundIs(s);
    if s.Live() { AckBelow(s.tx.pending, s.carried[id].offsets); }
  }

  /** What a transmission does to the stream. */
  lemma TransmitMoves(s: S.Sender, maxLen: nat)
    requires S.Sound(s) && maxLen >= 25 && s.tx.pending.offset <= VARINT_MAX
    ensures var (tx, frame, _) := s.tx.Transmit(maxLen);
            var b, b' := s.tx.pending, tx.pending;
            && b'.unackedLen == b.unackedLen <= b.offset == b'.offset && b'.acks == b.acks && b.unsent <= b'.unsent
            && (frame.None? ==> b'.unsent == b.unsent)
            && (frame.Some? ==> forall x: nat :: b.unsent <= x < b'.unsent ==> frame.value.offsets.Contains(x))
            && tx.state == s.tx.state && tx.finPending == (s.tx.finPending && !(frame.Some? && frame.value.fin))
            && (frame.Some? ==> frame.value.offsets.start <= frame.value.offsets.end)
  {
    hide L.Insert, L.Has, L.Canonical, Total, Joined, SendBuf.PollTransmit;
    var (b', r, _) := s.tx.pending.PollTransmit(maxLen);
    S.PollMoves(s.tx.pending, maxLen);
    PollKeeps(s.tx.pending, maxLen);
    assert s.tx.pending.unsent < b'.unsent ==> r.Contains(s.tx.pending.unsent);
  }

  /** A whole frame carries the range that it declares. */
  lemma SentSpan(b: SendBuf, written: Bytes, f: Frame)
    requires b.Valid() && Holds(b, written) && FrameIsWhole(b, f.offsets) && f.offsets.start <= f.offsets.end <= b.offset
    ensures var m := Sent(b, f);
            m.Data? && m.offset == f.offsets.start && m.offset + |m.bytes| == f.offsets.end && m.fin == f.fin
  {
    hide SendBuf.Valid, Holds, InOneSegment, SendBuf.Get;
    if !f.offsets.Empty() { GetIsPrefix(b, written, f.offsets); }
  }

  lemma TransmitBacked(s: S.Sender, net: map<S.Id, Message>, a: S.Action)
    requires S.Inv(s) && SenderBacked(s, net) && a.Transmit? && S.Enabled(s, a) && a.id !in net
    requires var (tx, frame, _) := s.tx.Transmit(a.maxLen);
             frame.Some? ==> tx.pending.unackedLen <= tx.pending.offset && FrameIsWhole(tx.pending, frame.value.offsets)
    ensures var (tx, frame, _) := s.tx.Transmit(a.maxLen);
            SenderBacked(S.Do(s, a), if frame.Some? then net[a.id := Sent(tx.pending, frame.value)] else net)
  {
    hide SendBuf.Valid, Tx.Transmit, Holds, Covers, FinSent, FrameIsWhole, Sent, S.Partitioned, S.FinOnce, L.Has;
    var (tx, frame, _) := s.tx.Transmit(a.maxLen);
    TransmitMoves(s, a.maxLen);
    S.SoundKept(s, a);
    S.SoundIs(S.Do(s, a));
    if frame.Some? {
      TransmitRange(s, a.maxLen);
      SentSpan(tx.pending, s.written, frame.value);
      var m := Sent(tx.pending, frame.value);
      var net' := net[a.id := m];
      MoreUnderWay(net, a.id, m, net');
      forall x: nat | x < tx.pending.unsent ensures Covers(net', x) {
        assert s.tx.pending.unsent <= x ==> frame.value.offsets.Contains(x);
      }
    }
  }

  lemma TransmitRange(s: S.Sender, maxLen: nat)
    requires S.Sound(s) && maxLen >= 25 && s.tx.pending.offset <= VARINT_MAX
    ensures var (tx, frame, _) := s.tx.Transmit(maxLen); frame.Some? ==> frame.value.offsets.end <= tx.pending.offset
  {
    hide L.Insert, L.Has, L.Canonical, Total, Joined, SendBuf.PollTransmit;
    S.PollMoves(s.tx.pending, maxLen);
    PollKeeps(s.tx.pending, maxLen);
  }

  lemma OtherBacked(s: S.Sender, net: map<S.Id, Message>, a: S.Action)
    requires S.Inv(s) && SenderBacked(s, net) && S.Enabled(s, a) && !(a.Write? && s.gone)
    requires !a.Transmit? && !a.AckFrame?
    ensures SenderBacked(S.Do(s, a), net)
  {
    hide L.Insert, L.Has, Covers, FinSent, SendBuf.Valid, S.Split, Holds;
  }

  lemma BackedKept(w: World, e: Event)
    requires Inv(w) && Backed(w) && Enabled(w, e) && Once(w, e)
    ensures Backed(Do(w, e))
  {
    hide SenderBacked, S.Inv, Honest, S.Enabled, S.Do, Tx.Transmit, FrameIsWhole, Sent, Asm.Insert, Asm.InsertDefined, Asm.Read,
         FinLimits, FinsTaken;
    InvSound(w);
    match e {
      case Local(a) => LocalBacked(w, a);
      case SendReset(id, code) => ResetBacked(w, e);
      case Deliver(id, payloadLen) => DeliverBacked(w, id, payloadLen);
      case _ =>
    }
  }

  lemma DeliverBacked(w: World, id: S.Id, payloadLen: nat)
    requires Inv(w) && Backed(w) && S.Sound(w.sender) && Enabled(w, Deliver(id, payloadLen))
    ensures Backed(Do(w, Deliver(id, payloadLen)))
  {
    hide SenderBacked, S.Inv, S.Sound, Honest, Asm.Insert, Asm.InsertDefined, FinLimits, FinsTaken;
  }

  lemma ResetBacked(w: World, e: Event)
    requires Backed(w) && S.Sound(w.sender) && e.SendReset? && Enabled(w, e)
    ensures Backed(Do(w, e))
  {
    hide L.Has, Covers, FinSent, S.Sound;
    MoreUnderWay(w.net, e.id, ResetStream(e.errorCode, w.sender.tx.pending.offset), Do(w, e).net);
  }

  lemma LocalBacked(w: World, a: S.Action)
    requires Inv(w) && Backed(w) && Enabled(w, Local(a)) && Once(w, Local(a))
    ensures Backed(Do(w, Local(a)))
  {
    hide SenderBacked, S.Inv, Honest, S.Enabled, S.Do, Tx.Transmit, FrameIsWhole, Sent, FinLimits, FinsTaken, Genuine;
    LocalEffect(w.sender, a);
    match a {
      case Transmit(_, _) => TransmitBacked(w.sender, w.net, a);
      case AckFrame(id) => AckBacked(w.sender, w.net, id);
      case _ => OtherBacked(w.sender, w.net, a);
    }
  }

  lemma {:induction false} RunBacked(w: World, events: seq<Event>)
    requires Inv(w) && Backed(w) && Legal(w, events) && AllOnce(w, events)
    ensures Inv(Run(w, events)) && Backed(Run(w, events))
    decreases |events|
  {
    hide Do, S.Partitioned, S.FinOnce, SendBuf.Valid, Holds, Honest, Genuine, Enabled, EndsPaid, FinLimits, Backed;
    if events != [] {
      InvKept(w, events[0]);
      BackedKept(w, events[0]);
      RunBacked(Do(w, events[0]), events[1..]);
    }
  }

  lemma StartBacked(local: bool)
    ensures Backed(Start(local))
  {
    S.NoneQueued([]);
  }

  // ------------------------------------------------------ reading the old stream

  /** The receiver takes data of the stream. */
  predicate Reading(entry: Entry) {
    entry.Open? && entry.rx.IsReceiving() && !entry.rx.stopped
  }

  /** A frame that opens the stream at its peer is under way. */
  ghost predicate Opening(net: map<S.Id, Message>) {
    exists id :: id in net && net[id].Data? && net[id].offset == 0 && !net[id].fin
  }

  /** All of the stream `d` is under way, and the receiver holds nothing else. */
  ghost predicate Draws(w: World, d: Bytes) {
    && !w.failed && S.Sound(w.sender) && |d| < OFFSET_LIMIT
    && (forall id :: id in w.net ==> Genuine(w.net[id], d, true, false))
    && (forall x: nat :: x < |d| ==> Covers(w.net, x)) && FinSent(w.net)
    && (w.entry.Open? ==> Honest(w.entry.rx, w.out, d, true))
  }

  /** Events that extend whatever they write lead from `u` to `w`, without a word
      from the sender. */
  ghost predicate Quietly(u: World, events: seq<Event>, w: World) {
    && S.Sound(u.sender) && Legal(u, events) && Run(u, events) == w && AllExtend(u, events)
    && w.sender.written == u.sender.written && w.net == u.net && w.local == u.local
  }

  lemma QuietlyNone(u: World)
    requires S.Sound(u.sender)
    ensures Quietly(u, [], u)
  {}

  lemma {:induction false} RunThen(u: World, events: seq<Event>, w: World, e: Event)
    requires S.Sound(u.sender) && Legal(u, events) && Run(u, events) == w && AllExtend(u, events)
    requires S.Sound(w.sender) && Enabled(w, e) && Extends(w, e)
    ensures Legal(u, events + [e]) && Run(u, events + [e]) == Do(w, e) && AllExtend(u, events + [e])
    decreases |events|
  {
    hide S.Sound, Enabled, Do, Extends;
    SoundKept(w, e);
    if events == [] {
      assert ([] + [e])[1..] == [];
    } else {
      SoundKept(u, events[0]);
      assert (events + [e])[0] == events[0] && (events + [e])[1..] == events[1..] + [e];
      RunThen(Do(u, events[0]), events[1..], w, e);
    }
  }

  /** A message is delivered, whether or not its packet had left before. */
  lemma Brings(u: World, before: seq<Event>, w: World, d: Bytes, id: S.Id) returns (events: seq<Event>, v: World)
    requires Quietly(u, before, w) && Draws(w, d) && id in w.net && w.net[id].Data?
    requires var e := EntryFor(w, w.net[id]);
             e.Open? && e.rx.IsReceiving() ==> e.rx.IngestDefined(w.net[id].offset, w.net[id].bytes, w.net[id].fin)
    ensures Quietly(u, events, v) && Draws(v, d)
    ensures var m := w.net[id];
            var e := EntryFor(w, m);
            if e.Open? && e.rx.IsReceiving() then
              var (rx, r) := e.rx.Ingest(m.offset, m.bytes, m.fin, |m.bytes|);
              && r.Ingested?
              && v.entry == (if rx.stopped && r.closed then Vacant else Open(rx))
              && v.out == if e == w.entry then w.out else []
            else v.entry == w.entry && v.out == w.out
  {
    hide Legal, Run, AllExtend, Genuine, Honest, Rx.Ingest, Rx.IngestDefined, Covers, FinSent, SendBuf.Valid, Holds;
    var m := w.net[id];
    var leave, arrive := Local(S.SendPacket(id.packet)), Deliver(id, |m.bytes|);
    RunThen(u, before, w, leave);
    var mid := Do(w, leave);
    RunThen(u, before + [leave], mid, arrive);
    events := before + [leave] + [arrive];
    v := Do(mid, arrive);
    NewHonest(d, true);
    var e := EntryFor(w, m);
    if e.Open? && e.rx.IsReceiving() {
      IngestHonest(e.rx, if e == w.entry then w.out else [], m, |m.bytes|, d, true, false);
    }
  }

  lemma FirstBuffered(data: seq<Buffer>, lo: nat, hi: nat)
    requires Ordered(data, lo, hi) && Buffered(data, lo)
    ensures data != [] && data[0].offset == lo
  {
    if data[0].offset > lo { BufferedFrom(data[1..], data[0].End(), hi, lo); }
  }

  /** A frame that holds the next byte to be read can always be taken in. */
  lemma NextDefined(a: Asm, m: Message)
    requires a.Valid() && m.Data? && m.offset <= a.bytesRead < m.offset + |m.bytes|
    ensures a.InsertDefined(m.offset, m.bytes)
  {
    hide Ordered, Length, Allocation, Encloses;
    StraddlesAfter(a.data, a.bytesRead, a.end, a.bytesRead);
    if Encloses(a.data, a.bytesRead, m.offset + |m.bytes|) {
      EnclosedStraddles(a.data, a.bytesRead, m.offset + |m.bytes|);
    }
  }

  lemma TakesNext(rx: Rx, m: Message, out: Bytes, d: Bytes)
    requires Honest(rx, out, d, true) && rx.IsReceiving() && !rx.stopped
    requires m.Data? && Genuine(m, d, true, false) && m.offset <= rx.assembler.bytesRead < m.offset + |m.bytes|
    ensures rx.IngestDefined(m.offset, m.bytes, m.fin)
    ensures var (rx', r) := rx.Ingest(m.offset, m.bytes, m.fin, |m.bytes|);
            var (rx'', r') := rx'.Next(1);
            && r == Ingested(if m.offset + |m.bytes| > rx.end then m.offset + |m.bytes| - rx.end else 0, false)
            && rx'.IsReceiving() && !rx'.stopped && rx''.IsReceiving() && !rx''.stopped
            && r'.Read? && |r'.chunk.bytes| == 1 && rx''.assembler.bytesRead == rx.assembler.bytesRead + 1
  {
    hide Ordered, Length, Allocation, Place, Encloses, Faithful, Buffered;
    var a := rx.assembler;
    NextDefined(a, m);
    IngestHonest(rx, out, m, |m.bytes|, d, true, false);
    InsertHas(a, m.offset, m.bytes, |m.bytes|);
    var a' := a.Insert(m.offset, m.bytes, |m.bytes|);
    assert Have(a', a.bytesRead);
    IngestKeeps(rx, m.offset, m.bytes, m.fin, |m.bytes|);
    FirstBuffered(a'.data, a'.bytesRead, a'.end);
    FrontNotEmpty(a'.data, a'.bytesRead, a'.end);
  }

  lemma FrontNotEmpty(data: seq<Buffer>, lo: nat, hi: nat)
    requires Ordered(data, lo, hi) && data != []
    ensures data[0].bytes != []
  {}

  /** One more byte of the old stream can be read. */
  lemma Advances(u: World, before: seq<Event>, w: World, d: Bytes) returns (events: seq<Event>, v: World)
    requires Quietly(u, before, w) && Draws(w, d) && Reading(w.entry) && w.entry.rx.assembler.bytesRead < |d|
    ensures Quietly(u, events, v) && Draws(v, d) && Reading(v.entry)
    ensures v.entry.rx.assembler.bytesRead == w.entry.rx.assembler.bytesRead + 1
  {
    hide Legal, Run, AllExtend, Genuine, Honest, Rx.Ingest, Rx.Next, Rx.IngestDefined, Asm.Read, FinSent, SendBuf.Valid, Holds;
    var x := w.entry.rx.assembler.bytesRead;
    assert Covers(w.net, x);
    var id :| id in w.net && w.net[id].Data? && w.net[id].offset <= x < w.net[id].offset + |w.net[id].bytes|;
    TakesNext(w.entry.rx, w.net[id], w.out, d);
    events, v := Brings(u, before, w, d, id);
    RunThen(u, events, v, ReadChunk(1));
    NextHonest(v.entry.rx, v.out, 1, d, true);
    events := events + [ReadChunk(1)];
    v := Do(v, ReadChunk(1));
  }

  lemma {:induction false} ReadsAll(u: World, before: seq<Event>, w: World, d: Bytes) returns (events: seq<Event>, v: World)
    requires Quietly(u, before, w) && Draws(w, d) && Reading(w.entry)
    ensures Quietly(u, events, v) && v.out == d
    decreases |d| - w.entry.rx.assembler.bytesRead
  {
    hide Quietly, Covers, Genuine, FinSent, S.Sound, Ordered, Faithful;
    if w.entry.rx.assembler.bytesRead < |d| {
      events, v := Advances(u, before, w, d);
      events, v := ReadsAll(u, events, v, d);
    } else {
      events, v := before, w;
    }
  }

  /** A peer-opened stream that has been closed or stopped is opened again. */
  lemma Reopens(u: World, before: seq<Event>, w: World, d: Bytes) returns (events: seq<Event>, v: World)
    requires Quietly(u, before, w) && Draws(w, d) && Opening(w.net) && !w.local && EntryBacked(w.entry, false)
    ensures Quietly(u, events, v) && Draws(v, d) && Reading(v.entry)
  {
    hide Quietly, Covers, Genuine, Honest, S.Sound, Asm.Insert, Asm.InsertDefined;
    events, v := before, w;
    if w.entry.Open? && w.entry.rx.stopped {
      var last :| last in w.net && Ends(w.net[last]);
      events, v := Brings(u, before, w, d, last);
      QuietSame(u, events, v, before, w);
    }
    if v.entry.Vacant? {
      var first :| first in w.net && w.net[first].Data? && w.net[first].offset == 0 && !w.net[first].fin;
      assert NEW_RECV.IngestDefined(0, w.net[first].bytes, false) by { NewDefined(w.net[first].bytes); }
      events, v := Brings(u, events, v, d, first);
    }
  }

  lemma QuietSame(u: World, events: seq<Event>, v: World, before: seq<Event>, w: World)
    requires Quietly(u, events, v) && Quietly(u, before, w)
    ensures v.net == w.net && v.local == w.local
  {}

  lemma NewDefined(bytes: Bytes)
    ensures NEW_RECV.IngestDefined(0, bytes, false)
  {}

  // ------------------------------------------------------------------------ exactly

  /** The world after a write to the forgotten stream. */
  ghost function Rewritten(w: World, data: Bytes): World {
    w.(sender := S.Reborn(w.sender, data))
  }

  lemma RewrittenIs(w: World, data: Bytes)
    requires S.Sound(w.sender) && w.sender.gone && Enabled(w, Local(S.Write(data)))
    ensures Do(w, Local(S.Write(data))) == Rewritten(w, data) && S.Sound(Rewritten(w, data).sender)
  {
    S.RebornSound(w.sender, data);
  }

  lemma ForgottenDraws(w: World, data: Bytes)
    requires Inv(w) && Backed(w) && w.sender.gone
    ensures Draws(Rewritten(w, data), w.sender.written) && EntryBacked(w.entry, false)
  {
    hide Covers, FinSent, Genuine, Honest, SendBuf.Valid, Holds, S.Partitioned, S.FinOnce, FinsTaken, FinLimits;
    S.RebornSound(w.sender, data);
  }

  /** Whether the receiver can still be made to read the old stream. */
  ghost predicate Readable(w: World) {
    Reading(w.entry) || (!w.local && Opening(w.net))
  }

  /** A new stream that begins with the whole old one is always harmless. */
  lemma RewriteExtending(w: World, data: Bytes)
    requires Inv(w) && w.sender.gone && w.sender.written <= data && |data| < OFFSET_LIMIT
    ensures var v := Rewritten(w, data); S.Sound(v.sender) && Safe(v)
  {
    hide S.Sound, Legal, Run, AllExtend, Inv;
    var v := Rewritten(w, data);
    RewritePrefix(w, data);
    forall events | Legal(v, events) && AllExtend(v, events)
      ensures Run(v, events).out <= Run(v, events).sender.written
    {
      PrefixOverRun(v, events);
    }
  }

  lemma RewriteReadable(w: World, data: Bytes)
    requires Inv(w) && Backed(w) && w.sender.gone && Readable(w) && |data| < OFFSET_LIMIT
    ensures var v := Rewritten(w, data);
            S.Sound(v.sender) && (Safe(v) <==> w.sender.written <= data)
  {
    hide Covers, FinSent, Genuine, Honest, S.Sound, Legal, Run, AllExtend, Inv, Backed;
    var v, d := Rewritten(w, data), w.sender.written;
    if d <= data {
      RewriteExtending(w, data);
    } else {
      ForgottenDraws(w, data);
      QuietlyNone(v);
      var events, u := [], v;
      if !Reading(v.entry) { events, u := Reopens(v, events, u, d); }
      events, u := ReadsAll(v, events, u, d);
      assert Legal(v, events) && AllExtend(v, events) && !(Run(v, events).out <= Run(v, events).sender.written);
    }
  }

  lemma RewritePrefix(w: World, data: Bytes)
    requires Inv(w) && w.sender.gone && w.sender.written <= data && |data| < OFFSET_LIMIT
    ensures PrefixInv(Rewritten(w, data))
  {
    hide Honest, Holding, Matches, FinsTaken, FinLimits, S.Sound, S.Partitioned, S.FinOnce;
    InvPrefix(w);
    S.RebornSound(w.sender, data);
    forall id | id in w.net ensures Matches(w.net[id], data) { GrowMatches(w.net[id], w.sender.written, data); }
    if w.entry.Open? { GrowHolds(w.entry.rx, w.out, w.sender.written, data); }
  }

  lemma InvPrefix(w: World)
    requires Inv(w)
    ensures PrefixInv(w)
  {
    hide Holding, FinsTaken, FinLimits, S.Sound, S.Partitioned, S.FinOnce;
    forall id | id in w.net ensures Matches(w.net[id], w.sender.written) {}
  }

  lemma RewriteSilent(w: World, data: Bytes)
    requires Inv(w) && Backed(w) && w.sender.gone && w.local && !Reading(w.entry)
    ensures var v := Rewritten(w, data);
            S.Sound(v.sender) && (Safe(v) <==> w.out <= data)
  {
    hide Covers, FinSent, Genuine, Honest, S.Sound, Legal, Run, AllExtend, Inv;
    var v := Rewritten(w, data);
    S.RebornSound(w.sender, data);
    if w.out <= data {
      ForgottenDraws(w, data);
      forall events | Legal(v, events) && AllExtend(v, events)
        ensures Run(v, events).out <= Run(v, events).sender.written
      {
        SilentOverRun(v, events);
      }
    } else {
      QuietlyNone(v);
      assert Legal(v, []) && AllExtend(v, []) && Run(v, []) == v;
    }
  }

  /** Exactly when a write to a forgotten stream is harmless to the prefix property,
      whatever follows: if the receiver is still reading the old stream, or the peer
      opened it and a frame that opens it again is under way, when the new stream
      begins with the whole old one; if the receiver opened it and has stopped
      reading, when the new stream begins with what it has read. */
  lemma RewriteExact(local: bool, events: seq<Event>, data: Bytes)
    requires SingleUse(local, events)
    ensures var w := Reached(local, events);
            S.Sound(w.sender) &&
            (w.sender.gone && Enabled(w, Local(S.Write(data))) ==>
               var v := Do(w, Local(S.Write(data)));
               && S.Sound(v.sender)
               && (w.sender.written <= data ==> Safe(v))
               && (Readable(w) ==> (Safe(v) <==> w.sender.written <= data))
               && (local && !Reading(w.entry) ==> (Safe(v) <==> w.out <= data)))
  {
    hide Inv, Backed, Legal, Run, AllOnce, AllExtend, S.Sound, Safe, Readable, Reading;
    StartInv(local);
    StartBacked(local);
    S.StartSound();
    RunBacked(Start(local), events);
    var w := Reached(local, events);
    LocalStays(Start(local), events);
    InvSound(w);
    if w.sender.gone && Enabled(w, Local(S.Write(data))) {
      RewrittenIs(w, data);
      if w.sender.written <= data { RewriteExtending(w, data); }
      if Readable(w) { RewriteReadable(w, data); }
      if local && !Reading(w.entry) { RewriteSilent(w, data); }
    }
  }

  lemma LocalFixed(w: World, e: Event)
    requires S.Sound(w.sender) && Enabled(w, e)
    ensures Do(w, e).local == w.local
  {
    hide S.Sound, S.Enabled, S.Do, FrameIsWhole, Sent, Tx.Transmit;
  }

  lemma {:induction false} LocalStays(w: World, events: seq<Event>)
    requires S.Sound(w.sender) && Legal(w, events)
    ensures Run(w, events).local == w.local
    decreases |events|
  {
    hide S.Sound, Enabled, Do;
    if events != [] {
      SoundKept(w, events[0]);
      LocalFixed(w, events[0]);
      LocalStays(Do(w, events[0]), events[1..]);
    }
  }
}
