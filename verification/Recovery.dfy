/** Sent packets, in-flight accounting, ACK processing and loss detection over
    the three packet number spaces (core/src/connection/mod.rs, space.rs and
    path.rs). */
module Recovery {
  import opened Core
  import opened Congestion
  import L = RangeList

  const PACKET_NUMBER_LIMIT: nat := 0x4000_0000_0000_0000
  const TIMER_GRANULARITY: nat := 1_000_000

  /** Initial, Handshake and Data are 0, 1 and 2. */
  type SpaceId = i: nat | i < 3

  /** Metadata of a STREAM frame of some stream. */
  datatype StreamMeta = StreamMeta(id: nat, offsets: Range, fin: bool)

  /** Control information that a packet carried. */
  datatype Retransmits = Retransmits(
    hello: bool,
    resetStream: seq<(nat, nat)>,
    stopSending: seq<(nat, nat)>,
    ackFrequency: bool,
    handshakeDone: bool)
  {
    function Merge(other: Retransmits): Retransmits {
      Retransmits(hello || other.hello, resetStream + other.resetStream,
                  stopSending + other.stopSending, ackFrequency || other.ackFrequency,
                  handshakeDone || other.handshakeDone)
    }
  }

  const NO_RETRANSMITS: Retransmits := Retransmits(false, [], [], false, false)

  datatype SentPacket = SentPacket(
    number: nat,
    space: SpaceId,
    timeSent: nat,
    size: nat,
    ackEliciting: bool,
    largestAcked: Option<nat>,
    retransmits: Retransmits,
    frames: seq<StreamMeta>)

  datatype PacketSpace = PacketSpace(
    next: nat,
    largestAcked: Option<nat>,
    largestAckElicitingSent: nat,
    unackedTail: nat,
    sent: map<nat, SentPacket>,
    lossTime: Option<nat>,
    pending: Retransmits,
    inFlight: nat,
    ackRanges: seq<Range>)
  {
    function Take(number: nat): PacketSpace
      requires number in sent && sent[number].size <= inFlight
    {
      this.(sent := sent - {number}, inFlight := inFlight - sent[number].size)
    }

    function Sent(p: SentPacket): PacketSpace {
      this.(
        largestAckElicitingSent := if p.ackEliciting then p.number else largestAckElicitingSent,
        unackedTail := if p.ackEliciting then 0
                       else if p.number > largestAckElicitingSent then unackedTail + 1 else unackedTail,
        inFlight := inFlight + p.size,
        sent := sent[p.number := p])
    }
  }

  const NEW_SPACE: PacketSpace := PacketSpace(0, None, 0, 0, map[], None, NO_RETRANSMITS, 0, [])

  /** The path: packets scheduled, totals in flight, and the number of the first
      packet sent on it. */
  datatype Path = Path(
    queue: seq<SentPacket>,
    bytes: nat,
    ackEliciting: nat,
    first: Option<nat>)
  {
    /** Whether `remove_in_flight` takes packet `pn` to belong to this path. */
    predicate Owns(pn: nat) {
      first.Some? && first.value <= pn
    }

    function Insert(p: SentPacket): Path {
      this.(bytes := bytes + p.size, ackEliciting := ackEliciting + Elicits(p),
            first := if first.None? then Some(p.number) else first)
    }

    function Remove(p: SentPacket): Path
      requires p.size <= bytes && Elicits(p) <= ackEliciting
    {
      this.(bytes := bytes - p.size, ackEliciting := ackEliciting - Elicits(p))
    }
  }

  function Elicits(p: SentPacket): nat {
    if p.ackEliciting then 1 else 0
  }

  // ------------------------------------------------------------------------ sums

  /** Total size of the packets numbered below `n`. */
  ghost function Size(sent: map<nat, SentPacket>, n: nat): nat {
    if n == 0 then 0 else Size(sent, n - 1) + if n - 1 in sent then sent[n - 1].size else 0
  }

  /** How many of them expect an acknowledgement. */
  ghost function Eliciting(sent: map<nat, SentPacket>, n: nat): nat {
    if n == 0 then 0 else Eliciting(sent, n - 1) + if n - 1 in sent then Elicits(sent[n - 1]) else 0
  }

  /** It is their number. */
  lemma {:induction false} ElicitingCounts(sent: map<nat, SentPacket>, n: nat)
    ensures Eliciting(sent, n) == |set k | k in sent && k < n && sent[k].ackEliciting|
  {
    if n > 0 {
      ElicitingCounts(sent, n - 1);
      var before := set k | k in sent && k < n - 1 && sent[k].ackEliciting;
      var all := set k | k in sent && k < n && sent[k].ackEliciting;
      assert all == if n - 1 in sent && sent[n - 1].ackEliciting then before + {n - 1} else before;
    }
  }

  lemma {:induction false} SumsAgree(a: map<nat, SentPacket>, b: map<nat, SentPacket>, n: nat)
    requires forall k :: 0 <= k < n ==> (k in a <==> k in b) && (k in a ==> a[k] == b[k])
    ensures Size(a, n) == Size(b, n) && Eliciting(a, n) == Eliciting(b, n)
  {
    if n > 0 { SumsAgree(a, b, n - 1); }
  }

  lemma {:induction false} SumsRemove(sent: map<nat, SentPacket>, k: nat, n: nat)
    requires k in sent && k < n
    ensures Size(sent, n) == Size(sent - {k}, n) + sent[k].size
    ensures Eliciting(sent, n) == Eliciting(sent - {k}, n) + Elicits(sent[k])
  {
    if k == n - 1 {
      SumsAgree(sent, sent - {k}, n - 1);
    } else {
      SumsRemove(sent, k, n - 1);
    }
  }

  lemma SumsInsert(sent: map<nat, SentPacket>, p: SentPacket, n: nat)
    requires p.number !in sent && p.number < n
    ensures Size(sent[p.number := p], n) == Size(sent, n) + p.size
    ensures Eliciting(sent[p.number := p], n) == Eliciting(sent, n) + Elicits(p)
  {
    var s := sent[p.number := p];
    SumsRemove(s, p.number, n);
    assert s - {p.number} == sent;
  }

  lemma {:induction false} SumsEmpty(n: nat)
    ensures Size(map[], n) == 0 && Eliciting(map[], n) == 0
  {
    if n > 0 { SumsEmpty(n - 1); }
  }

  // ------------------------------------------------------------------- invariant

  /** One space: packets are filed under their own number and space, and its
      counter is the total size of what it holds. */
  ghost predicate SpaceOk(s: PacketSpace, id: SpaceId) {
    && (forall k :: k in s.sent ==> k < s.next && s.sent[k].number == k && s.sent[k].space == id)
    && s.inFlight == Size(s.sent, s.next)
    && (s.largestAcked.Some? ==> s.largestAcked.value < s.next)
    && L.Canonical(s.ackRanges)
  }

  /** Scheduled packets have allocated numbers, each once, not yet sent. */
  ghost predicate QueueOk(spaces: seq<PacketSpace>, queue: seq<SentPacket>)
    requires |spaces| == 3
  {
    && (forall i :: 0 <= i < |queue| ==>
          queue[i].number < spaces[queue[i].space].next && queue[i].number !in spaces[queue[i].space].sent)
    && (forall i, j :: 0 <= i < j < |queue| ==>
          !(queue[i].space == queue[j].space && queue[i].number == queue[j].number))
  }

  /** Until something has been sent, nothing is outstanding and the packet at the
      head of the queue is number zero; afterwards the first was number zero. */
  ghost predicate FirstOk(spaces: seq<PacketSpace>, path: Path)
    requires |spaces| == 3
  {
    match path.first
    case Some(n) => n == 0
    case None =>
      && (forall i :: 0 <= i < 3 ==> spaces[i].sent == map[])
      && (path.queue == [] ==> forall i :: 0 <= i < 3 ==> spaces[i].next == 0)
      && (path.queue != [] ==> path.queue[0].number == 0)
  }

  /** In-flight conservation. */
  ghost predicate Conserved(spaces: seq<PacketSpace>, path: Path) {
    && |spaces| == 3
    && (forall i :: 0 <= i < 3 ==> SpaceOk(spaces[i], i))
    && path.bytes == spaces[0].inFlight + spaces[1].inFlight + spaces[2].inFlight
    && path.ackEliciting == Eliciting(spaces[0].sent, spaces[0].next) + Eliciting(spaces[1].sent, spaces[1].next)
                            + Eliciting(spaces[2].sent, spaces[2].next)
    && QueueOk(spaces, path.queue)
    && FirstOk(spaces, path)
  }

  /** Taking a packet out of its space and off the path together: the path owns
      it, nothing underflows, and the totals still agree. */
  lemma TakeConserves(spaces: seq<PacketSpace>, path: Path, id: SpaceId, pn: nat)
    requires Conserved(spaces, path) && pn in spaces[id].sent
    ensures var p := spaces[id].sent[pn];
            && path.Owns(pn) && p.size <= spaces[id].inFlight
            && p.size <= path.bytes && Elicits(p) <= path.ackEliciting
            && Conserved(spaces[id := spaces[id].Take(pn)], path.Remove(p))
  {
    hide L.Canonical, Size, Eliciting;
    SumsRemove(spaces[id].sent, pn, spaces[id].next);
  }

  lemma ScheduleConserves(spaces: seq<PacketSpace>, path: Path, id: SpaceId, p: SentPacket)
    requires Conserved(spaces, path) && p.space == id && p.number == spaces[id].next
    ensures Conserved(spaces[id := spaces[id].(next := spaces[id].next + 1)], path.(queue := path.queue + [p]))
  {
    hide L.Canonical, QueueOk, FirstOk, Size, Eliciting;
    NothingNew(spaces[id].sent, spaces[id].next);
    ScheduleQueue(spaces, path, id, p);
  }

  lemma NothingNew(sent: map<nat, SentPacket>, n: nat)
    ensures n !in sent ==> Size(sent, n + 1) == Size(sent, n) && Eliciting(sent, n + 1) == Eliciting(sent, n)
  {}

  lemma ScheduleQueue(spaces: seq<PacketSpace>, path: Path, id: SpaceId, p: SentPacket)
    requires |spaces| == 3 && QueueOk(spaces, path.queue) && FirstOk(spaces, path)
    requires p.space == id && p.number == spaces[id].next && p.number !in spaces[id].sent
    ensures var spaces' := spaces[id := spaces[id].(next := spaces[id].next + 1)];
            var path' := path.(queue := path.queue + [p]);
            QueueOk(spaces', path'.queue) && FirstOk(spaces', path')
  {}

  lemma SendConserves(spaces: seq<PacketSpace>, path: Path, now: nat)
    requires Conserved(spaces, path) && path.queue != []
    ensures var p := path.queue[0].(timeSent := now);
            Conserved(spaces[p.space := spaces[p.space].Sent(p)], path.(queue := path.queue[1..]).Insert(p))
  {
    hide L.Canonical, Size, Eliciting, QueueOk, FirstOk;
    var p := path.queue[0].(timeSent := now);
    SendQueue(spaces, path, now);
    SumsInsert(spaces[p.space].sent, p, spaces[p.space].next);
  }

  lemma SendQueue(spaces: seq<PacketSpace>, path: Path, now: nat)
    requires |spaces| == 3 && QueueOk(spaces, path.queue) && FirstOk(spaces, path) && path.queue != []
    ensures var p := path.queue[0].(timeSent := now);
            var spaces' := spaces[p.space := spaces[p.space].Sent(p)];
            var path' := path.(queue := path.queue[1..]).Insert(p);
            && p.number < spaces[p.space].next && p.number !in spaces[p.space].sent
            && QueueOk(spaces', path'.queue) && FirstOk(spaces', path')
  {}

  // ------------------------------------------------------------- where frames are

  /** The STREAM frames of the packets numbered below `n`. */
  ghost function SentFrames(sent: map<nat, SentPacket>, n: nat): multiset<StreamMeta> {
    if n == 0 then multiset{}
    else SentFrames(sent, n - 1) + if n - 1 in sent then multiset(sent[n - 1].frames) else multiset{}
  }

  ghost function QueueFrames(queue: seq<SentPacket>): multiset<StreamMeta>
    decreases |queue|
  {
    if queue == [] then multiset{} else multiset(queue[0].frames) + QueueFrames(queue[1..])
  }

  /** Every frame ever scheduled is, as often as it was, in a queued packet, in an
      outstanding packet, or was handed over as acknowledged or as lost; and only
      packets of the Data space carry any. */
  ghost predicate Ledger(spaces: seq<PacketSpace>, queue: seq<SentPacket>,
                         scheduled: multiset<StreamMeta>, acked: seq<StreamMeta>, lost: seq<StreamMeta>) {
    && |spaces| == 3
    && scheduled == QueueFrames(queue) + SentFrames(spaces[2].sent, spaces[2].next) + multiset(acked) + multiset(lost)
    && (forall i, k :: 0 <= i < 2 && k in spaces[i].sent ==> spaces[i].sent[k].frames == [])
    && (forall i :: 0 <= i < |queue| && queue[i].space != 2 ==> queue[i].frames == [])
  }

  lemma {:induction false} FramesAgree(a: map<nat, SentPacket>, b: map<nat, SentPacket>, n: nat)
    requires forall k :: 0 <= k < n ==> (k in a <==> k in b) && (k in a ==> a[k] == b[k])
    ensures SentFrames(a, n) == SentFrames(b, n)
  {
    if n > 0 { FramesAgree(a, b, n - 1); }
  }

  lemma {:induction false} FramesRemove(sent: map<nat, SentPacket>, k: nat, n: nat)
    requires k in sent && k < n
    ensures SentFrames(sent, n) == SentFrames(sent - {k}, n) + multiset(sent[k].frames)
  {
    if k == n - 1 {
      FramesAgree(sent, sent - {k}, n - 1);
    } else {
      FramesRemove(sent, k, n - 1);
    }
  }

  lemma FramesInsert(sent: map<nat, SentPacket>, p: SentPacket, n: nat)
    requires p.number !in sent && p.number < n
    ensures SentFrames(sent[p.number := p], n) == SentFrames(sent, n) + multiset(p.frames)
  {
    var s := sent[p.number := p];
    FramesRemove(s, p.number, n);
    assert s - {p.number} == sent;
  }

  lemma {:induction false} QueueAppend(queue: seq<SentPacket>, p: SentPacket)
    ensures QueueFrames(queue + [p]) == QueueFrames(queue) + multiset(p.frames)
    decreases |queue|
  {
    if queue == [] {
      assert ([p])[1..] == [] && queue + [p] == [p];
    } else {
      QueueAppend(queue[1..], p);
      assert (queue + [p])[1..] == queue[1..] + [p];
    }
  }

  lemma ScheduleLedger(spaces: seq<PacketSpace>, queue: seq<SentPacket>, p: SentPacket, next: nat,
                       scheduled: multiset<StreamMeta>, acked: seq<StreamMeta>, lost: seq<StreamMeta>)
    requires Ledger(spaces, queue, scheduled, acked, lost) && (p.space != 2 ==> p.frames == [])
    requires next == spaces[p.space].next && next !in spaces[p.space].sent
    ensures Ledger(spaces[p.space := spaces[p.space].(next := next + 1)], queue + [p],
                   scheduled + multiset(p.frames), acked, lost)
  {
    QueueAppend(queue, p);
  }

  lemma SendLedger(spaces: seq<PacketSpace>, queue: seq<SentPacket>, p: SentPacket,
                   scheduled: multiset<StreamMeta>, acked: seq<StreamMeta>, lost: seq<StreamMeta>)
    requires Ledger(spaces, queue, scheduled, acked, lost) && queue != []
    requires p.frames == queue[0].frames && p.space == queue[0].space
    requires p.number < spaces[p.space].next && p.number !in spaces[p.space].sent
    ensures Ledger(spaces[p.space := spaces[p.space].Sent(p)], queue[1..], scheduled, acked, lost)
  {
    hide SentFrames;
    FramesInsert(spaces[p.space].sent, p, spaces[p.space].next);
  }

  /** A packet leaves its space and its frames are handed over. */
  lemma HandOverLedger(spaces: seq<PacketSpace>, queue: seq<SentPacket>, id: SpaceId, pn: nat, s: PacketSpace,
                       scheduled: multiset<StreamMeta>, acked: seq<StreamMeta>, lost: seq<StreamMeta>)
    requires Ledger(spaces, queue, scheduled, acked, lost) && pn in spaces[id].sent && pn < spaces[id].next
    requires s.sent == spaces[id].sent - {pn} && s.next == spaces[id].next
    ensures Ledger(spaces[id := s], queue, scheduled, acked + spaces[id].sent[pn].frames, lost)
    ensures Ledger(spaces[id := s], queue, scheduled, acked, lost + spaces[id].sent[pn].frames)
  {
    hide SentFrames, QueueFrames;
    FramesRemove(spaces[id].sent, pn, spaces[id].next);
  }

  lemma SameLedger(spaces: seq<PacketSpace>, queue: seq<SentPacket>, id: SpaceId, s: PacketSpace,
                   scheduled: multiset<StreamMeta>, acked: seq<StreamMeta>, lost: seq<StreamMeta>)
    requires Ledger(spaces, queue, scheduled, acked, lost)
    requires s.next == spaces[id].next && (s.sent == spaces[id].sent || (s.sent == map[] && id != 2))
    ensures Ledger(spaces[id := s], queue, scheduled, acked, lost)
  {
    hide SentFrames, QueueFrames;
  }

  // -------------------------------------------------- what is lost, and until when

  function LossDelay(rtt: Rtt): nat {
    Max(rtt.Conservative() * 9 / 8, TIMER_GRANULARITY)
  }

  /** Packets sent no later than this are lost; before the clock has run for the
      delay, every packet is. */
  function Cutoff(now: nat, delay: nat): nat {
    if delay <= now then now - delay else now
  }

  /** The lost packets numbered below `n`, in increasing order. */
  ghost function LostBelow(sent: map<nat, SentPacket>, cutoff: nat, n: nat): seq<SentPacket> {
    if n == 0 then []
    else LostBelow(sent, cutoff, n - 1)
         + if n - 1 in sent && sent[n - 1].timeSent <= cutoff then [sent[n - 1]] else []
  }

  /** The earliest deadline among the packets below `n` that are not lost. */
  ghost function Deadline(sent: map<nat, SentPacket>, cutoff: nat, delay: nat, n: nat): Option<nat> {
    if n == 0 then None
    else
      var before := Deadline(sent, cutoff, delay, n - 1);
      if n - 1 in sent && sent[n - 1].timeSent > cutoff then
        var d := sent[n - 1].timeSent + delay;
        if before.None? then Some(d) else Some(Min(before.value, d))
      else before
  }

  /** Outstanding packets that the loss pass leaves. */
  ghost function Survivors(sent: map<nat, SentPacket>, cutoff: nat, n: nat): map<nat, SentPacket> {
    map k | k in sent && !(k < n && sent[k].timeSent <= cutoff) :: sent[k]
  }

  function FramesOf(packets: seq<SentPacket>): seq<StreamMeta>
    decreases |packets|
  {
    if packets == [] then [] else FramesOf(packets[..|packets| - 1]) + packets[|packets| - 1].frames
  }

  function MergeAll(pending: Retransmits, packets: seq<SentPacket>): Retransmits
    decreases |packets|
  {
    if packets == [] then pending
    else MergeAll(pending, packets[..|packets| - 1]).Merge(packets[|packets| - 1].retransmits)
  }

  function CongestAll(c: Reno, now: nat, packets: seq<SentPacket>): Reno
    decreases |packets|
  {
    if packets == [] then c
    else
      var c' := CongestAll(c, now, packets[..|packets| - 1]);
      var p := packets[|packets| - 1];
      if p.ackEliciting then c'.OnCongestionEvent(now, p.timeSent) else c'
  }

  /** Packets in an order of increasing number, filed in `sent`. */
  ghost predicate Increasing(sent: map<nat, SentPacket>, packets: seq<SentPacket>, n: nat) {
    && (forall i :: 0 <= i < |packets| ==>
          packets[i].number in sent && sent[packets[i].number] == packets[i] && packets[i].number < n)
    && (forall i, j :: 0 <= i < j < |packets| ==> packets[i].number < packets[j].number)
  }

  /** The loss pass picks exactly the packets below `n` that are old enough, each
      once. */
  lemma {:induction false} LostExact(sent: map<nat, SentPacket>, cutoff: nat, n: nat)
    requires forall k :: k in sent ==> sent[k].number == k
    ensures Increasing(sent, LostBelow(sent, cutoff, n), n)
    ensures forall k :: k in sent ==> (sent[k] in LostBelow(sent, cutoff, n) <==> k < n && sent[k].timeSent <= cutoff)
  {
    if n > 0 {
      LostExact(sent, cutoff, n - 1);
      var before := LostBelow(sent, cutoff, n - 1);
      forall k | k in sent
        ensures sent[k] in LostBelow(sent, cutoff, n) <==> k < n && sent[k].timeSent <= cutoff
      {
        assert k != n - 1 ==> (sent[k] in LostBelow(sent, cutoff, n) <==> sent[k] in before);
      }
    }
  }

  /** The loss timer is set to the earliest deadline among the survivors. */
  lemma {:induction false} DeadlineExact(sent: map<nat, SentPacket>, cutoff: nat, delay: nat, n: nat)
    ensures var d := Deadline(sent, cutoff, delay, n);
            && (d.None? <==> forall k :: k in sent && k < n ==> sent[k].timeSent <= cutoff)
            && (d.Some? ==>
                  && (exists k :: k in sent && k < n && sent[k].timeSent > cutoff && sent[k].timeSent + delay == d.value)
                  && (forall k :: k in sent && k < n && sent[k].timeSent > cutoff ==> d.value <= sent[k].timeSent + delay))
  {
    if n > 0 { DeadlineExact(sent, cutoff, delay, n - 1); }
  }

  /** However many packets a pass finds lost, the window is cut at most once: a
      cut moves the start of recovery to `now`, and no lost packet was sent
      later. */
  lemma {:induction false} CutAtMostOnce(c: Reno, now: nat, packets: seq<SentPacket>)
    requires forall i :: 0 <= i < |packets| ==> packets[i].timeSent <= now
    ensures var after := CongestAll(c, now, packets);
            if exists i :: 0 <= i < |packets| && packets[i].ackEliciting && packets[i].timeSent > c.recoveryStart
            then after == c.OnCongestionEvent(now, c.recoveryStart + 1)
            else after == c
    decreases |packets|
  {
    if packets != [] {
      var front, p := packets[..|packets| - 1], packets[|packets| - 1];
      CutAtMostOnce(c, now, front);
      if exists i :: 0 <= i < |front| && front[i].ackEliciting && front[i].timeSent > c.recoveryStart {
        var i :| 0 <= i < |front| && front[i].ackEliciting && front[i].timeSent > c.recoveryStart;
        assert packets[i] == front[i];
      } else {
        assert forall i :: 0 <= i < |front| ==> packets[i] == front[i];
      }
    }
  }

  /** So the loss pass as a whole cuts the window at most once, and does so
      exactly if it finds a lost, ack-eliciting packet that was sent after the
      last cut. */
  lemma LossPassCutsOnce(sent: map<nat, SentPacket>, c: Reno, now: nat, delay: nat, n: nat)
    requires forall k :: k in sent ==> sent[k].number == k
    ensures var lost := LostBelow(sent, Cutoff(now, delay), n);
            var newLoss := exists k :: k in sent && k < n && sent[k].timeSent <= Cutoff(now, delay)
                                     && sent[k].ackEliciting && sent[k].timeSent > c.recoveryStart;
            CongestAll(c, now, lost) == if newLoss then c.OnCongestionEvent(now, c.recoveryStart + 1) else c
  {
    hide LostBelow, CongestAll;
    var lost := LostBelow(sent, Cutoff(now, delay), n);
    LostExact(sent, Cutoff(now, delay), n);
    forall i | 0 <= i < |lost| ensures lost[i].timeSent <= now {
      assert sent[lost[i].number] in lost;
    }
    CutAtMostOnce(c, now, lost);
    if exists i :: 0 <= i < |lost| && lost[i].ackEliciting && lost[i].timeSent > c.recoveryStart {
      var i :| 0 <= i < |lost| && lost[i].ackEliciting && lost[i].timeSent > c.recoveryStart;
      assert sent[lost[i].number] in lost;
    } else {
      forall k | k in sent && k < n && sent[k].timeSent <= Cutoff(now, delay) && sent[k].ackEliciting
        ensures sent[k].timeSent <= c.recoveryStart
      {
        var i :| 0 <= i < |lost| && lost[i] == sent[k];
      }
    }
  }

  // -------------------------------------------------------------- what is acked

  /** The packets of a range that are still outstanding, in increasing order. */
  ghost function TakenIn(sent: map<nat, SentPacket>, lo: nat, hi: nat): seq<SentPacket>
    decreases hi
  {
    if hi <= lo then []
    else TakenIn(sent, lo, hi - 1) + if hi - 1 in sent then [sent[hi - 1]] else []
  }

  ghost function Without(sent: map<nat, SentPacket>, lo: nat, hi: nat): map<nat, SentPacket> {
    map k | k in sent && !(lo <= k < hi) :: sent[k]
  }

  /** The packets that a list of ranges takes, range by range. */
  ghost function TakenAll(sent: map<nat, SentPacket>, ranges: seq<Range>): seq<SentPacket>
    decreases |ranges|
  {
    if ranges == [] then []
    else TakenAll(sent, ranges[..|ranges| - 1])
         + TakenIn(WithoutAll(sent, ranges[..|ranges| - 1]), ranges[|ranges| - 1].start, ranges[|ranges| - 1].end)
  }

  ghost function WithoutAll(sent: map<nat, SentPacket>, ranges: seq<Range>): map<nat, SentPacket>
    decreases |ranges|
  {
    if ranges == [] then sent
    else Without(WithoutAll(sent, ranges[..|ranges| - 1]), ranges[|ranges| - 1].start, ranges[|ranges| - 1].end)
  }

  /** The packet with the largest number. */
  ghost function Newest(packets: seq<SentPacket>): SentPacket
    requires packets != []
    decreases |packets|
  {
    var p := packets[|packets| - 1];
    if |packets| == 1 then p
    else
      var before := Newest(packets[..|packets| - 1]);
      if p.number > before.number then p else before
  }

  function GrowAll(c: Reno, packets: seq<SentPacket>, appLimited: bool): Reno
    decreases |packets|
  {
    if packets == [] then c
    else
      var c' := GrowAll(c, packets[..|packets| - 1], appLimited);
      var p := packets[|packets| - 1];
      if p.ackEliciting then c'.OnAck(p.timeSent, p.size, appLimited) else c'
  }

  /** Each packet that carried an ACK shows that the peer knows it: what it
      acknowledged, and one number more, is dropped from the pending ranges. */
  function ForgetAll(ranges: seq<Range>, packets: seq<SentPacket>): seq<Range>
    decreases |packets|
  {
    if packets == [] then ranges
    else
      var r := ForgetAll(ranges, packets[..|packets| - 1]);
      var p := packets[|packets| - 1];
      if p.largestAcked.Some? then L.Remove(r, Range(0, p.largestAcked.value + 2)) else r
  }

  lemma {:induction false} TakenInExact(sent: map<nat, SentPacket>, lo: nat, hi: nat)
    requires forall k :: k in sent ==> sent[k].number == k
    ensures Increasing(sent, TakenIn(sent, lo, hi), hi)
    ensures forall k :: k in sent ==> (sent[k] in TakenIn(sent, lo, hi) <==> lo <= k < hi)
    decreases hi
  {
    if lo < hi {
      TakenInExact(sent, lo, hi - 1);
      var before := TakenIn(sent, lo, hi - 1);
      forall k | k in sent ensures sent[k] in TakenIn(sent, lo, hi) <==> lo <= k < hi {
        assert k != hi - 1 ==> (sent[k] in TakenIn(sent, lo, hi) <==> sent[k] in before);
      }
    }
  }

  lemma {:induction false} WithoutAllWithin(sent: map<nat, SentPacket>, ranges: seq<Range>)
    ensures forall k :: k in WithoutAll(sent, ranges) ==> k in sent && WithoutAll(sent, ranges)[k] == sent[k]
    decreases |ranges|
  {
    if ranges != [] { WithoutAllWithin(sent, ranges[..|ranges| - 1]); }
  }

  /** An ACK takes exactly the outstanding packets that its ranges name. */
  lemma {:induction false} TakenExact(sent: map<nat, SentPacket>, ranges: seq<Range>, k: nat)
    requires (forall j :: j in sent ==> sent[j].number == j) && k in sent
    ensures k in WithoutAll(sent, ranges) <==> forall i :: 0 <= i < |ranges| ==> !ranges[i].Contains(k)
    ensures sent[k] in TakenAll(sent, ranges) <==> k !in WithoutAll(sent, ranges)
    decreases |ranges|
  {
    if ranges != [] {
      var front, r := ranges[..|ranges| - 1], ranges[|ranges| - 1];
      var mid := WithoutAll(sent, front);
      TakenExact(sent, front, k);
      WithoutAllWithin(sent, front);
      assert forall i :: 0 <= i < |front| ==> ranges[i] == front[i];
      if k in mid {
        TakenInExact(mid, r.start, r.end);
      } else {
        TakenOnly(mid, r.start, r.end, sent, k);
      }
    }
  }

  /** Only what is still outstanding can be taken. */
  lemma {:induction false} TakenOnly(mid: map<nat, SentPacket>, lo: nat, hi: nat, sent: map<nat, SentPacket>, k: nat)
    requires forall j :: j in sent ==> sent[j].number == j
    requires forall j :: j in mid ==> j in sent && mid[j] == sent[j]
    requires k in sent && k !in mid
    ensures sent[k] !in TakenIn(mid, lo, hi)
    decreases hi
  {
    if lo < hi { TakenOnly(mid, lo, hi - 1, sent, k); }
  }
}
