/** The queue of streams with outgoing data (`PendingStreamsQueue` in
    core/src/connection/stream/state.rs): a heap on priority and a counter that
    runs down, proved to be first come, first served within each priority. */
module Scheduler {
  import opened Core

  /** The highest priority wins, then the larger recency. */
  datatype PendingStream = PendingStream(priority: int, recency: int, id: nat) {
    predicate Beats(other: PendingStream) {
      || priority > other.priority
      || (priority == other.priority && recency > other.recency)
      || (priority == other.priority && recency == other.recency && id > other.id)
    }
  }

  const FIRST_RECENCY: int := 0xffff_ffff_ffff_ffff

  /** The longest waiting among those of the highest priority. */
  function Best(waiting: seq<PendingStream>): (k: nat)
    requires waiting != []
    ensures k < |waiting|
    ensures forall i :: 0 <= i < |waiting| ==> waiting[i].priority <= waiting[k].priority
    ensures forall i :: 0 <= i < k ==> waiting[i].priority < waiting[k].priority
    decreases |waiting|
  {
    var n := |waiting| - 1;
    if n == 0 then 0
    else
      var k := Best(waiting[..n]);
      if waiting[n].priority > waiting[k].priority then n else k
  }

  /** The queue as a list in order of arrival. */
  datatype Queue = Queue(next: Option<PendingStream>, waiting: seq<PendingStream>, recency: int) {
    function Push(id: nat, priority: int): Queue {
      this.(waiting := waiting + [PendingStream(priority, recency - 1, id)], recency := recency - 1)
    }

    function Reinsert(id: nat, priority: int): Queue {
      this.(next := Some(PendingStream(priority, recency, id)))
    }

    function Pop(): (Queue, Option<PendingStream>) {
      if next.Some? then (this.(next := None), next)
      else if waiting == [] then (this, None)
      else
        var k := Best(waiting);
        (this.(waiting := waiting[..k] + waiting[k + 1..]), Some(waiting[k]))
    }

    function Size(): nat {
      |waiting| + if next.Some? then 1 else 0
    }

    /** Whether a stream has an entry. */
    predicate Has(id: nat) {
      (next.Some? && next.value.id == id) || exists i :: 0 <= i < |waiting| && waiting[i].id == id
    }

    /** Recencies run down in order of arrival. */
    ghost predicate Ordered() {
      && (forall i :: 0 <= i < |waiting| ==> recency <= waiting[i].recency)
      && (forall i, j :: 0 <= i < j < |waiting| ==> waiting[j].recency < waiting[i].recency)
    }
  }

  const NO_STREAMS: Queue := Queue(None, [], FIRST_RECENCY)

  /** In an ordered queue the greatest heap element is the best in the list. */
  lemma BestIsGreatest(q: Queue, e: PendingStream)
    requires q.Ordered() && e in q.waiting
    ensures var best := q.waiting[Best(q.waiting)]; e == best || best.Beats(e)
  {}

  function Elements(waiting: seq<PendingStream>): set<PendingStream> {
    set e | e in waiting
  }

  predicate IsTop(streams: set<PendingStream>, top: PendingStream) {
    top in streams && forall e :: e in streams ==> e == top || top.Beats(e)
  }

  /** The heap's top exists, is unique and is the best in the list. */
  lemma TopIsBest(q: Queue)
    requires q.Ordered() && q.waiting != []
    ensures IsTop(Elements(q.waiting), q.waiting[Best(q.waiting)])
    ensures forall top :: IsTop(Elements(q.waiting), top) ==> top == q.waiting[Best(q.waiting)]
  {
    forall e | e in Elements(q.waiting)
      ensures e == q.waiting[Best(q.waiting)] || q.waiting[Best(q.waiting)].Beats(e)
    {
      BestIsGreatest(q, e);
    }
  }

  lemma PopOrdered(q: Queue)
    requires q.Ordered()
    ensures q.Pop().0.Ordered()
  {}

  lemma PopElements(waiting: seq<PendingStream>, k: nat)
    requires k < |waiting| && forall i, j :: 0 <= i < j < |waiting| ==> waiting[j].recency < waiting[i].recency
    ensures Elements(waiting[..k] + waiting[k + 1..]) == Elements(waiting) - {waiting[k]}
  {
    var rest := waiting[..k] + waiting[k + 1..];
    forall e | e in waiting && e != waiting[k] ensures e in rest {
      var i :| 0 <= i < |waiting| && waiting[i] == e;
      assert i < k ==> rest[i] == e;
      assert i > k ==> rest[i - 1] == e;
    }
  }

  class PendingStreamsQueue {
    /** The heap. */
    var streams: set<PendingStream>
    var next: Option<PendingStream>
    var recency: int
    ghost var waiting: seq<PendingStream>

    ghost function View(): Queue
      reads this
    {
      Queue(next, waiting, recency)
    }

    ghost predicate Valid()
      reads this
    {
      View().Ordered() && streams == Elements(waiting)
    }

    constructor ()
      ensures Valid() && View() == NO_STREAMS
    {
      streams, next, recency, waiting := {}, None, FIRST_RECENCY, [];
    }

    method ReinsertPending(id: nat, priority: int)
      requires Valid() && next.None?
      modifies this
      ensures Valid() && View() == old(View()).Reinsert(id, priority)
    {
      next := Some(PendingStream(priority, recency, id));
    }

    method PushPending(id: nat, priority: int)
      requires Valid()
      modifies this
      ensures Valid() && View() == old(View()).Push(id, priority)
    {
      recency := recency - 1;
      var e := PendingStream(priority, recency, id);
      streams := streams + {e};
      waiting := waiting + [e];
    }

    method Pop() returns (r: Option<PendingStream>)
      requires Valid()
      modifies this
      ensures Valid() && (View(), r) == old(View()).Pop()
    {
      hide Best, Elements, IsTop;
      PopOrdered(View());
      if next.Some? {
        r, next := next, None;
      } else if streams == {} {
        NoElements(waiting);
        r := None;
      } else {
        NoElements(waiting);
        ghost var k := Best(waiting);
        TopIsBest(View());
        PopElements(waiting, k);
        var top :| IsTop(streams, top);
        streams := streams - {top};
        waiting := waiting[..k] + waiting[k + 1..];
        r := Some(top);
      }
    }
  }

  lemma NoElements(waiting: seq<PendingStream>)
    ensures Elements(waiting) == {} <==> waiting == []
  {
    if waiting != [] { assert waiting[0] in Elements(waiting); }
  }

  // ---------------------------------------------------------------- fair service

  datatype Op = PushOp(id: nat, priority: int) | PopOp

  function Apply(q: Queue, op: Op): (Queue, seq<PendingStream>) {
    match op
    case PushOp(id, priority) => (q.Push(id, priority), [])
    case PopOp =>
      var (q', r) := q.Pop();
      (q', if r.Some? then [r.value] else [])
  }

  /** Everything that a run serves, in order. */
  function Served(q: Queue, ops: seq<Op>): seq<PendingStream>
    decreases |ops|
  {
    if ops == [] then [] else Apply(q, ops[0]).1 + Served(Apply(q, ops[0]).0, ops[1..])
  }

  lemma ApplyOrdered(q: Queue, op: Op)
    requires q.Ordered() && q.next.None?
    ensures Apply(q, op).0.Ordered() && Apply(q, op).0.next.None? && Apply(q, op).0.recency <= q.recency
  {}

  /** Whatever is served is waiting now or comes later. */
  lemma {:induction false} ServedFrom(q: Queue, ops: seq<Op>, e: PendingStream)
    requires q.Ordered() && q.next.None? && e in Served(q, ops)
    ensures e in q.waiting || e.recency < q.recency
    decreases |ops|
  {
    ApplyOrdered(q, ops[0]);
    var (q', out) := Apply(q, ops[0]);
    if e !in out { ServedFrom(q', ops[1..], e); }
  }

  /** No overtaking: over any run of pushes and pops, entries of the same
      priority are served in the order in which they were pushed. */
  lemma {:induction false} NoOvertaking(q: Queue, ops: seq<Op>, i: nat, j: nat)
    requires q.Ordered() && q.next.None? && i < j < |Served(q, ops)|
    requires Served(q, ops)[i].priority == Served(q, ops)[j].priority
    ensures Served(q, ops)[j].recency < Served(q, ops)[i].recency
    decreases |ops|
  {
    hide Best, Queue.Ordered;
    ApplyOrdered(q, ops[0]);
    var (q', out) := Apply(q, ops[0]);
    var later := Served(q', ops[1..]);
    assert Served(q, ops) == out + later;
    if i >= |out| {
      NoOvertaking(q', ops[1..], i - |out|, j - |out|);
    } else {
      var e := later[j - 1];
      ServedFrom(q', ops[1..], e);
      PoppedFirst(q, e);
    }
  }

  /** What is popped was pushed before everything of its priority that stays. */
  lemma PoppedFirst(q: Queue, e: PendingStream)
    requires q.Ordered() && q.next.None? && q.Pop().1.Some?
    requires e.priority == q.Pop().1.value.priority && (e in q.Pop().0.waiting || e.recency < q.recency)
    ensures e.recency < q.Pop().1.value.recency
  {}

  /** How many waiting entries will be served before one that was pushed at
      `recency`. */
  function Ahead(waiting: seq<PendingStream>, priority: int, recency: int): nat
    decreases |waiting|
  {
    if waiting == [] then 0
    else Ahead(waiting[1..], priority, recency)
         + if waiting[0].priority > priority || (waiting[0].priority == priority && waiting[0].recency > recency) then 1 else 0
  }

  lemma {:induction false} AheadConcat(a: seq<PendingStream>, b: seq<PendingStream>, p: int, r: int)
    ensures Ahead(a + b, p, r) == Ahead(a, p, r) + Ahead(b, p, r)
    decreases |a|
  {
    if a == [] {
      assert a + b == b;
    } else {
      AheadConcat(a[1..], b, p, r);
      assert (a + b)[1..] == a[1..] + b;
    }
  }

  lemma AheadRemove(waiting: seq<PendingStream>, k: nat, p: int, r: int)
    requires k < |waiting|
    ensures Ahead(waiting, p, r) == Ahead(waiting[..k] + waiting[k + 1..], p, r) + Ahead([waiting[k]], p, r)
  {
    AheadConcat(waiting[..k], waiting[k..], p, r);
    AheadConcat([waiting[k]], waiting[k + 1..], p, r);
    AheadConcat(waiting[..k], waiting[k + 1..], p, r);
    SplitAt(waiting, k);
  }

  function Pops(ops: seq<Op>): nat
    decreases |ops|
  {
    if ops == [] then 0 else Pops(ops[1..]) + if ops[0].PopOp? then 1 else 0
  }

  function Higher(ops: seq<Op>, priority: int): nat
    decreases |ops|
  {
    if ops == [] then 0
    else Higher(ops[1..], priority) + if ops[0].PushOp? && ops[0].priority > priority then 1 else 0
  }

  /** Bounded waiting: an entry is served as soon as there have been more pops
      than entries ahead of it and pushes of higher priority. Pushes of its own
      priority, such as those of streams that were just served, do not count. */
  lemma {:induction false} ServedInTurn(q: Queue, ops: seq<Op>, e: PendingStream)
    requires q.Ordered() && q.next.None? && e in q.waiting
    requires Pops(ops) > Ahead(q.waiting, e.priority, e.recency) + Higher(ops, e.priority)
    ensures e in Served(q, ops)
    decreases |ops|
  {
    ApplyOrdered(q, ops[0]);
    var (q', out) := Apply(q, ops[0]);
    if e !in out {
      ApplyAhead(q, ops[0], e);
      ServedInTurn(q', ops[1..], e);
    }
  }

  lemma ApplyAhead(q: Queue, op: Op, e: PendingStream)
    requires q.Ordered() && q.next.None? && e in q.waiting && e !in Apply(q, op).1
    ensures var q' := Apply(q, op).0;
            && e in q'.waiting
            && Ahead(q'.waiting, e.priority, e.recency) + (if op.PopOp? then 1 else 0)
               == Ahead(q.waiting, e.priority, e.recency) + (if op.PushOp? && op.priority > e.priority then 1 else 0)
  {
    match op {
      case PushOp(id, priority) =>
        var p := PendingStream(priority, q.recency - 1, id);
        AheadConcat(q.waiting, [p], e.priority, e.recency);
        assert [p][1..] == [];
      case PopOp =>
        var k := Best(q.waiting);
        BestIsGreatest(q, e);
        AheadRemove(q.waiting, k, e.priority, e.recency);
        PopElements(q.waiting, k);
        assert [q.waiting[k]][1..] == [];
        assert e in Elements(q.waiting) - {q.waiting[k]};
    }
  }
}
