/** The two range sets are interchangeable: any shared history of operations
    leaves them with the same ranges and gets the same replies from both. */
module RangeSetAgreement {
  import opened Core
  import L = RangeList
  import Tree = BTreeRangeSet
  import Array = ArrayRangeSet

  datatype Op =
    | Insert(r: Range)
    | InsertOne(x: nat)
    | Remove(r: Range)
    | Subtract(others: seq<Range>)  // the set that these insertions build
    | PopMin

  datatype Reply = Changed(changed: bool) | Popped(popped: Option<Range>) | Done

  function InsertAll(s: seq<Range>, rs: seq<Range>): seq<Range>
    decreases |rs|
  {
    if rs == [] then s else InsertAll(L.Insert(s, rs[0]), rs[1..])
  }

  /** The reference meaning of one operation. */
  function Step(s: seq<Range>, op: Op): (seq<Range>, Reply) {
    match op
    case Insert(r) => (L.Insert(s, r), Changed(L.Insert(s, r) != s))
    case InsertOne(x) => (L.Insert(s, Range(x, x + 1)), Changed(L.Insert(s, Range(x, x + 1)) != s))
    case Remove(r) => (L.Remove(s, r), Changed(L.Remove(s, r) != s))
    case Subtract(others) => (L.RemoveAll(s, InsertAll([], others)), Done)
    case PopMin => if s == [] then (s, Popped(None)) else (s[1..], Popped(Some(s[0])))
  }

  function Run(s: seq<Range>, ops: seq<Op>): (seq<Range>, seq<Reply>)
    decreases |ops|
  {
    if ops == [] then (s, [])
    else
      var (s1, reply) := Step(s, ops[0]);
      var (s2, replies) := Run(s1, ops[1..]);
      (s2, [reply] + replies)
  }

  lemma {:induction false} RunSnoc(s: seq<Range>, ops: seq<Op>, op: Op)
    ensures var (s1, replies) := Run(s, ops);
            var (s2, reply) := Step(s1, op);
            Run(s, ops + [op]) == (s2, replies + [reply])
    decreases |ops|
  {
    if ops == [] {
      assert ops + [op] == [op] && [op][1..] == [];
      assert Run(Step(s, op).0, []) == (Step(s, op).0, []);
      assert [] + [Step(s, op).1] == [Step(s, op).1] == [Step(s, op).1] + [];
    } else {
      var s1 := Step(s, ops[0]).0;
      RunSnoc(s1, ops[1..], op);
      assert (ops + [op])[1..] == ops[1..] + [op];
      var (s2, reply) := Step(Run(s, ops).0, op);
      assert [Step(s, ops[0]).1] + (Run(s1, ops[1..]).1 + [reply]) == Run(s, ops).1 + [reply];
    }
  }

  lemma {:induction false} InsertAllSpec(s: seq<Range>, rs: seq<Range>)
    requires L.Canonical(s)
    ensures L.Canonical(InsertAll(s, rs))
    ensures forall x: nat :: L.Has(InsertAll(s, rs), x) <==> L.Has(s, x) || L.Has(rs, x)
    decreases |rs|
  {
    if rs != [] {
      L.InsertSpec(s, rs[0]);
      InsertAllSpec(L.Insert(s, rs[0]), rs[1..]);
      forall x: nat { L.HasSplit(rs, x); }
    }
  }

  /** The mathematical set after one operation, and when a reply is `true`:
      exactly when the set changed. `PopMin` takes the longest run of
      consecutive integers that starts at the minimum. */
  lemma StepMeaning(s: seq<Range>, op: Op)
    requires L.Canonical(s)
    ensures var (t, reply) := Step(s, op);
            && L.Canonical(t)
            && match op
               case Insert(r) =>
                 && (forall x: nat :: L.Has(t, x) <==> L.Has(s, x) || r.Contains(x))
                 && (reply.changed <==> exists x: nat :: L.Has(s, x) != L.Has(t, x))
               case InsertOne(y) =>
                 && (forall x: nat :: L.Has(t, x) <==> L.Has(s, x) || x == y)
                 && (reply.changed <==> !L.Has(s, y))
               case Remove(r) =>
                 && (forall x: nat :: L.Has(t, x) <==> L.Has(s, x) && !r.Contains(x))
                 && (reply.changed <==> exists x: nat :: L.Has(s, x) != L.Has(t, x))
               case Subtract(others) =>
                 forall x: nat :: L.Has(t, x) <==> L.Has(s, x) && !L.Has(others, x)
               case PopMin =>
                 && (reply.popped.None? <==> forall x: nat :: !L.Has(s, x))
                 && (reply.popped.Some? ==>
                       var p := reply.popped.value;
                       && L.Has(s, p.start) && !L.Has(s, p.end)
                       && (forall x: nat :: p.Contains(x) ==> L.Has(s, x))
                       && (forall x: nat :: L.Has(s, x) ==> p.start <= x)
                       && (forall x: nat :: L.Has(t, x) <==> L.Has(s, x) && !p.Contains(x)))
  {
    match op
    case Insert(r) => L.InsertSpec(s, r); ChangedMeaning(s, L.Insert(s, r));
    case InsertOne(y) => InsertOneMeaning(s, y);
    case Remove(r) => L.RemoveSpec(s, r); ChangedMeaning(s, L.Remove(s, r));
    case Subtract(others) => InsertAllSpec([], others); L.RemoveAllSpec(s, InsertAll([], others));
    case PopMin => if s != [] { PopMeaning(s); }
  }

  lemma ChangedMeaning(s: seq<Range>, t: seq<Range>)
    requires L.Canonical(s) && L.Canonical(t)
    ensures s != t <==> exists x: nat :: L.Has(s, x) != L.Has(t, x)
  {
    if forall x: nat :: L.Has(s, x) <==> L.Has(t, x) {
      L.CanonicalUnique(s, t);
    }
  }

  lemma InsertOneMeaning(s: seq<Range>, y: nat)
    requires L.Canonical(s)
    ensures L.Canonical(L.Insert(s, Range(y, y + 1)))
    ensures forall x: nat :: L.Has(L.Insert(s, Range(y, y + 1)), x) <==> L.Has(s, x) || x == y
    ensures L.Insert(s, Range(y, y + 1)) != s <==> !L.Has(s, y)
  {
    var t := L.Insert(s, Range(y, y + 1));
    L.InsertSpec(s, Range(y, y + 1));
    ChangedMeaning(s, t);
  }

  lemma PopMeaning(s: seq<Range>)
    requires L.Canonical(s) && s != []
    ensures L.Canonical(s[1..]) && L.Has(s, s[0].start) && !L.Has(s, s[0].end)
    ensures forall x: nat :: L.Has(s, x) ==> s[0].start <= x
    ensures forall x: nat :: s[0].Contains(x) ==> L.Has(s, x)
    ensures forall x: nat :: L.Has(s[1..], x) <==> L.Has(s, x) && !s[0].Contains(x)
  {
    L.HasStart(s, 0);
    forall x: nat ensures L.Has(s[1..], x) <==> L.Has(s, x) && !s[0].Contains(x) {
      L.HasSplit(s, x);
      L.HasAfterHead(s, x);
    }
  }

  method ApplyTree(t: Tree.RangeSet, op: Op) returns (reply: Reply)
    requires t.Valid()
    modifies t
    ensures t.Valid() && (t.Ranges(), reply) == Step(old(t.Ranges()), op)
  {
    match op {
      case Insert(r) =>
        var b := t.Insert(r);
        reply := Changed(b);
      case InsertOne(x) =>
        var b := t.InsertOne(x);
        reply := Changed(b);
      case Remove(r) =>
        var b := t.Remove(r);
        reply := Changed(b);
      case Subtract(others) =>
        var other := new Tree.RangeSet();
        for i := 0 to |others|
          invariant other.Valid() && fresh(other) && t.Valid() && unchanged(t)
          invariant InsertAll(other.Ranges(), others[i..]) == InsertAll([], others)
        {
          SplitAt(others, i);
          var _ := other.Insert(others[i]);
        }
        t.Subtract(other);
        reply := Done;
      case PopMin =>
        var p := t.PopMin();
        reply := Popped(p);
    }
  }

  method ApplyArray(a: Array.ArrayRangeSet, op: Op) returns (reply: Reply)
    requires a.Valid()
    modifies a
    ensures a.Valid() && (a.ranges, reply) == Step(old(a.ranges), op)
  {
    match op {
      case Insert(r) =>
        var b := a.Insert(r);
        reply := Changed(b);
      case InsertOne(x) =>
        var b := a.InsertOne(x);
        reply := Changed(b);
      case Remove(r) =>
        var b := a.Remove(r);
        reply := Changed(b);
      case Subtract(others) =>
        var other := new Array.ArrayRangeSet();
        for i := 0 to |others|
          invariant other.Valid() && fresh(other) && a.Valid() && unchanged(a)
          invariant InsertAll(other.ranges, others[i..]) == InsertAll([], others)
        {
          SplitAt(others, i);
          var _ := other.Insert(others[i]);
        }
        a.Subtract(other);
        reply := Done;
      case PopMin =>
        var p := a.PopMin();
        reply := Popped(p);
    }
  }

  /** Any history, run on both: same ranges, same replies, and both as the
      reference says. */
  method RunBoth(ops: seq<Op>)
    returns (tree: Tree.RangeSet, vec: Array.ArrayRangeSet, fromTree: seq<Reply>, fromArray: seq<Reply>)
    ensures tree.Valid() && vec.Valid()
    ensures tree.Ranges() == vec.ranges && fromTree == fromArray
    ensures (vec.ranges, fromArray) == Run([], ops)
  {
    tree := new Tree.RangeSet();
    vec := new Array.ArrayRangeSet();
    fromTree, fromArray := [], [];
    for i := 0 to |ops|
      invariant fresh(tree) && fresh(vec) && tree.Valid() && vec.Valid()
      invariant tree.Ranges() == vec.ranges && fromTree == fromArray
      invariant (vec.ranges, fromArray) == Run([], ops[..i])
    {
      RunSnoc([], ops[..i], ops[i]);
      SplitAt(ops, i);
      var r1 := ApplyTree(tree, ops[i]);
      var r2 := ApplyArray(vec, ops[i]);
      fromTree, fromArray := fromTree + [r1], fromArray + [r2];
    }
    assert ops[..|ops|] == ops;
  }
}
