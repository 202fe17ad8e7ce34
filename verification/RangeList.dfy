/** The reference semantics of a set of integers kept as ranges: a list of
    non-empty ranges in increasing order, no two of which touch. Both range-set
    implementations are proved to compute these functions. */
module RangeList {
  import opened Core

  predicate Canonical(s: seq<Range>) {
    && (forall i :: 0 <= i < |s| ==> s[i].start < s[i].end)
    && (forall i, j :: 0 <= i < j < |s| ==> s[i].end < s[j].start)
  }

  predicate Has(s: seq<Range>, x: nat) {
    exists i :: 0 <= i < |s| && s[i].Contains(x)
  }

  /** Whether an operation changed the set: canonical lists are equal exactly
      when their elements are. */
  predicate Differ(s: seq<Range>, t: seq<Range>) {
    s != t
  }

  /** Two lists hold the same integers. */
  ghost predicate SameElements(s: seq<Range>, t: seq<Range>) {
    forall x: nat :: Has(s, x) <==> Has(t, x)
  }

  lemma HasCons(r: Range, s: seq<Range>, x: nat)
    ensures Has([r] + s, x) <==> r.Contains(x) || Has(s, x)
  {
    var t := [r] + s;
    if Has(t, x) {
      var i :| 0 <= i < |t| && t[i].Contains(x);
      if i > 0 {
        assert s[i - 1].Contains(x);
      }
    }
    if r.Contains(x) {
      assert t[0].Contains(x);
    }
    if Has(s, x) {
      var i :| 0 <= i < |s| && s[i].Contains(x);
      assert t[i + 1].Contains(x);
    }
  }

  lemma HasSplit(s: seq<Range>, x: nat)
    requires s != []
    ensures Has(s, x) <==> s[0].Contains(x) || Has(s[1..], x)
  {
    assert s == [s[0]] + s[1..];
    HasCons(s[0], s[1..], x);
  }

  /** The element at the head of a range is in the list. */
  lemma HasStart(s: seq<Range>, i: nat)
    requires Canonical(s) && i < |s|
    ensures Has(s, s[i].start)
  {
    assert s[i].Contains(s[i].start);
  }

  /** Union with one range. */
  function Insert(s: seq<Range>, r: Range): seq<Range>
    decreases |s|
  {
    if r.Empty() then
      s
    else if s == [] then
      [r]
    else if r.end < s[0].start then
      [r] + s
    else if s[0].end < r.start then
      [s[0]] + Insert(s[1..], r)
    else
      Insert(s[1..], Range(Min(r.start, s[0].start), Max(r.end, s[0].end)))
  }

  lemma {:induction false} InsertSpec(s: seq<Range>, r: Range)
    requires Canonical(s)
    ensures Canonical(Insert(s, r))
    ensures forall x: nat :: Has(Insert(s, r), x) <==> Has(s, x) || r.Contains(x)
    decreases |s|
  {
    if r.Empty() {
    } else if s == [] {
      assert forall x: nat :: r.Contains(x) ==> [r][0].Contains(x);
    } else if r.end < s[0].start {
      forall x: nat { HasCons(r, s, x); }
    } else if s[0].end < r.start {
      InsertSpec(s[1..], r);
      InsertAfter(s, r, Insert(s[1..], r));
    } else {
      InsertSpec(s[1..], Range(Min(r.start, s[0].start), Max(r.end, s[0].end)));
      forall x: nat { HasSplit(s, x); }
    }
  }

  lemma InsertAfter(s: seq<Range>, r: Range, rest: seq<Range>)
    requires Canonical(s) && s != [] && !r.Empty() && s[0].end < r.start
    requires Canonical(rest)
    requires forall x: nat :: Has(rest, x) <==> Has(s[1..], x) || r.Contains(x)
    ensures Canonical([s[0]] + rest)
    ensures forall x: nat :: Has([s[0]] + rest, x) <==> Has(s, x) || r.Contains(x)
  {
    forall i | 0 <= i < |rest| ensures s[0].end < rest[i].start {
      HasStart(rest, i);
      assert Has(rest, rest[i].start);
    }
    forall x: nat ensures Has([s[0]] + rest, x) <==> Has(s, x) || r.Contains(x) {
      HasCons(s[0], rest, x);
      HasSplit(s, x);
    }
  }

  /** A range as a list, empty if the range is. */
  function Piece(r: Range): seq<Range> {
    if r.Empty() then [] else [r]
  }

  lemma PieceSpec(r: Range)
    ensures Canonical(Piece(r)) && forall x: nat :: Has(Piece(r), x) <==> r.Contains(x)
  {
    assert forall x: nat :: r.Contains(x) ==> [r][0].Contains(x);
  }

  /** The part of one range that lies outside another: at most two pieces. */
  function Cut(a: Range, r: Range): seq<Range> {
    Piece(Range(a.start, Min(a.end, r.start))) + Piece(Range(Max(a.start, r.end), a.end))
  }

  lemma CutSpec(a: Range, r: Range)
    requires !a.Empty() && !r.Empty()
    ensures Canonical(Cut(a, r))
    ensures forall x: nat :: Has(Cut(a, r), x) <==> a.Contains(x) && !r.Contains(x)
  {
    var left := Range(a.start, Min(a.end, r.start));
    var right := Range(Max(a.start, r.end), a.end);
    PieceSpec(left);
    PieceSpec(right);
    forall x: nat { HasConcat(Piece(left), Piece(right), x); }
  }

  /** Difference with one range. */
  function Remove(s: seq<Range>, r: Range): seq<Range>
    decreases |s|
  {
    if r.Empty() || s == [] then s else Cut(s[0], r) + Remove(s[1..], r)
  }

  lemma {:induction false} RemoveSpec(s: seq<Range>, r: Range)
    requires Canonical(s)
    ensures Canonical(Remove(s, r))
    ensures forall x: nat :: Has(Remove(s, r), x) <==> Has(s, x) && !r.Contains(x)
    decreases |s|
  {
    if !(r.Empty() || s == []) {
      CutSpec(s[0], r);
      RemoveSpec(s[1..], r);
      RemoveStep(s, r, Cut(s[0], r), Remove(s[1..], r));
    }
  }

  lemma RemoveStep(s: seq<Range>, r: Range, first: seq<Range>, rest: seq<Range>)
    requires Canonical(s) && s != []
    requires Canonical(first) && forall x: nat :: Has(first, x) <==> s[0].Contains(x) && !r.Contains(x)
    requires Canonical(rest) && forall x: nat :: Has(rest, x) <==> Has(s[1..], x) && !r.Contains(x)
    ensures Canonical(first + rest)
    ensures forall x: nat :: Has(first + rest, x) <==> Has(s, x) && !r.Contains(x)
  {
    CanonicalConcat(first, rest, s[0].end);
    forall x: nat ensures Has(first + rest, x) <==> Has(s, x) && !r.Contains(x) {
      HasConcat(first, rest, x);
      HasSplit(s, x);
    }
  }

  lemma HasConcat(s: seq<Range>, t: seq<Range>, x: nat)
    ensures Has(s + t, x) <==> Has(s, x) || Has(t, x)
  {
    var u := s + t;
    if Has(u, x) {
      var i :| 0 <= i < |u| && u[i].Contains(x);
      if i < |s| { assert s[i].Contains(x); } else { assert t[i - |s|].Contains(x); }
    }
    if Has(s, x) {
      var i :| 0 <= i < |s| && s[i].Contains(x);
      assert u[i].Contains(x);
    }
    if Has(t, x) {
      var i :| 0 <= i < |t| && t[i].Contains(x);
      assert u[|s| + i].Contains(x);
    }
  }

  /** Difference with another list, one range at a time. */
  function RemoveAll(s: seq<Range>, t: seq<Range>): seq<Range>
    decreases |t|
  {
    if t == [] then s else RemoveAll(Remove(s, t[0]), t[1..])
  }

  lemma {:induction false} RemoveAllSpec(s: seq<Range>, t: seq<Range>)
    requires Canonical(s)
    ensures Canonical(RemoveAll(s, t))
    ensures forall x: nat :: Has(RemoveAll(s, t), x) <==> Has(s, x) && !Has(t, x)
    decreases |t|
  {
    if t != [] {
      forall x: nat { HasSplit(t, x); }
      RemoveSpec(s, t[0]);
      RemoveAllSpec(Remove(s, t[0]), t[1..]);
    }
  }

  /** Intersection with one range. */
  function Intersect(s: seq<Range>, r: Range): seq<Range>
    decreases |s|
  {
    if s == [] then [] else Piece(Range(Max(s[0].start, r.start), Min(s[0].end, r.end))) + Intersect(s[1..], r)
  }

  lemma {:induction false} IntersectSpec(s: seq<Range>, r: Range)
    requires Canonical(s)
    ensures Canonical(Intersect(s, r))
    ensures forall x: nat :: Has(Intersect(s, r), x) <==> Has(s, x) && r.Contains(x)
    decreases |s|
  {
    if s != [] {
      var first := Range(Max(s[0].start, r.start), Min(s[0].end, r.end));
      PieceSpec(first);
      IntersectSpec(s[1..], r);
      IntersectStep(s, r, Piece(first), Intersect(s[1..], r));
    }
  }

  lemma IntersectStep(s: seq<Range>, r: Range, first: seq<Range>, rest: seq<Range>)
    requires Canonical(s) && s != []
    requires Canonical(first) && forall x: nat :: Has(first, x) <==> s[0].Contains(x) && r.Contains(x)
    requires Canonical(rest) && forall x: nat :: Has(rest, x) <==> Has(s[1..], x) && r.Contains(x)
    ensures Canonical(first + rest)
    ensures forall x: nat :: Has(first + rest, x) <==> Has(s, x) && r.Contains(x)
  {
    CanonicalConcat(first, rest, s[0].end);
    forall x: nat ensures Has(first + rest, x) <==> Has(s, x) && r.Contains(x) {
      HasConcat(first, rest, x);
      HasSplit(s, x);
    }
  }

  /** Two canonical lists on either side of a missing element join up. */
  lemma CanonicalConcat(s: seq<Range>, t: seq<Range>, gap: nat)
    requires Canonical(s) && forall x: nat :: Has(s, x) ==> x < gap
    requires Canonical(t) && forall x: nat :: Has(t, x) ==> gap < x
    ensures Canonical(s + t)
  {
    forall i, j | 0 <= i < |s| && 0 <= j < |t| ensures s[i].end < t[j].start {
      assert s[i].Contains(s[i].end - 1);
      assert Has(s, s[i].end - 1);
      HasStart(t, j);
    }
  }

  lemma InsertCanonical(s: seq<Range>, r: Range)
    requires Canonical(s)
    ensures Canonical(Insert(s, r))
  {
    InsertSpec(s, r);
  }

  lemma RemoveCanonical(s: seq<Range>, r: Range)
    requires Canonical(s)
    ensures Canonical(Remove(s, r))
  {
    RemoveSpec(s, r);
  }

  /** A set of integers has exactly one canonical list: lists that agree on
      every element are the same list. */
  lemma {:induction false} CanonicalUnique(s: seq<Range>, t: seq<Range>)
    requires Canonical(s) && Canonical(t) && SameElements(s, t)
    ensures s == t
    decreases |s|
  {
    if s == [] || t == [] {
      if s != [] { HasStart(s, 0); assert false; }
      if t != [] { HasStart(t, 0); assert false; }
    } else {
      SameHead(s, t);
      SameHead(t, s);
      forall x: nat ensures Has(s[1..], x) <==> Has(t[1..], x) {
        HasSplit(s, x);
        HasSplit(t, x);
        HasAfterHead(s, x);
        HasAfterHead(t, x);
      }
      CanonicalUnique(s[1..], t[1..]);
      assert s == [s[0]] + s[1..] && t == [t[0]] + t[1..];
    }
  }

  lemma HasAfterHead(s: seq<Range>, x: nat)
    requires Canonical(s) && s != []
    ensures Has(s[1..], x) ==> !s[0].Contains(x) && s[0].end < x
  {}

  lemma HasInside(s: seq<Range>, x: nat)
    requires s != [] && s[0].Contains(x)
    ensures Has(s, x)
  {}

  lemma HasAfterEnd(s: seq<Range>)
    requires Canonical(s) && s != []
    ensures !Has(s, s[0].end)
  {}

  /** The first range of one list covers the first range of the other. */
  lemma SameHead(s: seq<Range>, t: seq<Range>)
    requires Canonical(s) && Canonical(t) && SameElements(s, t) && s != [] && t != []
    ensures t[0].start <= s[0].start
    ensures s[0].start == t[0].start ==> s[0].end <= t[0].end
  {
    HasStart(s, 0);
    if s[0].start == t[0].start && t[0].end < s[0].end {
      HasInside(s, t[0].end);
      HasAfterEnd(t);
      assert false;
    }
  }
}
