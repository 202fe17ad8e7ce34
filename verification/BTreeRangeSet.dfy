/** The ordered-map range set (proto/src/range_set/btree_range_set.rs). The
    `BTreeMap` from range start to range end is a `map` field that the methods
    update; its ordered queries are `Pred` and `Succ`. */
module BTreeRangeSet {
  import opened Core
  import L = RangeList

  ghost predicate Separated(m: map<nat, nat>) {
    && (forall k :: k in m ==> k < m[k])
    && (forall j, k :: j in m && k in m && j < k ==> m[j] < k)
  }

  ghost predicate Holds(m: map<nat, nat>, x: nat) {
    exists k :: k in m && k <= x < m[k]
  }

  lemma GreatestExists(s: set<nat>) returns (k: nat)
    requires s != {}
    ensures k in s && forall j :: j in s ==> j <= k
    decreases |s|
  {
    k :| k in s;
    if s != {k} {
      assert s == s - {k} + {k};
      var j := GreatestExists(s - {k});
      k := if j <= k then k else j;
    }
  }

  lemma LeastExists(s: set<nat>) returns (k: nat)
    requires s != {}
    ensures k in s && forall j :: j in s ==> k <= j
    decreases |s|
  {
    k :| k in s;
    if s != {k} {
      assert s == s - {k} + {k};
      var j := LeastExists(s - {k});
      k := if k <= j then k else j;
    }
  }

  /** The greatest element of a non-empty set. */
  function GreatestOf(s: set<nat>): (k: nat)
    requires s != {}
    ensures k in s && forall j :: j in s ==> j <= k
  {
    assert exists k :: k in s && forall j :: j in s ==> j <= k by {
      var k := GreatestExists(s);
    }
    var k :| k in s && forall j :: j in s ==> j <= k;
    k
  }

  /** The least element of a non-empty set. */
  function Least(s: set<nat>): (k: nat)
    requires s != {}
    ensures k in s && forall j :: j in s ==> k <= j
  {
    assert exists k :: k in s && forall j :: j in s ==> k <= j by {
      var k := LeastExists(s);
    }
    var k :| k in s && forall j :: j in s ==> k <= j;
    k
  }

  /** `r` is the closest range that begins at or before `x`. */
  ghost predicate IsPred(m: map<nat, nat>, x: nat, r: Option<Range>) {
    match r
    case None => forall k :: k in m ==> x < k
    case Some(p) =>
      && p.start in m && m[p.start] == p.end && p.start <= x
      && forall k :: k in m && k <= x ==> k <= p.start
  }

  /** `r` is the closest range that begins after `x`. */
  ghost predicate IsSucc(m: map<nat, nat>, x: nat, r: Option<Range>) {
    match r
    case None => forall k :: k in m ==> k <= x
    case Some(n) =>
      && n.start in m && m[n.start] == n.end && x < n.start
      && forall k :: k in m && x < k ==> n.start <= k
  }

  method Pred(m: map<nat, nat>, x: nat) returns (r: Option<Range>)
    ensures IsPred(m, x, r)
  {
    var below := set k | k in m && k <= x;
    assert forall k :: k in m && k <= x ==> k in below;
    if below == {} {
      r := None;
    } else {
      var k := GreatestOf(below);
      r := Some(Range(k, m[k]));
    }
  }

  method Succ(m: map<nat, nat>, x: nat) returns (r: Option<Range>)
    ensures IsSucc(m, x, r)
  {
    var above := set k | k in m && x < k;
    assert forall k :: k in m && x < k ==> k in above;
    if above == {} {
      r := None;
    } else {
      var k := Least(above);
      r := Some(Range(k, m[k]));
    }
  }

  /** The ranges of the map in increasing order: the only canonical list with
      the map's elements. */
  ghost function List(m: map<nat, nat>): (s: seq<Range>)
    requires Separated(m)
    ensures L.Canonical(s)
    ensures forall x: nat :: L.Has(s, x) <==> Holds(m, x)
  {
    assert exists s :: L.Canonical(s) && forall x: nat :: L.Has(s, x) <==> Holds(m, x) by {
      var s := ListExists(m);
    }
    var s :| L.Canonical(s) && forall x: nat :: L.Has(s, x) <==> Holds(m, x);
    s
  }

  lemma ListExists(m: map<nat, nat>) returns (s: seq<Range>)
    requires Separated(m)
    ensures L.Canonical(s)
    ensures forall x: nat :: L.Has(s, x) <==> Holds(m, x)
    decreases |m|
  {
    if m == map[] {
      s := [];
    } else {
      var k := Least(m.Keys);
      var rest := ListExists(m - {k});
      ListStep(m, k, rest);
      s := [Range(k, m[k])] + rest;
    }
  }

  lemma ListHead(m: map<nat, nat>, k: nat)
    requires Separated(m) && k in m && forall j :: j in m ==> k <= j
    ensures List(m) == [Range(k, m[k])] + List(m - {k})
  {
    var s := List(m - {k});
    ListStep(m, k, s);
    ListIs(m, [Range(k, m[k])] + s);
  }

  lemma ListEmpty(m: map<nat, nat>)
    requires Separated(m)
    ensures List(m) == [] <==> m == map[]
  {
    if k :| k in m {
      assert Holds(m, k);
    } else {
      if List(m) != [] { L.HasStart(List(m), 0); assert false; }
    }
  }

  lemma ListStep(m: map<nat, nat>, k: nat, rest: seq<Range>)
    requires Separated(m) && k in m && forall j :: j in m ==> k <= j
    requires L.Canonical(rest) && forall x: nat :: L.Has(rest, x) <==> Holds(m - {k}, x)
    ensures L.Canonical([Range(k, m[k])] + rest)
    ensures forall x: nat :: L.Has([Range(k, m[k])] + rest, x) <==> Holds(m, x)
  {
    forall i | 0 <= i < |rest| ensures m[k] < rest[i].start {
      L.HasStart(rest, i);
      assert Holds(m - {k}, rest[i].start);
    }
    forall x: nat ensures L.Has([Range(k, m[k])] + rest, x) <==> Holds(m, x) {
      L.HasCons(Range(k, m[k]), rest, x);
      HoldsWithout(m, k, x);
    }
  }

  lemma HoldsWithout(m: map<nat, nat>, k: nat, x: nat)
    requires k in m
    ensures Holds(m, x) <==> k <= x < m[k] || Holds(m - {k}, x)
  {
    if Holds(m, x) {
      var j :| j in m && j <= x < m[j];
      if j != k { assert j in m - {k}; }
    }
    if Holds(m - {k}, x) {
      var j :| j in m - {k} && j <= x < (m - {k})[j];
      assert j in m && m[j] == (m - {k})[j];
    }
  }

  lemma HoldsWith(m: map<nat, nat>, r: Range, x: nat)
    requires r.start !in m
    ensures Holds(m[r.start := r.end], x) <==> r.Contains(x) || Holds(m, x)
  {
    var m' := m[r.start := r.end];
    HoldsWithout(m', r.start, x);
    assert m' - {r.start} == m;
  }

  /** A canonical list with the same elements is the map's list. */
  lemma ListIs(m: map<nat, nat>, s: seq<Range>)
    requires Separated(m) && L.Canonical(s)
    requires forall x: nat :: Holds(m, x) <==> L.Has(s, x)
    ensures List(m) == s
  {
    L.CanonicalUnique(List(m), s);
  }

  /** Lists that differ on one element are different. */
  lemma ListDiffers(m: map<nat, nat>, m': map<nat, nat>, x: nat)
    requires Separated(m) && Separated(m') && Holds(m, x) != Holds(m', x)
    ensures List(m) != List(m')
  {
    assert L.Has(List(m), x) != L.Has(List(m'), x);
  }

  class RangeSet {
    var m: map<nat, nat>

    ghost predicate Valid()
      reads this
    {
      Separated(m)
    }

    ghost function Ranges(): (s: seq<Range>)
      requires Valid()
      reads this
    {
      List(m)
    }

    constructor ()
      ensures Valid() && Ranges() == []
    {
      m := map[];
      new;
      ListEmpty(m);
    }

    method Contains(x: nat) returns (b: bool)
      requires Valid()
      ensures b <==> L.Has(Ranges(), x)
    {
      var p := Pred(m, x);
      b := p.Some? && x < p.value.end;
      if p.Some? && Holds(m, x) {
        var k :| k in m && k <= x < m[k];
        assert k == p.value.start;
      }
    }

    method Insert(r: Range) returns (changed: bool)
      requires Valid()
      modifies this
      ensures Valid()
      ensures Ranges() == L.Insert(old(Ranges()), r)
      ensures changed <==> L.Differ(old(Ranges()), Ranges())
    {
      if r.Empty() {
        return false;
      }
      var lo: nat, hi: nat := r.start, r.end;
      var p := Pred(m, lo);
      if p.Some? {
        if p.value.end >= hi {
          InsertedWhole(m, p.value.start, r);
          return false;
        } else if p.value.end >= lo {
          m := m - {p.value.start};
          lo := p.value.start;
        }
      }
      AbsorbFirst(old(m), r, p);
      var next := Succ(m, lo);
      while next.Some? && next.value.start <= hi
        invariant Absorbing(old(m), r, m, lo, hi) && IsSucc(m, lo, next)
        decreases |m|
      {
        AbsorbNext(old(m), r, m, lo, hi, next.value);
        m := m - {next.value.start};
        hi := Max(next.value.end, hi);
        next := Succ(m, lo);
      }
      AbsorbDone(old(m), r, m, lo, hi);
      m := m[lo := hi];
      InsertedList(old(m), r, m);
      return true;
    }

    method InsertOne(x: nat) returns (changed: bool)
      requires Valid()
      modifies this
      ensures Valid()
      ensures Ranges() == L.Insert(old(Ranges()), Range(x, x + 1))
      ensures changed <==> L.Differ(old(Ranges()), Ranges())
    {
      var p := Pred(m, x);
      if p.Some? && p.value.end > x {
        InsertedWhole(m, p.value.start, Range(x, x + 1));
        return false;
      }
      AbsorbFirst(m, Range(x, x + 1), p);
      var start: nat, end: nat := x, x + 1;
      if p.Some? && p.value.end == x {
        m := m - {p.value.start};
        start := p.value.start;
      }
      var next := Succ(m, x);
      AbsorbOne(old(m), x, m, start, next);
      if next.Some? && next.value.start == end {
        m := m - {next.value.start};
        end := next.value.end;
      }
      m := m[start := end];
      return true;
    }

    method Remove(r: Range) returns (changed: bool)
      requires Valid()
      modifies this
      ensures Valid()
      ensures Ranges() == L.Remove(old(Ranges()), r)
      ensures changed <==> L.Differ(old(Ranges()), Ranges())
    {
      hide Holds, L.Has, L.Canonical, L.Remove, CutAt, Trimming;
      if r.Empty() {
        RemoveNothing(Ranges(), r);
        return false;
      }
      var p := Pred(m, r.start);
      var before := p.Some? && p.value.end > r.start;
      if before {
        TrimFirst(m, r, p.value);
        CutOut(p.value, r);
        if p.value.end >= r.end {
          TrimDone(old(m), r, m, true);
          return true;
        }
      } else {
        TrimNone(m, r, p);
      }
      var after := false;
      var next := Succ(m, r.start);
      while next.Some? && next.value.start < r.end
        invariant Trimming(old(m), r, m, before || after) && IsSucc(m, r.start, next)
        decreases |m|
      {
        TrimNext(old(m), r, m, before || after, next.value);
        after := true;
        if next.value.end > r.end {
          CutOut(next.value, r);
          TrimDone(old(m), r, m, true);
          return true;
        }
        CutAway(m, next.value.start, r);
        m := m - {next.value.start};
        next := Succ(m, r.start);
      }
      TrimDone(old(m), r, m, before || after);
      return before || after;
    }

    /** Replace the range `a` by what `r` leaves of it. */
    method CutOut(a: Range, r: Range)
      requires a.start in m && m[a.start] == a.end
      modifies this
      ensures m == CutAt(old(m), a.start, r)
    {
      m := m - {a.start};
      if a.start < r.start {
        m := m[a.start := r.start];
      }
      if a.end > r.end {
        m := m[r.end := a.end];
      }
    }

    /** Take every range of another set out of this one. */
    method Subtract(other: RangeSet)
      requires Valid() && other.Valid() && other != this
      modifies this
      ensures Valid()
      ensures Ranges() == L.RemoveAll(old(Ranges()), other.Ranges())
    {
      var rest := other.m;
      while rest != map[]
        invariant Valid() && Separated(rest)
        invariant L.RemoveAll(Ranges(), List(rest)) == L.RemoveAll(old(Ranges()), other.Ranges())
        decreases |rest|
      {
        var k := Least(rest.Keys);
        ListHead(rest, k);
        var _ := Remove(Range(k, rest[k]));
        rest := rest - {k};
      }
      ListEmpty(rest);
    }

    /** The greatest element, if any. */
    method Greatest() returns (x: Option<nat>)
      requires Valid()
      ensures x.None? <==> Ranges() == []
      ensures x.Some? ==> L.Has(Ranges(), x.value) && forall y: nat :: L.Has(Ranges(), y) ==> y <= x.value
    {
      ListEmpty(m);
      if m == map[] {
        return None;
      }
      var k := GreatestOf(m.Keys);
      assert Holds(m, m[k] - 1);
      return Some(m[k] - 1);
    }

    /** The first range, if any. */
    method PeekMin() returns (r: Option<Range>)
      requires Valid()
      ensures if Ranges() == [] then r == None else r == Some(Ranges()[0])
      ensures r.Some? ==> r.value.start in m && forall j :: j in m ==> r.value.start <= j
    {
      ListEmpty(m);
      if m == map[] {
        return None;
      }
      var k := Least(m.Keys);
      ListHead(m, k);
      return Some(Range(k, m[k]));
    }

    method PopMin() returns (r: Option<Range>)
      requires Valid()
      modifies this
      ensures Valid()
      ensures if old(Ranges()) == [] then r == None && Ranges() == []
              else r == Some(old(Ranges())[0]) && Ranges() == old(Ranges())[1..]
    {
      r := PeekMin();
      if r.Some? {
        ListHead(m, r.value.start);
        m := m - {r.value.start};
      }
    }
  }

  lemma RemoveNothing(s: seq<Range>, r: Range)
    requires r.Empty()
    ensures L.Remove(s, r) == s
  {}

  /** The end of a one-element insertion: at most one neighbour is absorbed. */
  lemma AbsorbOne(m0: map<nat, nat>, x: nat, m: map<nat, nat>, start: nat, next: Option<Range>)
    requires Separated(m0) && Absorbing(m0, Range(x, x + 1), m, start, x + 1) && start <= x
    requires (forall k :: k in m ==> k < start || x < k) && IsSucc(m, x, next)
    ensures var m' := if next.Some? && next.value.start == x + 1
                      then (m - {next.value.start})[start := next.value.end] else m[start := x + 1];
            Separated(m') && List(m') == L.Insert(List(m0), Range(x, x + 1)) && List(m') != List(m0)
  {
    hide Holds, L.Has, L.Canonical, L.Insert;
    var r := Range(x, x + 1);
    if next.Some? && next.value.start == x + 1 {
      AbsorbNext(m0, r, m, start, x + 1, next.value);
      AbsorbDone(m0, r, m - {next.value.start}, start, next.value.end);
      InsertedList(m0, r, (m - {next.value.start})[start := next.value.end]);
    } else {
      AbsorbDone(m0, r, m, start, x + 1);
      InsertedList(m0, r, m[start := x + 1]);
    }
  }

  /** Half-way through a removal: nothing outside `r` has changed, no range
      that begins at or before `r.start` reaches into `r`, and `any` says
      whether an element of `r` has gone. */
  ghost predicate Trimming(m0: map<nat, nat>, r: Range, m: map<nat, nat>, any: bool) {
    && Separated(m)
    && (forall k :: k in m && k <= r.start ==> m[k] <= r.start)
    && (forall x: nat :: Holds(m, x) ==> Holds(m0, x))
    && (forall x: nat :: Holds(m0, x) && !r.Contains(x) ==> Holds(m, x))
    && (if any then exists w: nat :: r.Contains(w) && Holds(m0, w) else m == m0)
  }

  /** The map after `r` has been cut out of its range at `k`. */
  ghost function CutAt(m: map<nat, nat>, k: nat, r: Range): map<nat, nat>
    requires k in m
  {
    var m1 := m - {k};
    var m2 := if k < r.start then m1[k := r.start] else m1;
    if m[k] > r.end then m2[r.end := m[k]] else m2
  }

  lemma CutAway(m: map<nat, nat>, k: nat, r: Range)
    requires k in m && r.start <= k && m[k] <= r.end
    ensures CutAt(m, k, r) == m - {k} && |m - {k}| < |m|
  {
    assert m == (m - {k})[k := m[k]];
  }

  lemma CutSeparated(m: map<nat, nat>, k: nat, r: Range)
    requires Separated(m) && k in m && !r.Empty() && k < r.end && r.start < m[k]
    ensures Separated(CutAt(m, k, r))
  {}

  lemma CutHolds(m: map<nat, nat>, k: nat, r: Range, x: nat)
    requires Separated(m) && k in m && !r.Empty() && k < r.end && r.start < m[k]
    ensures Holds(CutAt(m, k, r), x) <==> Holds(m, x) && !(r.Contains(x) && k <= x < m[k])
  {
    var m1 := m - {k};
    var m2 := if k < r.start then m1[k := r.start] else m1;
    HoldsWithout(m, k, x);
    if k < r.start { HoldsWith(m1, Range(k, r.start), x); }
    if m[k] > r.end { HoldsWith(m2, Range(r.end, m[k]), x); }
    if Holds(m1, x) {
      var j :| j in m1 && j <= x < m1[j];
      assert j in m && m[j] == m1[j];
    }
  }

  /** Cutting the range at `k`, which begins before `r` ends, keeps a removal
      on course; nothing of `r` is left if that range reached its end. */
  lemma TrimCut(m0: map<nat, nat>, r: Range, m: map<nat, nat>, k: nat)
    requires Separated(m) && !r.Empty() && k in m && k < r.end && r.start < m[k]
    requires forall j :: j in m && j != k && j <= r.start ==> m[j] <= r.start
    requires forall j :: j in m && r.start < j ==> k <= j
    requires forall x: nat :: Holds(m, x) ==> Holds(m0, x)
    requires forall x: nat :: Holds(m0, x) && !r.Contains(x) ==> Holds(m, x)
    requires Holds(m0, Max(k, r.start))
    ensures Trimming(m0, r, CutAt(m, k, r), true)
    ensures m[k] >= r.end ==> forall j :: j in CutAt(m, k, r) && r.start < j ==> r.end <= j
  {
    CutSeparated(m, k, r);
    assert r.Contains(Max(k, r.start));
    forall x: nat ensures Holds(CutAt(m, k, r), x) <==> Holds(m, x) && !(r.Contains(x) && k <= x < m[k]) {
      CutHolds(m, k, r, x);
    }
  }

  lemma TrimFirst(m: map<nat, nat>, r: Range, p: Range)
    requires Separated(m) && !r.Empty() && IsPred(m, r.start, Some(p)) && p.end > r.start
    ensures && Trimming(m, r, CutAt(m, p.start, r), true)
            && (p.end >= r.end ==> forall k :: k in CutAt(m, p.start, r) && r.start < k ==> r.end <= k)
  {
    assert Max(p.start, r.start) == r.start;
    assert Holds(m, r.start);
    TrimCut(m, r, m, p.start);
  }

  lemma TrimNone(m: map<nat, nat>, r: Range, p: Option<Range>)
    requires Separated(m) && !r.Empty() && IsPred(m, r.start, p)
    requires p.Some? ==> p.value.end <= r.start
    ensures Trimming(m, r, m, false)
  {}

  lemma TrimNext(m0: map<nat, nat>, r: Range, m: map<nat, nat>, any: bool, next: Range)
    requires Trimming(m0, r, m, any) && !r.Empty()
    requires IsSucc(m, r.start, Some(next)) && next.start < r.end
    ensures && Trimming(m0, r, CutAt(m, next.start, r), true)
            && (next.end >= r.end ==> forall k :: k in CutAt(m, next.start, r) && r.start < k ==> r.end <= k)
  {
    assert Max(next.start, r.start) == next.start;
    assert Holds(m, next.start);
    TrimCut(m0, r, m, next.start);
  }

  lemma TrimDone(m0: map<nat, nat>, r: Range, m: map<nat, nat>, any: bool)
    requires Separated(m0) && Trimming(m0, r, m, any) && !r.Empty()
    requires forall k :: k in m && r.start < k ==> r.end <= k
    ensures Separated(m)
    ensures List(m) == L.Remove(List(m0), r)
    ensures any <==> List(m) != List(m0)
  {
    assert forall x: nat :: r.Contains(x) ==> !Holds(m, x);
    L.RemoveSpec(List(m0), r);
    ListIs(m, L.Remove(List(m0), r));
    if any {
      var w: nat :| r.Contains(w) && Holds(m0, w);
      ListDiffers(m0, m, w);
    }
  }

  /** Half-way through an insertion: what the map still holds, together with
      the range being built, is the old content and the inserted range. */
  ghost predicate Absorbing(m0: map<nat, nat>, r: Range, m: map<nat, nat>, lo: nat, hi: nat) {
    && Separated(m) && lo < hi
    && lo !in m && (forall k :: k in m && k < lo ==> m[k] < lo)
    && (forall x: nat :: Holds(m0, x) || r.Contains(x) <==> Holds(m, x) || lo <= x < hi)
    && exists w: nat :: r.Contains(w) && !Holds(m0, w)
  }

  lemma AbsorbFirst(m0: map<nat, nat>, r: Range, p: Option<Range>)
    requires Separated(m0) && !r.Empty() && IsPred(m0, r.start, p)
    requires p.Some? ==> p.value.end < r.end
    ensures if p.Some? && p.value.end >= r.start
            then Absorbing(m0, r, m0 - {p.value.start}, p.value.start, r.end)
            else Absorbing(m0, r, m0, r.start, r.end)
  {
    if p.Some? && p.value.end >= r.start {
      assert r.Contains(p.value.end) && !Holds(m0, p.value.end);
      forall x: nat { HoldsWithout(m0, p.value.start, x); }
    } else {
      assert r.Contains(r.start) && !Holds(m0, r.start);
    }
  }

  lemma AbsorbNext(m0: map<nat, nat>, r: Range, m: map<nat, nat>, lo: nat, hi: nat, next: Range)
    requires Absorbing(m0, r, m, lo, hi)
    requires IsSucc(m, lo, Some(next)) && next.start <= hi
    ensures Absorbing(m0, r, m - {next.start}, lo, Max(next.end, hi))
  {
    forall x: nat { HoldsWithout(m, next.start, x); }
  }

  lemma AbsorbDone(m0: map<nat, nat>, r: Range, m: map<nat, nat>, lo: nat, hi: nat)
    requires Absorbing(m0, r, m, lo, hi)
    requires forall k :: k in m && lo < k ==> hi < k
    ensures Separated(m[lo := hi])
    ensures forall x: nat :: Holds(m[lo := hi], x) <==> Holds(m0, x) || r.Contains(x)
    ensures exists w: nat :: Holds(m[lo := hi], w) && !Holds(m0, w)
  {
    var m' := m[lo := hi];
    forall x: nat ensures Holds(m', x) <==> Holds(m0, x) || r.Contains(x) {
      HoldsWith(m, Range(lo, hi), x);
    }
    var w: nat :| r.Contains(w) && !Holds(m0, w);
    assert Holds(m', w);
  }

  /** A map that gained exactly one range lists the reference result. */
  lemma InsertedList(m0: map<nat, nat>, r: Range, m: map<nat, nat>)
    requires Separated(m0) && Separated(m)
    requires forall x: nat :: Holds(m, x) <==> Holds(m0, x) || r.Contains(x)
    ensures List(m) == L.Insert(List(m0), r)
    ensures (exists w: nat :: Holds(m, w) && !Holds(m0, w)) ==> List(m) != List(m0)
  {
    L.InsertSpec(List(m0), r);
    ListIs(m, L.Insert(List(m0), r));
    if w: nat :| Holds(m, w) && !Holds(m0, w) {
      ListDiffers(m0, m, w);
    }
  }

  /** Inserting what one range already covers changes nothing. */
  lemma InsertedWhole(m: map<nat, nat>, k: nat, r: Range)
    requires Separated(m) && k in m && k <= r.start && r.end <= m[k]
    ensures L.Insert(List(m), r) == List(m)
  {
    L.InsertSpec(List(m), r);
    L.CanonicalUnique(L.Insert(List(m), r), List(m));
  }
}
