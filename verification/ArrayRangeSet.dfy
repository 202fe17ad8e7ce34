/** The array range set (proto/src/range_set/array_range_set.rs): a vector of
    ranges that `Insert` and `Remove` walk by index and edit in place. */
module ArrayRangeSet {
  import opened Core
  import L = RangeList

  /** Ranges that end before the inserted one are passed over. */
  lemma {:induction false} InsertSkips(passed: seq<Range>, tail: seq<Range>, r: Range)
    requires !r.Empty() && forall j :: 0 <= j < |passed| ==> passed[j].start < passed[j].end < r.start
    ensures L.Insert(passed + tail, r) == passed + L.Insert(tail, r)
    decreases |passed|
  {
    var s := passed + tail;
    if passed == [] {
      assert s == tail && [] + L.Insert(tail, r) == L.Insert(tail, r);
    } else {
      InsertSkips(passed[1..], tail, r);
      assert s[1..] == passed[1..] + tail;
      assert [passed[0]] + (passed[1..] + L.Insert(tail, r)) == passed + L.Insert(tail, r);
    }
  }

  /** Removal leaves alone what starts at or past its end. */
  lemma {:induction false} RemoveStops(s: seq<Range>, r: Range)
    requires L.Canonical(s) && (s == [] || r.end <= s[0].start)
    ensures L.Remove(s, r) == s
  {
    L.RemoveSpec(s, r);
    L.CanonicalUnique(L.Remove(s, r), s);
  }

  /** Removal of a range that holds an element changes the list. */
  lemma RemoveChanges(s: seq<Range>, r: Range, x: nat)
    requires L.Canonical(s) && L.Has(s, x) && r.Contains(x)
    ensures L.Remove(s, r) != s
  {
    L.RemoveSpec(s, r);
    assert !L.Has(L.Remove(s, r), x);
  }

  /** Insertion of a missing element changes the list. */
  lemma InsertChanges(s: seq<Range>, r: Range, x: nat)
    requires L.Canonical(s) && !L.Has(s, x) && r.Contains(x)
    ensures L.Insert(s, r) != s
  {
    L.InsertSpec(s, r);
    assert L.Has(L.Insert(s, r), x);
  }

  class ArrayRangeSet {
    var ranges: seq<Range>

    ghost predicate Valid()
      reads this
    {
      L.Canonical(ranges)
    }

    constructor ()
      ensures Valid() && ranges == []
    {
      ranges := [];
    }

    method Contains(x: nat) returns (b: bool)
      requires Valid()
      ensures b <==> L.Has(ranges, x)
    {
      for i := 0 to |ranges|
        invariant forall j :: 0 <= j < i ==> ranges[j].end <= x
      {
        if ranges[i].start > x {
          return false;
        } else if ranges[i].Contains(x) {
          return true;
        }
      }
      return false;
    }

    method Insert(r: Range) returns (changed: bool)
      requires Valid()
      modifies this
      ensures Valid()
      ensures ranges == L.Insert(old(ranges), r)
      ensures changed <==> L.Differ(old(ranges), ranges)
    {
      if r.Empty() {
        return false;
      }
      hide L.Insert;
      var i := 0;
      while i != |ranges|
        invariant 0 <= i <= |ranges| && ranges == old(ranges)
        invariant forall j :: 0 <= j < i ==> ranges[j].end < r.start
      {
        var placed := TryPlace(i, r);
        if placed.Some? {
          return placed.value;
        }
        i := i + 1;
      }
      InsertBefore(ranges, i, r);
      ranges := ranges + [r];
      return true;
    }

    /** One visit of the insertion loop: put `r` before the range at `i`, or
        join it with that range, or report that it lies wholly after it. */
    method TryPlace(i: nat, r: Range) returns (placed: Option<bool>)
      requires Valid() && !r.Empty() && i < |ranges|
      requires forall j :: 0 <= j < i ==> ranges[j].end < r.start
      modifies this
      ensures Valid()
      ensures placed.None? ==> ranges == old(ranges) && ranges[i].end < r.start
      ensures placed.Some? ==> ranges == L.Insert(old(ranges), r)
      ensures placed.Some? ==> (placed.value <==> ranges != old(ranges))
    {
      hide L.Insert;
      var changed := false;
      if ranges[i].start > r.end {
        InsertBefore(ranges, i, r);
        ranges := ranges[..i] + [r] + ranges[i..];
        return Some(true);
      } else if ranges[i].start > r.start {
        changed := true;
        ranges := ranges[i := Range(r.start, ranges[i].end)];
      }
      if r.end <= ranges[i].end {
        InsertFits(old(ranges), i, r);
        return Some(changed);
      } else if r.start <= ranges[i].end {
        InsertGrows(old(ranges), i, r);
        ranges := ranges[i := Range(ranges[i].start, r.end)];
        assert ranges[i + 1..] == old(ranges)[i + 1..] && ranges[..i] == old(ranges)[..i];
        MergeRight(i);
        return Some(true);
      }
      return None;
    }

    /** Merge the range at `i` with every follow-up range it reaches. */
    method MergeRight(i: nat)
      requires i < |ranges| && L.Canonical(ranges[i + 1..])
      requires ranges[i].start < ranges[i].end
      requires forall j :: i < j < |ranges| ==> ranges[i].start < ranges[j].start
      modifies this
      ensures ranges == old(ranges[..i] + L.Insert(ranges[i + 1..], ranges[i]))
    {
      hide L.Insert, L.Canonical;
      ghost var goal := ranges[..i] + L.Insert(ranges[i + 1..], ranges[i]);
      while i != |ranges| - 1
        invariant i < |ranges| && L.Canonical(ranges[i + 1..])
        invariant ranges[i].start < ranges[i].end
        invariant forall j :: i < j < |ranges| ==> ranges[i].start < ranges[j].start
        invariant ranges[..i] + L.Insert(ranges[i + 1..], ranges[i]) == goal
        decreases |ranges|
      {
        var curr := ranges[i];
        var next := ranges[i + 1];
        if curr.end >= next.start {
          MergeStep(ranges, i);
          ranges := ranges[i := Range(curr.start, Max(next.end, curr.end))];
          ranges := ranges[..i + 1] + ranges[i + 2..];
        } else {
          MergeStops(ranges, i);
          return;
        }
      }
      MergeStops(ranges, i);
    }

    /** The two assignments of one merge, on the list itself. */
    lemma MergeStep(s: seq<Range>, i: nat)
      requires i + 1 < |s| && L.Canonical(s[i + 1..]) && s[i].start < s[i].end && s[i + 1].start <= s[i].end
      requires forall j :: i < j < |s| ==> s[i].start < s[j].start
      ensures var r := Range(s[i].start, Max(s[i + 1].end, s[i].end));
              var u := s[i := r][..i + 1] + s[i := r][i + 2..];
              && |u| == |s| - 1 && u[..i] == s[..i] && u[i] == r && u[i + 1..] == s[i + 2..]
              && L.Canonical(u[i + 1..]) && (forall j :: i < j < |u| ==> u[i].start < u[j].start)
              && L.Insert(u[i + 1..], u[i]) == L.Insert(s[i + 1..], s[i])
    {
      hide L.Canonical, L.Insert;
      var r := Range(s[i].start, Max(s[i + 1].end, s[i].end));
      Shortened(s, i, r);
      SplitAt(s, i + 1);
      InsertMerges(s[i + 1..], s[i]);
    }

    lemma Shortened(s: seq<Range>, i: nat, r: Range)
      requires i + 1 < |s|
      ensures var u := s[i := r][..i + 1] + s[i := r][i + 2..];
              && |u| == |s| - 1 && u[..i] == s[..i] && u[i] == r && u[i + 1..] == s[i + 2..]
              && forall j :: i < j < |u| ==> u[j] == s[j + 1]
    {}

    lemma InsertMerges(rest: seq<Range>, r: Range)
      requires rest != [] && L.Canonical(rest) && r.start < r.end && r.start < rest[0].start <= r.end
      ensures L.Canonical(rest[1..])
      ensures L.Insert(rest, r) == L.Insert(rest[1..], Range(r.start, Max(rest[0].end, r.end)))
    {}

    lemma MergeStops(s: seq<Range>, i: nat)
      requires i < |s| && s[i].start < s[i].end && (i + 1 < |s| ==> s[i].end < s[i + 1].start)
      ensures s == s[..i] + L.Insert(s[i + 1..], s[i])
    {
      SplitAt(s, i);
      if i + 1 < |s| { assert s[i + 1..][0] == s[i + 1]; }
    }

    method InsertOne(x: nat) returns (changed: bool)
      requires Valid()
      modifies this
      ensures Valid()
      ensures ranges == L.Insert(old(ranges), Range(x, x + 1))
      ensures changed <==> L.Differ(old(ranges), ranges)
    {
      changed := Insert(Range(x, x + 1));
    }

    method Remove(r: Range) returns (changed: bool)
      requires Valid()
      modifies this
      ensures Valid()
      ensures ranges == L.Remove(old(ranges), r)
      ensures changed <==> L.Differ(old(ranges), ranges)
    {
      changed := false;
      if r.Empty() {
        return;
      }
      ghost var s := ranges;
      var i := 0;
      RemoveBegins(s, r);
      while i != |ranges|
        invariant 0 <= i <= |ranges| && Removing(s, r, ranges[..i], ranges[i..], changed)
        decreases |ranges| - i
      {
        if r.end <= ranges[i].start {
          break;
        }
        i, changed := PassOrCut(i, r, changed, s);
      }
      RemoveDone(s, r, ranges[..i], ranges[i..], changed);
      Rejoin(ranges, i);
    }

    /** One visit of the removal loop: pass a range wholly before `r`, cut one
        that meets it. */
    method PassOrCut(i: nat, r: Range, changed: bool, ghost s: seq<Range>) returns (next: nat, nowChanged: bool)
      requires i < |ranges| && ranges[i].start < r.end && Removing(s, r, ranges[..i], ranges[i..], changed)
      modifies this
      ensures next <= |ranges| && |ranges| - next < old(|ranges|) - i
      ensures Removing(s, r, ranges[..next], ranges[next..], nowChanged)
    {
      SplitAt(ranges, i);
      if r.start >= ranges[i].end {
        RemovePasses(s, r, ranges[..i], ranges[i..], changed);
        return i + 1, changed;
      }
      RemoveCuts(s, r, ranges[..i], ranges[i..], changed);
      Spliced(ranges[..i], L.Cut(ranges[i], r), ranges[i + 1..]);
      next := CutOut(i, r);
      nowChanged := true;
    }

    /** Replace the range at `i`, which meets `r`, by what `r` leaves of it;
        returns the index past the pieces. */
    method CutOut(i: nat, r: Range) returns (next: nat)
      requires i < |ranges| && !r.Empty()
      requires r.start < ranges[i].end && ranges[i].start < r.end && !ranges[i].Empty()
      modifies this
      ensures ranges == old(ranges[..i] + L.Cut(ranges[i], r) + ranges[i + 1..])
      ensures next == i + |L.Cut(old(ranges)[i], r)|
    {
      var range := ranges[i];
      var left := Range(range.start, r.start);
      var right := Range(r.end, range.end);
      if left.Empty() && right.Empty() {
        ranges := ranges[..i] + ranges[i + 1..];
        next := i;
      } else if left.Empty() {
        ranges := ranges[i := right];
        next := i + 1;
      } else if right.Empty() {
        ranges := ranges[i := left];
        next := i + 1;
      } else {
        ranges := ranges[..i] + [left] + [right] + ranges[i + 1..];
        next := i + 2;
      }
    }

    method Subtract(other: ArrayRangeSet)
      requires Valid() && other.Valid() && other != this
      modifies this
      ensures Valid()
      ensures ranges == L.RemoveAll(old(ranges), other.ranges)
    {
      for i := 0 to |other.ranges|
        invariant L.Canonical(ranges)
        invariant L.RemoveAll(ranges, other.ranges[i..]) == L.RemoveAll(old(ranges), other.ranges)
      {
        assert other.ranges[i..][0] == other.ranges[i] && other.ranges[i..][1..] == other.ranges[i + 1..];
        var _ := Remove(other.ranges[i]);
      }
    }

    method PopMin() returns (r: Option<Range>)
      requires Valid()
      modifies this
      ensures Valid()
      ensures if old(ranges) == [] then r == None && ranges == []
              else r == Some(old(ranges)[0]) && ranges == old(ranges)[1..]
    {
      if ranges != [] {
        r := Some(ranges[0]);
        ranges := ranges[1..];
      } else {
        r := None;
      }
    }

    /** The greatest element, if any. */
    function Greatest(): (x: Option<nat>)
      requires Valid()
      reads this
      ensures x.None? <==> ranges == []
      ensures x.Some? ==> L.Has(ranges, x.value) && forall y: nat :: L.Has(ranges, y) ==> y <= x.value
    {
      if ranges == [] then None
      else
        assert ranges[|ranges| - 1].Contains(ranges[|ranges| - 1].end - 1);
        Some(ranges[|ranges| - 1].end - 1)
    }
  }

  /** Half-way through a removal from `s`: `done` has been dealt with and
      `tail` has not; `changed` says whether an element has gone. */
  ghost predicate Removing(s: seq<Range>, r: Range, done: seq<Range>, tail: seq<Range>, changed: bool) {
    && L.Canonical(s) && !r.Empty() && L.Canonical(tail)
    && done + L.Remove(tail, r) == L.Remove(s, r)
    && if changed then L.Remove(s, r) != s else done + tail == s
  }

  lemma RemoveBegins(s: seq<Range>, r: Range)
    requires L.Canonical(s) && !r.Empty()
    ensures Removing(s, r, s[..0], s[0..], false)
  {
    assert s[0..] == s && [] + L.Remove(s, r) == L.Remove(s, r) && [] + s == s;
  }

  /** One step of a removal: a range wholly before `r` stays. */
  lemma RemovePasses(s: seq<Range>, r: Range, done: seq<Range>, tail: seq<Range>, changed: bool)
    requires Removing(s, r, done, tail, changed) && tail != [] && tail[0].end <= r.start
    ensures Removing(s, r, done + [tail[0]], tail[1..], changed)
  {
    PassesOver(tail, r);
    hide L.Remove, L.Cut, L.Canonical;
    Spliced(done, [tail[0]], L.Remove(tail[1..], r));
    Spliced(done, [tail[0]], tail[1..]);
    SplitAt(tail, 0);
  }

  lemma PassesOver(tail: seq<Range>, r: Range)
    requires L.Canonical(tail) && !r.Empty() && tail != [] && tail[0].end <= r.start
    ensures L.Canonical(tail[1..]) && L.Remove(tail, r) == [tail[0]] + L.Remove(tail[1..], r)
  {
    assert L.Cut(tail[0], r) == [tail[0]];
  }

  /** One step of a removal: a range that meets `r` is cut. */
  lemma RemoveCuts(s: seq<Range>, r: Range, done: seq<Range>, tail: seq<Range>, changed: bool)
    requires Removing(s, r, done, tail, changed) && tail != []
    requires tail[0].start < r.end && r.start < tail[0].end
    ensures Removing(s, r, done + L.Cut(tail[0], r), tail[1..], true)
  {
    var cut, rest := L.Cut(tail[0], r), L.Remove(tail[1..], r);
    assert done + (cut + rest) == done + cut + rest;
    if !changed {
      RemoveFound(s, r, done, tail);
    }
  }

  lemma RemoveFound(s: seq<Range>, r: Range, done: seq<Range>, tail: seq<Range>)
    requires L.Canonical(s) && done + tail == s && tail != [] && !r.Empty()
    requires tail[0].start < r.end && r.start < tail[0].end
    ensures L.Remove(s, r) != s
  {
    assert s[|done|] == tail[0];
    HasInside(s, |done|, r);
    RemoveChanges(s, r, Max(tail[0].start, r.start));
  }

  lemma RemoveDone(s: seq<Range>, r: Range, done: seq<Range>, tail: seq<Range>, changed: bool)
    requires Removing(s, r, done, tail, changed)
    requires tail == [] || r.end <= tail[0].start
    ensures done + tail == L.Remove(s, r) && L.Canonical(L.Remove(s, r))
    ensures changed <==> L.Remove(s, r) != s
  {
    hide L.Remove;
    RemoveStops(tail, r);
    L.RemoveCanonical(s, r);
  }

  lemma HasInside(s: seq<Range>, i: nat, r: Range)
    requires i < |s| && r.start < s[i].end && s[i].start < r.end && s[i].start < s[i].end && !r.Empty()
    ensures var x := Max(s[i].start, r.start); L.Has(s, x) && r.Contains(x)
  {
    assert s[i].Contains(Max(s[i].start, r.start));
  }

  /** A range that fits between two ranges is added there as it is. */
  lemma InsertBefore(s: seq<Range>, i: nat, r: Range)
    requires L.Canonical(s) && i <= |s| && !r.Empty()
    requires forall j :: 0 <= j < i ==> s[j].end < r.start
    requires i < |s| ==> r.end < s[i].start
    ensures L.Insert(s, r) == s[..i] + [r] + s[i..]
    ensures L.Insert(s, r) != s && L.Canonical(L.Insert(s, r))
  {
    InsertFront(s[i..], r);
    hide L.Insert;
    L.InsertCanonical(s, r);
    Rejoin(s, i);
    InsertSkips(s[..i], s[i..], r);
    Spliced(s[..i], [r], s[i..]);
    assert |L.Insert(s, r)| == |s| + 1;
  }

  lemma InsertFront(tail: seq<Range>, r: Range)
    requires !r.Empty() && (tail == [] || r.end < tail[0].start)
    ensures L.Insert(tail, r) == [r] + tail
  {}

  /** A range that meets the one at `i` becomes one range with it, which still
      has to be merged to the right. */
  lemma InsertMeets(s: seq<Range>, i: nat, r: Range)
    requires L.Canonical(s) && !r.Empty() && i < |s|
    requires forall j :: 0 <= j < i ==> s[j].end < r.start
    requires s[i].start <= r.end && r.start <= s[i].end
    ensures L.Insert(s, r)
         == s[..i] + L.Insert(s[i + 1..], Range(Min(r.start, s[i].start), Max(r.end, s[i].end)))
  {
    SplitAt(s, i);
    InsertSkips(s[..i], s[i..], r);
  }

  /** A range that ends inside the one at `i` grows it to the left at most. */
  lemma InsertFits(s: seq<Range>, i: nat, r: Range)
    requires L.Canonical(s) && !r.Empty() && i < |s|
    requires forall j :: 0 <= j < i ==> s[j].end < r.start
    requires s[i].start <= r.end <= s[i].end
    ensures L.Insert(s, r) == s[i := Range(Min(r.start, s[i].start), s[i].end)]
    ensures L.Canonical(L.Insert(s, r))
  {
    L.InsertCanonical(s, r);
    InsertMeets(s, i, r);
    var merged := Range(Min(r.start, s[i].start), s[i].end);
    InsertFront(s[i + 1..], merged);
    hide L.Insert;
    Spliced(s[..i], [merged], s[i + 1..]);
  }

  lemma InsertGrows(s: seq<Range>, i: nat, r: Range)
    requires L.Canonical(s) && !r.Empty() && i < |s|
    requires forall j :: 0 <= j < i ==> s[j].end < r.start
    requires s[i].start <= r.end && r.start <= s[i].end < r.end
    ensures L.Insert(s, r) == s[..i] + L.Insert(s[i + 1..], Range(Min(r.start, s[i].start), r.end))
    ensures L.Insert(s, r) != s && L.Canonical(L.Insert(s, r))
  {
    L.InsertCanonical(s, r);
    InsertMeets(s, i, r);
    assert !L.Has(s, s[i].end);
    InsertChanges(s, r, s[i].end);
  }
}
