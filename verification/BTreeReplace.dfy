/** `RangeSet::replace` and its iterator: add a range to the set while handing
    back, piece by piece, what of it was already there. The set is complete
    again only when the iterator is dropped. */
module BTreeReplace {
  import opened Core
  import opened BTreeRangeSet
  import L = RangeList

  function Pending(p: Option<Range>): seq<Range> {
    if p.Some? then [p.value] else []
  }

  /** What the iterator keeps true of the map `m` while it is alive. */
  ghost predicate Iterating(original: seq<Range>, requested: Range, m: map<nat, nat>, range: Range)
    requires L.Canonical(original)
  {
    && Separated(m) && range.start !in m
    && range.start <= requested.start < requested.end <= range.end
    && (forall k :: k in m && k < range.start ==> m[k] < range.start)
    && (forall k :: k in m && range.start < k ==> requested.start < k)
    && (range.end != requested.end ==> forall k :: k in m && range.start < k ==> range.end < k)
    && (forall x: nat :: L.Has(original, x) || requested.Contains(x) <==> Holds(m, x) || range.Contains(x))
  }

  /** What of `r` the map still holds. */
  ghost function Overlap(m: map<nat, nat>, r: Range): (t: seq<Range>)
    requires Separated(m)
    ensures L.Canonical(t) && forall x: nat :: L.Has(t, x) <==> Holds(m, x) && r.Contains(x)
  {
    L.IntersectSpec(List(m), r);
    assert var t := L.Intersect(List(m), r);
           L.Canonical(t) && forall x: nat :: L.Has(t, x) <==> Holds(m, x) && r.Contains(x);
    var t :| L.Canonical(t) && forall x: nat :: L.Has(t, x) <==> Holds(m, x) && r.Contains(x);
    t
  }

  lemma OverlapIs(m: map<nat, nat>, r: Range, t: seq<Range>)
    requires Separated(m)
    requires L.Canonical(t) && forall x: nat :: L.Has(t, x) <==> Holds(m, x) && r.Contains(x)
    ensures Overlap(m, r) == t
  {
    L.CanonicalUnique(Overlap(m, r), t);
  }

  lemma OverlapIsIntersect(m: map<nat, nat>, r: Range)
    requires Separated(m)
    ensures Overlap(m, r) == L.Intersect(List(m), r)
  {
    L.IntersectSpec(List(m), r);
    OverlapIs(m, r, L.Intersect(List(m), r));
  }

  /** The first range that meets `r` contributes the first piece of the
      intersection. */
  lemma OverlapPops(m: map<nat, nat>, k: nat, r: Range)
    requires Separated(m) && k in m && forall j :: j in m && j < k ==> m[j] <= r.start
    ensures Overlap(m, r) == L.Piece(Range(Max(k, r.start), Min(m[k], r.end))) + Overlap(m - {k}, r)
  {
    var first := L.Piece(Range(Max(k, r.start), Min(m[k], r.end)));
    var rest := Overlap(m - {k}, r);
    forall x: nat | L.Has(rest, x) ensures m[k] < x {
      var j :| j in m - {k} && j <= x < (m - {k})[j];
      assert j in m;
    }
    L.PieceSpec(Range(Max(k, r.start), Min(m[k], r.end)));
    L.CanonicalConcat(first, rest, m[k]);
    forall x: nat ensures L.Has(first + rest, x) <==> Holds(m, x) && r.Contains(x) {
      L.HasConcat(first, rest, x);
      HoldsWithout(m, k, x);
    }
    OverlapIs(m, r, first + rest);
  }

  /** Nothing is left to hand back when every later range starts at or past
      the end of `r`. */
  lemma OverlapNone(m: map<nat, nat>, r: Range)
    requires Separated(m) && forall k :: k in m ==> m[k] <= r.start || r.end <= k
    ensures Overlap(m, r) == []
  {
    OverlapIs(m, r, []);
  }

  /** The invariant of a live iterator, on the values of its fields. */
  ghost predicate Live(original: seq<Range>, requested: Range, m: map<nat, nat>,
                       range: Range, pred: Option<Range>, yielded: seq<Range>) {
    && L.Canonical(original)
    && Iterating(original, requested, m, range)
    && yielded + Pending(pred) + Overlap(m, requested) == L.Intersect(original, requested)
  }

  /** No later range touches the range being built. */
  ghost predicate Exhausted(m: map<nat, nat>, range: Range, pred: Option<Range>) {
    pred.None? && forall k :: k in m && range.start < k ==> range.end < k
  }

  lemma StartPred(m: map<nat, nat>, r: Range, p: Range)
    requires Separated(m) && !r.Empty() && IsPred(m, r.start, Some(p)) && r.start <= p.end
    ensures var replacedEnd := Min(r.end, p.end);
            var pred := if r.start != replacedEnd then Some(Range(r.start, replacedEnd)) else None;
            Live(List(m), r, m - {p.start}, Range(Min(r.start, p.start), Max(r.end, p.end)), pred, [])
  {
    forall x: nat { HoldsWithout(m, p.start, x); }
    OverlapPops(m, p.start, r);
    OverlapIsIntersect(m, r);
    assert Max(p.start, r.start) == r.start && Min(r.start, p.start) == p.start;
  }

  lemma StartNone(m: map<nat, nat>, r: Range, p: Option<Range>)
    requires Separated(m) && !r.Empty() && IsPred(m, r.start, p) && (p.Some? ==> p.value.end < r.start)
    ensures Live(List(m), r, m, r, None, [])
  {
    OverlapIsIntersect(m, r);
    assert [] + Pending(None) + Overlap(m, r) == Overlap(m, r);
  }

  lemma NextIterates(original: seq<Range>, r: Range, m: map<nat, nat>, range: Range, next: Range)
    requires L.Canonical(original) && Iterating(original, r, m, range)
    requires IsSucc(m, range.start, Some(next)) && next.start <= range.end
    ensures Iterating(original, r, m - {next.start}, Range(range.start, Max(range.end, next.end)))
    ensures range.end == r.end
    ensures next.start == range.end ==>
              Exhausted(m - {next.start}, Range(range.start, Max(range.end, next.end)), None)
  {
    forall x: nat { HoldsWithout(m, next.start, x); }
  }

  lemma NextPiece(original: seq<Range>, r: Range, m: map<nat, nat>, range: Range, next: Range)
    requires L.Canonical(original) && Iterating(original, r, m, range)
    requires IsSucc(m, range.start, Some(next)) && next.start <= range.end
    ensures Overlap(m, r)
         == (if next.start < range.end then [Range(next.start, Min(range.end, next.end))] else [])
            + Overlap(m - {next.start}, r)
  {
    OverlapPops(m, next.start, r);
    assert Max(next.start, r.start) == next.start && range.end == r.end;
  }

  /** One visit to a later range that touches the range being built. */
  lemma NextStep(original: seq<Range>, r: Range, m: map<nat, nat>, range: Range, yielded: seq<Range>, next: Range)
    requires Live(original, r, m, range, None, yielded)
    requires IsSucc(m, range.start, Some(next)) && next.start <= range.end
    ensures var m' := m - {next.start};
            var range' := Range(range.start, Max(range.end, next.end));
            if next.start == range.end
            then Live(original, r, m', range', None, yielded) && Exhausted(m', range', None)
            else Live(original, r, m', range', None, yielded + [Range(next.start, Min(range.end, next.end))])
    ensures next.start == range.end ==> yielded == L.Intersect(original, r)
  {
    NextIterates(original, r, m, range, next);
    NextPiece(original, r, m, range, next);
    var m' := m - {next.start};
    var range' := Range(range.start, Max(range.end, next.end));
    assert yielded + Pending(None) + Overlap(m, r) == yielded + Overlap(m, r);
    if next.start == range.end {
      assert yielded + Pending(None) + Overlap(m', r) == yielded + Overlap(m', r);
      OverlapDone(original, r, m', range', yielded);
    } else {
      var piece := [Range(next.start, Min(range.end, next.end))];
      assert yielded + piece + Pending(None) + Overlap(m', r) == yielded + (piece + Overlap(m', r));
    }
  }

  /** When no later range touches, everything has been handed back. */
  lemma OverlapDone(original: seq<Range>, r: Range, m: map<nat, nat>, range: Range, yielded: seq<Range>)
    requires Live(original, r, m, range, None, yielded) && Exhausted(m, range, None)
    ensures yielded == L.Intersect(original, r)
  {
    OverlapNone(m, r);
    assert yielded + Pending(None) + [] == yielded;
  }

  lemma DropStep(original: seq<Range>, r: Range, m: map<nat, nat>, range: Range)
    requires L.Canonical(original) && Iterating(original, r, m, range)
    requires forall k :: k in m && range.start < k ==> range.end < k
    ensures Separated(m[range.start := range.end])
    ensures List(m[range.start := range.end]) == L.Insert(original, r)
  {
    var m' := m[range.start := range.end];
    forall x: nat ensures Holds(m', x) <==> L.Has(original, x) || r.Contains(x) { HoldsWith(m, range, x); }
    L.InsertSpec(original, r);
    ListIs(m', L.Insert(original, r));
  }

  // ------------------------------------------------------------- an empty range

  /** Some range of the map contains `x` or ends at it. */
  ghost predicate Touches(m: map<nat, nat>, x: nat) {
    exists k :: k in m && k <= x <= m[k]
  }

  /** The iterator over an empty range: the map is as it was except that a range
      that touches the start is held apart, to be put back. */
  ghost predicate Idle(before: map<nat, nat>, r: Range, m: map<nat, nat>, range: Range, pred: Option<Range>, yielded: seq<Range>) {
    && Separated(before) && r.Empty()
    && (pred.Some? ==> pred.value.Empty()) && (forall i :: 0 <= i < |yielded| ==> yielded[i].Empty())
    && if Touches(before, r.start)
       then range.start in before && before[range.start] == range.end && m == before - {range.start}
       else m == before && range == r
  }

  lemma IdleStarts(m: map<nat, nat>, r: Range, p: Option<Range>)
    requires Separated(m) && r.Empty() && IsPred(m, r.start, p)
    ensures Touches(m, r.start) <==> p.Some? && p.value.end >= r.start
    ensures p.Some? && p.value.end >= r.start ==>
              && Range(Min(r.start, p.value.start), Max(r.end, p.value.end)) == p.value
              && Min(r.end, p.value.end) == r.end
  {}

  /** No later range reaches the one held apart. */
  lemma IdleEnds(before: map<nat, nat>, r: Range, m: map<nat, nat>, range: Range, pred: Option<Range>, yielded: seq<Range>)
    requires Idle(before, r, m, range, pred, yielded)
    ensures forall k :: k in m && range.start < k ==> range.end < k
    ensures m[range.start := range.end] == if Touches(before, r.start) then before else before[r.start := r.end]
    ensures Separated(m[range.start := range.end]) <==> Touches(before, r.start)
  {
    var m' := m[range.start := range.end];
    if !Touches(before, r.start) {
      assert r.start in m' && m'[r.start] <= r.start;
    }
  }

  class Replace {
    const rs: RangeSet
    /** Part of the intersection that a range beginning at or before the new
        one contributes; handed back first. */
    var pred: Option<Range>
    /** Union of the input range and every range visited so far. */
    var range: Range
    ghost const requested: Range
    ghost const before: map<nat, nat>
    ghost const original: seq<Range>
    ghost var yielded: seq<Range>

    ghost predicate Valid()
      reads this, rs
    {
      if requested.Empty() then Idle(before, requested, rs.m, range, pred, yielded)
      else Live(original, requested, rs.m, range, pred, yielded)
    }

    constructor (s: RangeSet, r: Range)
      requires s.Valid()
      modifies s
      ensures Valid() && rs == s && requested == r && yielded == []
      ensures before == old(s.m) && original == old(s.Ranges())
    {
      rs := s;
      requested := r;
      before := s.m;
      original := s.Ranges();
      yielded := [];
      var p := Pred(s.m, r.start);
      if r.Empty() { IdleStarts(s.m, r, p); }
      if p.Some? && p.value.end >= r.start {
        if !r.Empty() { StartPred(s.m, r, p.value); }
        var replacedEnd := Min(r.end, p.value.end);
        pred := if r.start != replacedEnd then Some(Range(r.start, replacedEnd)) else None;
        range := Range(Min(r.start, p.value.start), Max(r.end, p.value.end));
        s.m := s.m - {p.value.start};
      } else {
        if !r.Empty() { StartNone(s.m, r, p); }
        pred := None;
        range := r;
      }
    }

    /** The next piece of the old intersection, in increasing order; `None`
        once all of it has been handed back. */
    method Next() returns (piece: Option<Range>)
      requires Valid()
      modifies this, rs
      ensures Valid()
      ensures piece.Some? ==> yielded == old(yielded) + [piece.value]
      ensures piece.None? ==>
                && yielded == old(yielded) && Exhausted(rs.m, range, pred)
                && (!requested.Empty() ==> yielded == L.Intersect(original, requested))
      ensures |rs.m| + |Pending(pred)| <= old(|rs.m| + |Pending(pred)|)
      ensures piece.Some? ==> |rs.m| + |Pending(pred)| < old(|rs.m| + |Pending(pred)|)
    {
      hide Live, Idle, IsSucc;
      if pred.Some? {
        TakePred(before, original, requested, rs.m, range, pred, yielded);
        piece := pred;
        yielded := yielded + [pred.value];
        pred := None;
        return;
      }
      var next := Succ(rs.m, range.start);
      SuccMeans(rs.m, range.start, next);
      if requested.Empty() { IdleEnds(before, requested, rs.m, range, pred, yielded); }
      if next.None? || next.value.start > range.end {
        if !requested.Empty() { OverlapDone(original, requested, rs.m, range, yielded); }
        return None;
      }
      NextStep(original, requested, rs.m, range, yielded, next.value);
      NextNotEmpty(original, requested, rs.m, range, yielded, next.value);
      var replacedEnd := Min(range.end, next.value.end);
      var adjacent := next.value.start == replacedEnd;
      rs.m := rs.m - {next.value.start};
      range := Range(range.start, Max(range.end, next.value.end));
      if adjacent {
        return None;
      }
      yielded := yielded + [Range(next.value.start, replacedEnd)];
      return Some(Range(next.value.start, replacedEnd));
    }

    /** However many pieces were taken, dropping the iterator leaves the union in
        the set. For an empty range that is the set itself if some range touches
        its start; otherwise an empty entry is stored, and the set is broken. */
    method Drop()
      requires Valid()
      modifies this, rs
      ensures rs.Valid() <==> !requested.Empty() || Touches(before, requested.start)
      ensures !requested.Empty() ==> rs.Ranges() == L.Insert(original, requested)
      ensures requested.Empty() ==>
                rs.m == if Touches(before, requested.start) then before else before[requested.start := requested.end]
    {
      hide Live, Idle, Touches;
      var piece := Next();
      while piece.Some?
        invariant Valid() && (piece.None? ==> Exhausted(rs.m, range, pred))
        decreases |rs.m| + |Pending(pred)|, if piece.Some? then 1 else 0
      {
        piece := Next();
      }
      if requested.Empty() {
        IdleEnds(before, requested, rs.m, range, pred, yielded);
      } else {
        LiveIterates(original, requested, rs.m, range, pred, yielded);
        DropStep(original, requested, rs.m, range);
      }
      rs.m := rs.m[range.start := range.end];
    }
  }

  lemma SuccMeans(m: map<nat, nat>, x: nat, next: Option<Range>)
    requires IsSucc(m, x, next)
    ensures next.Some? ==> next.value.start in m && m[next.value.start] == next.value.end && x < next.value.start
    ensures forall k :: k in m && x < k ==> next.Some? && next.value.start <= k
  {}

  lemma NextNotEmpty(original: seq<Range>, r: Range, m: map<nat, nat>, range: Range, yielded: seq<Range>, next: Range)
    requires Live(original, r, m, range, None, yielded) && next.start in m && m[next.start] == next.end
    ensures next.start < next.end
  {}

  lemma TakePred(before: map<nat, nat>, original: seq<Range>, r: Range, m: map<nat, nat>, range: Range, pred: Option<Range>, yielded: seq<Range>)
    requires pred.Some?
    ensures Idle(before, r, m, range, pred, yielded) ==> Idle(before, r, m, range, None, yielded + [pred.value])
    ensures Live(original, r, m, range, pred, yielded) ==> Live(original, r, m, range, None, yielded + [pred.value])
  {
    assert yielded + Pending(pred) == yielded + [pred.value] + Pending(None);
  }

  lemma LiveIterates(original: seq<Range>, r: Range, m: map<nat, nat>, range: Range, pred: Option<Range>, yielded: seq<Range>)
    requires Live(original, r, m, range, pred, yielded)
    ensures L.Canonical(original) && Iterating(original, r, m, range)
  {}

  /** A whole use of the iterator: take up to `limit` pieces, then drop it. The
      pieces are the first ones of the old intersection, all of it if the limit
      allows, and the set ends as the union either way. An empty range leaves a
      valid set exactly when some range of the set touches its start. */
  method TakeAndDrop(rs: RangeSet, r: Range, limit: nat) returns (pieces: seq<Range>)
    requires rs.Valid()
    modifies rs
    ensures rs.Valid() <==> !r.Empty() || old(Touches(rs.m, r.start))
    ensures rs.Valid() ==> rs.Ranges() == L.Insert(old(rs.Ranges()), r)
    ensures !r.Empty() ==>
              && pieces <= L.Intersect(old(rs.Ranges()), r)
              && |pieces| == Min(limit, |L.Intersect(old(rs.Ranges()), r)|)
    ensures r.Empty() ==> forall i :: 0 <= i < |pieces| ==> pieces[i].Empty()
  {
    hide Touches, L.Canonical, L.Intersect;
    var it := new Replace(rs, r);
    pieces := [];
    var piece := None;
    while |pieces| < limit
      invariant it.Valid() && it.rs == rs && it.requested == r
      invariant it.original == old(rs.Ranges()) && it.before == old(rs.m)
      invariant fresh(it) && it.yielded == pieces && |pieces| <= limit
    {
      piece := it.Next();
      if piece.None? {
        break;
      }
      pieces := pieces + [piece.value];
    }
    if !r.Empty() { Prefix(it.original, r, rs.m, it.range, it.pred, it.yielded); }
    InsertNothing(it.original, r);
    it.Drop();
  }

  lemma Prefix(original: seq<Range>, r: Range, m: map<nat, nat>, range: Range, pred: Option<Range>, yielded: seq<Range>)
    requires Live(original, r, m, range, pred, yielded)
    ensures yielded <= L.Intersect(original, r)
  {}

  lemma InsertNothing(s: seq<Range>, r: Range)
    ensures r.Empty() ==> L.Insert(s, r) == s
  {}
}
