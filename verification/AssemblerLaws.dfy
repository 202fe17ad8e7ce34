/** What reassembly guarantees: exactly when it loses nothing, that it never
    mixes up bytes, and that repeated reads hand out the whole contiguous
    prefix of what has arrived. */
module AssemblerLaws {
  import opened Core
  import opened Assembler

  /** Offsets that have arrived: read already, or waiting. */
  predicate Have(a: Asm, x: nat) {
    x < a.bytesRead || Buffered(a.data, x)
  }

  /** Some buffer begins before `lo` and ends after it. */
  predicate Straddles(data: seq<Buffer>, lo: nat)
    decreases |data|
  {
    data != [] && (data[0].offset < lo < data[0].End() || Straddles(data[1..], lo))
  }

  lemma {:induction false} BufferedFrom(data: seq<Buffer>, lo: nat, hi: nat, x: nat)
    requires Ordered(data, lo, hi)
    ensures Buffered(data, x) ==> lo <= x < hi
    decreases |data|
  {
    if data != [] {
      BufferedFrom(data[1..], data[0].End(), hi, x);
      LengthWithinAllocation(data[1..], data[0].End(), hi);
    }
  }

  lemma BufferedCons(b: Buffer, data: seq<Buffer>, x: nat)
    ensures Buffered([b] + data, x) <==> b.offset <= x < b.End() || Buffered(data, x)
  {
    assert ([b] + data)[1..] == data;
  }

  lemma {:induction false} StraddlesAfter(data: seq<Buffer>, lo: nat, hi: nat, at: nat)
    requires Ordered(data, lo, hi) && at <= lo
    ensures !Straddles(data, at)
    decreases |data|
  {
    if data != [] { StraddlesAfter(data[1..], data[0].End(), hi, at); }
  }

  /** Covering buffers that all start at or after `b` gives the exact union. */
  lemma {:induction false} CoverExact(data: seq<Buffer>, b: Buffer, lo: nat, hi: nat, x: nat)
    requires Ordered(data, lo, hi) && 0 < |b.bytes| && (data != [] ==> b.offset <= data[0].offset)
    ensures Buffered(Cover(data, b), x) <==> Buffered(data, x) || b.offset <= x < b.End()
    decreases |data|
  {
    if data == [] || data[0].offset >= b.End() {
      BufferedCons(b, data, x);
    } else if data[0].End() <= b.End() {
      CoverExact(data[1..], b, data[0].End(), hi, x);
    } else if data[0].offset > b.offset {
      BufferedCons(b.(bytes := b.bytes[..data[0].offset - b.offset]), data, x);
    }
  }

  lemma {:induction false} PlaceExact(data: seq<Buffer>, b: Buffer, lo: nat, hi: nat, x: nat)
    requires Ordered(data, lo, hi) && 0 < |b.bytes| && !Straddles(data, b.offset)
    ensures Buffered(Place(data, b), x) <==> Buffered(data, x) || b.offset <= x < b.End()
    decreases |data|
  {
    if data != [] && data[0].End() <= b.offset {
      PlaceExact(data[1..], b, data[0].End(), hi, x);
      BufferedCons(data[0], Place(data[1..], b), x);
    } else {
      CoverExact(data, b, lo, hi, x);
    }
  }

  /** A straddling buffer that is not enclosing is dropped whole, and with it
      the bytes before the new frame. */
  lemma {:induction false} PlaceLoses(data: seq<Buffer>, b: Buffer, lo: nat, hi: nat) returns (x: nat)
    requires Ordered(data, lo, hi) && 0 < |b.bytes| <= b.allocation && lo <= b.offset && b.End() <= hi
    requires Straddles(data, b.offset) && !Encloses(data, b.offset, b.End())
    ensures lo <= x < b.offset && Buffered(data, x) && !Buffered(Place(data, b), x)
    decreases |data|
  {
    if data[0].End() <= b.offset {
      x := PlaceLoses(data[1..], b, data[0].End(), hi);
      BufferedCons(data[0], Place(data[1..], b), x);
    } else {
      if data[0].offset >= b.offset {
        StraddlesAfter(data[1..], data[0].End(), hi, b.offset);
        assert false;
      }
      x := data[0].offset;
      assert Cover(data, b) == Cover(data[1..], b);
      LengthWithinAllocation(data[1..], data[0].End(), hi);
      CoverExact(data[1..], b, data[0].End(), hi, x);
      BufferedFrom(data[1..], data[0].End(), hi, x);
    }
  }

  /** Completeness of `Insert`, exactly: the offsets at hand become the old ones
      plus the frame's if and only if no buffer straddles the first unread
      offset of the frame. */
  lemma InsertComplete(a: Asm, offset: nat, bytes: Bytes, allocation: nat)
    requires a.Valid() && |bytes| <= allocation && a.InsertDefined(offset, bytes)
    ensures var a' := a.Insert(offset, bytes, allocation);
            var u := a.Unread(offset, bytes, allocation);
            (forall x: nat :: Have(a', x) <==> Have(a, x) || offset <= x < offset + |bytes|)
            <==> (u.Some? ==> !Straddles(a.data, u.value.offset))
  {
    hide Place, Length, Allocation, Ordered, Buffered, Straddles;
    var a' := a.Insert(offset, bytes, allocation);
    var u := a.Unread(offset, bytes, allocation);
    if u.Some? {
      var b := u.value;
      var end := Max(a.end, offset + |bytes|);
      OrderedWithin(a.data, a.bytesRead, a.end, end);
      if Straddles(a.data, b.offset) {
        var x := PlaceLoses(a.data, b, a.bytesRead, end);
        assert Have(a, x) && !Have(a', x);
      } else {
        forall x: nat ensures Have(a', x) <==> Have(a, x) || offset <= x < offset + |bytes| {
          PlaceExact(a.data, b, a.bytesRead, end, x);
        }
      }
    }
  }

  /** Losing bytes is possible: with 0..2 buffered, the frame 1..3 drops
      byte 0. */
  lemma InsertMayLose()
    ensures var a := Asm([Buffer(0, [7, 8], 2)], 2, 2, 0, 2);
            && a.Valid() && a.InsertDefined(1, [8, 9])
            && Have(a, 0) && !Have(a.Insert(1, [8, 9], 2), 0)
  {
    var data := [Buffer(0, [7, 8], 2)];
    assert data[1..] == [];
    var b := Buffer(1, [8, 9], 2);
    assert Cover(data, b) == Cover([], b) == [b] + [] == [b];
    assert [b][1..] == [];
  }

  lemma {:induction false} CoverHas(data: seq<Buffer>, b: Buffer, x: nat)
    requires b.offset <= x < b.End() && !Encloses(data, b.offset, b.End())
    ensures Buffered(Cover(data, b), x)
    decreases |data|
  {
    if data == [] || data[0].offset >= b.End() {
      BufferedCons(b, data, x);
    } else if data[0].End() <= b.End() {
      CoverHas(data[1..], b, x);
    } else if data[0].offset > b.offset {
      BufferedCons(b.(bytes := b.bytes[..data[0].offset - b.offset]), data, x);
    }
  }

  lemma {:induction false} PlaceHas(data: seq<Buffer>, b: Buffer, x: nat)
    requires b.offset <= x < b.End() && !Encloses(data, b.offset, b.End())
    ensures Buffered(Place(data, b), x)
    decreases |data|
  {
    if data != [] && data[0].End() <= b.offset {
      PlaceHas(data[1..], b, x);
      BufferedCons(data[0], Place(data[1..], b), x);
    } else {
      CoverHas(data, b, x);
    }
  }

  /** Whatever `insert` may lose, the frame's own bytes are at hand afterwards. */
  lemma InsertHas(a: Asm, offset: nat, bytes: Bytes, allocation: nat)
    requires a.InsertDefined(offset, bytes)
    ensures forall x: nat :: offset <= x < offset + |bytes| ==> Have(a.Insert(offset, bytes, allocation), x)
  {
    hide Place, Length, Allocation, Buffered;
    var u := a.Unread(offset, bytes, allocation);
    if u.Some? {
      forall x: nat | u.value.offset <= x < u.value.End() ensures Buffered(Place(a.data, u.value), x) {
        PlaceHas(a.data, u.value, x);
      }
    }
  }

  /** The subtraction in `insert` underflows exactly when the unread part of the
      frame lies strictly inside one buffer. */
  lemma {:induction false} EnclosesExists(data: seq<Buffer>, lo: nat, hi: nat)
    ensures Encloses(data, lo, hi) <==> exists i :: 0 <= i < |data| && data[i].offset < lo && hi < data[i].End()
    decreases |data|
  {
    if data != [] {
      EnclosesExists(data[1..], lo, hi);
      if i :| 0 <= i < |data| && data[i].offset < lo && hi < data[i].End() {
        assert i > 0 ==> data[1..][i - 1] == data[i];
      }
      if Encloses(data[1..], lo, hi) {
        var i :| 0 <= i < |data[1..]| && data[1..][i].offset < lo && hi < data[1..][i].End();
        assert data[i + 1] == data[1..][i];
      }
    }
  }

  /** With 0..4 buffered, the frame 1..3 underflows. */
  lemma InsertMayUnderflow()
    ensures var a := Asm([Buffer(0, [5, 6, 7, 8], 4)], 4, 4, 0, 4);
            a.Valid() && !a.InsertDefined(1, [6, 7])
  {
    var data := [Buffer(0, [5, 6, 7, 8], 4)];
    assert data[1..] == [];
  }

  /** Reading changes neither what is at hand nor its place in the stream. */
  lemma ReadHave(a: Asm, maxLength: nat, x: nat)
    requires a.Valid()
    ensures Have(a.Read(maxLength).0, x) <==> Have(a, x)
  {
    if a.data != [] && a.data[0].offset == a.bytesRead {
      var front, rest := a.data[0], a.data[1..];
      if maxLength < |front.bytes| {
        BufferedCons(Buffer(front.offset + maxLength, front.bytes[maxLength..], front.allocation), rest, x);
      }
    }
  }

  // -------------------------------------------------------------- whole histories

  datatype Op = Put(offset: nat, bytes: Bytes, allocation: nat) | Take(maxLength: nat)

  function After(a: Asm, op: Op): Asm {
    match op
    case Put(offset, bytes, allocation) => a.Insert(offset, bytes, allocation)
    case Take(maxLength) => a.Read(maxLength).0
  }

  function AfterAll(a: Asm, ops: seq<Op>): Asm
    decreases |ops|
  {
    if ops == [] then a else AfterAll(After(a, ops[0]), ops[1..])
  }

  /** No frame meets a buffer that straddles its first unread offset. */
  predicate Smooth(a: Asm, ops: seq<Op>)
    decreases |ops|
  {
    ops != [] ==>
      && (ops[0].Put? ==>
            && |ops[0].bytes| <= ops[0].allocation
            && var u := a.Unread(ops[0].offset, ops[0].bytes, ops[0].allocation);
               u.Some? ==> !Straddles(a.data, u.value.offset))
      && Smooth(After(a, ops[0]), ops[1..])
  }

  /** Some frame of the history holds the offset. */
  predicate Arrived(ops: seq<Op>, x: nat)
    decreases |ops|
  {
    ops != [] && ((ops[0].Put? && ops[0].offset <= x < ops[0].offset + |ops[0].bytes|) || Arrived(ops[1..], x))
  }

  lemma {:induction false} EnclosedStraddles(data: seq<Buffer>, lo: nat, hi: nat)
    requires lo < hi && Encloses(data, lo, hi)
    ensures Straddles(data, lo)
    decreases |data|
  {
    if !(data[0].offset < lo && hi < data[0].End()) { EnclosedStraddles(data[1..], lo, hi); }
  }

  /** Over any history of insertions and reads without a straddling buffer,
      nothing panics, and the offsets at hand, read or buffered, are exactly those
      of the frames that arrived. */
  lemma {:induction false} HistoryComplete(a: Asm, ops: seq<Op>)
    requires a.Valid() && Smooth(a, ops)
    ensures AfterAll(a, ops).Valid()
    ensures forall x: nat :: Have(AfterAll(a, ops), x) <==> Have(a, x) || Arrived(ops, x)
    decreases |ops|
  {
    hide Asm.Insert, Asm.Read, Asm.Valid, Have, Straddles, Encloses;
    if ops != [] {
      var op := ops[0];
      match op {
        case Put(offset, bytes, allocation) =>
          var u := a.Unread(offset, bytes, allocation);
          if u.Some? && Encloses(a.data, u.value.offset, u.value.End()) {
            EnclosedStraddles(a.data, u.value.offset, u.value.End());
            assert false;
          }
          InsertComplete(a, offset, bytes, allocation);
          InsertKeeps(a, offset, bytes, allocation);
        case Take(maxLength) =>
          forall x: nat { ReadHave(a, maxLength, x); }
          ReadKeeps(a, maxLength);
      }
      HistoryComplete(After(a, op), ops[1..]);
    }
  }

  // ------------------------------------------------------------- correct bytes

  /** Every buffer holds the bytes of `stream` at its offset. */
  predicate Faithful(data: seq<Buffer>, stream: Bytes)
    decreases |data|
  {
    data != [] ==>
      && data[0].End() <= |stream| && data[0].bytes == stream[data[0].offset..data[0].End()]
      && Faithful(data[1..], stream)
  }

  lemma FaithfulCons(b: Buffer, data: seq<Buffer>, stream: Bytes)
    requires b.End() <= |stream| && b.bytes == stream[b.offset..b.End()] && Faithful(data, stream)
    ensures Faithful([b] + data, stream)
  {
    assert ([b] + data)[1..] == data;
  }

  lemma {:induction false} FaithfulGrows(data: seq<Buffer>, stream: Bytes, more: Bytes)
    requires Faithful(data, stream)
    ensures Faithful(data, stream + more)
    decreases |data|
  {
    if data != [] {
      FaithfulGrows(data[1..], stream, more);
      SliceConcat(stream, more, data[0].offset, data[0].End());
    }
  }

  lemma {:induction false} CoverFaithful(data: seq<Buffer>, b: Buffer, stream: Bytes)
    requires Faithful(data, stream) && b.End() <= |stream| && b.bytes == stream[b.offset..b.End()]
    ensures Faithful(Cover(data, b), stream)
    decreases |data|
  {
    if data == [] || data[0].offset >= b.End() {
      FaithfulCons(b, data, stream);
    } else if data[0].End() <= b.End() {
      CoverFaithful(data[1..], b, stream);
    } else if data[0].offset > b.offset {
      var kept := b.(bytes := b.bytes[..data[0].offset - b.offset]);
      assert kept.bytes == stream[kept.offset..kept.End()];
      FaithfulCons(kept, data, stream);
    }
  }

  lemma {:induction false} PlaceFaithful(data: seq<Buffer>, b: Buffer, stream: Bytes)
    requires Faithful(data, stream) && b.End() <= |stream| && b.bytes == stream[b.offset..b.End()]
    ensures Faithful(Place(data, b), stream)
    decreases |data|
  {
    if data != [] && data[0].End() <= b.offset {
      PlaceFaithful(data[1..], b, stream);
      FaithfulCons(data[0], Place(data[1..], b), stream);
    } else {
      CoverFaithful(data, b, stream);
    }
  }

  /** Inserting a genuine frame keeps every buffered byte genuine, whatever it
      overlaps. */
  lemma InsertFaithful(a: Asm, offset: nat, bytes: Bytes, allocation: nat, stream: Bytes)
    requires Faithful(a.data, stream)
    requires offset + |bytes| <= |stream| && bytes == stream[offset..offset + |bytes|]
    ensures Faithful(a.Insert(offset, bytes, allocation).data, stream)
  {
    var u := a.Unread(offset, bytes, allocation);
    if u.Some? {
      assert u.value.bytes == stream[u.value.offset..u.value.End()];
      PlaceFaithful(a.data, u.value, stream);
    }
  }

  /** A chunk is the next piece of the stream. */
  lemma ReadFaithful(a: Asm, maxLength: nat, stream: Bytes)
    requires a.Valid() && Faithful(a.data, stream)
    ensures var (a', chunk) := a.Read(maxLength);
            && Faithful(a'.data, stream) && a.bytesRead <= a'.bytesRead
            && (chunk.None? ==> a' == a)
            && (chunk.Some? ==>
                  && chunk.value.offset == a.bytesRead && |chunk.value.bytes| <= maxLength
                  && a'.bytesRead == a.bytesRead + |chunk.value.bytes| <= |stream|
                  && chunk.value.bytes == stream[a.bytesRead..a'.bytesRead])
  {
    hide Asm.Valid, Faithful, Length, Allocation;
    if a.data != [] && a.data[0].offset == a.bytesRead {
      FaithfulHead(a.data, stream);
      HeadFaithful(a.data[0], a.data[1..], Min(maxLength, |a.data[0].bytes|), stream);
    }
  }

  /** Both parts of a buffer that is split are genuine. */
  lemma HeadFaithful(front: Buffer, rest: seq<Buffer>, n: nat, stream: Bytes)
    requires front.End() <= |stream| && front.bytes == stream[front.offset..front.End()] && Faithful(rest, stream)
    requires n <= |front.bytes|
    ensures front.bytes[..n] == stream[front.offset..front.offset + n]
    ensures Faithful([Buffer(front.offset + n, front.bytes[n..], front.allocation)] + rest, stream)
  {
    hide Faithful;
    SubSlice(stream, front.offset, front.End(), n);
    FaithfulCons(Buffer(front.offset + n, front.bytes[n..], front.allocation), rest, stream);
  }

  lemma FaithfulHead(data: seq<Buffer>, stream: Bytes)
    requires data != [] && Faithful(data, stream)
    ensures data[0].End() <= |stream| && data[0].bytes == stream[data[0].offset..data[0].End()] && Faithful(data[1..], stream)
  {}

  lemma SubSlice(s: Bytes, lo: nat, hi: nat, n: nat)
    requires lo <= hi <= |s| && n <= hi - lo
    ensures s[lo..hi][..n] == s[lo..lo + n] && s[lo..hi][n..] == s[lo + n..hi]
  {}

  // ---------------------------------------------------------------- whole reads

  /** Where repeated reads stop. */
  function Frontier(data: seq<Buffer>, pos: nat): nat
    decreases |data|
  {
    if data == [] || data[0].offset != pos then pos else Frontier(data[1..], data[0].End())
  }

  /** That is the first offset that is not at hand. */
  lemma {:induction false} FrontierIsLeastMissing(data: seq<Buffer>, pos: nat, hi: nat)
    requires Ordered(data, pos, hi)
    ensures var f := Frontier(data, pos);
            && pos <= f && !Buffered(data, f)
            && forall x: nat :: pos <= x < f ==> Buffered(data, x)
    decreases |data|
  {
    if data != [] && data[0].offset == pos {
      FrontierIsLeastMissing(data[1..], data[0].End(), hi);
    } else {
      if Buffered(data, pos) {
        BufferedFrom(data[1..], data[0].End(), hi, pos);
        assert false;
      }
    }
  }

  lemma FrontierRead(a: Asm, maxLength: nat)
    requires a.Valid() && maxLength > 0
    ensures var (a', chunk) := a.Read(maxLength);
            && Frontier(a'.data, a'.bytesRead) == Frontier(a.data, a.bytesRead)
            && (chunk.None? ==> Frontier(a.data, a.bytesRead) == a.bytesRead)
            && (chunk.Some? ==> chunk.value.bytes != [])
  {
    if a.data != [] && a.data[0].offset == a.bytesRead {
      var front, rest := a.data[0], a.data[1..];
      if maxLength < |front.bytes| {
        var first := Buffer(front.offset + maxLength, front.bytes[maxLength..], front.allocation);
        assert ([first] + rest)[1..] == rest && first.End() == front.End();
      }
    }
  }

  /** Reading until nothing comes hands out exactly the bytes from the read
      point to the first offset that has not arrived. */
  method ReadAll(a: Assembler, maxLength: nat, ghost stream: Bytes) returns (out: Bytes)
    requires a.Valid() && maxLength > 0 && Faithful(a.data, stream) && a.bytesRead <= |stream|
    modifies a
    ensures a.Valid() && Faithful(a.data, stream)
    ensures old(a.bytesRead) <= a.bytesRead <= |stream| && out == stream[old(a.bytesRead)..a.bytesRead]
    ensures a.bytesRead == old(Frontier(a.data, a.bytesRead)) && !Have(a.View(), a.bytesRead)
    ensures forall x: nat :: Have(a.View(), x) <==> old(Have(a.View(), x))
  {
    hide Ordered, Faithful, Buffered, Frontier, Length, Allocation, Asm.Read;
    out := [];
    ghost var goal := Frontier(a.data, a.bytesRead);
    var going := true;
    while going
      invariant a.Valid() && Faithful(a.data, stream)
      invariant old(a.bytesRead) <= a.bytesRead <= |stream| && out == stream[old(a.bytesRead)..a.bytesRead]
      invariant Frontier(a.data, a.bytesRead) == goal
      invariant forall x: nat :: Have(a.View(), x) <==> old(Have(a.View(), x))
      invariant !going ==> a.bytesRead == goal
      decreases |stream| - a.bytesRead, going
    {
      ReadFaithful(a.View(), maxLength, stream);
      FrontierRead(a.View(), maxLength);
      forall x: nat { ReadHave(a.View(), maxLength, x); }
      var chunk := a.Read(maxLength);
      match chunk {
        case None => going := false;
        case Some(c) => out := out + c.bytes;
      }
    }
    FrontierIsLeastMissing(a.data, a.bytesRead, a.end);
  }
}
