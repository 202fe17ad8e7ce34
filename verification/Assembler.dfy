/** Reassembly of stream frames that arrive out of order
    (`Assembler` in core/src/connection/stream/recv.rs). */
module Assembler {
  import opened Core

  datatype Buffer = Buffer(offset: nat, bytes: Bytes, allocation: nat) {
    function End(): nat {
      offset + |bytes|
    }
  }

  datatype Chunk = Chunk(offset: nat, bytes: Bytes)

  /** Put `b` among the buffers it overlaps: those it covers go, and it is cut
      where the first one it does not cover begins. */
  function Cover(data: seq<Buffer>, b: Buffer): seq<Buffer>
    decreases |data|
  {
    if data == [] || data[0].offset >= b.End() then [b] + data
    else if data[0].End() <= b.End() then Cover(data[1..], b)
    else if data[0].offset <= b.offset then data
    else [b.(bytes := b.bytes[..data[0].offset - b.offset])] + data
  }

  /** Put `b` in order: buffers that end at or before its offset come first. */
  function Place(data: seq<Buffer>, b: Buffer): seq<Buffer>
    decreases |data|
  {
    if data != [] && data[0].End() <= b.offset then [data[0]] + Place(data[1..], b)
    else Cover(data, b)
  }

  function Length(data: seq<Buffer>): nat
    decreases |data|
  {
    if data == [] then 0 else |data[0].bytes| + Length(data[1..])
  }

  function Allocation(data: seq<Buffer>): nat
    decreases |data|
  {
    if data == [] then 0 else data[0].allocation + Allocation(data[1..])
  }

  /** Non-empty buffers in increasing order, without overlap, within
      `lo..hi`. */
  predicate Ordered(data: seq<Buffer>, lo: nat, hi: nat)
    decreases |data|
  {
    if data == [] then lo <= hi
    else
      && lo <= data[0].offset && 0 < |data[0].bytes| <= data[0].allocation
      && Ordered(data[1..], data[0].End(), hi)
  }

  predicate Buffered(data: seq<Buffer>, x: nat)
    decreases |data|
  {
    data != [] && (data[0].offset <= x < data[0].End() || Buffered(data[1..], x))
  }

  /** Some buffer begins before `lo` and ends after `hi`. */
  predicate Encloses(data: seq<Buffer>, lo: nat, hi: nat)
    decreases |data|
  {
    data != [] && ((data[0].offset < lo && hi < data[0].End()) || Encloses(data[1..], lo, hi))
  }

  datatype Asm = Asm(data: seq<Buffer>, buffered: nat, reserved: nat, bytesRead: nat, end: nat) {
    ghost predicate Valid() {
      && Ordered(data, bytesRead, end)
      && buffered == Length(data) && reserved == Allocation(data)
    }

    /** The part of a frame that the application has not read yet. */
    function Unread(offset: nat, bytes: Bytes, allocation: nat): Option<Buffer> {
      if bytes == [] || offset + |bytes| <= bytesRead then None
      else if offset < bytesRead then Some(Buffer(bytesRead, bytes[bytesRead - offset..], allocation))
      else Some(Buffer(offset, bytes, allocation))
    }

    /** `buf.offset - offset` does not underflow: no buffer reaches past the
        unread part of the frame at both ends. */
    predicate InsertDefined(offset: nat, bytes: Bytes) {
      var u := Unread(offset, bytes, |bytes|);
      u.Some? ==> !Encloses(data, u.value.offset, u.value.End())
    }

    function Insert(offset: nat, bytes: Bytes, allocation: nat): Asm {
      var end' := Max(end, offset + |bytes|);
      match Unread(offset, bytes, allocation)
      case None => this.(end := end')
      case Some(b) =>
        var data' := Place(data, b);
        Asm(data', Length(data'), Allocation(data'), bytesRead, end')
    }

    function Read(maxLength: nat): (Asm, Option<Chunk>) {
      if data == [] || data[0].offset != bytesRead then
        (this, None)
      else
        var front := data[0];
        var n := Min(maxLength, |front.bytes|);
        var data' := if n < |front.bytes|
                     then [Buffer(front.offset + n, front.bytes[n..], front.allocation)] + data[1..]
                     else data[1..];
        (Asm(data', Length(data'), Allocation(data'), bytesRead + n, end),
         Some(Chunk(front.offset, front.bytes[..n])))
    }

    function Clear(): Asm {
      this.(data := [], buffered := 0, reserved := 0)
    }
  }

  const NEW: Asm := Asm([], 0, 0, 0, 0)

  lemma {:induction false} Sums(a: seq<Buffer>, b: seq<Buffer>)
    ensures Length(a + b) == Length(a) + Length(b)
    ensures Allocation(a + b) == Allocation(a) + Allocation(b)
    decreases |a|
  {
    if a == [] {
      assert a + b == b;
    } else {
      Sums(a[1..], b);
      assert (a + b)[1..] == a[1..] + b;
    }
  }

  lemma {:induction false} LengthWithinAllocation(data: seq<Buffer>, lo: nat, hi: nat)
    requires Ordered(data, lo, hi)
    ensures lo <= hi && Length(data) <= Allocation(data)
    decreases |data|
  {
    if data != [] { LengthWithinAllocation(data[1..], data[0].End(), hi); }
  }

  class Assembler {
    var data: seq<Buffer>
    var buffered: nat
    var reserved: nat
    var bytesRead: nat
    var end: nat

    ghost function View(): Asm
      reads this
    {
      Asm(data, buffered, reserved, bytesRead, end)
    }

    ghost predicate Valid()
      reads this
    {
      View().Valid()
    }

    constructor ()
      ensures Valid() && View() == NEW
    {
      data, buffered, reserved, bytesRead, end := [], 0, 0, 0, 0;
    }

    /** The next chunk of the contiguous prefix, at most `maxLength` bytes. */
    method Read(maxLength: nat) returns (chunk: Option<Chunk>)
      requires Valid()
      modifies this
      ensures Valid() && (View(), chunk) == old(View()).Read(maxLength)
    {
      ReadKeeps(View(), maxLength);
      if data == [] || data[0].offset != bytesRead {
        return None;
      }
      var front := data[0];
      if maxLength < |front.bytes| {
        bytesRead := bytesRead + maxLength;
        buffered := buffered - maxLength;
        data := [Buffer(front.offset + maxLength, front.bytes[maxLength..], front.allocation)] + data[1..];
        return Some(Chunk(front.offset, front.bytes[..maxLength]));
      }
      bytesRead := bytesRead + |front.bytes|;
      buffered := buffered - |front.bytes|;
      reserved := reserved - front.allocation;
      data := data[1..];
      assert front.bytes[..|front.bytes|] == front.bytes;
      return Some(Chunk(front.offset, front.bytes));
    }

    method Insert(offset: nat, bytes: Bytes, allocation: nat)
      requires Valid() && |bytes| <= allocation && View().InsertDefined(offset, bytes)
      modifies this
      ensures Valid() && View() == old(View()).Insert(offset, bytes, allocation)
    {
      InsertKeeps(View(), offset, bytes, allocation);
      var newEnd := offset + |bytes|;
      end := Max(end, newEnd);
      if bytes == [] || newEnd <= bytesRead {
        return;
      }
      var b := Buffer(offset, bytes, allocation);
      if offset < bytesRead {
        b := Buffer(bytesRead, bytes[bytesRead - offset..], allocation);
      }
      InsertBuffer(b);
    }

    method InsertBuffer(b: Buffer)
      requires buffered == Length(data) && reserved == Allocation(data)
      requires 0 < |b.bytes| && !Encloses(data, b.offset, b.End())
      modifies this`data, this`buffered, this`reserved
      ensures data == Place(old(data), b)
      ensures buffered == Length(data) && reserved == Allocation(data)
    {
      hide Length, Allocation;
      ghost var all := data;
      var at := 0;
      while at < |data| && data[at].End() <= b.offset
        invariant 0 <= at <= |data| && data == all
        invariant forall i :: 0 <= i < at ==> data[i].End() <= b.offset
      {
        at := at + 1;
      }
      // Everything before `at` ends at or before the new buffer's offset, so
      // there is nothing to trim on that side.
      Rejoin(all, at);
      if at < |all| { SplitAt(all, at); }
      PlaceSkips(all[..at], all[at..], b);
      EnclosesTail(all[..at], all[at..], b);
      at := DropCovered(at, b);
    }

    /** Remove the buffers from `at` on that `b` covers, then add what is left of
        `b` before the first one it does not. */
    method DropCovered(first: nat, b: Buffer) returns (at: nat)
      requires first <= |data| && 0 < |b.bytes| && !Encloses(data[first..], b.offset, b.End())
      requires buffered == Length(data) && reserved == Allocation(data)
      modifies this`data, this`buffered, this`reserved
      ensures data == old(data[..first] + Cover(data[first..], b))
      ensures buffered == Length(data) && reserved == Allocation(data)
    {
      hide Length, Allocation, Cover, Encloses;
      ghost var goal := data[..first] + Cover(data[first..], b);
      at := first;
      while at < |data| && data[at].offset < b.End() && data[at].End() <= b.End()
        invariant at <= |data| && !Encloses(data[at..], b.offset, b.End())
        invariant data[..at] + Cover(data[at..], b) == goal
        invariant buffered == Length(data) && reserved == Allocation(data)
        decreases |data|
      {
        DropOne(data, at);
        SplitAt(data, at);
        CoverDrops(data[at..], b);
        Spliced(data[..at], [], data[at + 1..]);
        buffered := buffered - |data[at].bytes|;
        reserved := reserved - data[at].allocation;
        data := data[..at] + data[at + 1..];
      }
      if at < |data| { SplitAt(data, at); }
      CoverEnds(data[at..], b);
      Rejoin(data, at);
      var kept := b.bytes;
      if at < |data| && data[at].offset < b.End() {
        kept := b.bytes[..data[at].offset - b.offset];
      }
      if kept == [] {
        return;
      }
      AddOne(data, at, b.(bytes := kept));
      Spliced(data[..at], [b.(bytes := kept)], data[at..]);
      buffered := buffered + |kept|;
      reserved := reserved + b.allocation;
      data := data[..at] + [b.(bytes := kept)] + data[at..];
    }

    method Clear()
      requires Valid()
      modifies this
      ensures Valid() && View() == old(View()).Clear()
    {
      LengthWithinAllocation(data, bytesRead, end);
      data, buffered, reserved := [], 0, 0;
    }
  }

  lemma DropOne(data: seq<Buffer>, at: nat)
    requires at < |data|
    ensures Length(data) == Length(data[..at] + data[at + 1..]) + |data[at].bytes|
    ensures Allocation(data) == Allocation(data[..at] + data[at + 1..]) + data[at].allocation
  {
    SplitAt(data, at);
    Sums(data[..at] + [data[at]], data[at + 1..]);
    Sums(data[..at], [data[at]]);
    Sums(data[..at], data[at + 1..]);
    assert [data[at]][1..] == [];
  }

  lemma AddOne(data: seq<Buffer>, at: nat, b: Buffer)
    requires at <= |data|
    ensures Length(data[..at] + [b] + data[at..]) == Length(data) + |b.bytes|
    ensures Allocation(data[..at] + [b] + data[at..]) == Allocation(data) + b.allocation
  {
    Rejoin(data, at);
    Sums(data[..at] + [b], data[at..]);
    Sums(data[..at], [b]);
    Sums(data[..at], data[at..]);
    assert [b][1..] == [];
  }

  lemma {:induction false} PlaceSkips(passed: seq<Buffer>, tail: seq<Buffer>, b: Buffer)
    requires forall i :: 0 <= i < |passed| ==> passed[i].End() <= b.offset
    requires tail == [] || b.offset < tail[0].End()
    ensures Place(passed + tail, b) == passed + Cover(tail, b)
    decreases |passed|
  {
    if passed == [] {
      assert passed + tail == tail && [] + Cover(tail, b) == Cover(tail, b);
    } else {
      PlaceSkips(passed[1..], tail, b);
      assert (passed + tail)[1..] == passed[1..] + tail;
      assert [passed[0]] + (passed[1..] + Cover(tail, b)) == passed + Cover(tail, b);
    }
  }

  lemma {:induction false} EnclosesTail(passed: seq<Buffer>, tail: seq<Buffer>, b: Buffer)
    requires !Encloses(passed + tail, b.offset, b.End())
    ensures !Encloses(tail, b.offset, b.End())
    decreases |passed|
  {
    if passed == [] {
      assert passed + tail == tail;
    } else {
      assert (passed + tail)[1..] == passed[1..] + tail;
      EnclosesTail(passed[1..], tail, b);
    }
  }

  lemma CoverDrops(tail: seq<Buffer>, b: Buffer)
    requires tail != [] && tail[0].offset < b.End() && tail[0].End() <= b.End()
    ensures Cover(tail, b) == Cover(tail[1..], b)
    ensures !Encloses(tail, b.offset, b.End()) ==> !Encloses(tail[1..], b.offset, b.End())
  {}

  /** The last step of `Cover`, where nothing more is covered. */
  lemma CoverEnds(tail: seq<Buffer>, b: Buffer)
    requires !Encloses(tail, b.offset, b.End())
    requires tail != [] && tail[0].offset < b.End() ==> b.End() < tail[0].End()
    ensures Cover(tail, b)
         == if tail != [] && tail[0].offset < b.End()
            then if tail[0].offset == b.offset then tail
                 else [b.(bytes := b.bytes[..tail[0].offset - b.offset])] + tail
            else [b] + tail
    ensures tail != [] && tail[0].offset < b.End() ==> b.offset <= tail[0].offset
  {}

  lemma ReadKeeps(a: Asm, maxLength: nat)
    requires a.Valid()
    ensures a.Read(maxLength).0.Valid()
    ensures a.data != [] ==> var n := Min(maxLength, |a.data[0].bytes|);
              && a.buffered == |a.data[0].bytes| + Length(a.data[1..])
              && a.reserved == a.data[0].allocation + Allocation(a.data[1..])
    ensures a.data != [] && a.data[0].offset == a.bytesRead && maxLength < |a.data[0].bytes| ==>
              var a' := a.Read(maxLength).0;
              a'.buffered == a.buffered - maxLength && a'.reserved == a.reserved
  {
    if a.data != [] {
      var front, rest := a.data[0], a.data[1..];
      var first := Buffer(front.offset + maxLength,
                          if maxLength <= |front.bytes| then front.bytes[maxLength..] else [], front.allocation);
      assert ([first] + rest)[1..] == rest;
    }
  }

  lemma InsertKeeps(a: Asm, offset: nat, bytes: Bytes, allocation: nat)
    requires a.Valid() && |bytes| <= allocation
    ensures a.Insert(offset, bytes, allocation).Valid()
  {
    hide Length, Allocation, Place;
    var end := Max(a.end, offset + |bytes|);
    OrderedWithin(a.data, a.bytesRead, a.end, end);
    var u := a.Unread(offset, bytes, allocation);
    if u.Some? {
      PlaceKeeps(a.data, u.value, a.bytesRead, end);
    }
  }

  lemma {:induction false} OrderedWithin(data: seq<Buffer>, lo: nat, hi: nat, hi': nat)
    requires Ordered(data, lo, hi) && hi <= hi'
    ensures Ordered(data, lo, hi')
    decreases |data|
  {
    if data != [] { OrderedWithin(data[1..], data[0].End(), hi, hi'); }
  }

  lemma OrderedAfter(data: seq<Buffer>, lo: nat, lo': nat, hi: nat)
    requires Ordered(data, lo, hi) && lo' <= hi && (data != [] ==> lo' <= data[0].offset)
    ensures Ordered(data, lo', hi)
  {}

  /** Placing a buffer keeps the list in order. */
  lemma {:induction false} PlaceKeeps(data: seq<Buffer>, b: Buffer, lo: nat, hi: nat)
    requires Ordered(data, lo, hi) && 0 < |b.bytes| <= b.allocation && lo <= b.offset && b.End() <= hi
    ensures Ordered(Place(data, b), lo, hi)
    decreases |data|
  {
    if data != [] && data[0].End() <= b.offset {
      PlaceKeeps(data[1..], b, data[0].End(), hi);
      assert ([data[0]] + Place(data[1..], b))[1..] == Place(data[1..], b);
    } else {
      CoverKeeps(data, b, lo, hi);
    }
  }

  lemma {:induction false} CoverKeeps(data: seq<Buffer>, b: Buffer, lo: nat, hi: nat)
    requires Ordered(data, lo, hi) && 0 < |b.bytes| <= b.allocation && lo <= b.offset && b.End() <= hi
    ensures Ordered(Cover(data, b), lo, hi)
    decreases |data|
  {
    if data == [] || data[0].offset >= b.End() {
      OrderedAfter(data, lo, b.End(), hi);
      assert ([b] + data)[1..] == data;
    } else if data[0].End() <= b.End() {
      LengthWithinAllocation(data[1..], data[0].End(), hi);
      OrderedAfter(data[1..], data[0].End(), lo, hi);
      CoverKeeps(data[1..], b, lo, hi);
    } else if data[0].offset > b.offset {
      var kept := b.(bytes := b.bytes[..data[0].offset - b.offset]);
      LengthWithinAllocation(data, lo, hi);
      OrderedAfter(data, lo, kept.End(), hi);
      assert ([kept] + data)[1..] == data;
    }
  }
}
