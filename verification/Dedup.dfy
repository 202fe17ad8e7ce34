/** The sliding window that recognises duplicate packets (`Dedup` in
    core/src/connection/space.rs; the window style of section 3.4.3 of
    RFC 4303). The 128-bit field is a number, and its shifts and masks are
    arithmetic modulo 2 to the 128. */
module Dedup {
  import opened Core

  const BITS: nat := 128
  const WINDOW_SIZE: nat := 129

  /** The `i`-th binary digit. */
  predicate Bit(w: nat, i: nat) {
    if i == 0 then w % 2 == 1 else Bit(w / 2, i - 1)
  }

  function ShiftLeft(w: nat, k: nat): nat {
    (w * Pow2(k)) % Pow2(BITS)
  }

  function SetBit(w: nat, b: nat): nat {
    if Bit(w, b) then w else w + Pow2(b)
  }

  lemma HalveMod(w: nat, p: nat)
    requires p > 0
    ensures (w % (2 * p)) / 2 == (w / 2) % p && (w % (2 * p)) % 2 == w % 2
  {
    var q, r := w / (2 * p), w % (2 * p);
    assert w == (2 * p) * q + r;
    assert (2 * p) * q == 2 * (p * q);
    assert w / 2 == p * q + r / 2;
    var q', r' := (w / 2) / p, (w / 2) % p;
    assert w / 2 == p * q' + r' && r / 2 < p;
    assert p * (q - q') == p * q - p * q' == r' - r / 2;
    SmallMultiple(p, q - q');
  }

  lemma {:induction false} BitOfMod(w: nat, n: nat, i: nat)
    requires i < n
    ensures Bit(w % Pow2(n), i) == Bit(w, i)
    decreases i
  {
    HalveMod(w, Pow2(n - 1));
    if i > 0 { BitOfMod(w / 2, n - 1, i - 1); }
  }

  lemma {:induction false} BitOfProduct(w: nat, k: nat, i: nat)
    ensures Bit(w * Pow2(k), i) <==> i >= k && Bit(w, i - k)
    decreases k
  {
    if k > 0 {
      var half := w * Pow2(k - 1);
      assert w * Pow2(k) == 2 * half;
      if i > 0 { BitOfProduct(w, k - 1, i - 1); }
    }
  }

  lemma BitOfShift(w: nat, k: nat, i: nat)
    requires i < BITS
    ensures Bit(ShiftLeft(w, k), i) <==> i >= k && Bit(w, i - k)
  {
    BitOfMod(w * Pow2(k), BITS, i);
    BitOfProduct(w, k, i);
  }

  lemma {:induction false} BitOfSet(w: nat, b: nat, j: nat)
    ensures Bit(SetBit(w, b), j) <==> j == b || Bit(w, j)
    decreases b
  {
    if !Bit(w, b) {
      if b == 0 {
        assert (w + 1) / 2 == w / 2;
      } else {
        assert (w + Pow2(b)) / 2 == w / 2 + Pow2(b - 1) && (w + Pow2(b)) % 2 == w % 2;
        if j > 0 { BitOfSet(w / 2, b - 1, j - 1); }
      }
    }
  }

  lemma BitOfZero(i: nat)
    ensures !Bit(0, i)
  {}

  /** Making room for the new highest number: the old highest becomes a bit of
      the window. */
  lemma BitOfSlide(w: nat, diff: nat, i: nat)
    requires i < BITS
    ensures Bit(ShiftLeft(SetBit(ShiftLeft(w, 1), 0), diff), i) <==> i == diff || (i > diff && Bit(w, i - diff - 1))
  {
    hide Bit, ShiftLeft, SetBit;
    BitOfShift(SetBit(ShiftLeft(w, 1), 0), diff, i);
    if i >= diff {
      BitOfSet(ShiftLeft(w, 1), 0, i - diff);
      BitOfShift(w, 1, i - diff);
    }
  }

  /** The window agrees with the set of numbers seen, as far as it reaches. */
  ghost predicate Tracks(window: nat, next: nat, seen: set<nat>) {
    && (next == 0 ==> seen == {})
    && (next > 0 ==> next - 1 in seen)
    && (forall x :: x in seen ==> x < next)
    && (forall i :: 0 <= i < BITS && i + 2 <= next ==> (Bit(window, i) <==> next - 2 - i in seen))
  }

  /** A number that counts as received: seen, or left of the window. */
  ghost predicate Received(next: nat, seen: set<nat>, x: nat) {
    x in seen || x + WINDOW_SIZE < next
  }

  lemma SlideTracks(window: nat, next: nat, seen: set<nat>, packet: nat)
    requires Tracks(window, next, seen) && next <= packet
    ensures var diff := packet - next;
            Tracks(if diff < BITS then ShiftLeft(SetBit(ShiftLeft(window, 1), 0), diff) else 0,
                   packet + 1, seen + {packet})
  {
    hide Bit, ShiftLeft, SetBit;
    var diff := packet - next;
    var window' := if diff < BITS then ShiftLeft(SetBit(ShiftLeft(window, 1), 0), diff) else 0;
    forall i | 0 <= i < BITS && i + 2 <= packet + 1
      ensures Bit(window', i) <==> packet - 1 - i in seen + {packet}
    {
      if diff < BITS {
        BitOfSlide(window, diff, i);
      } else {
        BitOfZero(i);
      }
    }
  }

  lemma MarkTracks(window: nat, next: nat, seen: set<nat>, packet: nat)
    requires Tracks(window, next, seen) && packet + 2 <= next && next - 2 - packet < BITS
    ensures Tracks(SetBit(window, next - 2 - packet), next, seen + {packet})
  {
    hide Bit, SetBit;
    var b := next - 2 - packet;
    forall i | 0 <= i < BITS && i + 2 <= next
      ensures Bit(SetBit(window, b), i) <==> next - 2 - i in seen + {packet}
    {
      BitOfSet(window, b, i);
    }
  }

  class Dedup {
    var window: nat
    /** Lowest number higher than all seen. */
    var next: nat
    ghost var seen: set<nat>

    ghost predicate Valid()
      reads this
    {
      Tracks(window, next, seen)
    }

    constructor ()
      ensures Valid() && seen == {}
    {
      window, next, seen := 0, 0, {};
    }

    /** Record a number; the reply says whether it may be a duplicate: exactly
        when it was recorded before or lies more than 128 below the highest. */
    method Insert(packet: nat) returns (duplicate: bool)
      requires Valid()
      modifies this
      ensures Valid() && seen == old(seen) + {packet}
      ensures duplicate <==> old(Received(next, seen, packet))
      ensures next == if old(next) <= packet then packet + 1 else old(next)
    {
      hide Bit, ShiftLeft, SetBit;
      if packet >= next {
        SlideTracks(window, next, seen, packet);
        var diff := packet - next;
        window := if diff < BITS then ShiftLeft(SetBit(ShiftLeft(window, 1), 0), diff) else 0;
        next := packet + 1;
        duplicate := false;
      } else if next - 1 - packet < WINDOW_SIZE {
        if next - 1 - packet >= 1 {
          var bit := next - 1 - packet - 1;
          MarkTracks(window, next, seen, packet);
          duplicate := Bit(window, bit);
          window := SetBit(window, bit);
        } else {
          duplicate := true;
        }
      } else {
        duplicate := true;
      }
      seen := seen + {packet};
    }

    /** The least number of the interval that has not been received. */
    method SmallestMissing(lower: nat, upper: nat) returns (r: Option<nat>)
      requires Valid()
      ensures r.None? ==> forall x: nat :: lower <= x < upper ==> Received(next, seen, x)
      ensures r.Some? ==>
                && lower <= r.value < upper && !Received(next, seen, r.value)
                && forall x: nat :: lower <= x < r.value ==> Received(next, seen, x)
    {
      hide Bit;
      var pn := lower;
      while pn < upper
        invariant lower <= pn && (pn <= upper || pn == lower)
        invariant forall x: nat :: lower <= x < pn ==> Received(next, seen, x)
      {
        var received;
        if pn >= next {
          received := false;
        } else if next - 1 == pn {
          received := true;
        } else {
          var bit := next - 1 - pn - 1;
          received := bit >= WINDOW_SIZE - 1 || Bit(window, bit);
        }
        if !received {
          return Some(pn);
        }
        pn := pn + 1;
      }
      return None;
    }
  }

  /** Any history: the reply to the last insertion depends only on the set of
      numbers inserted before it. */
  method History(packets: seq<nat>, last: nat) returns (duplicate: bool)
    ensures duplicate <==>
              || last in packets
              || exists p :: p in packets && last + 128 < p
  {
    var d := new Dedup();
    for i := 0 to |packets|
      invariant d.Valid() && fresh(d) && d.seen == set p | p in packets[..i]
    {
      var _ := d.Insert(packets[i]);
    }
    assert packets[..|packets|] == packets;
    assert d.next > 0 ==> d.next - 1 in packets;
    assert forall p :: p in packets ==> p in d.seen;
    duplicate := d.Insert(last);
  }
}
