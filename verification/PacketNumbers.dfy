/** Packet numbers on the wire: truncation by the sender, recovery by the
    receiver (proto/src/packet.rs; section 17.1 and Appendix A of RFC 9000). */
module PacketNumbers {
  import opened Core
  import opened VarInt

  /** An encoded packet number. `U24` is held in 32 bits, so a fresh one may
      carry more than the 24 bits that travel. */
  datatype PacketNumber = U8(value: nat) | U16(value: nat) | U24(value: nat) | U32(value: nat) {
    function Len(): (n: nat)
      ensures 1 <= n <= 4
    {
      match this case U8(_) => 1 case U16(_) => 2 case U24(_) => 3 case U32(_) => 4
    }

    /** The two bits of the first header byte that carry the length. */
    function Tag(): nat {
      match this case U8(_) => 0 case U16(_) => 1 case U24(_) => 2 case U32(_) => 3
    }

    /** Numbers that one encoding of this length can tell apart. */
    function Window(): (w: nat)
      ensures w == Pow256(Len())
    {
      Pow256s();
      match this case U8(_) => 0x100 case U16(_) => 0x1_0000 case U24(_) => 0x100_0000 case U32(_) => 0x1_0000_0000
    }

    function Encode(): Bytes {
      BigEndian(Len(), value)
    }

    /** The number closest to `expected` with these low bits. */
    function Expand(expected: nat): nat
      requires value < Window()
    {
      Nearest(value, expected, Window())
    }
  }

  /** Replace the low bits of `expected` by `v`, and step to the neighbouring
      window if that is closer. */
  function Nearest(v: nat, expected: nat, win: nat): nat
    requires v < win
  {
    var hwin := win / 2;
    var candidate := expected - expected % win + v;
    if hwin <= expected && candidate <= expected - hwin then candidate + win
    else if candidate > expected + hwin && candidate > win then candidate - win
    else candidate
  }

  /** Truncate `n` for a peer that has acknowledged `largestAcked`; numbers too
      far ahead cannot be sent. */
  function New(n: nat, largestAcked: nat): Option<PacketNumber>
    requires largestAcked <= n
  {
    var range := (n - largestAcked) * 2;
    if range < 0x100 then Some(U8(n % 0x100))
    else if range < 0x1_0000 then Some(U16(n % 0x1_0000))
    else if range < 0x100_0000 then Some(U24(n % 0x1_0000_0000))
    else if range < 0x1_0000_0000 then Some(U32(n % 0x1_0000_0000))
    else None
  }

  /** The shortest form that can tell the number from those of twice the distance to
      the last acknowledged one, if four bytes suffice. */
  lemma NewShortest(n: nat, largestAcked: nat)
    requires largestAcked <= n
    ensures New(n, largestAcked).Some? <==> 2 * (n - largestAcked) < Pow256(4)
    ensures New(n, largestAcked).Some? ==>
              var len := New(n, largestAcked).value.Len();
              2 * (n - largestAcked) < Pow256(len) && (len > 1 ==> Pow256(len - 1) <= 2 * (n - largestAcked))
  {
    Pow256s();
  }

  function DecodeLen(tag: nat): nat {
    1 + tag % 4
  }

  function Decode(len: nat, bs: Bytes): Taken<PacketNumber>
    requires 1 <= len <= 4
  {
    if |bs| < len then Short
    else
      var v := FromBigEndian(bs[..len]);
      Got(match len case 1 => U8(v) case 2 => U16(v) case 3 => U24(v) case _ => U32(v), bs[len..])
  }

  /** What arrives is the number modulo the window of its length. */
  lemma WireTruncates(n: nat, largestAcked: nat, rest: Bytes)
    requires largestAcked <= n && New(n, largestAcked).Some?
    ensures var pn := New(n, largestAcked).value;
            && DecodeLen(pn.Tag()) == pn.Len()
            && Decode(pn.Len(), pn.Encode() + rest).Got?
            && var got := Decode(pn.Len(), pn.Encode() + rest);
               && got.rest == rest && got.value.Len() == pn.Len()
               && got.value.value == n % pn.Window()
  {
    hide BigEndian, FromBigEndian, Pow256;
    var pn := New(n, largestAcked).value;
    var bs := pn.Encode();
    assert (bs + rest)[..pn.Len()] == bs && (bs + rest)[pn.Len()..] == rest;
    BigEndianRoundTrip(pn.Len(), pn.value);
    TruncatedTwice(n);
  }

  lemma TruncatedTwice(n: nat)
    ensures (n % 0x100) % 0x100 == n % 0x100 && (n % 0x1_0000) % 0x1_0000 == n % 0x1_0000
    ensures (n % 0x1_0000_0000) % 0x100_0000 == n % 0x100_0000
    ensures (n % 0x1_0000_0000) % 0x1_0000_0000 == n % 0x1_0000_0000
  {
    var q, r := n / 0x1_0000_0000, n % 0x1_0000_0000;
    var k, low := r / 0x100_0000, r % 0x100_0000;
    ModUnique(n, 0x100_0000, 0x100 * q + k, low);
  }

  lemma NearestExact(n: nat, expected: nat, win: nat)
    requires win > 0 && win % 2 == 0
    ensures var hwin := win / 2;
            Nearest(n % win, expected, win) == n
            <==> if hwin <= expected then expected - hwin < n <= expected + hwin else n < win
  {
    MultiplesApart(expected, n, win);
    NearestLinear(expected - expected % win, expected % win, n - n % win, n % win, win / 2);
  }

  /** Two multiples of the window are equal or at least a window apart. */
  lemma MultiplesApart(x: nat, y: nat, win: nat)
    requires win > 0
    ensures var a, b := x - x % win, y - y % win;
            && (a == 0 || a >= win) && (b == 0 || b >= win)
            && (b == a || b == a + win || b >= a + 2 * win || b == a - win || b <= a - 2 * win)
  {
    var q, p := x / win, y / win;
    assert x - x % win == win * q && y - y % win == win * p;
    assert win * p == win * q + win * (p - q);
    Multiples(win, p - q);
    Multiples(win, p);
    Multiples(win, q);
  }

  /** The same with the multiples of the window, `a` and `b`, set apart. */
  lemma NearestLinear(a: nat, s: nat, b: nat, v: nat, h: nat)
    requires h > 0 && s < 2 * h && v < 2 * h
    requires a == 0 || a >= 2 * h
    requires b == 0 || b >= 2 * h
    requires b == a || b == a + 2 * h || b >= a + 4 * h || b == a - 2 * h || b <= a - 4 * h
    ensures var candidate := a + v;
            var r := if h <= a + s && candidate <= a + s - h then candidate + 2 * h
                     else if candidate > a + s + h && candidate > 2 * h then candidate - 2 * h
                     else candidate;
            r == b + v <==> if h <= a + s then a + s - h < b + v <= a + s + h else b + v < 2 * h
  {}

  lemma Multiples(w: int, d: int)
    requires w > 0
    ensures d == 0 ==> w * d == 0
    ensures d >= 1 ==> w * d >= w
    ensures d >= 2 ==> w * d >= 2 * w
    ensures d <= -1 ==> w * d <= -w
    ensures d <= -2 ==> w * d <= -2 * w
    ensures d == 1 ==> w * d == w
    ensures d == -1 ==> w * d == -w
  {}

  /** Recovery is congruent to the number, so it is right exactly inside one
      window around the expected one. */
  lemma ExpandExact(pn: PacketNumber, n: nat, expected: nat)
    requires pn.value == n % pn.Window()
    ensures var hwin := pn.Window() / 2;
            pn.Expand(expected) == n
            <==> if hwin <= expected then expected - hwin < n <= expected + hwin else n < pn.Window()
  {
    NearestExact(n, expected, pn.Window());
  }

  /** Recovery stays congruent, and close to the expected number. */
  lemma NearestCongruent(v: nat, expected: nat, win: nat)
    requires v < win && win % 2 == 0
    ensures Nearest(v, expected, win) % win == v
    ensures win / 2 <= expected ==> expected - win / 2 < Nearest(v, expected, win) <= expected + win / 2
  {
    var q := expected / win;
    MultipleOf(expected, win);
    NearestStays(win * q, expected % win, v, win / 2);
    var n := Nearest(v, expected, win);
    Congruent(n, win, q, v);
  }

  lemma MultipleOf(x: nat, win: nat)
    requires win > 0
    ensures x == win * (x / win) + x % win && (win * (x / win) == 0 || win * (x / win) >= win)
  {
    Multiples(win, x / win);
  }

  lemma Congruent(n: nat, win: nat, q: nat, v: nat)
    requires v < win && (n == win * q + v || n == win * q + v + win || n == win * q + v - win)
    ensures n % win == v
  {
    Multiples(win, q);
    assert win * (q + 1) == win * q + win && win * (q - 1) == win * q - win;
    if n == win * q + v { ModUnique(n, win, q, v); }
    else if n > win * q + v { ModUnique(n, win, q + 1, v); }
    else { ModUnique(n, win, q - 1, v); }
  }

  lemma NearestStays(a: nat, s: nat, v: nat, h: nat)
    requires h > 0 && s < 2 * h && v < 2 * h && (a == 0 || a >= 2 * h)
    ensures var candidate := a + v;
            var r := if h <= a + s && candidate <= a + s - h then candidate + 2 * h
                     else if candidate > a + s + h && candidate > 2 * h then candidate - 2 * h
                     else candidate;
            && (r == candidate || r == candidate + 2 * h || r == candidate - 2 * h)
            && (h <= a + s ==> a + s - h < r <= a + s + h)
  {}

  /** A packet that comes too late is taken for a later one with the same low
      bits, at least a whole window ahead. */
  lemma ExpandMisreads(pn: PacketNumber, n: nat, expected: nat)
    requires pn.value == n % pn.Window() && n + pn.Window() / 2 <= expected
    ensures var m := pn.Expand(expected);
            && m % pn.Window() == n % pn.Window() && n + pn.Window() <= m <= expected + pn.Window() / 2
  {
    var m := pn.Expand(expected);
    NearestCongruent(pn.value, expected, pn.Window());
    MultiplesApart(n, m, pn.Window());
  }

  /** Packet number recovery, through the wire and exactly: with `highest` the
      highest number the receiver has seen, at least what the sender knows to be
      acknowledged, the receiver recovers `n` if and only if `highest + 1` is
      less than half a window ahead of it. */
  lemma Recovered(n: nat, largestAcked: nat, highest: nat, rest: Bytes)
    requires largestAcked <= n && New(n, largestAcked).Some? && largestAcked <= highest
    ensures var pn := New(n, largestAcked).value;
            var got := Decode(pn.Len(), pn.Encode() + rest);
            && got.Got? && got.value.value < got.value.Window()
            && (got.value.Expand(highest + 1) == n <==> highest + 1 < n + pn.Window() / 2)
  {
    WireTruncates(n, largestAcked, rest);
    var pn := New(n, largestAcked).value;
    var got := Decode(pn.Len(), pn.Encode() + rest).value;
    ExpandExact(got, n, highest + 1);
    SentWithinHalf(n, largestAcked);
  }

  /** The sender never truncates further than half a window allows. */
  lemma SentWithinHalf(n: nat, largestAcked: nat)
    requires largestAcked <= n && New(n, largestAcked).Some?
    ensures n - largestAcked < New(n, largestAcked).value.Window() / 2
  {}

  /** One number too far: 127 packets behind the highest, a one-byte number is
      mistaken for the one 256 above it. */
  lemma RecoveryEdge()
    ensures New(100, 99) == Some(U8(100)) && U8(100).Expand(100 + 127 + 1) == 356
    ensures U8(100).Expand(100 + 126 + 1) == 100
  {}
}
