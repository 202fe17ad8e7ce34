/** Network-order integers and variable-length integers
    (proto/src/varint.rs; section 16 of RFC 9000). */
module VarInt {
  import opened Core

  const VARINT_MAX_1: nat := 63
  const VARINT_MAX_2: nat := 0x3fff
  const VARINT_MAX_4: nat := 0x3fff_ffff
  const VARINT_MAX: nat := 0x3fff_ffff_ffff_ffff

  /** Result of taking something off the front of a buffer. */
  datatype Taken<+T> = Got(value: T, rest: Bytes) | Short

  function Pow256(n: nat): (p: nat)
    ensures p > 0
  {
    if n == 0 then 1 else 256 * Pow256(n - 1)
  }

  lemma Pow256s()
    ensures Pow256(1) == 0x100 && Pow256(2) == 0x1_0000 && Pow256(3) == 0x100_0000 && Pow256(4) == 0x1_0000_0000
    ensures Pow256(7) == 0x100_0000_0000_0000 && Pow256(8) == 0x1_0000_0000_0000_0000
  {
    assert Pow256(5) == 0x100_0000_0000 && Pow256(6) == 0x1_0000_0000_0000;
  }

  /** The low `n` bytes of `v`, most significant first. */
  function BigEndian(n: nat, v: nat): (bs: Bytes)
    ensures |bs| == n
  {
    if n == 0 then [] else BigEndian(n - 1, v / 256) + [v % 256]
  }

  function FromBigEndian(bs: Bytes): nat {
    if bs == [] then 0 else 256 * FromBigEndian(bs[..|bs| - 1]) + bs[|bs| - 1]
  }

  /** Writing `n` bytes keeps the value modulo 256 to the n. */
  lemma {:induction false} BigEndianRoundTrip(n: nat, v: nat)
    ensures FromBigEndian(BigEndian(n, v)) == v % Pow256(n)
  {
    if n > 0 {
      var bs := BigEndian(n, v);
      assert bs[..n - 1] == BigEndian(n - 1, v / 256);
      BigEndianRoundTrip(n - 1, v / 256);
      ModSplit(v, Pow256(n - 1));
    }
  }

  lemma ModSplit(v: nat, p: nat)
    requires p > 0
    ensures v % (256 * p) == 256 * ((v / 256) % p) + v % 256
  {
    var q, w := v / 256, v % 256;
    var k, r := q / p, q % p;
    assert v == 256 * q + w && q == p * k + r;
    assert v == (256 * p) * k + (256 * r + w) by { assert 256 * (p * k) == (256 * p) * k; }
    assert 0 <= 256 * r + w < 256 * p;
    ModUnique(v, 256 * p, k, 256 * r + w);
  }

  lemma ModUnique(v: nat, m: nat, k: nat, r: nat)
    requires m > 0 && r < m && v == m * k + r
    ensures v % m == r && v / m == k
  {
    var q, s := v / m, v % m;
    assert v == m * q + s;
    assert m * (k - q) == m * k - m * q == s - r;
    SmallMultiple(m, k - q);
  }

  /** The first byte carries the part of the value above the others. */
  lemma {:induction false} BigEndianTop(n: nat, k: Byte, w: nat)
    requires w < Pow256(n)
    ensures BigEndian(n + 1, k * Pow256(n) + w) == [k] + BigEndian(n, w)
  {
    var v := k * Pow256(n) + w;
    if n == 0 {
      assert BigEndian(1, v) == BigEndian(0, v / 256) + [v % 256];
    } else {
      var p := Pow256(n - 1);
      assert v == 256 * (k * p) + w by { assert k * (256 * p) == 256 * (k * p); }
      assert v / 256 == k * p + w / 256 && v % 256 == w % 256;
      BigEndianTop(n - 1, k, w / 256);
      assert [k] + (BigEndian(n - 1, w / 256) + [w % 256]) == [k] + BigEndian(n - 1, w / 256) + [w % 256];
    }
  }

  /** How many bytes `v` takes; larger values have no encoding. */
  function VarintLen(v: nat): (n: nat)
    requires v <= VARINT_MAX
    ensures n in {1, 2, 4, 8}
  {
    if v <= VARINT_MAX_1 then 1
    else if v <= VARINT_MAX_2 then 2
    else if v <= VARINT_MAX_4 then 4
    else 8
  }

  /** How long an encoding is, given its first byte. */
  function ParseLen(first: Byte): (n: nat)
    ensures n in {1, 2, 4, 8}
  {
    if first < 64 then 1 else if first < 128 then 2 else if first < 192 then 4 else 8
  }

  function PutVarint(v: nat): (bs: Bytes)
    requires v <= VARINT_MAX
    ensures |bs| == VarintLen(v)
  {
    match VarintLen(v)
    case 1 => BigEndian(1, v)
    case 2 => BigEndian(2, 0x4000 + v)
    case 4 => BigEndian(4, 0x8000_0000 + v)
    case _ => BigEndian(8, 0xc000_0000_0000_0000 + v)
  }

  function GetVarint(bs: Bytes): (r: Taken<nat>)
    ensures r.Got? ==> r.value <= VARINT_MAX && |r.rest| < |bs|
  {
    if bs == [] then Short
    else
      var n := ParseLen(bs[0]);
      if |bs| < n then Short
      else
        var v := FromBigEndian(bs[..n]);
        var value := match n case 1 => v % 0x40 case 2 => v % 0x4000 case 4 => v % 0x4000_0000
                             case _ => v % 0x4000_0000_0000_0000;
        Got(value, bs[n..])
  }

  /** Reading what was written gives the value back and leaves what follows. */
  lemma VarintRoundTrip(v: nat, rest: Bytes)
    requires v <= VARINT_MAX
    ensures GetVarint(PutVarint(v) + rest) == Got(v, rest)
  {
    var bs := PutVarint(v);
    VarintFirst(v);
    VarintValue(v);
    assert (bs + rest)[..|bs|] == bs && (bs + rest)[|bs|..] == rest;
  }

  /** The bytes spell the value under the two bits of the length. */
  lemma VarintValue(v: nat)
    requires v <= VARINT_MAX
    ensures var w := FromBigEndian(PutVarint(v));
            w == v + match VarintLen(v) case 1 => 0 case 2 => 0x4000 case 4 => 0x8000_0000
                                        case _ => 0xc000_0000_0000_0000
  {
    Pow256s();
    match VarintLen(v) {
      case 1 => BigEndianRoundTrip(1, v);
      case 2 => BigEndianRoundTrip(2, 0x4000 + v);
      case 4 => BigEndianRoundTrip(4, 0x8000_0000 + v);
      case 8 => BigEndianRoundTrip(8, 0xc000_0000_0000_0000 + v);
    }
  }

  /** The two top bits of the first byte give the length back. */
  lemma VarintFirst(v: nat)
    requires v <= VARINT_MAX
    ensures ParseLen(PutVarint(v)[0]) == VarintLen(v)
  {
    Pow256s();
    match VarintLen(v) {
      case 1 => BigEndianTop(0, v, 0);
      case 2 => BigEndianTop(1, 0x40 + v / 0x100, v % 0x100);
      case 4 => BigEndianTop(3, 0x80 + v / 0x100_0000, v % 0x100_0000);
      case 8 => BigEndianTop(7, 0xc0 + v / 0x100_0000_0000_0000, v % 0x100_0000_0000_0000);
    }
  }

  function PutBytes(bs: Bytes): Bytes
    requires |bs| <= VARINT_MAX
  {
    PutVarint(|bs|) + bs
  }

  function GetBytes(bs: Bytes): (r: Taken<Bytes>)
    ensures r.Got? ==> |r.rest| < |bs| && |r.value| <= VARINT_MAX
  {
    match GetVarint(bs)
    case Short => Short
    case Got(n, rest) => if |rest| < n then Short else Got(rest[..n], rest[n..])
  }

  lemma BytesRoundTrip(bs: Bytes, rest: Bytes)
    requires |bs| <= VARINT_MAX
    ensures GetBytes(PutBytes(bs) + rest) == Got(bs, rest)
  {
    VarintRoundTrip(|bs|, bs + rest);
    assert PutBytes(bs) + rest == PutVarint(|bs|) + (bs + rest);
    assert (bs + rest)[..|bs|] == bs && (bs + rest)[|bs|..] == rest;
  }
}
