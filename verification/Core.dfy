/** Types shared by every part of the model. */
module Core {

  datatype Option<+T> = None | Some(value: T)

  /** One octet of a buffer or of the wire. */
  type Byte = n: nat | n < 256

  type Bytes = seq<Byte>

  /** A half-open range of stream offsets or packet numbers. It may be written
      with its end at or before its start, in which case it is empty. */
  datatype Range = Range(start: nat, end: nat) {
    predicate Empty() {
      end <= start
    }

    predicate Contains(x: nat) {
      start <= x < end
    }
  }

  function Min(a: nat, b: nat): nat {
    if a <= b then a else b
  }

  function Max(a: nat, b: nat): nat {
    if a <= b then b else a
  }

  function Pow2(n: nat): (p: nat)
    ensures p > 0
  {
    if n == 0 then 1 else 2 * Pow2(n - 1)
  }

  /** The only multiple of `m` strictly between `-m` and `m` is zero. */
  lemma SmallMultiple(m: int, d: int)
    requires -m < m * d < m
    ensures d == 0
  {}

  // Facts about sequences, stated once so that proofs about their contents
  // need not rediscover them.

  lemma SplitAt<T>(s: seq<T>, i: nat)
    requires i < |s|
    ensures s[i..] == [s[i]] + s[i + 1..] && s[i..][0] == s[i] && s[i..][1..] == s[i + 1..]
    ensures s[..i + 1] == s[..i] + [s[i]]
    ensures s == s[..i] + [s[i]] + s[i + 1..] && s == s[..i] + s[i..]
  {}

  lemma Rejoin<T>(s: seq<T>, i: nat)
    requires i <= |s|
    ensures s[..i] + s[i..] == s
  {}

  lemma SliceConcat<T>(a: seq<T>, b: seq<T>, i: nat, j: nat)
    requires i <= j <= |a| + |b|
    ensures j <= |a| ==> (a + b)[i..j] == a[i..j]
    ensures |a| <= i ==> (a + b)[i..j] == b[i - |a|..j - |a|]
  {}

  lemma SliceOfSuffix<T>(s: seq<T>, base: nat, i: nat, j: nat)
    requires base <= |s| && i <= j <= |s| - base
    ensures s[base..][i..j] == s[base + i..base + j]
  {}

  lemma Spliced<T>(before: seq<T>, middle: seq<T>, after: seq<T>)
    ensures (before + middle + after)[..|before| + |middle|] == before + middle
    ensures (before + middle + after)[|before| + |middle|..] == after
    ensures before + middle + after == before + (middle + after)
  {}
}
