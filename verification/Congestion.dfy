/** Congestion control and round-trip estimation
    (core/src/connection/path.rs; sections 5.3 and 7 of RFC 9002). Instants and
    durations are nanosecond counts. */
module Congestion {
  import opened Core
  import opened VarInt

  const MTU: nat := 1472
  const U64_MAX: nat := 0xffff_ffff_ffff_ffff
  const INITIAL_RTT: nat := 333_000_000

  // -------------------------------------------------------------------- NewReno

  datatype Reno = Reno(window: nat, ssthresh: nat, recoveryStart: nat, bytesAcked: nat) {
    function OnAck(sent: nat, bytes: nat, appLimited: bool): Reno {
      if appLimited || sent <= recoveryStart then this
      else if window < ssthresh then this.(window := window + bytes)
      else if bytesAcked + bytes >= window
      then this.(bytesAcked := bytesAcked + bytes - window, window := window + MTU)
      else this.(bytesAcked := bytesAcked + bytes)
    }

    function OnCongestionEvent(now: nat, sent: nat): Reno {
      if sent <= recoveryStart then this
      else
        var half := Max(window / 2, 2 * MTU);
        Reno(half, half, now, 0)
    }
  }

  function StartReno(now: nat): Reno {
    Reno(10 * MTU, U64_MAX, now, 0)
  }

  class NewReno {
    var window: nat
    var ssthresh: nat
    var recoveryStart: nat
    var bytesAcked: nat

    ghost function View(): Reno
      reads this
    {
      Reno(window, ssthresh, recoveryStart, bytesAcked)
    }

    constructor (now: nat)
      ensures View() == StartReno(now)
    {
      window, ssthresh, recoveryStart, bytesAcked := 10 * MTU, U64_MAX, now, 0;
    }

    method OnAck(sent: nat, bytes: nat, appLimited: bool)
      modifies this
      ensures View() == old(View()).OnAck(sent, bytes, appLimited)
      ensures window >= old(window) && ssthresh == old(ssthresh) && recoveryStart == old(recoveryStart)
    {
      if appLimited {
        return;
      }
      if sent <= recoveryStart {
        return;
      }
      if window < ssthresh {
        window := window + bytes;
      } else {
        bytesAcked := bytesAcked + bytes;
        if bytesAcked >= window {
          bytesAcked := bytesAcked - window;
          window := window + MTU;
        }
      }
    }

    method OnCongestionEvent(now: nat, sent: nat)
      modifies this
      ensures View() == old(View()).OnCongestionEvent(now, sent)
    {
      if sent <= recoveryStart {
        return;
      }
      recoveryStart := now;
      ssthresh := Max(window / 2, 2 * MTU);
      window := ssthresh;
      bytesAcked := 0;
    }
  }

  datatype Signal = Acked(sent: nat, bytes: nat, appLimited: bool) | Congested(now: nat, sent: nat)

  function Feed(r: Reno, s: Signal): Reno {
    match s
    case Acked(sent, bytes, appLimited) => r.OnAck(sent, bytes, appLimited)
    case Congested(now, sent) => r.OnCongestionEvent(now, sent)
  }

  function FeedAll(r: Reno, signals: seq<Signal>): Reno
    decreases |signals|
  {
    if signals == [] then r else FeedAll(Feed(r, signals[0]), signals[1..])
  }

  predicate AckSized(s: Signal) {
    s.Acked? ==> s.bytes <= MTU
  }

  ghost predicate Bounded(r: Reno) {
    2 * MTU <= r.window && 2 * MTU <= r.ssthresh && r.bytesAcked < r.window
  }

  /** The controller starts within the bounds, in slow start with ten packets. */
  lemma StartsBounded(now: nat)
    ensures Bounded(StartReno(now)) && StartReno(now).window == 14720 && StartReno(now).recoveryStart == now
    ensures StartReno(now).window < StartReno(now).ssthresh == 0xffff_ffff_ffff_ffff
  {}

  /** Over any run of acknowledgements of at most one packet each and congestion
      events, the window and the threshold stay at or above two packets and the
      credit towards the next increase stays below the window. */
  lemma {:induction false} WindowBounds(r: Reno, signals: seq<Signal>)
    requires Bounded(r) && forall i :: 0 <= i < |signals| ==> AckSized(signals[i])
    ensures Bounded(FeedAll(r, signals))
    decreases |signals|
  {
    if signals != [] {
      assert AckSized(signals[0]);
      WindowBounds(Feed(r, signals[0]), signals[1..]);
    }
  }

  /** Acknowledgements alone never shrink the window, and leave the threshold and
      the recovery period as they are. */
  lemma {:induction false} AcksOnlyGrow(r: Reno, signals: seq<Signal>)
    requires forall i :: 0 <= i < |signals| ==> signals[i].Acked?
    ensures var r' := FeedAll(r, signals);
            r.window <= r'.window && r'.ssthresh == r.ssthresh && r'.recoveryStart == r.recoveryStart
    decreases |signals|
  {
    if signals != [] {
      assert signals[0].Acked?;
      AcksOnlyGrow(Feed(r, signals[0]), signals[1..]);
    }
  }

  /** At most one reduction per recovery period: once the window was cut, signals
      about packets sent before the cut, however many and in whatever order,
      change nothing. */
  lemma {:induction false} OneCutPerPeriod(r: Reno, now: nat, sent: nat, signals: seq<Signal>)
    requires sent > r.recoveryStart && forall i :: 0 <= i < |signals| ==> signals[i].sent <= now
    ensures FeedAll(Feed(r, Congested(now, sent)), signals) == Feed(r, Congested(now, sent))
    decreases |signals|
  {
    if signals != [] {
      assert signals[0].sent <= now;
      OneCutPerPeriod(r, now, sent, signals[1..]);
    }
  }

  /** Bytes acknowledged since the last reduction of the window. */
  function AckedSince(r: Reno, signals: seq<Signal>, base: nat): nat
    decreases |signals|
  {
    if signals == [] then base
    else
      match signals[0]
      case Acked(_, bytes, _) => AckedSince(Feed(r, signals[0]), signals[1..], base + bytes)
      case Congested(_, sent) =>
        AckedSince(Feed(r, signals[0]), signals[1..], if sent <= r.recoveryStart then base else 0)
  }

  /** The window at the last reduction, or at the start. */
  function WindowThen(r: Reno, signals: seq<Signal>, base: nat): nat
    decreases |signals|
  {
    if signals == [] then base
    else
      var r' := Feed(r, signals[0]);
      var cut := signals[0].Congested? && signals[0].sent > r.recoveryStart;
      WindowThen(r', signals[1..], if cut then r'.window else base)
  }

  /** Since the last congestion event the window has grown by no more than the
      bytes acknowledged since then: in slow start byte for byte, afterwards a
      packet for each full window. */
  lemma {:induction false} GrowthBound(r: Reno, signals: seq<Signal>, base: nat, acked: nat)
    requires Bounded(r) && forall i :: 0 <= i < |signals| ==> AckSized(signals[i])
    requires r.window + r.bytesAcked <= base + acked
    ensures FeedAll(r, signals).window <= WindowThen(r, signals, base) + AckedSince(r, signals, acked)
    decreases |signals|
  {
    if signals != [] {
      var s := signals[0];
      var r' := Feed(r, s);
      assert AckSized(s);
      if s.Acked? {
        GrowthBound(r', signals[1..], base, acked + s.bytes);
      } else if s.sent <= r.recoveryStart {
        GrowthBound(r', signals[1..], base, acked);
      } else {
        GrowthBound(r', signals[1..], r'.window, 0);
      }
    }
  }

  /** A congestion event halves the window, but not below two packets, and starts a
      new recovery period. */
  lemma CutHalves(r: Reno, now: nat, sent: nat)
    requires sent > r.recoveryStart
    ensures var r' := Feed(r, Congested(now, sent));
            && (r'.window == 2 * MTU || 2 * r'.window <= r.window <= 2 * r'.window + 1)
            && 2 * MTU <= r'.window && (4 * MTU <= r.window ==> 2 * r'.window <= r.window)
            && r'.ssthresh == r'.window && r'.bytesAcked == 0 && r'.recoveryStart == now
  {}

  /** The bytes of the acknowledgements that count: of packets sent after the last
      cut, while the application fills the window. */
  function Counted(signals: seq<Signal>, recoveryStart: nat): nat
    decreases |signals|
  {
    if signals == [] then 0
    else Counted(signals[1..], recoveryStart)
         + if signals[0].Acked? && !signals[0].appLimited && signals[0].sent > recoveryStart then signals[0].bytes else 0
  }

  /** How many signals of a run cut the window. */
  function Cuts(r: Reno, signals: seq<Signal>): nat
    decreases |signals|
  {
    if signals == [] then 0
    else Cuts(Feed(r, signals[0]), signals[1..])
         + if signals[0].Congested? && signals[0].sent > r.recoveryStart then 1 else 0
  }

  /** Exponential back-off: a run of congestion events that falls into `k` recovery
      periods leaves the window divided by two to the `k`, or two packets. */
  lemma {:induction false} CutsHalve(r: Reno, signals: seq<Signal>)
    requires 2 * MTU <= r.window && forall i :: 0 <= i < |signals| ==> signals[i].Congested?
    ensures FeedAll(r, signals).window == Max(r.window / Pow2(Cuts(r, signals)), 2 * MTU)
    decreases |signals|
  {
    hide Pow2, Halved;
    HalvedIsQuotient(r.window, Cuts(r, signals));
    if signals == [] {
      HalvedNone(r.window);
    } else {
      assert signals[0].Congested?;
      var r' := Feed(r, signals[0]);
      var k := Cuts(r', signals[1..]);
      CutsHalve(r', signals[1..]);
      HalvedIsQuotient(r'.window, k);
      if signals[0].sent > r.recoveryStart {
        HalvedAbove(r.window / 2, 2 * MTU, k);
        HalvedNext(r.window, k);
      }
    }
  }

  lemma HalvedNone(w: nat)
    ensures Halved(w, 0) == w
  {}

  lemma HalvedNext(w: nat, k: nat)
    ensures Halved(w, k + 1) == Halved(w / 2, k)
  {}

  /** Halved `k` times, rounding down each time. */
  function Halved(w: nat, k: nat): (h: nat)
    ensures h <= w
    decreases k
  {
    if k == 0 then w else Halved(w / 2, k - 1)
  }

  /** A lower limit can be applied at the end instead of at each step. */
  lemma HalvedAbove(x: nat, floor: nat, k: nat)
    ensures Max(Halved(Max(x, floor), k), floor) == Max(Halved(x, k), floor)
  {}

  lemma {:induction false} HalvedIsQuotient(w: nat, k: nat)
    ensures Halved(w, k) == w / Pow2(k)
    decreases k
  {
    HalvedWithin(w, k);
    ModUnique(w, Pow2(k), Halved(w, k), w - Pow2(k) * Halved(w, k));
  }

  lemma {:induction false} HalvedWithin(w: nat, k: nat)
    ensures Pow2(k) * Halved(w, k) <= w < Pow2(k) * Halved(w, k) + Pow2(k)
    decreases k
  {
    if k > 0 {
      var p, h := Pow2(k - 1), Halved(w / 2, k - 1);
      HalvedWithin(w / 2, k - 1);
      assert (2 * p) * h == 2 * (p * h);
    }
  }

  /** Slow start: the window grows by one byte for each byte that counts, until it
      has reached the threshold. */
  lemma {:induction false} SlowStartExact(r: Reno, signals: seq<Signal>)
    requires forall i :: 0 <= i < |signals| ==> signals[i].Acked?
    requires r.bytesAcked < r.window && r.window + Counted(signals, r.recoveryStart) <= r.ssthresh
    ensures FeedAll(r, signals) == r.(window := r.window + Counted(signals, r.recoveryStart))
    decreases |signals|
  {
    if signals != [] {
      assert signals[0].Acked?;
      SlowStartExact(Feed(r, signals[0]), signals[1..]);
    }
  }

  /** What `n` increases cost: each takes a full window of acknowledged bytes, and
      makes the next window one packet larger. */
  function Cost(window: nat, n: nat): nat
    decreases n
  {
    if n == 0 then 0 else window + Cost(window + MTU, n - 1)
  }

  /** Congestion avoidance: the window grows by one packet for each full window of
      bytes that count, and what is left over is kept. */
  lemma {:induction false} AvoidanceExact(r: Reno, signals: seq<Signal>) returns (n: nat)
    requires Bounded(r) && r.ssthresh <= r.window
    requires forall i :: 0 <= i < |signals| ==> signals[i].Acked? && AckSized(signals[i])
    ensures var r' := FeedAll(r, signals);
            && r'.window == r.window + n * MTU && r'.bytesAcked < r'.window
            && r.bytesAcked + Counted(signals, r.recoveryStart) == Cost(r.window, n) + r'.bytesAcked
    decreases |signals|
  {
    n := 0;
    if signals != [] {
      assert signals[0].Acked? && AckSized(signals[0]);
      var r' := Feed(r, signals[0]);
      var m := AvoidanceExact(r', signals[1..]);
      n := if r'.window == r.window then m else m + 1;
    }
  }

  // ------------------------------------------------------------------------ RTT

  datatype Rtt = Rtt(latest: nat, smoothed: Option<nat>, variance: nat, min: nat) {
    function Get(): nat {
      if smoothed.Some? then smoothed.value else latest
    }

    function Conservative(): nat {
      Max(Get(), latest)
    }

    function Update(ackDelay: nat, rtt: nat): Rtt {
      var min' := Min(min, rtt);
      var adjusted := if rtt > min' + ackDelay then rtt - ackDelay else rtt;
      match smoothed
      case None => Rtt(rtt, Some(adjusted), adjusted / 2, min')
      case Some(s) =>
        var diff := if s > adjusted then s - adjusted else adjusted - s;
        Rtt(rtt, Some((s * 7 + adjusted) / 8), (variance * 3 + diff) / 4, min')
    }
  }

  const NEW_RTT: Rtt := Rtt(INITIAL_RTT, None, INITIAL_RTT / 2, INITIAL_RTT)

  class RttEstimator {
    var latest: nat
    var smoothed: Option<nat>
    var variance: nat
    var min: nat

    ghost function View(): Rtt
      reads this
    {
      Rtt(latest, smoothed, variance, min)
    }

    constructor ()
      ensures View() == NEW_RTT
    {
      latest, smoothed, variance, min := INITIAL_RTT, None, INITIAL_RTT / 2, INITIAL_RTT;
    }

    method Update(ackDelay: nat, rtt: nat)
      modifies this
      ensures View() == old(View()).Update(ackDelay, rtt)
    {
      latest := rtt;
      min := Min(min, rtt);
      var adjusted := if rtt > min + ackDelay then rtt - ackDelay else rtt;
      match smoothed {
        case None =>
          smoothed := Some(adjusted);
          variance := adjusted / 2;
        case Some(s) =>
          var diff := if s > adjusted then s - adjusted else adjusted - s;
          variance := (variance * 3 + diff) / 4;
          smoothed := Some((s * 7 + adjusted) / 8);
      }
    }
  }

  datatype Sample = Sample(ackDelay: nat, rtt: nat)

  function UpdateAll(r: Rtt, samples: seq<Sample>): Rtt
    decreases |samples|
  {
    if samples == [] then r else UpdateAll(r.Update(samples[0].ackDelay, samples[0].rtt), samples[1..])
  }

  /** After any samples, the smoothed estimate lies between the tracked minimum
      and the largest sample, and the minimum is at most every sample, in spite
      of the rounding of each step. */
  lemma {:induction false} SmoothedBounds(r: Rtt, samples: seq<Sample>, largest: nat)
    requires r.smoothed.Some? ==> r.min <= r.smoothed.value <= largest
    requires forall i :: 0 <= i < |samples| ==> samples[i].rtt <= largest
    ensures var t := UpdateAll(r, samples);
            && t.min <= r.min
            && (t.smoothed.Some? ==> t.min <= t.smoothed.value <= largest)
            && (samples != [] ==> t.smoothed.Some?)
            && forall i :: 0 <= i < |samples| ==> t.min <= samples[i].rtt
    decreases |samples|
  {
    if samples != [] {
      var r' := r.Update(samples[0].ackDelay, samples[0].rtt);
      assert samples[0].rtt <= largest;
      StepBounds(r, samples[0], largest);
      SmoothedBounds(r', samples[1..], largest);
      var t := UpdateAll(r', samples[1..]);
      assert samples[1..] == [] ==> t == r';
      forall i | 0 <= i < |samples| ensures t.min <= samples[i].rtt {
        if i > 0 { assert samples[i] == samples[1..][i - 1]; }
      }
    }
  }

  lemma StepBounds(r: Rtt, s: Sample, largest: nat)
    requires r.smoothed.Some? ==> r.min <= r.smoothed.value <= largest
    requires s.rtt <= largest
    ensures var t := r.Update(s.ackDelay, s.rtt);
            && t.min <= r.min && t.min <= s.rtt
            && t.smoothed.Some? && t.min <= t.smoothed.value <= largest
  {}

  // What one sample does, and what many do.

  /** The sample after its ACK delay is taken off, which is done exactly if the
      result stays above the tracked minimum. */
  predicate IsAdjusted(r: Rtt, s: Sample, adjusted: nat) {
    if s.rtt - s.ackDelay > Min(r.min, s.rtt) then adjusted + s.ackDelay == s.rtt else adjusted == s.rtt
  }

  /** `x` has moved from `old` towards `target`, by one part in `parts` of the
      distance to within one unit. */
  predicate Moved(old_: nat, x: nat, target: nat, parts: nat) {
    && (old_ <= target ==> old_ <= x <= target && parts * (x - old_) <= target - old_ < parts * (x - old_) + parts)
    && (target < old_ ==> target <= x <= old_ && old_ - target <= parts * (old_ - x) < old_ - target + parts)
  }

  /** What one sample does: the estimate moves an eighth of the way to it, and the
      variance a quarter of the way to the deviation; the first sample is taken as
      it is. */
  predicate Sampled(r: Rtt, t: Rtt, sample: nat, adjusted: nat) {
    && t.latest == sample && t.smoothed.Some? && t.min <= r.min && t.min <= sample && (t.min == r.min || t.min == sample)
    && (r.smoothed.None? ==> t.smoothed.value == adjusted && 2 * t.variance <= adjusted <= 2 * t.variance + 1)
    && (r.smoothed.Some? ==>
          && Moved(r.smoothed.value, t.smoothed.value, adjusted, 8)
          && Moved(r.variance, t.variance, Distance(r.smoothed.value, adjusted), 4))
  }

  lemma SampleMoves(r: Rtt, s: Sample, adjusted: nat)
    requires IsAdjusted(r, s, adjusted)
    ensures Sampled(r, r.Update(s.ackDelay, s.rtt), s.rtt, adjusted)
  {}

  function Distance(x: nat, y: nat): nat {
    if x <= y then y - x else x - y
  }

  function Pow(b: nat, n: nat): nat {
    if n == 0 then 1 else b * Pow(b, n - 1)
  }

  function Repeat(r: Rtt, s: Sample, n: nat): Rtt {
    if n == 0 then r else Repeat(r, s, n - 1).Update(s.ackDelay, s.rtt)
  }

  /** Convergence: after `n` equal samples the distance of the estimate from them is
      at most seven eighths to the `n` of what it was, and seven units more. */
  lemma {:induction false} EstimateConverges(r: Rtt, s: Sample, n: nat, adjusted: nat)
    requires r.smoothed.Some? && IsAdjusted(r, s, adjusted)
    ensures var t := Repeat(r, s, n);
            && t.smoothed.Some? && (n > 0 ==> t.min == Min(r.min, s.rtt)) && IsAdjusted(t, s, adjusted)
            && Pow(8, n) * Distance(t.smoothed.value, adjusted)
               <= Pow(7, n) * Distance(r.smoothed.value, adjusted) + 7 * Pow(8, n)
    decreases n
  {
    if n > 0 {
      EstimateConverges(r, s, n - 1, adjusted);
      var t := Repeat(r, s, n - 1);
      var t' := t.Update(s.ackDelay, s.rtt);
      SampleMoves(t, s, adjusted);
      var d0, d, d' := Distance(r.smoothed.value, adjusted), Distance(t.smoothed.value, adjusted),
                       Distance(t'.smoothed.value, adjusted);
      assert 8 * d' <= 7 * d + 7;
      Contracts(Pow(8, n - 1), Pow(7, n - 1), d0, d, d');
    }
  }

  lemma Contracts(p8: nat, p7: nat, d0: nat, d: nat, d': nat)
    requires p8 * d <= p7 * d0 + 7 * p8 && 8 * d' <= 7 * d + 7
    ensures (8 * p8) * d' <= (7 * p7) * d0 + 7 * (8 * p8)
  {
    assert p8 * (8 * d') <= p8 * (7 * d + 7);
    assert p8 * (8 * d') == (8 * p8) * d' && p8 * (7 * d + 7) == 7 * (p8 * d) + 7 * p8;
    assert 7 * (p7 * d0) == (7 * p7) * d0;
  }
}
