/**
 * Expected calibration error (services/modelwork/src/modelwork/domain/calibration/calibrator.py:399-434),
 * over real numbers.
 */
module Calibration {

  import opened Plane
  import opened Wrappers

  datatype Sample = Sample(prediction: real, positive: bool)

  datatype EceError = CountMismatch | NoBins

  /** What the three arrays hold for one bin. */
  datatype Bin = Bin(count: nat, correct: real, confidence: real) {
    function Plus(other: Bin): Bin {
      Bin(count + other.count, correct + other.correct, confidence + other.confidence)
    }

    function Gap(): real {
      correct - confidence
    }
  }

  const EMPTY := Bin(0, 0.0, 0.0)

  function Clamp(p: real): real {
    if p < 0.0 then 0.0 else if p > 1.0 then 1.0 else p
  }

  /** The bin of a prediction: `int` truncates, which for a clamped value is the floor. */
  function BinOf(p: real, bins: nat): (b: nat)
    requires bins > 0
    ensures b < bins
    ensures Clamp(p) < 1.0 ==> b as real <= Clamp(p) * bins as real < (b + 1) as real
    ensures Clamp(p) == 1.0 ==> b == bins - 1
  {
    FloorBelow(Clamp(p), bins);
    var b := (Clamp(p) * bins as real).Floor;
    if b >= bins then bins - 1 else b
  }

  lemma FloorBelow(p: real, bins: nat)
    requires 0.0 <= p <= 1.0 && bins > 0
    ensures 0 <= (p * bins as real).Floor <= bins
    ensures p < 1.0 ==> (p * bins as real).Floor < bins
    ensures p == 1.0 ==> (p * bins as real).Floor == bins
  {
    assert p < 1.0 ==> p * bins as real < bins as real;
  }

  function Counted(x: Sample): Bin {
    Bin(1, if x.positive then 1.0 else 0.0, Clamp(x.prediction))
  }

  /** The samples whose bin lies in lo..hi, pooled. */
  function Pool(samples: seq<Sample>, bins: nat, lo: int, hi: int): Bin
    requires bins > 0
  {
    if samples == [] then EMPTY
    else
      var n := |samples| - 1;
      var before := Pool(samples[..n], bins, lo, hi);
      if lo <= BinOf(samples[n].prediction, bins) < hi then before.Plus(Counted(samples[n])) else before
  }

  /** The distances between correctness and confidence in the bins lo..hi, each taken by itself. */
  function AbsGaps(samples: seq<Sample>, bins: nat, lo: int, hi: int): real
    requires bins > 0
    decreases hi - lo
  {
    if hi <= lo then 0.0
    else AbsGaps(samples, bins, lo, hi - 1) + Abs(Pool(samples, bins, hi - 1, hi).Gap())
  }

  function Per(total: real, n: nat): real
    requires n > 0
  {
    total / n as real
  }

  function Ece(samples: seq<Sample>, bins: nat): real
    requires bins > 0 && samples != []
  {
    Per(AbsGaps(samples, bins, 0, bins), |samples|)
  }

  // ----- the loops -----

  function Zip(predictions: seq<real>, labels: seq<bool>): (r: seq<Sample>)
    requires |predictions| == |labels|
    ensures |r| == |labels|
  {
    seq(|labels|, i requires 0 <= i < |labels| => Sample(predictions[i], labels[i]))
  }

  /** What the second loop adds for one bin: its weight times the distance of its averages. */
  function Share(bin: Bin, n: nat): real
    requires n > 0
  {
    if bin.count == 0 then 0.0
    else Per(bin.count as real, n) * Abs(Per(bin.correct, bin.count) - Per(bin.confidence, bin.count))
  }

  lemma Ratios(x: real, y: real, c: real, m: real)
    requires c > 0.0 && m > 0.0
    ensures x / c - y / c == (x - y) / c
    ensures c / m * ((x - y) / c) == (x - y) / m
    ensures c / m * -((x - y) / c) == -(x - y) / m
  {
    var g := x - y;
    assert c / m * (g / c) == g / m by {
      assert c * (g / c) == g;
    }
  }

  /** The weight cancels against the averages. */
  lemma Cancel(x: real, y: real, count: nat, n: nat)
    requires count > 0 && n > 0
    ensures Per(count as real, n) * Abs(Per(x, count) - Per(y, count)) == Per(Abs(x - y), n)
  {
    var c, m := count as real, n as real;
    Ratios(x, y, c, m);
    SameSign(x - y, c);
    var r := x / c - y / c;
    if x >= y {
      assert Abs(r) == r;
    } else {
      assert Abs(r) == -r;
    }
  }

  lemma ShareIsGap(bin: Bin, n: nat)
    requires n > 0 && (bin.count == 0 ==> bin == EMPTY)
    ensures Share(bin, n) == Per(Abs(bin.Gap()), n)
  {
    if bin.count > 0 {
      hide Abs, Per;
      Cancel(bin.correct, bin.confidence, bin.count, n);
    } else {
      NothingPer(n);
    }
  }

  lemma NothingPer(n: nat)
    requires n > 0
    ensures Per(0.0, n) == 0.0
  {
  }

  lemma SameSign(g: real, c: real)
    requires c > 0.0
    ensures g >= 0.0 <==> g / c >= 0.0
  {
  }

  lemma PerAdds(a: real, b: real, n: nat)
    requires n > 0
    ensures Per(a + b, n) == Per(a, n) + Per(b, n) && Per(0.0, n) == 0.0
  {
  }

  lemma {:induction false} EmptyPool(samples: seq<Sample>, bins: nat, lo: int, hi: int)
    requires bins > 0
    ensures Pool(samples, bins, lo, hi).count == 0 ==> Pool(samples, bins, lo, hi) == EMPTY
  {
    if samples != [] {
      EmptyPool(samples[..|samples| - 1], bins, lo, hi);
    }
  }

  predicate Holds(counts: seq<nat>, correct: seq<real>, confidence: seq<real>, samples: seq<Sample>, bins: nat)
    requires bins > 0
  {
    && |counts| == |correct| == |confidence| == bins
    && forall b :: 0 <= b < bins ==> Bin(counts[b], correct[b], confidence[b]) == Pool(samples, bins, b, b + 1)
  }

  lemma NothingHeld(counts: seq<nat>, correct: seq<real>, confidence: seq<real>, bins: nat)
    requires bins > 0 && |counts| == |correct| == |confidence| == bins
    requires forall b :: 0 <= b < bins ==> counts[b] == 0 && correct[b] == 0.0 && confidence[b] == 0.0
    ensures Holds(counts, correct, confidence, [], bins)
  {
  }

  lemma AddSample(counts: seq<nat>, correct: seq<real>, confidence: seq<real>, samples: seq<Sample>, bins: nat, x: Sample)
    requires bins > 0 && Holds(counts, correct, confidence, samples, bins)
    ensures |counts| == |correct| == |confidence| == bins
    ensures var b, y := BinOf(x.prediction, bins), Counted(x);
            Holds(counts[b := counts[b] + 1], correct[b := correct[b] + y.correct],
                  confidence[b := confidence[b] + y.confidence], samples + [x], bins)
  {
    assert (samples + [x])[..|samples|] == samples;
    hide BinOf, Clamp;
  }

  lemma HeldAt(counts: seq<nat>, correct: seq<real>, confidence: seq<real>, samples: seq<Sample>, bins: nat, b: nat)
    requires bins > 0 && Holds(counts, correct, confidence, samples, bins) && b < bins
    ensures |counts| == |correct| == |confidence| == bins
    ensures Pool(samples, bins, b, b + 1) == Bin(counts[b], correct[b], confidence[b])
  {
  }

  lemma NextBin(samples: seq<Sample>, bins: nat, b: nat, n: nat)
    requires bins > 0 && n > 0
    ensures Per(AbsGaps(samples, bins, 0, b + 1), n)
            == Per(AbsGaps(samples, bins, 0, b), n) + Share(Pool(samples, bins, b, b + 1), n)
  {
    hide Pool, Abs, Per, Share;
    EmptyPool(samples, bins, b, b + 1);
    ShareIsGap(Pool(samples, bins, b, b + 1), n);
    PerAdds(AbsGaps(samples, bins, 0, b), Abs(Pool(samples, bins, b, b + 1).Gap()), n);
  }

  lemma NoGaps(samples: seq<Sample>, bins: nat, n: nat)
    requires bins > 0 && n > 0
    ensures Per(AbsGaps(samples, bins, 0, 0), n) == 0.0
  {
  }

  /** The first loop. */
  method FillBins(predictions: seq<real>, labels: seq<bool>, bins: nat)
    returns (counts: array<nat>, correct: array<real>, confidence: array<real>)
    requires |predictions| == |labels| && bins > 0
    ensures Holds(counts[..], correct[..], confidence[..], Zip(predictions, labels), bins)
    ensures counts.Length == correct.Length == confidence.Length == bins
  {
    hide BinOf, Pool, Holds;
    ghost var samples := Zip(predictions, labels);
    counts := new nat[bins](_ => 0);
    correct := new real[bins](_ => 0.0);
    confidence := new real[bins](_ => 0.0);
    var i := 0;
    NothingHeld(counts[..], correct[..], confidence[..], bins);
    assert samples[..0] == [];
    while i < |predictions|
      invariant 0 <= i <= |predictions|
      invariant Holds(counts[..], correct[..], confidence[..], samples[..i], bins)
    {
      AddSample(counts[..], correct[..], confidence[..], samples[..i], bins, samples[i]);
      assert samples[..i] + [samples[i]] == samples[..i + 1];
      var p, b := Clamp(predictions[i]), BinOf(predictions[i], bins);
      counts[b] := counts[b] + 1;
      correct[b] := correct[b] + (if labels[i] then 1.0 else 0.0);
      confidence[b] := confidence[b] + p;
      i := i + 1;
    }
    assert samples[..i] == samples;
  }

  // ----- the error, written out over the input -----

  /** How far the label of a sample is above its confidence, cut off at 0 and 1. */
  function Miss(p: real, positive: bool): real {
    (if positive then 1.0 else 0.0) - Max(0.0, Min(1.0, p))
  }

  /** The confidence lies in the b-th of `bins` intervals; 1 lies in the last. */
  predicate FallsIn(p: real, bins: nat, b: nat) {
    var q := Max(0.0, Min(1.0, p));
    b as real <= q * bins as real < (b + 1) as real || (q == 1.0 && b + 1 == bins)
  }

  /** What the samples of one interval miss by, together. */
  function MissIn(predictions: seq<real>, labels: seq<bool>, bins: nat, b: nat): real
    requires |predictions| == |labels|
  {
    if labels == [] then 0.0
    else
      var n := |labels| - 1;
      MissIn(predictions[..n], labels[..n], bins, b) + if FallsIn(predictions[n], bins, b) then Miss(predictions[n], labels[n]) else 0.0
  }

  /** The distances over the first `k` intervals. */
  function MissedUpTo(predictions: seq<real>, labels: seq<bool>, bins: nat, k: nat): real
    requires |predictions| == |labels|
  {
    if k == 0 then 0.0
    else MissedUpTo(predictions, labels, bins, k - 1) + Abs(MissIn(predictions, labels, bins, k - 1))
  }

  lemma FallsInItsBin(p: real, bins: nat, b: nat)
    requires b < bins
    ensures FallsIn(p, bins, b) <==> BinOf(p, bins) == b
  {
    assert Max(0.0, Min(1.0, p)) == Clamp(p);
    var at := BinOf(p, bins);
    hide BinOf, Max, Min, Clamp;
    var q := Clamp(p);
    if q == 1.0 {
      assert q * bins as real == bins as real;
    }
  }

  lemma {:induction false} PoolMisses(predictions: seq<real>, labels: seq<bool>, bins: nat, b: nat)
    requires |predictions| == |labels| && b < bins
    ensures Pool(Zip(predictions, labels), bins, b, b + 1).Gap() == MissIn(predictions, labels, bins, b)
  {
    if labels != [] {
      var n, samples := |labels| - 1, Zip(predictions, labels);
      assert samples[..n] == Zip(predictions[..n], labels[..n]);
      PoolMisses(predictions[..n], labels[..n], bins, b);
      FallsInItsBin(predictions[n], bins, b);
      hide BinOf, FallsIn;
    }
  }

  lemma {:induction false} GapsAreMisses(predictions: seq<real>, labels: seq<bool>, bins: nat, k: nat)
    requires |predictions| == |labels| && k <= bins && bins > 0
    ensures AbsGaps(Zip(predictions, labels), bins, 0, k) == MissedUpTo(predictions, labels, bins, k)
    decreases k
  {
    hide *;
    MissedStep(predictions, labels, bins, k);
    GapsStep(Zip(predictions, labels), bins, k);
    if k > 0 {
      GapsAreMisses(predictions, labels, bins, k - 1);
      PoolMisses(predictions, labels, bins, k - 1);
    }
  }

  lemma MissedStep(predictions: seq<real>, labels: seq<bool>, bins: nat, k: nat)
    requires |predictions| == |labels|
    ensures MissedUpTo(predictions, labels, bins, k) ==
            if k == 0 then 0.0
            else MissedUpTo(predictions, labels, bins, k - 1) + Abs(MissIn(predictions, labels, bins, k - 1))
  {
  }

  lemma GapsStep(samples: seq<Sample>, bins: nat, k: nat)
    requires bins > 0
    ensures AbsGaps(samples, bins, 0, k) ==
            if k == 0 then 0.0 else AbsGaps(samples, bins, 0, k - 1) + Abs(Pool(samples, bins, k - 1, k).Gap())
  {
  }

  /** The error is the sum over the intervals of what their samples miss by, over the number of samples. */
  lemma EceIsMissed(predictions: seq<real>, labels: seq<bool>, bins: nat)
    requires |predictions| == |labels| > 0 && bins > 0
    ensures Ece(Zip(predictions, labels), bins) == MissedUpTo(predictions, labels, bins, bins) / |labels| as real
  {
    GapsAreMisses(predictions, labels, bins, bins);
    hide AbsGaps, MissedUpTo, Zip;
  }

  /** `compute_ece`: an empty input answers 0 before the number of bins is looked at. */
  method ComputeEce(predictions: seq<real>, labels: seq<bool>, numBins: int) returns (r: Result<real, EceError>)
    ensures r == if |predictions| != |labels| then Err(CountMismatch)
                 else if predictions == [] then Ok(0.0)
                 else if numBins <= 0 then Err(NoBins)
                 else Ok(Ece(Zip(predictions, labels), numBins))
    ensures |predictions| == |labels| > 0 && numBins > 0 ==>
              r == Ok(MissedUpTo(predictions, labels, numBins, numBins) / |labels| as real)
  {
    if |predictions| == |labels| > 0 && numBins > 0 {
      EceIsMissed(predictions, labels, numBins);
    }
    hide MissedUpTo;
    if |predictions| != |labels| {
      return Err(CountMismatch);
    }
    if |predictions| == 0 {
      return Ok(0.0);
    }
    if numBins <= 0 {
      return Err(NoBins);
    }
    hide BinOf, Pool, Holds, AbsGaps, Abs, Per;
    ghost var samples := Zip(predictions, labels);
    var n, bins: nat := |predictions|, numBins;
    var counts, correct, confidence := FillBins(predictions, labels, bins);
    var ece, b := 0.0, 0;
    NoGaps(samples, bins, n);
    while b < bins
      invariant 0 <= b <= bins
      invariant Holds(counts[..], correct[..], confidence[..], samples, bins)
      invariant ece == Per(AbsGaps(samples, bins, 0, b), n)
    {
      HeldAt(counts[..], correct[..], confidence[..], samples, bins, b);
      NextBin(samples, bins, b, n);
      if counts[b] > 0 {
        var accuracy, average := Per(correct[b], counts[b]), Per(confidence[b], counts[b]);
        ece := ece + Per(counts[b] as real, n) * Abs(accuracy - average);
      }
      b := b + 1;
    }
    return Ok(ece);
  }

  // ----- the bins -----

  /** Two neighbouring ranges pool to their union. */
  lemma {:induction false} PoolSplits(samples: seq<Sample>, bins: nat, lo: int, mid: int, hi: int)
    requires bins > 0 && lo <= mid <= hi
    ensures Pool(samples, bins, lo, hi) == Pool(samples, bins, lo, mid).Plus(Pool(samples, bins, mid, hi))
  {
    hide BinOf, Clamp;
    if samples != [] {
      PoolSplits(samples[..|samples| - 1], bins, lo, mid, hi);
    }
  }

  /** Every sample is in a bin. */
  lemma {:induction false} EverySampleIsInABin(samples: seq<Sample>, bins: nat)
    requires bins > 0
    ensures Pool(samples, bins, 0, bins).count == |samples|
  {
    if samples != [] {
      EverySampleIsInABin(samples[..|samples| - 1], bins);
    }
  }

  function CountsUpTo(samples: seq<Sample>, bins: nat, hi: nat): nat
    requires bins > 0
  {
    if hi == 0 then 0 else CountsUpTo(samples, bins, hi - 1) + Pool(samples, bins, hi - 1, hi).count
  }

  /** The bin counts add up to the number of samples. */
  lemma CountsAddUp(samples: seq<Sample>, bins: nat)
    requires bins > 0
    ensures CountsUpTo(samples, bins, bins) == |samples|
  {
    CountsPool(samples, bins, bins);
    EverySampleIsInABin(samples, bins);
  }

  lemma {:induction false} NothingPooled(samples: seq<Sample>, bins: nat, at: int)
    requires bins > 0
    ensures Pool(samples, bins, at, at) == EMPTY
  {
    if samples != [] {
      NothingPooled(samples[..|samples| - 1], bins, at);
    }
  }

  lemma {:induction false} CountsPool(samples: seq<Sample>, bins: nat, hi: nat)
    requires bins > 0
    ensures CountsUpTo(samples, bins, hi) == Pool(samples, bins, 0, hi).count
  {
    hide Pool;
    if hi == 0 {
      NothingPooled(samples, bins, 0);
    } else {
      CountsPool(samples, bins, hi - 1);
      PoolSplits(samples, bins, 0, hi - 1, hi);
    }
  }

  // ----- between 0 and 1 -----

  /** A sample's correctness and its clamped confidence differ by at most 1. */
  lemma {:induction false} GapAtMostCount(samples: seq<Sample>, bins: nat, lo: int, hi: int)
    requires bins > 0
    ensures Abs(Pool(samples, bins, lo, hi).Gap()) <= Pool(samples, bins, lo, hi).count as real
  {
    if samples != [] {
      GapAtMostCount(samples[..|samples| - 1], bins, lo, hi);
    }
  }

  lemma {:induction false} AbsGapsAtMostCounts(samples: seq<Sample>, bins: nat, hi: nat)
    requires bins > 0
    ensures 0.0 <= AbsGaps(samples, bins, 0, hi) <= CountsUpTo(samples, bins, hi) as real
  {
    if hi > 0 {
      AbsGapsAtMostCounts(samples, bins, hi - 1);
      GapAtMostCount(samples, bins, hi - 1, hi);
    }
  }

  lemma EceBetweenZeroAndOne(samples: seq<Sample>, bins: nat)
    requires bins > 0 && samples != []
    ensures 0.0 <= Ece(samples, bins) <= 1.0
  {
    AbsGapsAtMostCounts(samples, bins, bins);
    CountsAddUp(samples, bins);
  }

  // ----- order -----

  lemma PoolSnoc(s: seq<Sample>, x: Sample, bins: nat, lo: int, hi: int)
    requires bins > 0
    ensures var before := Pool(s, bins, lo, hi);
            Pool(s + [x], bins, lo, hi)
              == if lo <= BinOf(x.prediction, bins) < hi then before.Plus(Counted(x)) else before
  {
    hide BinOf;
    assert (s + [x])[..|s|] == s;
  }

  lemma {:induction false} PoolOfBoth(s: seq<Sample>, t: seq<Sample>, bins: nat, lo: int, hi: int)
    requires bins > 0
    ensures Pool(s + t, bins, lo, hi) == Pool(s, bins, lo, hi).Plus(Pool(t, bins, lo, hi))
    decreases |t|
  {
    hide Pool, Bin.Plus;
    if t == [] {
      assert s + t == s;
      NoneAdded(Pool(s, bins, lo, hi), bins, lo, hi);
    } else {
      var n := |t| - 1;
      PoolOfBoth(s, t[..n], bins, lo, hi);
      assert s + t == s + t[..n] + [t[n]] && t == t[..n] + [t[n]];
      PoolOneMore(s, t[..n], t[n], bins, lo, hi);
    }
  }

  lemma NoneAdded(x: Bin, bins: nat, lo: int, hi: int)
    requires bins > 0
    ensures x.Plus(Pool([], bins, lo, hi)) == x
  {
  }

  lemma PoolOneMore(s: seq<Sample>, t: seq<Sample>, x: Sample, bins: nat, lo: int, hi: int)
    requires bins > 0 && Pool(s + t, bins, lo, hi) == Pool(s, bins, lo, hi).Plus(Pool(t, bins, lo, hi))
    ensures Pool(s + t + [x], bins, lo, hi) == Pool(s, bins, lo, hi).Plus(Pool(t + [x], bins, lo, hi))
  {
    hide Pool, BinOf, Counted, Bin.Plus;
    PoolSnoc(s + t, x, bins, lo, hi);
    PoolSnoc(t, x, bins, lo, hi);
    PlusMoves(Pool(s, bins, lo, hi), Pool(t, bins, lo, hi), Counted(x));
  }

  lemma PlusMoves(x: Bin, y: Bin, z: Bin)
    ensures x.Plus(y).Plus(z) == x.Plus(y.Plus(z))
  {
  }

  /** Taking one sample out of a list, wherever it stands. */
  lemma PoolWithout(s: seq<Sample>, k: nat, bins: nat, lo: int, hi: int)
    requires bins > 0 && k < |s|
    ensures Pool(s, bins, lo, hi) == Pool(s[..k] + s[k + 1..] + [s[k]], bins, lo, hi)
  {
    hide Pool;
    var a, x, b := s[..k], [s[k]], s[k + 1..];
    assert s == a + x + b;
    PoolOfBoth(a + x, b, bins, lo, hi);
    PoolOfBoth(a, x, bins, lo, hi);
    PoolOfBoth(a + b, x, bins, lo, hi);
    PoolOfBoth(a, b, bins, lo, hi);
  }

  lemma SameRest(s: seq<Sample>, t: seq<Sample>, k: nat)
    requires multiset(s) == multiset(t) && s != [] && k < |t| && t[k] == s[|s| - 1]
    ensures multiset(t[..k] + t[k + 1..]) == multiset(s[..|s| - 1])
  {
    var n := |s| - 1;
    assert s[n + 1..] == [] && s[..n] + [] == s[..n];
    WithoutOne(s, n);
    WithoutOne(t, k);
  }

  /** Taking one sample out takes it out of the multiset. */
  lemma WithoutOne(s: seq<Sample>, k: nat)
    requires k < |s|
    ensures multiset(s[..k] + s[k + 1..]) == multiset(s) - multiset{s[k]}
  {
    assert s == s[..k] + [s[k]] + s[k + 1..];
    assert multiset(s) == multiset(s[..k]) + multiset{s[k]} + multiset(s[k + 1..]);
  }

  lemma {:induction false} PoolIgnoresOrder(s: seq<Sample>, t: seq<Sample>, bins: nat, lo: int, hi: int)
    requires bins > 0 && multiset(s) == multiset(t)
    ensures Pool(s, bins, lo, hi) == Pool(t, bins, lo, hi)
    decreases |s|
  {
    hide Pool, BinOf;
    if s == [] {
      assert |multiset(t)| == 0;
    } else {
      var n := |s| - 1;
      assert s == s[..n] + [s[n]];
      assert s[n] in multiset(t);
      var k :| 0 <= k < |t| && t[k] == s[n];
      var rest := t[..k] + t[k + 1..];
      SameRest(s, t, k);
      PoolIgnoresOrder(s[..n], rest, bins, lo, hi);
      PoolWithout(t, k, bins, lo, hi);
      PoolSnoc(s[..n], s[n], bins, lo, hi);
      PoolSnoc(rest, s[n], bins, lo, hi);
    }
  }

  lemma {:induction false} AbsGapsIgnoreOrder(s: seq<Sample>, t: seq<Sample>, bins: nat, lo: int, hi: int)
    requires bins > 0 && multiset(s) == multiset(t)
    ensures AbsGaps(s, bins, lo, hi) == AbsGaps(t, bins, lo, hi)
    decreases hi - lo
  {
    if lo < hi {
      AbsGapsIgnoreOrder(s, t, bins, lo, hi - 1);
      PoolIgnoresOrder(s, t, bins, hi - 1, hi);
    }
  }

  lemma EceIgnoresOrder(s: seq<Sample>, t: seq<Sample>, bins: nat)
    requires bins > 0 && s != [] && multiset(s) == multiset(t)
    ensures t != [] && Ece(s, bins) == Ece(t, bins)
  {
    assert |multiset(s)| == |s| && |multiset(t)| == |t|;
    AbsGapsIgnoreOrder(s, t, bins, 0, bins);
  }

  // ----- finer bins -----

  lemma FloorOfProduct(p: real, bins: nat, k: nat, b: int)
    requires b as real <= p * bins as real < (b + 1) as real
    requires k > 0
    ensures (b * k) as real <= p * (k * bins) as real < ((b + 1) * k) as real
  {
    var x, m := k as real, p * bins as real;
    assert p * (k * bins) as real == x * m;
    assert (b * k) as real == x * b as real && ((b + 1) * k) as real == x * (b + 1) as real;
  }

  lemma CellWithin(q: real, bins: nat, k: nat, b: int, cells: nat, c: int)
    requires k > 0 && cells == k * bins
    requires b as real <= q * bins as real < (b + 1) as real
    requires c as real <= q * cells as real < (c + 1) as real
    ensures b * k <= c < b * k + k
  {
    FloorOfProduct(q, bins, k, b);
    assert (b + 1) * k == b * k + k;
    Between(b * k, (b + 1) * k, c, q * cells as real);
  }

  /** Cutting each bin into k: a sample's new bin is one of the k its old bin was cut into. */
  lemma BinOfFiner(p: real, bins: nat, k: nat)
    requires bins > 0 && k > 0
    ensures k * bins > 0
    ensures var b := BinOf(p, bins); b * k <= BinOf(p, k * bins) < b * k + k
  {
    hide BinOf, Clamp;
    var cells := k * bins;
    var q, b, c := Clamp(p), BinOf(p, bins), BinOf(p, cells);
    if q < 1.0 {
      CellWithin(q, bins, k, b, cells, c);
    } else {
      ClampAtMostOne(p);
      assert (bins - 1) * k + k == cells;
    }
  }

  lemma ClampAtMostOne(p: real)
    ensures 0.0 <= Clamp(p) <= 1.0
  {
  }

  lemma Between(lo: int, hi: int, c: int, v: real)
    requires lo as real <= v < hi as real && c as real <= v < (c + 1) as real
    ensures lo <= c < hi
  {
  }

  lemma NextMultiple(b: int, c: int, k: nat)
    requires b < c
    ensures b * k + k <= c * k
  {
    var d := c - b - 1;
    assert d * k >= 0;
    assert (b + 1 + d) * k == b * k + k + d * k;
  }

  lemma Disjoint(b: int, c: int, k: nat, at: int)
    requires b != c && b * k <= at < b * k + k
    ensures !(c * k <= at < c * k + k)
  {
    if b < c {
      NextMultiple(b, c, k);
    } else {
      NextMultiple(c, b, k);
    }
  }

  lemma {:induction false} PoolOfFiner(samples: seq<Sample>, bins: nat, k: nat, b: int)
    requires bins > 0 && k > 0
    ensures k * bins > 0 && Pool(samples, k * bins, b * k, b * k + k) == Pool(samples, bins, b, b + 1)
  {
    if samples != [] {
      var n := |samples| - 1;
      PoolOfFiner(samples[..n], bins, k, b);
      BinOfFiner(samples[n].prediction, bins, k);
      hide BinOf;
      var own := BinOf(samples[n].prediction, bins);
      if own != b {
        Disjoint(own, b, k, BinOf(samples[n].prediction, k * bins));
      }
    }
  }

  lemma {:induction false} AbsGapsSplit(samples: seq<Sample>, bins: nat, lo: int, mid: int, hi: int)
    requires bins > 0 && lo <= mid <= hi
    ensures AbsGaps(samples, bins, lo, hi) == AbsGaps(samples, bins, lo, mid) + AbsGaps(samples, bins, mid, hi)
    decreases hi - mid
  {
    if mid < hi {
      AbsGapsSplit(samples, bins, lo, mid, hi - 1);
    }
  }

  /** Gaps of opposite signs cancel when two bins are pooled. */
  lemma GapsCancel(x: Bin, y: Bin)
    ensures Abs(x.Plus(y).Gap()) <= Abs(x.Gap()) + Abs(y.Gap()) && Abs(EMPTY.Gap()) == 0.0
  {
  }

  /** Bins kept apart have at least the gap they have when pooled. */
  lemma {:induction false} PooledGapIsLess(samples: seq<Sample>, bins: nat, lo: int, hi: int)
    requires bins > 0 && lo <= hi
    ensures Abs(Pool(samples, bins, lo, hi).Gap()) <= AbsGaps(samples, bins, lo, hi)
    decreases hi - lo
  {
    hide Pool, BinOf, Abs, Bin.Gap, Bin.Plus;
    if lo == hi {
      NothingPooled(samples, bins, lo);
      GapsCancel(EMPTY, EMPTY);
    } else {
      var before, last := Pool(samples, bins, lo, hi - 1), Pool(samples, bins, hi - 1, hi);
      PooledGapIsLess(samples, bins, lo, hi - 1);
      PoolSplits(samples, bins, lo, hi - 1, hi);
      GapsCancel(before, last);
    }
  }

  lemma AbsGapsNext(samples: seq<Sample>, bins: nat, b: nat)
    requires bins > 0 && b > 0
    ensures AbsGaps(samples, bins, 0, b) == AbsGaps(samples, bins, 0, b - 1) + Abs(Pool(samples, bins, b - 1, b).Gap())
  {
  }

  /** The pieces of one bin have at least its gap. */
  lemma NextPiece(samples: seq<Sample>, bins: nat, k: nat, b: nat, cells: nat, lo: int, hi: int)
    requires bins > 0 && k > 0 && b > 0 && cells == k * bins && lo == (b - 1) * k && hi == b * k
    ensures cells > 0
    ensures Abs(Pool(samples, bins, b - 1, b).Gap()) + AbsGaps(samples, cells, 0, lo) <= AbsGaps(samples, cells, 0, hi)
  {
    hide AbsGaps, Pool, Abs;
    PoolOfFiner(samples, bins, k, b - 1);
    PiecesInOrder(b, k, lo, hi);
    AbsGapsSplit(samples, cells, 0, lo, hi);
    PooledGapIsLess(samples, cells, lo, hi);
  }

  lemma PiecesInOrder(b: nat, k: nat, lo: int, hi: int)
    requires b > 0 && lo == (b - 1) * k && hi == b * k
    ensures 0 <= lo && hi == lo + k
  {
  }

  lemma {:induction false} FinerAbsGaps(samples: seq<Sample>, bins: nat, k: nat, b: nat)
    requires bins > 0 && k > 0
    ensures k * bins > 0 && AbsGaps(samples, bins, 0, b) <= AbsGaps(samples, k * bins, 0, b * k)
  {
    if b > 0 {
      AbsGapsNext(samples, bins, b);
      hide AbsGaps, Pool, Abs;
      FinerAbsGaps(samples, bins, k, b - 1);
      NextPiece(samples, bins, k, b, k * bins, (b - 1) * k, b * k);
    }
  }

  /** Cutting every bin into k never lowers the error. */
  lemma FinerBinsNeverLower(samples: seq<Sample>, bins: nat, k: nat)
    requires bins > 0 && k > 0 && samples != []
    ensures k * bins > 0 && Ece(samples, bins) <= Ece(samples, k * bins)
  {
    FinerAbsGaps(samples, bins, k, bins);
    Divided(AbsGaps(samples, bins, 0, bins), AbsGaps(samples, k * bins, 0, k * bins), |samples|);
  }

  lemma Divided(a: real, b: real, n: nat)
    requires a <= b && n > 0
    ensures Per(a, n) <= Per(b, n)
  {
  }

  /** |mean correctness - mean clamped confidence| over all samples. */
  function OverallGap(samples: seq<Sample>): real
    requires samples != []
  {
    var all := Pool(samples, 1, 0, 1);
    Abs(Per(all.correct, |samples|) - Per(all.confidence, |samples|))
  }

  /** All samples together miss by the difference of the two means. */
  lemma OverallGapIsMissed(predictions: seq<real>, labels: seq<bool>)
    requires |predictions| == |labels| > 0
    ensures OverallGap(Zip(predictions, labels)) == Abs(MissIn(predictions, labels, 1, 0)) / |labels| as real
    ensures forall p :: FallsIn(p, 1, 0)
  {
    var all := Pool(Zip(predictions, labels), 1, 0, 1);
    PoolMisses(predictions, labels, 1, 0);
    PerGap(all, |labels|);
    hide Pool, Zip, MissIn, Abs;
    forall p ensures FallsIn(p, 1, 0) {
      FallsInItsBin(p, 1, 0);
    }
  }

  lemma PerGap(bin: Bin, n: nat)
    requires n > 0
    ensures Abs(Per(bin.correct, n) - Per(bin.confidence, n)) == Per(Abs(bin.Gap()), n)
  {
    var m := n as real;
    assert bin.correct / m - bin.confidence / m == bin.Gap() / m;
    assert Abs(bin.Gap() / m) == Abs(bin.Gap()) / m;
  }

  lemma OneBinIsOverallGap(samples: seq<Sample>)
    requires samples != []
    ensures Ece(samples, 1) == OverallGap(samples)
  {
    hide Pool, Per, Abs;
    var all := Pool(samples, 1, 0, 1);
    assert AbsGaps(samples, 1, 0, 1) == AbsGaps(samples, 1, 0, 0) + Abs(all.Gap());
    PerGap(all, |samples|);
  }

  lemma AtLeastOverallGap(samples: seq<Sample>, bins: nat)
    requires bins > 0 && samples != []
    ensures Ece(samples, bins) >= OverallGap(samples)
  {
    FinerBinsNeverLower(samples, 1, bins);
    OneBinIsOverallGap(samples);
  }
}
