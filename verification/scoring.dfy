/** Favorability scoring of an exchange-rate series (src/math/scoring.ts).

    A series of observations is reduced to a buyer/seller score pair that sums
    to 100, the mid-point percentile rank of the newest observation among the
    earlier ones, a clamped z-score, an optional EMA momentum trend and one
    label per side.  Numbers are reals; `Math.round` is `floor(x + 0.5)`;
    `Math.sqrt` is the parameter `sqrt`; the environment configuration is the
    `Config` value. */
module Scoring {
  import opened Wrappers

  // ---------------------------------------------------------------------------
  // Data model
  // ---------------------------------------------------------------------------

  datatype Trend = Up | Down | Flat

  /** The five bands of the label ladder, best to worst. */
  datatype Band = Best | Good | Neutral | Poor | Worst

  /** The text the source emits for each label. */
  function Glyph(l: Band): string
  {
    match l
    case Best => "\U{1F4B8}"
    case Good => "\U{1F642}"
    case Neutral => "\U{1F610}"
    case Poor => "\U{1F622}"
    case Worst => "\U{1F92C}"
  }

  /** Different labels are shown as different emoji. */
  lemma GlyphDistinct(a: Band, b: Band)
    ensures a != b ==> Glyph(a) != Glyph(b)
  {
  }

  /** The label a score gets when seen from the other side of the trade. */
  function Mirror(l: Band): Band
  {
    match l
    case Best => Worst
    case Good => Poor
    case Neutral => Neutral
    case Poor => Good
    case Worst => Best
  }

  /** Position of a label on the ladder, 0 for the worst. */
  function Rank(l: Band): nat
  {
    match l
    case Worst => 0
    case Poor => 1
    case Neutral => 2
    case Good => 3
    case Best => 4
  }

  datatype Favorability = Favorability(
    buyerScore: int,
    sellerScore: int,
    percentile: real,
    zscore: real,
    trend: Trend,
    buyerLabel: Band,
    sellerLabel: Band)

  /** FX_LOOKBACK_SAMPLES, FX_MOMENTUM_WEIGHT and FX_Z_MAX, made explicit. */
  datatype Config = Config(lookback: int, momentumWeight: real, zMax: real)
  {
    predicate Valid()
    {
      lookback >= 1 && zMax >= 0.0
    }
  }

  /** A buyer/seller score pair. */
  datatype Split = Split(buyer: int, seller: int)

  // ---------------------------------------------------------------------------
  // Arithmetic helpers (Math.min, Math.max, Math.abs, Math.round)
  // ---------------------------------------------------------------------------

  function Min(a: real, b: real): real { if a <= b then a else b }
  function Max(a: real, b: real): real { if a >= b then a else b }
  function MinInt(a: int, b: int): int { if a <= b then a else b }
  function MaxInt(a: int, b: int): int { if a >= b then a else b }
  function Abs(x: real): real { if x < 0.0 then -x else x }

  /** JavaScript's Math.round: the nearest integer, halves rounded up. */
  function Round(x: real): (r: int)
    ensures x - 0.5 < r as real <= x + 0.5
  {
    (x + 0.5).Floor
  }

  /** `clamp01`: the nearest point of [0, 1]. */
  function Clamp01(x: real): (r: real)
    ensures 0.0 <= r <= 1.0
    ensures 0.0 <= x <= 1.0 ==> r == x
    ensures x < 0.0 ==> r == 0.0
    ensures x > 1.0 ==> r == 1.0
  {
    Min(1.0, Max(0.0, x))
  }

  /** `clampZ`: the nearest point of [-zMax, zMax]. */
  function ClampZ(z: real, zMax: real): (r: real)
    requires zMax >= 0.0
    ensures -zMax <= r <= zMax
    ensures -zMax <= z <= zMax ==> r == z
    ensures z > zMax ==> r == zMax
    ensures z < -zMax ==> r == -zMax
    ensures r > 0.0 ==> z > 0.0
    ensures r < 0.0 ==> z < 0.0
  {
    Max(-zMax, Min(zMax, z))
  }

  // ---------------------------------------------------------------------------
  // Sign facts about products and quotients of reals
  // ---------------------------------------------------------------------------

  lemma MulNonNegative(a: real, b: real)
    requires a >= 0.0 && b >= 0.0
    ensures a * b >= 0.0
  {
  }

  lemma MulPositive(a: real, b: real)
    requires a > 0.0 && b > 0.0
    ensures a * b > 0.0
  {
  }

  lemma ReciprocalPositive(d: real)
    requires d > 0.0
    ensures 1.0 / d > 0.0
  {
  }

  lemma DivIsMulReciprocal(a: real, d: real)
    requires d > 0.0
    ensures a / d == a * (1.0 / d)
  {
  }

  /** For non-negative reals, comparing squares is comparing the numbers. */
  lemma SquareMonotone(s: real, e: real)
    requires 0.0 <= s && 0.0 < e
    ensures s >= e <==> s * s >= e * e
  {
    if s >= e {
      MulNonNegative(s - e, s + e);
    } else {
      MulPositive(e - s, e + s);
    }
  }

  // ---------------------------------------------------------------------------
  // mean and std
  // ---------------------------------------------------------------------------

  /** `xs.reduce((a, b) => a + b, 0)`: a left fold. */
  function Sum(xs: seq<real>): real
  {
    if xs == [] then 0.0 else Sum(xs[..|xs| - 1]) + xs[|xs| - 1]
  }

  /** `mean`: the sum divided by `Math.max(xs.length, 1)`, so 0 for an empty list. */
  function Mean(xs: seq<real>): (m: real)
    ensures |xs| == 0 ==> m == 0.0
    ensures |xs| > 0 ==> m * |xs| as real == Sum(xs)
  {
    Sum(xs) / (if |xs| > 1 then |xs| else 1) as real
  }

  /** `xs.reduce((a, b) => a + (b - m) ** 2, 0)`. */
  function SumSquares(xs: seq<real>, m: real): real
  {
    if xs == [] then 0.0
    else SumSquares(xs[..|xs| - 1], m) + (xs[|xs| - 1] - m) * (xs[|xs| - 1] - m)
  }

  /** The sample variance about `m` (denominator n - 1), 0 below two elements. */
  function Variance(xs: seq<real>, m: real): real
  {
    if |xs| < 2 then 0.0 else SumSquares(xs, m) / (|xs| - 1) as real
  }

  /** `std`: 0 below two elements, otherwise the square root of the variance. */
  function Std(xs: seq<real>, m: real, sqrt: real -> real): (s: real)
    ensures |xs| < 2 ==> s == 0.0
    ensures |xs| >= 2 && IsSqrt(sqrt) ==> s >= 0.0 && s * s == Variance(xs, m)
  {
    if |xs| < 2 then 0.0
    else
      VarianceNonNegative(xs, m);
      sqrt(Variance(xs, m))
  }

  /** What `Math.sqrt` promises on non-negative arguments. */
  ghost predicate IsSqrt(sqrt: real -> real)
  {
    forall x :: 0.0 <= x ==> 0.0 <= sqrt(x) && sqrt(x) * sqrt(x) == x
  }

  lemma {:induction false} SumBetween(xs: seq<real>, lo: real, hi: real)
    requires forall i :: 0 <= i < |xs| ==> lo <= xs[i] <= hi
    ensures |xs| as real * lo <= Sum(xs) <= |xs| as real * hi
  {
    if xs != [] {
      SumBetween(xs[..|xs| - 1], lo, hi);
    }
  }

  /** The mean of a non-empty list lies between any bounds of its elements. */
  lemma MeanBetween(xs: seq<real>, lo: real, hi: real)
    requires |xs| > 0
    requires forall i :: 0 <= i < |xs| ==> lo <= xs[i] <= hi
    ensures lo <= Mean(xs) <= hi
  {
    SumBetween(xs, lo, hi);
    QuotientBetween(Sum(xs), |xs| as real, lo, hi);
  }

  lemma QuotientBetween(a: real, n: real, lo: real, hi: real)
    requires n > 0.0
    requires n * lo <= a <= n * hi
    ensures lo <= a / n <= hi
  {
    var q := a / n;
    assert q * n == a;
    assert (q - lo) * n >= 0.0;
    assert (hi - q) * n >= 0.0;
  }

  lemma {:induction false} SumSquaresNonNegative(xs: seq<real>, m: real)
    ensures SumSquares(xs, m) >= 0.0
  {
    if xs != [] {
      SumSquaresNonNegative(xs[..|xs| - 1], m);
      var d := xs[|xs| - 1] - m;
      assert d * d >= 0.0;
    }
  }

  lemma {:induction false} SumSquaresOfConstant(xs: seq<real>, c: real)
    requires forall i :: 0 <= i < |xs| ==> xs[i] == c
    ensures SumSquares(xs, c) == 0.0
  {
    if xs != [] {
      SumSquaresOfConstant(xs[..|xs| - 1], c);
    }
  }

  lemma VarianceNonNegative(xs: seq<real>, m: real)
    ensures Variance(xs, m) >= 0.0
  {
    SumSquaresNonNegative(xs, m);
  }

  // ---------------------------------------------------------------------------
  // z-score
  // ---------------------------------------------------------------------------

  /** `EPS`: the relative dispersion floor max(1e-9, |m| * 1e-6). */
  function Epsilon(m: real): (eps: real)
    ensures eps >= 0.000000001 && eps >= Abs(m) * 0.000001
    ensures eps == 0.000000001 || eps == Abs(m) * 0.000001
  {
    Max(0.000000001, Abs(m) * 0.000001)
  }

  /** The robust z-score of `current` against `base`: computed only with at
      least two base elements and a standard deviation of at least `Epsilon`,
      then clamped to [-zMax, zMax]; 0 otherwise. */
  function ZScore(base: seq<real>, current: real, zMax: real, sqrt: real -> real): (z: real)
    requires zMax >= 0.0
    ensures -zMax <= z <= zMax
    ensures |base| < 2 ==> z == 0.0
    ensures |base| >= 2 && Std(base, Mean(base), sqrt) < Epsilon(Mean(base)) ==> z == 0.0
  {
    if |base| < 2 then 0.0
    else
      var m := Mean(base);
      var s := Std(base, m, sqrt);
      if s >= Epsilon(m) then ClampZ((current - m) / s, zMax) else 0.0
  }

  /** With a real square root, the guard `s >= EPS` is `variance >= EPS * EPS`. */
  lemma StdGuardIsVarianceGuard(base: seq<real>, sqrt: real -> real)
    requires IsSqrt(sqrt)
    requires |base| >= 2
    ensures Std(base, Mean(base), sqrt) >= Epsilon(Mean(base))
        <==> Variance(base, Mean(base)) >= Epsilon(Mean(base)) * Epsilon(Mean(base))
  {
    var m := Mean(base);
    var v := Variance(base, m);
    var e := Epsilon(m);
    VarianceNonNegative(base, m);
    var s := sqrt(v);
    assert Std(base, m, sqrt) == s;
    assert 0.0 <= s && s * s == v;
    SquareMonotone(s, e);
  }

  /** A base with no dispersion at all (every element the same) gives z = 0,
      whatever the current value. */
  lemma ZScoreOfConstantBase(base: seq<real>, current: real, zMax: real, sqrt: real -> real, c: real)
    requires IsSqrt(sqrt)
    requires zMax >= 0.0
    requires forall i :: 0 <= i < |base| ==> base[i] == c
    ensures ZScore(base, current, zMax, sqrt) == 0.0
  {
    if |base| >= 2 {
      MeanBetween(base, c, c);
      SumSquaresOfConstant(base, c);
      assert Variance(base, c) == 0.0;
      var s := sqrt(0.0);
      var e := Epsilon(c);
      assert 0.0 <= s && s * s == 0.0;
      MulPositive(e, e);
      SquareMonotone(s, e);
      assert Std(base, c, sqrt) == s < e;
    }
  }

  /** Past the guard and inside the cap, the z-score is the deviation from
      the mean measured in standard deviations: z * s == current - m. */
  lemma ZScoreStandardises(base: seq<real>, current: real, zMax: real, sqrt: real -> real)
    requires zMax >= 0.0
    requires |base| >= 2
    requires Std(base, Mean(base), sqrt) >= Epsilon(Mean(base))
    requires -zMax * Std(base, Mean(base), sqrt) <= current - Mean(base) <= zMax * Std(base, Mean(base), sqrt)
    ensures ZScore(base, current, zMax, sqrt) * Std(base, Mean(base), sqrt) == current - Mean(base)
  {
    var m := Mean(base);
    var s := Std(base, m, sqrt);
    var q := (current - m) / s;
    assert q * s == current - m;
    QuotientWithinCap(current - m, s, zMax);
    assert ZScore(base, current, zMax, sqrt) == ClampZ(q, zMax) == q;
  }

  /** With s > 0, a deviation within [-zMax * s, zMax * s] gives a quotient
      within [-zMax, zMax]. */
  lemma QuotientWithinCap(d: real, s: real, zMax: real)
    requires s > 0.0
    requires -zMax * s <= d <= zMax * s
    ensures -zMax <= d / s <= zMax
  {
    var q := d / s;
    assert q * s == d;
    if q > zMax {
      MulPositive(q - zMax, s);
    }
    if q < -zMax {
      MulPositive(-zMax - q, s);
    }
  }

  /** Conversely, once the base disperses enough to pass the guard, every
      deviation from the mean shows in the z-score with its sign. */
  lemma ZScoreResponds(base: seq<real>, current: real, zMax: real, sqrt: real -> real)
    requires IsSqrt(sqrt)
    requires zMax > 0.0
    requires |base| >= 2
    requires Variance(base, Mean(base)) >= Epsilon(Mean(base)) * Epsilon(Mean(base))
    ensures current > Mean(base) ==> ZScore(base, current, zMax, sqrt) > 0.0
    ensures current < Mean(base) ==> ZScore(base, current, zMax, sqrt) < 0.0
  {
    StdGuardIsVarianceGuard(base, sqrt);
    var m := Mean(base);
    var s := Std(base, m, sqrt);
    assert s > 0.0;
    var q := (current - m) / s;
    assert q * s == current - m;
    assert ZScore(base, current, zMax, sqrt) == ClampZ(q, zMax);
    if current > m {
      assert q > 0.0 by {
        if q <= 0.0 {
          MulNonNegative(-q, s);
        }
      }
    }
    if current < m {
      assert q < 0.0 by {
        if q >= 0.0 {
          MulNonNegative(q, s);
        }
      }
    }
  }

  /** A non-zero z-score has the sign of the deviation from the mean. */
  lemma ZScoreSign(base: seq<real>, current: real, zMax: real, sqrt: real -> real)
    requires zMax >= 0.0
    ensures ZScore(base, current, zMax, sqrt) > 0.0 ==> current > Mean(base)
    ensures ZScore(base, current, zMax, sqrt) < 0.0 ==> current < Mean(base)
  {
    if |base| >= 2 {
      var m := Mean(base);
      var s := Std(base, m, sqrt);
      if s >= Epsilon(m) {
        var q := (current - m) / s;
        assert q * s == current - m;
        if q > 0.0 {
          assert current - m > 0.0;
        }
        if q < 0.0 {
          assert current - m < 0.0;
        }
      }
    }
  }

  // ---------------------------------------------------------------------------
  // percentileRank
  // ---------------------------------------------------------------------------

  /** Number of elements strictly below `v`. */
  function CountLt(s: seq<real>, v: real): nat
  {
    if s == [] then 0 else CountLt(s[..|s| - 1], v) + (if s[|s| - 1] < v then 1 else 0)
  }

  /** Number of elements equal to `v`. */
  function CountEq(s: seq<real>, v: real): nat
  {
    if s == [] then 0 else CountEq(s[..|s| - 1], v) + (if s[|s| - 1] == v then 1 else 0)
  }

  /** The mid-point rank (lt + 0.5 eq + 0.5) / (n + 1). */
  function MidRank(base: seq<real>, value: real): real
  {
    (CountLt(base, value) as real + 0.5 * CountEq(base, value) as real + 0.5) / (|base| as real + 1.0)
  }

  lemma {:induction false} CountsBound(s: seq<real>, v: real)
    ensures CountLt(s, v) + CountEq(s, v) <= |s|
  {
    if s != [] {
      CountsBound(s[..|s| - 1], v);
    }
  }

  /** The mid-point rank lies strictly inside (0, 1), so `clamp01` never changes it. */
  lemma MidRankInside(base: seq<real>, value: real)
    ensures 0.0 < MidRank(base, value) < 1.0
  {
    CountsBound(base, value);
    var num := CountLt(base, value) as real + 0.5 * CountEq(base, value) as real + 0.5;
    var den := |base| as real + 1.0;
    assert 0.0 < num < den;
    QuotientInside(num, den);
  }

  lemma QuotientInside(a: real, d: real)
    requires 0.0 < a < d
    ensures 0.0 < a / d < 1.0
  {
    ReciprocalPositive(d);
    DivIsMulReciprocal(a, d);
    MulPositive(a, 1.0 / d);
    MulPositive(d - a, 1.0 / d);
    assert d * (1.0 / d) == 1.0;
  }

  /** The percentile of `value` among `base`, as `percentileRank` computes it. */
  function Percentile(base: seq<real>, value: real): (p: real)
    ensures |base| == 0 ==> p == 0.5
    ensures 0.0 < p < 1.0
  {
    if |base| == 0 then 0.5
    else
      MidRankInside(base, value);
      Clamp01(MidRank(base, value))
  }

  /** For a non-empty base the percentile is exactly the mid-point rank. */
  lemma PercentileIsMidRank(base: seq<real>, value: real)
    requires |base| > 0
    ensures Percentile(base, value) == MidRank(base, value)
  {
    MidRankInside(base, value);
  }

  /** Twice the credit `value` earns: 2 per element below it, 1 per tie. */
  function Credit(s: seq<real>, v: real): nat
  {
    2 * CountLt(s, v) + CountEq(s, v)
  }

  lemma {:induction false} CreditMonotone(s: seq<real>, v1: real, v2: real)
    requires v1 <= v2
    ensures Credit(s, v1) <= Credit(s, v2)
  {
    if s != [] {
      CreditMonotone(s[..|s| - 1], v1, v2);
    }
  }

  /** A larger current value never gets a smaller percentile. */
  lemma PercentileMonotone(base: seq<real>, v1: real, v2: real)
    requires v1 <= v2
    ensures Percentile(base, v1) <= Percentile(base, v2)
  {
    if |base| > 0 {
      PercentileIsMidRank(base, v1);
      PercentileIsMidRank(base, v2);
      MidRankMonotone(base, v1, v2);
    }
  }

  lemma MidRankMonotone(base: seq<real>, v1: real, v2: real)
    requires v1 <= v2
    ensures MidRank(base, v1) <= MidRank(base, v2)
  {
    CreditMonotone(base, v1, v2);
    var den := |base| as real + 1.0;
    var a := Credit(base, v1) as real / 2.0 + 0.5;
    var b := Credit(base, v2) as real / 2.0 + 0.5;
    assert MidRank(base, v1) == a / den;
    assert MidRank(base, v2) == b / den;
    assert a <= b;
    assert (b - a) / den >= 0.0;
  }

  lemma {:induction false} CountsAllBelow(s: seq<real>, v: real)
    requires forall i :: 0 <= i < |s| ==> s[i] < v
    ensures CountLt(s, v) == |s| && CountEq(s, v) == 0
  {
    if s != [] {
      CountsAllBelow(s[..|s| - 1], v);
    }
  }

  /** A value above every element of the base gets the top rank (n + 0.5) / (n + 1). */
  lemma PercentileAboveAll(base: seq<real>, value: real)
    requires |base| > 0
    requires forall i :: 0 <= i < |base| ==> base[i] < value
    ensures Percentile(base, value) == (|base| as real + 0.5) / (|base| as real + 1.0)
  {
    CountsAllBelow(base, value);
    PercentileIsMidRank(base, value);
  }

  /** `percentileRank`: one pass counting the elements below and equal to `value`. */
  method PercentileRank(base: seq<real>, value: real) returns (p: real)
    ensures p == Percentile(base, value)
    ensures 0.0 < p < 1.0
  {
    var n := |base|;
    if n == 0 {
      return 0.5;
    }
    var lt, eq := 0, 0;
    for i := 0 to n
      invariant lt == CountLt(base[..i], value)
      invariant eq == CountEq(base[..i], value)
    {
      assert base[..i + 1][..i] == base[..i];
      if base[i] < value {
        lt := lt + 1;
      } else if base[i] == value {
        eq := eq + 1;
      }
    }
    assert base[..n] == base;
    p := Clamp01((lt as real + 0.5 * eq as real + 0.5) / (n as real + 1.0));
  }

  // ---------------------------------------------------------------------------
  // ema and the momentum trend
  // ---------------------------------------------------------------------------

  /** The smoothing factor k = 2 / (period + 1). */
  function Smoothing(period: nat): (k: real)
    ensures 0.0 < k
    ensures period >= 1 ==> k <= 1.0
  {
    2.0 / (period as real + 1.0)
  }

  /** One step of the average: `x * k + e * (1 - k)`. */
  function EmaStep(x: real, e: real, k: real): real
  {
    x * k + e * (1.0 - k)
  }

  /** The EMA of a non-empty series: seeded at the first element, then one
      `EmaStep` for every later element in order. A series of non-negative
      rates has a non-negative EMA. */
  function EmaOf(s: seq<real>, k: real): (e: real)
    requires |s| > 0
    ensures 0.0 <= k <= 1.0 && (forall i :: 0 <= i < |s| ==> s[i] >= 0.0) ==> e >= 0.0
  {
    if |s| == 1 then s[0]
    else
      var prev := EmaOf(s[..|s| - 1], k);
      StepNonNegative(s[|s| - 1], prev, k);
      EmaStep(s[|s| - 1], prev, k)
  }

  /** One EMA step from non-negative inputs stays non-negative. */
  lemma StepNonNegative(x: real, e: real, k: real)
    ensures 0.0 <= k <= 1.0 && x >= 0.0 && e >= 0.0 ==> EmaStep(x, e, k) >= 0.0
  {
    if 0.0 <= k <= 1.0 && x >= 0.0 && e >= 0.0 {
      MulNonNegative(x, k);
      MulNonNegative(e, 1.0 - k);
    }
  }

  /** With 0 <= k <= 1 every step is a convex combination, so the EMA stays
      within any bounds of the series. */
  lemma {:induction false} EmaBetween(s: seq<real>, k: real, lo: real, hi: real)
    requires |s| > 0
    requires 0.0 <= k <= 1.0
    requires forall i :: 0 <= i < |s| ==> lo <= s[i] <= hi
    ensures lo <= EmaOf(s, k) <= hi
  {
    if |s| > 1 {
      var init := s[..|s| - 1];
      assert forall i :: 0 <= i < |init| ==> lo <= init[i] <= hi by {
        forall i | 0 <= i < |init| ensures lo <= init[i] <= hi {
          assert init[i] == s[i];
        }
      }
      EmaBetween(init, k, lo, hi);
      EmaStepBetween(s, k, lo, hi);
    }
  }

  /** The last step of the EMA keeps it within bounds that hold for the
      last sample and for the EMA of the samples before it. */
  lemma EmaStepBetween(s: seq<real>, k: real, lo: real, hi: real)
    requires |s| > 1
    requires 0.0 <= k <= 1.0
    requires lo <= s[|s| - 1] <= hi
    requires lo <= EmaOf(s[..|s| - 1], k) <= hi
    ensures lo <= EmaOf(s, k) <= hi
  {
    var e := EmaOf(s[..|s| - 1], k);
    assert EmaOf(s, k) == EmaStep(s[|s| - 1], e, k);
    StepBetween(s[|s| - 1], e, k, lo, hi);
  }

  /** One EMA step is a convex combination of the sample and the previous EMA. */
  lemma StepBetween(x: real, e: real, k: real, lo: real, hi: real)
    requires 0.0 <= k <= 1.0
    requires lo <= x <= hi && lo <= e <= hi
    ensures lo <= EmaStep(x, e, k) <= hi
  {
    MulNonNegative(x - lo, k);
    MulNonNegative(hi - x, k);
    MulNonNegative(e - lo, 1.0 - k);
    MulNonNegative(hi - e, 1.0 - k);
  }

  /** The EMA of a constant series is that constant. */
  lemma EmaOfConstant(s: seq<real>, k: real, c: real)
    requires |s| > 0
    requires 0.0 <= k <= 1.0
    requires forall i :: 0 <= i < |s| ==> s[i] == c
    ensures EmaOf(s, k) == c
  {
    EmaBetween(s, k, c, c);
  }

  /** `ema`: `None` stands for the NaN the source returns on an empty series. */
  method Ema(series: seq<real>, period: nat) returns (r: Option<real>)
    ensures r.None? <==> series == []
    ensures r.Some? ==> r.value == EmaOf(series, Smoothing(period))
  {
    if |series| == 0 {
      return None;
    }
    var k := 2.0 / (period as real + 1.0);
    var e := series[0];
    for i := 1 to |series|
      invariant e == EmaOf(series[..i], k)
    {
      assert series[..i + 1][..i] == series[..i];
      e := series[i] * k + e * (1.0 - k);
    }
    assert series[..|series|] == series;
    return Some(e);
  }

  /** The trend from the two EMAs, with the +-0.1% band around `e28`. */
  function TrendOf(e7: real, e28: real): Trend
  {
    if e7 > e28 * 1.001 then Up
    else if e7 < e28 * 0.999 then Down
    else Flat
  }

  /** For a positive slow EMA the three trends are the three disjoint bands. */
  lemma TrendBands(e7: real, e28: real)
    requires e28 > 0.0
    ensures TrendOf(e7, e28) == Up <==> e7 > e28 * 1.001
    ensures TrendOf(e7, e28) == Down <==> e7 < e28 * 0.999
    ensures TrendOf(e7, e28) == Flat <==> e28 * 0.999 <= e7 <= e28 * 1.001
  {
  }

  /** The trend of a window: flat unless momentum is on and there are at
      least ten samples; then the 7-period EMA against the 28-period EMA. */
  function MomentumTrend(window: seq<real>, weight: real): (t: Trend)
    ensures !(weight > 0.0 && |window| >= 10) ==> t == Flat
  {
    if weight > 0.0 && |window| >= 10
    then TrendOf(EmaOf(window, Smoothing(7)), EmaOf(window, Smoothing(28)))
    else Flat
  }

  /** A window holding one non-negative value throughout shows no trend. */
  lemma ConstantWindowIsFlat(window: seq<real>, weight: real, c: real)
    requires c >= 0.0
    requires forall i :: 0 <= i < |window| ==> window[i] == c
    ensures MomentumTrend(window, weight) == Flat
  {
    if weight > 0.0 && |window| >= 10 {
      EmaOfConstant(window, Smoothing(7), c);
      EmaOfConstant(window, Smoothing(28), c);
    }
  }

  // ---------------------------------------------------------------------------
  // Scores and labels
  // ---------------------------------------------------------------------------

  /** The split before momentum: buyer = round((1 - p) * 100), seller the rest. */
  function Baseline(p: real): (r: Split)
    ensures r.buyer + r.seller == 100
    ensures (1.0 - p) * 100.0 - 0.5 < r.buyer as real <= (1.0 - p) * 100.0 + 0.5
    ensures 0.0 <= p <= 1.0 ==> 0 <= r.buyer <= 100 && 0 <= r.seller <= 100
  {
    var buyer := Round((1.0 - p) * 100.0);
    Split(buyer, 100 - buyer)
  }

  /** `Math.min(100, Math.round(score * (1 + weight)))`: a score scaled up
      by the momentum weight and capped at 100. */
  function Boost(score: int, weight: real): (r: int)
    requires 0 <= score <= 100 && weight > 0.0
    ensures score <= r <= 100
    ensures r < 100 ==> score as real * (1.0 + weight) - 0.5 < r as real <= score as real * (1.0 + weight) + 0.5
    ensures r == 100 <==> score as real * (1.0 + weight) >= 99.5
  {
    MulNonNegative(score as real, weight);
    MinInt(100, Round(score as real * (1.0 + weight)))
  }

  /** The momentum adjustment: the side the trend favours is scaled by
      (1 + weight) and capped at 100; the other side is the complement. */
  function Adjust(s: Split, t: Trend, weight: real): (r: Split)
    requires 0 <= s.buyer <= 100 && s.seller == 100 - s.buyer
    requires weight > 0.0
    ensures r.buyer + r.seller == 100
    ensures 0 <= r.buyer <= 100 && 0 <= r.seller <= 100
    ensures t == Flat ==> r == s
    ensures t == Up ==> r.seller >= s.seller
    ensures t == Down ==> r.buyer >= s.buyer
    ensures t == Up ==> r.seller == Boost(s.seller, weight)
    ensures t == Down ==> r.buyer == Boost(s.buyer, weight)
  {
    match t
    case Up =>
      var seller := Boost(s.seller, weight);
      Split(MaxInt(0, 100 - seller), seller)
    case Down =>
      var buyer := Boost(s.buyer, weight);
      Split(buyer, MaxInt(0, 100 - buyer))
    case Flat => s
  }

  /** `label`: the first-match ladder >= 70, >= 55, > 45, > 30, stated as
      five disjoint bands. */
  function Label(score: int): (l: Band)
    ensures l == Best <==> 70 <= score
    ensures l == Good <==> 55 <= score < 70
    ensures l == Neutral <==> 45 < score < 55
    ensures l == Poor <==> 30 < score <= 45
    ensures l == Worst <==> score <= 30
  {
    if score >= 70 then Best
    else if score >= 55 then Good
    else if score > 45 then Neutral
    else if score > 30 then Poor
    else Worst
  }

  /** The asymmetric boundaries make the ladder symmetric about 50: the
      label of 100 - x is the mirror of the label of x. */
  lemma LabelMirror(x: int)
    ensures Label(100 - x) == Mirror(Label(x))
  {
  }

  /** A higher score never gets a worse label. */
  lemma LabelMonotone(a: int, b: int)
    requires a <= b
    ensures Rank(Label(a)) <= Rank(Label(b))
  {
  }

  // ---------------------------------------------------------------------------
  // scoreFavorability
  // ---------------------------------------------------------------------------

  /** `series.slice(-lookback)`: the newest min(|series|, lookback) elements. */
  function Window(series: seq<real>, lookback: int): (w: seq<real>)
    requires lookback >= 1
    ensures |w| == if |series| < lookback then |series| else lookback
    ensures w == series[|series| - |w|..]
  {
    if |series| <= lookback then series else series[|series| - lookback..]
  }

  /** The window without its newest element (`window.slice(0, -1)`). */
  function Base(window: seq<real>): seq<real>
  {
    if window == [] then [] else window[..|window| - 1]
  }

  /** The newest element. The source has NaN for an empty window; that value
      is never used, because the base is then empty too. */
  function Current(window: seq<real>): real
  {
    if window == [] then 0.0 else window[|window| - 1]
  }

  /** The score record `scoreFavorability` returns. */
  function Score(cfg: Config, series: seq<real>, sqrt: real -> real): (f: Favorability)
    requires cfg.Valid()
    ensures f.buyerScore + f.sellerScore == 100
    ensures 0 <= f.buyerScore <= 100 && 0 <= f.sellerScore <= 100
    ensures 0.0 < f.percentile < 1.0
    ensures -cfg.zMax <= f.zscore <= cfg.zMax
    ensures f.buyerLabel == Label(f.buyerScore) && f.sellerLabel == Label(f.sellerScore)
    ensures f.buyerLabel == Mirror(f.sellerLabel)
    ensures !(cfg.momentumWeight > 0.0 && |Window(series, cfg.lookback)| >= 10) ==> f.trend == Flat
  {
    var window := Window(series, cfg.lookback);
    var base := Base(window);
    var current := Current(window);
    var p := if |base| > 0 then Percentile(base, current) else 0.5;
    var baseline := Baseline(p);
    var trend := MomentumTrend(window, cfg.momentumWeight);
    var split := if cfg.momentumWeight > 0.0 && |window| >= 10
                 then Adjust(baseline, trend, cfg.momentumWeight)
                 else baseline;
    var z := ZScore(base, current, cfg.zMax, sqrt);
    LabelMirror(split.seller);
    Favorability(split.buyer, split.seller, p, z, trend, Label(split.buyer), Label(split.seller))
  }

  /** `scoreFavorability`, step by step as the source reassigns its locals. */
  method ScoreFavorability(cfg: Config, series: seq<real>, sqrt: real -> real) returns (f: Favorability)
    requires cfg.Valid()
    ensures f == Score(cfg, series, sqrt)
    ensures f.buyerScore + f.sellerScore == 100
    ensures -cfg.zMax <= f.zscore <= cfg.zMax
  {
    var window := Window(series, cfg.lookback);
    var current := Current(window);
    var base := Base(window);

    var p := 0.5;
    if |base| > 0 {
      p := PercentileRank(base, current);
    }
    var buyer := Round((1.0 - p) * 100.0);
    var seller := 100 - buyer;
    ghost var baseline := Baseline(p);
    assert Split(buyer, seller) == baseline;

    var tr := Flat;
    if cfg.momentumWeight > 0.0 && |window| >= 10 {
      var e7 := Ema(window, 7);
      var e28 := Ema(window, 28);
      if e7.value > e28.value * 1.001 {
        tr := Up;
      } else if e7.value < e28.value * 0.999 {
        tr := Down;
      }
      assert tr == MomentumTrend(window, cfg.momentumWeight);
      if tr == Up {
        seller := Boost(seller, cfg.momentumWeight);
        buyer := MaxInt(0, 100 - seller);
      } else if tr == Down {
        buyer := Boost(buyer, cfg.momentumWeight);
        seller := MaxInt(0, 100 - buyer);
      }
    }

    var z := 0.0;
    if |base| >= 2 {
      var m := Mean(base);
      var s := Std(base, m, sqrt);
      var eps := Max(0.000000001, Abs(m) * 0.000001);
      if s >= eps {
        z := ClampZ((current - m) / s, cfg.zMax);
      }
    }
    assert z == ZScore(base, current, cfg.zMax, sqrt);

    f := Favorability(buyer, seller, p, z, tr, Label(buyer), Label(seller));
  }

  // ---------------------------------------------------------------------------
  // Properties of the score
  // ---------------------------------------------------------------------------

  /** With no earlier observation (an empty or one-element series) the score
      is neutral: 50/50, percentile 0.5, z = 0, no trend. */
  lemma ScoreWithoutHistory(cfg: Config, series: seq<real>, sqrt: real -> real)
    requires cfg.Valid()
    requires |series| <= 1
    ensures Score(cfg, series, sqrt) == Favorability(50, 50, 0.5, 0.0, Flat, Neutral, Neutral)
  {
    assert Round(50.0) == 50;
  }

  /** Before momentum the split follows the percentile; momentum never moves
      a score against the trend, and without a trend nothing moves. */
  lemma ScoreMomentum(cfg: Config, series: seq<real>, sqrt: real -> real)
    requires cfg.Valid()
    ensures var f := Score(cfg, series, sqrt);
            var b := Baseline(f.percentile);
            && (f.trend == Flat ==> f.buyerScore == b.buyer && f.sellerScore == b.seller)
            && (f.trend == Up ==> f.sellerScore >= b.seller)
            && (f.trend == Down ==> f.buyerScore >= b.buyer)
  {
  }

  /** The percentile of the score is the mid-point rank of the newest sample
      among the rest of the window. */
  lemma ScorePercentile(cfg: Config, series: seq<real>, sqrt: real -> real)
    requires cfg.Valid()
    requires |series| >= 2
    ensures var w := Window(series, cfg.lookback);
            |w| >= 2 ==> Score(cfg, series, sqrt).percentile == MidRank(w[..|w| - 1], w[|w| - 1])
  {
    var w := Window(series, cfg.lookback);
    if |w| >= 2 {
      PercentileIsMidRank(w[..|w| - 1], w[|w| - 1]);
    }
  }

  /** Only the newest `lookback` samples matter: older history is ignored. */
  lemma ScoreIgnoresOldSamples(cfg: Config, older: seq<real>, series: seq<real>, sqrt: real -> real)
    requires cfg.Valid()
    requires |series| >= cfg.lookback
    ensures Score(cfg, older + series, sqrt) == Score(cfg, series, sqrt)
  {
    var all := older + series;
    assert all[|all| - cfg.lookback..] == series[|series| - cfg.lookback..];
    assert Window(all, cfg.lookback) == Window(series, cfg.lookback);
  }

  /** A newest sample above all earlier ones in a five-sample window:
      [100, 102, 104, 103] then 105 gives percentile (4 + 0.5) / 5 = 0.9,
      buyer 10, seller 90. */
  lemma ScoreOfNewHigh(sqrt: real -> real)
    ensures var f := Score(Config(180, 0.0, 3.5), [100.0, 102.0, 104.0, 103.0, 105.0], sqrt);
            f.percentile == 0.9 && f.buyerScore == 10 && f.sellerScore == 90
            && f.buyerLabel == Worst && f.sellerLabel == Best
  {
    var series := [100.0, 102.0, 104.0, 103.0, 105.0];
    var base := [100.0, 102.0, 104.0, 103.0];
    assert Window(series, 180) == series;
    assert Base(series) == base;
    assert Current(series) == 105.0;
    PercentileAboveAll(base, 105.0);
    assert Percentile(base, 105.0) == 0.9;
    assert Round(10.0) == 10;
  }
}
