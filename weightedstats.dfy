/**
 * Weighted moments of 1-D data and iterative sigma clipping
 * (sugayutils/stat/weightedstats.py), over exact reals.
 *
 * numpy's `np.average(values, weights=w)` raises when the weights sum to
 * zero or when the shapes differ; both are modelled as `Err` values. The
 * square root and the natural logarithm are numpy's, which are given to the
 * functions that use them as parameters.
 */
module WeightedStats {
  import opened Floats

  datatype StatError =
    | ShapeMismatch     // values and weights (or a mask) differ in length
    | ZeroTotalWeight   // numpy: "Weights sum to zero, can't be normalized"
    | NotConverged      // sigma clipping hit its iteration cap

  /** The optional `sigma` argument; an iteration cap comes with it. */
  datatype Clipping = NoClip | SigmaClip(sigma: real, maxIter: nat)

  // ---------------------------------------------------------------------
  // Sums and powers

  function Total(s: seq<real>): real
  {
    if |s| == 0 then 0.0 else s[0] + Total(s[1..])
  }

  /** Sum of weights[i] * values[i]. */
  function WeightedTotal(values: seq<real>, weights: seq<real>): real
    requires |values| == |weights|
  {
    if |values| == 0 then 0.0
    else weights[0] * values[0] + WeightedTotal(values[1..], weights[1..])
  }

  function Square(x: real): real
  {
    x * x
  }

  function Pow(x: real, k: nat): real
  {
    if k == 0 then 1.0 else x * Pow(x, k - 1)
  }

  /** The array `(values - c) ** k`. */
  function Deviations(values: seq<real>, c: real, k: nat): (r: seq<real>)
    ensures |r| == |values|
  {
    seq(|values|, i requires 0 <= i < |values| => Pow(values[i] - c, k))
  }

  ghost predicate NonNegative(s: seq<real>)
  {
    forall i :: 0 <= i < |s| ==> s[i] >= 0.0
  }

  // ---------------------------------------------------------------------
  // _average and moment

  /** `_average` on 1-D data: the weighted mean, or numpy's error. */
  function Average(values: seq<real>, weights: seq<real>): (r: Result<real, StatError>)
    ensures r.Ok? <==> |values| == |weights| && Total(weights) != 0.0
    ensures r.Err? ==> r.error == (if |values| != |weights| then ShapeMismatch else ZeroTotalWeight)
  {
    if |values| != |weights| then Err(ShapeMismatch)
    else if Total(weights) == 0.0 then Err(ZeroTotalWeight)
    else Ok(WeightedTotal(values, weights) / Total(weights))
  }

  /** The weighted mean of `(values - mean) ** order`, with no clipping. */
  function CentralMoment(values: seq<real>, weights: seq<real>, order: nat): (r: Result<real, StatError>)
    ensures r.Ok? <==> Average(values, weights).Ok?
    ensures r.Err? ==> r.error == Average(values, weights).error
  {
    match Average(values, weights)
    case Err(e) => Err(e)
    case Ok(mean) => Ok(WeightedTotal(Deviations(values, mean, order), weights) / Total(weights))
  }

  /** `moment`: clip first when `sigma` is given, then the central moment of what is retained. */
  function Moment(values: seq<real>, weights: seq<real>, order: nat, clip: Clipping): (r: Result<real, StatError>)
    ensures clip.NoClip? ==> (r.Ok? <==> |values| == |weights| && Total(weights) != 0.0)
    ensures clip.NoClip? && r.Err? ==> r.error == (if |values| != |weights| then ShapeMismatch else ZeroTotalWeight)
    ensures clip.SigmaClip? && r.Ok? ==>
              ClippedMask(values, weights, clip.sigma, clip.maxIter).Ok? && |values| == |weights|
    ensures clip.SigmaClip? && ClippedMask(values, weights, clip.sigma, clip.maxIter).Err? ==>
              r == Err(ClippedMask(values, weights, clip.sigma, clip.maxIter).error)
    ensures clip.SigmaClip? && |values| > 0 && ClippedMask(values, weights, clip.sigma, clip.maxIter).Ok? ==> r.Ok?
  {
    match clip
    case NoClip => CentralMoment(values, weights, order)
    case SigmaClip(sigma, maxIter) =>
      match ClippedMask(values, weights, sigma, maxIter)
      case Err(e) => Err(e)
      case Ok(mask) =>
        if |weights| != |mask| then Err(ShapeMismatch)
        else CentralMoment(Select(values, mask), Select(weights, mask), order)
  }

  /** `variance` is `moment` of order 2. */
  function Variance(values: seq<real>, weights: seq<real>, clip: Clipping): (r: Result<real, StatError>)
    ensures clip.NoClip? ==> (r.Ok? <==> |values| == |weights| && Total(weights) != 0.0)
    ensures clip.NoClip? && r.Err? ==> r.error == (if |values| != |weights| then ShapeMismatch else ZeroTotalWeight)
    ensures clip.SigmaClip? && |values| > 0 && ClippedMask(values, weights, clip.sigma, clip.maxIter).Ok? ==> r.Ok?
  {
    Moment(values, weights, 2, clip)
  }

  /** numpy's square root is correct on the non-negative reals. */
  ghost predicate IsSquareRoot(sqrt: real -> real)
  {
    forall x :: 0.0 <= x ==> 0.0 <= sqrt(x) && sqrt(x) * sqrt(x) == x
  }

  /** `s` is the non-negative square root of `v`. */
  ghost predicate IsRoot(s: real, v: real)
  {
    s >= 0.0 && Square(s) == v
  }

  /** `std`: the square root of the variance; NaN when the variance is negative. */
  function Std(values: seq<real>, weights: seq<real>, clip: Clipping, sqrt: real -> real): (r: Result<Num, StatError>)
    requires IsSquareRoot(sqrt)
    ensures r.Ok? <==> Variance(values, weights, clip).Ok?
    ensures r.Err? ==> r.error == Variance(values, weights, clip).error
    ensures r.Ok? ==> (r.value.Finite? || r.value.NaN?)
    ensures r.Ok? ==> (r.value.Finite? <==> Variance(values, weights, clip).value >= 0.0)
    ensures r.Ok? && r.value.Finite? ==> IsRoot(r.value.r, Variance(values, weights, clip).value)
    ensures r.Ok? && r.value.Finite? ==> r.value.r == sqrt(Variance(values, weights, clip).value)
  {
    match Variance(values, weights, clip)
    case Err(e) => Err(e)
    case Ok(v) => Ok(StdOf(v, sqrt))
  }

  /** The standard deviation of a variance `v`: its square root, or NaN when `v` is negative. */
  function StdOf(v: real, sqrt: real -> real): (r: Num)
    requires IsSquareRoot(sqrt)
    ensures r.Finite? <==> v >= 0.0
    ensures r.Finite? ==> IsRoot(r.r, v) && r.r == sqrt(v)
    ensures r.NaN? <==> v < 0.0
  {
    if v >= 0.0 then Finite(sqrt(v)) else NaN
  }

  /** `gauss_fwhm`: `2 * sqrt(2 * ln 2)` times the standard deviation. */
  function GaussFwhm(values: seq<real>, weights: seq<real>, clip: Clipping,
                     sqrt: real -> real, ln: real -> real): (r: Result<Num, StatError>)
    requires IsSquareRoot(sqrt)
    ensures r.Ok? <==> Variance(values, weights, clip).Ok?
    ensures r.Ok? ==> (r.value.Finite? <==> Variance(values, weights, clip).value >= 0.0)
  {
    match Std(values, weights, clip, sqrt)
    case Err(e) => Err(e)
    case Ok(s) => Ok(Mul(Finite(2.0 * sqrt(2.0 * ln(2.0))), s))
  }

  /** The Gaussian FWHM is non-negative and its square is `8 ln 2` times the variance. */
  lemma GaussFwhmSquared(values: seq<real>, weights: seq<real>, clip: Clipping,
                         sqrt: real -> real, ln: real -> real)
    requires IsSquareRoot(sqrt) && ln(2.0) >= 0.0
    requires GaussFwhm(values, weights, clip, sqrt, ln).Ok?
    requires GaussFwhm(values, weights, clip, sqrt, ln).value.Finite?
    ensures FwhmRelation(GaussFwhm(values, weights, clip, sqrt, ln).value.r, ln(2.0), Variance(values, weights, clip).value)
  {
    var sd := Std(values, weights, clip, sqrt);
    assert GaussFwhm(values, weights, clip, sqrt, ln) == Ok(Mul(Finite(2.0 * sqrt(2.0 * ln(2.0))), sd.value));
    FwhmOfStd(sd.value, Variance(values, weights, clip).value, sqrt, ln(2.0),
              GaussFwhm(values, weights, clip, sqrt, ln).value);
  }

  /** `f` is a non-negative full width whose square is `8 l` times the variance `v` (with `l` standing for ln 2). */
  ghost predicate FwhmRelation(f: real, l: real, v: real)
  {
    f >= 0.0 && f * f == 8.0 * l * v
  }

  lemma FwhmOfStd(sd: Num, v: real, sqrt: real -> real, l: real, fwhm: Num)
    requires IsSquareRoot(sqrt) && l >= 0.0
    requires sd.Finite? && IsRoot(sd.r, v)
    requires fwhm == Mul(Finite(2.0 * sqrt(2.0 * l)), sd)
    ensures fwhm.Finite? && FwhmRelation(fwhm.r, l, v)
  {
    var q := sqrt(2.0 * l);
    assert q >= 0.0 && q * q == 2.0 * l;
    FwhmArithmetic(fwhm.r, q, sd.r, v, l);
  }

  lemma FwhmArithmetic(f: real, q: real, s: real, v: real, l: real)
    requires q >= 0.0 && q * q == 2.0 * l && IsRoot(s, v) && f == 2.0 * q * s
    ensures f >= 0.0 && f * f == 8.0 * l * v
  {
    ProductNonNegative(2.0 * q, s, f);
    calc {
      f * f;
      4.0 * (q * q) * (s * s);
      8.0 * l * v;
    }
  }

  /**
   * `skewness`: the (possibly clipped) third moment over the cube of the
   * UNCLIPPED standard deviation.
   */
  function Skewness(values: seq<real>, weights: seq<real>, clip: Clipping, sqrt: real -> real): (r: Result<Num, StatError>)
    requires IsSquareRoot(sqrt)
    ensures r.Ok? <==> Variance(values, weights, NoClip).Ok? && Moment(values, weights, 3, clip).Ok?
    ensures r.Ok? ==> (r.value.Finite? <==> Variance(values, weights, NoClip).value > 0.0)
    ensures r.Ok? ==> (r.value.NaN? <==> Variance(values, weights, NoClip).value < 0.0
                                         || (Variance(values, weights, NoClip).value == 0.0
                                             && Moment(values, weights, 3, clip).value == 0.0))
    ensures r.Ok? && r.value.Finite? ==>
              SkewnessValue(r.value.r, Moment(values, weights, 3, clip).value, Variance(values, weights, NoClip).value, sqrt)
  {
    match Variance(values, weights, NoClip)
    case Err(e) => Err(e)
    case Ok(v) =>
      match Moment(values, weights, 3, clip)
      case Err(e) => Err(e)
      case Ok(m3) => Ok(SkewnessOf(m3, v, sqrt))
  }

  /** `q` is the third moment `m3` over the cube of the standard deviation `sqrt(v)`, sign included. */
  ghost predicate SkewnessValue(q: real, m3: real, v: real, sqrt: real -> real)
  {
    q * Cube(sqrt(v)) == m3
  }

  /** The third moment `m3` over the cube of the standard deviation of a variance `v`. */
  function SkewnessOf(m3: real, v: real, sqrt: real -> real): (r: Num)
    requires IsSquareRoot(sqrt)
    ensures r.Finite? <==> v > 0.0
    ensures r.NaN? <==> v < 0.0 || (v == 0.0 && m3 == 0.0)
    ensures r.Finite? ==> SkewnessValue(r.r, m3, v, sqrt)
  {
    var sd := StdOf(v, sqrt);
    assert sd.Finite? ==> (sd.r > 0.0 <==> v > 0.0) by {
      if sd.Finite? { RootPositive(sd.r, v); }
    }
    OverCube(m3, sd)
  }

  /** `m / s ** 3` in floating point, for a standard deviation `s` (NaN or a non-negative real). */
  function OverCube(m: real, s: Num): (r: Num)
    requires s.Finite? ==> s.r >= 0.0
    ensures s.NaN? ==> r.NaN?
    ensures r.Finite? <==> s.Finite? && s.r > 0.0
    ensures r.Finite? ==> r.r * Cube(s.r) == m
    ensures s == Finite(0.0) ==> (r.NaN? <==> m == 0.0) && (r.Inf? <==> m != 0.0)
  {
    match s
    case Finite(d) =>
      if d > 0.0 then
        CubePositive(d);
        Finite(m / Cube(d))
      else if m > 0.0 then Inf(true)
      else if m < 0.0 then Inf(false)
      else NaN
    case _ => NaN
  }

  lemma RootPositive(s: real, v: real)
    requires IsRoot(s, v)
    ensures s > 0.0 <==> v > 0.0
  {
    SquarePositive(s);
  }

  lemma SquarePositive(x: real)
    ensures x != 0.0 ==> Square(x) > 0.0
    ensures x == 0.0 ==> Square(x) == 0.0
  {
    if x > 0.0 {
      ProductPositive(x, x, Square(x));
    } else if x < 0.0 {
      ProductPositive(-x, -x, Square(x));
    }
  }


  function Cube(x: real): real
  {
    x * x * x
  }

  lemma CubePositive(x: real)
    requires x > 0.0
    ensures Cube(x) > 0.0
  {
    assert x * x > 0.0;
  }

  /** `q` is a skewness of a third moment `m` under a variance `v`, up to the sign of `m`. */
  ghost predicate SkewnessRelation(q: real, m: real, v: real)
  {
    q * q * Cube(v) == m * m
  }

  /** If `q * s^3 == m` and `s * s == v` then `q^2 * v^3 == m^2`. */
  lemma CubeRatioSquared(q: real, m: real, s: real, v: real)
    requires q * Cube(s) == m && IsRoot(s, v)
    ensures SkewnessRelation(q, m, v)
  {
    var c := Cube(s);
    assert c * c == Cube(v) by {
      calc {
        c * c;
        (s * s) * (s * s) * (s * s);
        v * v * v;
      }
    }
    calc {
      q * q * Cube(v);
      q * q * (c * c);
      (q * c) * (q * c);
    }
  }

  /**
   * A finite skewness squared, times the cube of the unclipped variance, is
   * the square of the third moment: the normalisation is by the unclipped
   * standard deviation even when clipping is requested.
   */
  lemma SkewnessNormalisation(values: seq<real>, weights: seq<real>, clip: Clipping, sqrt: real -> real)
    requires IsSquareRoot(sqrt)
    requires Skewness(values, weights, clip, sqrt).Ok? && Skewness(values, weights, clip, sqrt).value.Finite?
    ensures var skew := Skewness(values, weights, clip, sqrt).value.r;
            var v := Variance(values, weights, NoClip).value;
            var m3 := Moment(values, weights, 3, clip).value;
            SkewnessRelation(skew, m3, v)
  {
    var sd := Std(values, weights, NoClip, sqrt);
    var v := Variance(values, weights, NoClip).value;
    var m3 := Moment(values, weights, 3, clip).value;
    assert Skewness(values, weights, clip, sqrt) == Ok(OverCube(m3, StdOf(v, sqrt)));
    SkewnessOfStd(v, m3, StdOf(v, sqrt), Skewness(values, weights, clip, sqrt).value);
  }

  lemma SkewnessOfStd(v: real, m: real, sd: Num, skew: Num)
    requires sd.Finite? && IsRoot(sd.r, v)
    requires skew == OverCube(m, sd) && skew.Finite?
    ensures SkewnessRelation(skew.r, m, v)
  {
    RootPositive(sd.r, v);
    CubeRatioSquared(skew.r, m, sd.r, v);
  }

  /**
   * `kurtosis`: the (possibly clipped) fourth moment over the square of the
   * UNCLIPPED variance, minus 3.
   */
  function Kurtosis(values: seq<real>, weights: seq<real>, clip: Clipping): (r: Result<Num, StatError>)
    ensures r.Ok? <==> Variance(values, weights, NoClip).Ok? && Moment(values, weights, 4, clip).Ok?
    ensures r.Ok? ==> (r.value.Finite? <==> Variance(values, weights, NoClip).value != 0.0)
    ensures r.Ok? && r.value.Finite? ==>
              KurtosisRelation(r.value.r, Moment(values, weights, 4, clip).value, Variance(values, weights, NoClip).value)
  {
    match Variance(values, weights, NoClip)
    case Err(e) => Err(e)
    case Ok(v) =>
      match Moment(values, weights, 4, clip)
      case Err(e) => Err(e)
      case Ok(m4) => Ok(ExcessKurtosis(m4, v))
  }

  /** `k` is the excess kurtosis of a fourth moment `m` and a variance `v`. */
  ghost predicate KurtosisRelation(k: real, m: real, v: real)
  {
    (k + 3.0) * (v * v) == m
  }

  /** `m / v ** 2 - 3` in floating point. */
  function ExcessKurtosis(m: real, v: real): (r: Num)
    ensures r.Finite? <==> v != 0.0
    ensures r.Finite? ==> KurtosisRelation(r.r, m, v)
  {
    if v != 0.0 then
      SquareQuotient(m, v);
      Finite(m / (v * v) - 3.0)
    else if m > 0.0 then Inf(true)
    else if m < 0.0 then Inf(false)
    else NaN
  }

  lemma SquareQuotient(m: real, v: real)
    requires v != 0.0
    ensures v * v != 0.0
    ensures (m / (v * v) - 3.0 + 3.0) * (v * v) == m
  {
    assert v * v > 0.0;
  }

  // ---------------------------------------------------------------------
  // _clipped_index1d

  function CountTrue(mask: seq<bool>): nat
  {
    if |mask| == 0 then 0 else (if mask[0] then 1 else 0) + CountTrue(mask[1..])
  }

  /** Boolean-mask indexing `s[mask]`: the entries whose mask bit is set, in order. */
  function Select<T>(s: seq<T>, mask: seq<bool>): (r: seq<T>)
    requires |s| == |mask|
    ensures |r| == CountTrue(mask)
  {
    if |s| == 0 then []
    else (if mask[0] then [s[0]] else []) + Select(s[1..], mask[1..])
  }

  function Trues(n: nat): (r: seq<bool>)
    ensures |r| == n
  {
    seq(n, _ => true)
  }

  function Falses(n: nat): (r: seq<bool>)
    ensures |r| == n
  {
    seq(n, _ => false)
  }

  /**
   * The clip test `|x - mean| < sigma * std`, stated on the variance `v`.
   * A negative variance has a NaN root, and every comparison with NaN is false.
   */
  predicate WithinSigma(x: real, mean: real, v: real, sigma: real): (r: bool)
    ensures r ==> sigma > 0.0 && v > 0.0
    ensures sigma > 0.0 && v > 0.0 && x == mean ==> r
  {
    assert sigma > 0.0 && v > 0.0 ==> Square(sigma) * v > 0.0 by {
      if sigma > 0.0 && v > 0.0 {
        SquarePositive(sigma);
        ProductPositive(Square(sigma), v, Square(sigma) * v);
      }
    }
    assert Square(x - mean) >= 0.0 by {
      SquarePositive(x - mean);
    }
    sigma > 0.0 && v >= 0.0 && Square(x - mean) < Square(sigma) * v
  }

  /** One pass of the loop body: statistics of the retained subset, a new mask over ALL values. */
  function ClipStep(values: seq<real>, weights: seq<real>, sigma: real, mask: seq<bool>): (r: Result<seq<bool>, StatError>)
    requires |values| == |weights| == |mask|
    ensures r.Ok? <==> Total(Select(weights, mask)) != 0.0
    ensures r.Err? ==> r.error == ZeroTotalWeight
    ensures r.Ok? ==> |r.value| == |values|
  {
    var kept, keptWeights := Select(values, mask), Select(weights, mask);
    match Average(kept, keptWeights)
    case Err(e) => Err(e)
    case Ok(mean) =>
      var v := CentralMoment(kept, keptWeights, 2).value;
      Ok(seq(|values|, i requires 0 <= i < |values| => WithinSigma(values[i], mean, v, sigma)))
  }

  /** The loop `while index0 != index1`, with `fuel` passes left. */
  function ClipIterate(values: seq<real>, weights: seq<real>, sigma: real,
                       index0: seq<bool>, index1: seq<bool>, fuel: nat): (r: Result<seq<bool>, StatError>)
    requires |values| == |weights| == |index0| == |index1|
    ensures r.Ok? ==> |r.value| == |values|
    ensures r.Ok? ==> (index0 == index1 && r.value == index1) || ClipStep(values, weights, sigma, r.value) == Ok(r.value)
    decreases fuel
  {
    if index0 == index1 then Ok(index1)
    else if fuel == 0 then Err(NotConverged)
    else
      match ClipStep(values, weights, sigma, index1)
      case Err(e) => Err(e)
      case Ok(next) => ClipIterate(values, weights, sigma, index1, next, fuel - 1)
  }

  /**
   * `_clipped_index1d` as a function: start from all-False / all-True and
   * iterate to a fixed point, for at most `maxIter` passes.
   */
  function ClippedMask(values: seq<real>, weights: seq<real>, sigma: real, maxIter: nat): (r: Result<seq<bool>, StatError>)
    ensures r.Ok? ==> |r.value| == |values|
    ensures |values| == 0 ==> r == Ok([])
    ensures |values| != 0 && |values| != |weights| ==> r == Err(ShapeMismatch)
    ensures r.Ok? && |values| > 0 ==> ClipStep(values, weights, sigma, r.value) == Ok(r.value)
  {
    if |values| == 0 then Ok([])
    else if |values| != |weights| then Err(ShapeMismatch)
    else
      assert Falses(|values|)[0] != Trues(|values|)[0];
      ClipIterate(values, weights, sigma, Falses(|values|), Trues(|values|), maxIter)
  }

  /** How one pass from an unsettled pair of masks continues the iteration. */
  lemma ClipIterateStep(values: seq<real>, weights: seq<real>, sigma: real,
                        index0: seq<bool>, index1: seq<bool>, fuel: nat, rest: nat,
                        next: Result<seq<bool>, StatError>)
    requires |values| == |weights| == |index0| == |index1| && index0 != index1 && fuel == rest + 1
    requires next == ClipStep(values, weights, sigma, index1)
    ensures ClipIterate(values, weights, sigma, index0, index1, fuel)
            == (if next.Err? then Err(next.error) else ClipIterate(values, weights, sigma, index1, next.value, rest))
  {
  }

  /** The loop of `_clipped_index1d`, with an explicit cap on the number of passes. */
  method ClippedIndex1d(values: seq<real>, weights: seq<real>, sigma: real, maxIter: nat)
    returns (r: Result<seq<bool>, StatError>)
    ensures r == ClippedMask(values, weights, sigma, maxIter)
  {
    var index0 := Falses(|values|);
    var index1 := Trues(|values|);
    if |values| > 0 {
      assert index0[0] != index1[0];
    } else {
      assert index0 == index1;
    }
    if index0 != index1 && |values| != |weights| {
      return Err(ShapeMismatch);
    }
    var left := maxIter;
    ghost var target := ClippedMask(values, weights, sigma, maxIter);
    while index0 != index1
      invariant |index0| == |index1| == |values|
      invariant index0 != index1 ==> |values| > 0
      invariant |values| > 0 ==> |values| == |weights|
      invariant |values| > 0 ==>
                  ClipIterate(values, weights, sigma, index0, index1, left) == target
      decreases left
    {
      if left == 0 {
        return Err(NotConverged);
      }
      var next := ClipStep(values, weights, sigma, index1);
      var rest := left - 1;
      ClipIterateStep(values, weights, sigma, index0, index1, left, rest, next);
      if next.Err? {
        return Err(next.error);
      }
      index0, index1, left := index1, next.value, rest;
    }
    r := Ok(index1);
  }
}

module WeightedStatsProperties {
  import opened Floats
  import opened WeightedStats

  /** Masking distributes over concatenation of equally long values and masks. */
  lemma {:induction false} SelectAppend<T>(s1: seq<T>, s2: seq<T>, m1: seq<bool>, m2: seq<bool>)
    requires |s1| == |m1| && |s2| == |m2|
    ensures Select(s1 + s2, m1 + m2) == Select(s1, m1) + Select(s2, m2)
  {
    if |s1| == 0 {
      assert s1 + s2 == s2 && m1 + m2 == m2;
    } else {
      var head := if m1[0] then [s1[0]] else [];
      assert (s1 + s2)[0] == s1[0] && (s1 + s2)[1..] == s1[1..] + s2;
      assert (m1 + m2)[0] == m1[0] && (m1 + m2)[1..] == m1[1..] + m2;
      assert Select(s1 + s2, m1 + m2) == head + Select(s1[1..] + s2, m1[1..] + m2);
      SelectAppend(s1[1..], s2, m1[1..], m2);
      assert Select(s1, m1) == head + Select(s1[1..], m1[1..]);
    }
  }

  /** Appending one value and its mask bit appends the value exactly when the bit is set. */
  lemma SelectSnoc<T>(s: seq<T>, m: seq<bool>, x: T, b: bool)
    requires |s| == |m|
    ensures Select(s + [x], m + [b]) == Select(s, m) + (if b then [x] else [])
  {
    SelectAppend(s, [x], m, [b]);
  }

  // ---------------------------------------------------------------------
  // Arithmetic facts, each about a named product so the solver can use it

  lemma SquareNonNegative(x: real)
    ensures Square(x) >= 0.0
  {
    SquarePositive(x);
  }

  lemma QuotientNonNegative(a: real, b: real)
    requires a >= 0.0 && b > 0.0
    ensures a / b >= 0.0
  {
  }

  /** For non-negative reals, comparing squares is comparing the reals. */
  lemma SquareMonotone(a: real, b: real)
    requires a >= 0.0 && b >= 0.0
    ensures a < b <==> Square(a) < Square(b)
  {
    if a < b {
      assert Square(b) - Square(a) == (b - a) * (b + a);
      ProductPositive(b - a, b + a, Square(b) - Square(a));
    } else {
      assert Square(a) - Square(b) == (a - b) * (a + b);
      ProductNonNegative(a - b, a + b, Square(a) - Square(b));
    }
  }

  lemma SquareOfProduct(a: real, b: real)
    ensures Square(a * b) == Square(a) * Square(b)
  {
  }

  lemma SquareOfAbs(x: real)
    ensures Square(Abs(x)) == Square(x)
  {
  }

  lemma PowOne(x: real)
    ensures Pow(x, 1) == x
  {
    assert Pow(x, 1) == x * Pow(x, 0);
  }

  lemma PowTwo(x: real)
    ensures Pow(x, 2) == Square(x)
  {
    PowOne(x);
    assert Pow(x, 2) == x * Pow(x, 1);
  }

  /** One step of a weighted total stays above `lo` times the total weight. */
  lemma LowerStep(w: real, x: real, lo: real, rest: real, restWeight: real, t: real)
    requires w >= 0.0 && x >= lo && rest >= lo * restWeight && t == w + restWeight
    ensures w * x + rest >= lo * t
  {
    ProductNonNegative(w, x - lo, w * (x - lo));
  }

  /** One step of a weighted total stays below `hi` times the total weight. */
  lemma UpperStep(w: real, x: real, hi: real, rest: real, restWeight: real, t: real)
    requires w >= 0.0 && x <= hi && rest <= hi * restWeight && t == w + restWeight
    ensures w * x + rest <= hi * t
  {
    ProductNonNegative(w, hi - x, w * (hi - x));
  }

  /** Bounds on a total carry over to its quotient by a positive weight. */
  lemma QuotientBetween(a: real, t: real, lo: real, hi: real)
    requires t > 0.0 && lo * t <= a <= hi * t
    ensures lo <= a / t <= hi
  {
    var q := a / t;
    assert q * t == a;
    if q < lo {
      ProductPositive(lo - q, t, (lo - q) * t);
    }
    if q > hi {
      ProductPositive(q - hi, t, (q - hi) * t);
    }
  }

  lemma QuotientOfProduct(c: real, t: real)
    requires t != 0.0
    ensures (c * t) / t == c
  {
  }

  // ---------------------------------------------------------------------
  // Sums

  lemma {:induction false} TotalNonNegative(weights: seq<real>)
    requires NonNegative(weights)
    ensures Total(weights) >= 0.0
  {
    if |weights| > 0 {
      TotalNonNegative(weights[1..]);
    }
  }

  lemma {:induction false} WeightedTotalNonNegative(values: seq<real>, weights: seq<real>)
    requires |values| == |weights| && NonNegative(values) && NonNegative(weights)
    ensures WeightedTotal(values, weights) >= 0.0
  {
    if |values| > 0 {
      ProductNonNegative(weights[0], values[0], weights[0] * values[0]);
      WeightedTotalNonNegative(values[1..], weights[1..]);
    }
  }

  /** With non-negative weights, a weighted total of values in [lo, hi] lies in [lo * W, hi * W]. */
  lemma WeightedTotalBetween(values: seq<real>, weights: seq<real>, lo: real, hi: real)
    requires |values| == |weights| && NonNegative(weights)
    requires forall i :: 0 <= i < |values| ==> lo <= values[i] <= hi
    ensures lo * Total(weights) <= WeightedTotal(values, weights) <= hi * Total(weights)
  {
    WeightedTotalAtLeast(values, weights, lo);
    WeightedTotalAtMost(values, weights, hi);
  }

  lemma {:induction false} WeightedTotalAtLeast(values: seq<real>, weights: seq<real>, lo: real)
    requires |values| == |weights| && NonNegative(weights)
    requires forall i :: 0 <= i < |values| ==> lo <= values[i]
    ensures lo * Total(weights) <= WeightedTotal(values, weights)
  {
    if |values| == 0 {
      assert Total(weights) == 0.0;
    } else {
      WeightedTotalAtLeast(values[1..], weights[1..], lo);
      LowerStep(weights[0], values[0], lo, WeightedTotal(values[1..], weights[1..]), Total(weights[1..]), Total(weights));
    }
  }

  lemma {:induction false} WeightedTotalAtMost(values: seq<real>, weights: seq<real>, hi: real)
    requires |values| == |weights| && NonNegative(weights)
    requires forall i :: 0 <= i < |values| ==> values[i] <= hi
    ensures WeightedTotal(values, weights) <= hi * Total(weights)
  {
    if |values| == 0 {
      assert Total(weights) == 0.0;
    } else {
      WeightedTotalAtMost(values[1..], weights[1..], hi);
      UpperStep(weights[0], values[0], hi, WeightedTotal(values[1..], weights[1..]), Total(weights[1..]), Total(weights));
    }
  }

  lemma ShiftStep(w: real, x: real, c: real, d: real, rd: real, rv: real, rw: real, t: real)
    requires d == x - c && rd == rv - c * rw && t == w + rw
    ensures w * d + rd == (w * x + rv) - c * t
  {
  }

  /** Subtracting `c` from every value subtracts `c` times the total weight. */
  lemma WeightedTotalShift(values: seq<real>, weights: seq<real>, c: real)
    requires |values| == |weights|
    ensures WeightedTotal(Deviations(values, c, 1), weights) == WeightedTotal(values, weights) - c * Total(weights)
  {
    var d := Deviations(values, c, 1);
    forall i | 0 <= i < |values| ensures d[i] == values[i] - c {
      PowOne(values[i] - c);
    }
    ShiftedTotal(d, values, weights, c);
  }

  lemma {:induction false} ShiftedTotal(shifted: seq<real>, values: seq<real>, weights: seq<real>, c: real)
    requires |shifted| == |values| == |weights|
    requires forall i :: 0 <= i < |values| ==> shifted[i] == values[i] - c
    ensures WeightedTotal(shifted, weights) == WeightedTotal(values, weights) - c * Total(weights)
  {
    if |values| > 0 {
      ShiftedTotal(shifted[1..], values[1..], weights[1..], c);
      ShiftStep(weights[0], values[0], c, shifted[0],
                WeightedTotal(shifted[1..], weights[1..]), WeightedTotal(values[1..], weights[1..]), Total(weights[1..]),
                Total(weights));
    }
  }

  lemma {:induction false} NonNegativeSelect(s: seq<real>, mask: seq<bool>)
    requires |s| == |mask| && NonNegative(s)
    ensures NonNegative(Select(s, mask))
  {
    if |s| > 0 {
      NonNegativeSelect(s[1..], mask[1..]);
    }
  }

  // ---------------------------------------------------------------------
  // _average and moment

  /**
   * With non-negative weights the weighted mean lies between any lower and
   * upper bound of the values.
   */
  lemma AverageBetween(values: seq<real>, weights: seq<real>, lo: real, hi: real)
    requires NonNegative(weights) && Average(values, weights).Ok?
    requires forall i :: 0 <= i < |values| ==> lo <= values[i] <= hi
    ensures lo <= Average(values, weights).value <= hi
  {
    TotalNonNegative(weights);
    WeightedTotalBetween(values, weights, lo, hi);
    QuotientBetween(WeightedTotal(values, weights), Total(weights), lo, hi);
  }

  /** `_average` is the weighted mean: times the total weight it gives back the weighted sum. */
  lemma AverageIsWeightedMean(values: seq<real>, weights: seq<real>)
    requires Average(values, weights).Ok?
    ensures Average(values, weights).value * Total(weights) == WeightedTotal(values, weights)
  {
  }

  lemma CentralFirstMomentIsZero(values: seq<real>, weights: seq<real>)
    requires CentralMoment(values, weights, 1).Ok?
    ensures CentralMoment(values, weights, 1).value == 0.0
  {
    var t := Total(weights);
    var mean := Average(values, weights).value;
    assert mean * t == WeightedTotal(values, weights);
    WeightedTotalShift(values, weights, mean);
  }

  /** The first moment about the weighted mean is exactly zero, clipped or not. */
  lemma FirstMomentIsZero(values: seq<real>, weights: seq<real>, clip: Clipping)
    requires Moment(values, weights, 1, clip).Ok?
    ensures Moment(values, weights, 1, clip).value == 0.0
  {
    match clip
    case NoClip => CentralFirstMomentIsZero(values, weights);
    case SigmaClip(sigma, maxIter) =>
      var mask := ClippedMask(values, weights, sigma, maxIter).value;
      CentralFirstMomentIsZero(Select(values, mask), Select(weights, mask));
  }

  lemma CentralSecondMomentNonNegative(values: seq<real>, weights: seq<real>)
    requires NonNegative(weights) && CentralMoment(values, weights, 2).Ok?
    ensures CentralMoment(values, weights, 2).value >= 0.0
  {
    var mean := Average(values, weights).value;
    var d := Deviations(values, mean, 2);
    forall i | 0 <= i < |d| ensures d[i] >= 0.0 {
      PowTwo(values[i] - mean);
      SquareNonNegative(values[i] - mean);
    }
    WeightedTotalNonNegative(d, weights);
    TotalNonNegative(weights);
    QuotientNonNegative(WeightedTotal(d, weights), Total(weights));
  }

  /** `variance` is non-negative when the weights are, clipped or not. */
  lemma VarianceNonNegative(values: seq<real>, weights: seq<real>, clip: Clipping)
    requires NonNegative(weights) && Variance(values, weights, clip).Ok?
    ensures Variance(values, weights, clip).value >= 0.0
  {
    match clip
    case NoClip => CentralSecondMomentNonNegative(values, weights);
    case SigmaClip(sigma, maxIter) =>
      var mask := ClippedMask(values, weights, sigma, maxIter).value;
      NonNegativeSelect(weights, mask);
      CentralSecondMomentNonNegative(Select(values, mask), Select(weights, mask));
  }

  // ---------------------------------------------------------------------
  // _clipped_index1d

  /**
   * The squared clip test is the source's `|x - mean| < sigma * std` for the
   * standard deviation `s`, the non-negative root of the variance `v`.
   */
  lemma WithinSigmaIsClipTest(x: real, mean: real, v: real, sigma: real, s: real)
    requires IsRoot(s, v)
    ensures WithinSigma(x, mean, v, sigma) <==> Abs(x - mean) < sigma * s
  {
    var d := Abs(x - mean);
    SquareOfAbs(x - mean);
    SquareOfProduct(sigma, s);
    if sigma > 0.0 {
      ProductNonNegative(sigma, s, sigma * s);
      SquareMonotone(d, sigma * s);
    } else {
      ProductNonNegative(-sigma, s, -sigma * s);
    }
  }

  /**
   * When sigma clipping succeeds, the clipped moment is the plain moment of
   * the retained values, and the retained mask is a fixed point of one pass.
   */
  lemma ClippedMomentOnRetained(values: seq<real>, weights: seq<real>, order: nat, sigma: real, maxIter: nat)
    requires Moment(values, weights, order, SigmaClip(sigma, maxIter)).Ok?
    ensures ClippedMask(values, weights, sigma, maxIter).Ok?
    ensures var mask := ClippedMask(values, weights, sigma, maxIter).value;
            |mask| == |values| == |weights| && CountTrue(mask) > 0
            && ClipStep(values, weights, sigma, mask) == Ok(mask)
            && Moment(values, weights, order, SigmaClip(sigma, maxIter))
               == Moment(Select(values, mask), Select(weights, mask), order, NoClip)
  {
  }

  lemma {:induction false} SelectAll<T>(s: seq<T>)
    ensures Select(s, Trues(|s|)) == s
  {
    if |s| > 0 {
      assert Trues(|s|)[1..] == Trues(|s| - 1);
      SelectAll(s[1..]);
    }
  }

  lemma {:induction false} SelectedWithinSigma(values: seq<real>, mask: seq<bool>, mean: real, v: real, sigma: real)
    requires |values| == |mask|
    requires forall i :: 0 <= i < |values| && mask[i] ==> WithinSigma(values[i], mean, v, sigma)
    ensures forall j :: 0 <= j < |Select(values, mask)| ==> WithinSigma(Select(values, mask)[j], mean, v, sigma)
  {
    if |values| > 0 {
      SelectedWithinSigma(values[1..], mask[1..], mean, v, sigma);
    }
  }

  /**
   * Clipping is idempotent: clipping the retained values again, with the same
   * threshold, retains all of them after a single pass.
   */
  lemma ClipIdempotent(values: seq<real>, weights: seq<real>, sigma: real, maxIter: nat, fuel: nat)
    requires |values| > 0 && fuel >= 1
    requires ClippedMask(values, weights, sigma, maxIter).Ok?
    ensures var mask := ClippedMask(values, weights, sigma, maxIter).value;
            ClippedMask(Select(values, mask), Select(weights, mask), sigma, fuel) == Ok(Trues(CountTrue(mask)))
  {
    var mask := ClippedMask(values, weights, sigma, maxIter).value;
    var kept, keptWeights := Select(values, mask), Select(weights, mask);
    var mean := Average(kept, keptWeights).value;
    var v := CentralMoment(kept, keptWeights, 2).value;
    assert ClipStep(values, weights, sigma, mask) == Ok(mask);
    assert mask == seq(|values|, i requires 0 <= i < |values| => WithinSigma(values[i], mean, v, sigma));
    SelectedWithinSigma(values, mask, mean, v, sigma);
    var n := |kept|;
    SelectAll(kept);
    SelectAll(keptWeights);
    assert Average(kept, keptWeights) == Ok(mean);
    assert seq(n, j requires 0 <= j < n => WithinSigma(kept[j], mean, v, sigma)) == Trues(n);
    assert ClipStep(kept, keptWeights, sigma, Trues(n)) == Ok(Trues(n));
    assert Falses(n)[0] != Trues(n)[0];
    assert ClipIterate(kept, keptWeights, sigma, Trues(n), Trues(n), fuel - 1) == Ok(Trues(n));
    assert ClippedMask(kept, keptWeights, sigma, fuel)
        == ClipIterate(kept, keptWeights, sigma, Falses(n), Trues(n), fuel);
  }

  // ---------------------------------------------------------------------
  // Symmetric data

  /** Values mirror-symmetric about `c`, with mirror-equal weights. */
  ghost predicate SymmetricAbout(values: seq<real>, weights: seq<real>, c: real)
  {
    |values| == |weights| &&
    forall i :: 0 <= i < |values| ==>
      values[i] + values[|values| - 1 - i] == 2.0 * c && weights[i] == weights[|values| - 1 - i]
  }

  lemma {:induction false} OddPower(x: real, k: nat)
    requires k % 2 == 1
    ensures Pow(-x, k) == -Pow(x, k)
    decreases k
  {
    if k > 1 {
      OddPower(x, k - 2);
      assert Pow(-x, k) == (-x) * ((-x) * Pow(-x, k - 2));
      assert Pow(x, k) == x * (x * Pow(x, k - 2));
    }
  }

  lemma {:induction false} WeightedTotalLast(values: seq<real>, weights: seq<real>)
    requires |values| == |weights| > 0
    ensures WeightedTotal(values, weights)
            == WeightedTotal(values[..|values| - 1], weights[..|weights| - 1])
               + weights[|weights| - 1] * values[|values| - 1]
  {
    if |values| > 1 {
      WeightedTotalLast(values[1..], weights[1..]);
      assert values[1..][..|values| - 2] == values[..|values| - 1][1..];
      assert weights[1..][..|weights| - 2] == weights[..|weights| - 1][1..];
    }
  }

  /** On symmetric data the odd powers of the deviations from the centre cancel in pairs. */
  lemma SymmetricOddCancel(values: seq<real>, weights: seq<real>, c: real, k: nat)
    requires SymmetricAbout(values, weights, c) && k % 2 == 1
    ensures WeightedTotal(Deviations(values, c, k), weights) == 0.0
  {
    var n := |values|;
    var d := Deviations(values, c, k);
    forall i, j | 0 <= i < n && 0 <= j < n && i + j == n - 1
      ensures d[i] == -d[j] && weights[i] == weights[j]
    {
      assert j == n - 1 - i;
      assert values[j] - c == -(values[i] - c);
      OddPower(values[i] - c, k);
    }
    AntisymmetricCancel(d, weights);
  }

  /** Terms opposite at mirrored positions, under mirror-equal weights. */
  ghost predicate Antisymmetric(terms: seq<real>, weights: seq<real>)
  {
    |terms| == |weights| &&
    forall i, j :: 0 <= i < |terms| && 0 <= j < |terms| && i + j == |terms| - 1 ==>
      terms[i] == -terms[j] && weights[i] == weights[j]
  }

  /** Dropping both ends keeps the mirror relation; the ends themselves are a mirrored pair. */
  lemma AntisymmetricInner(terms: seq<real>, weights: seq<real>)
    requires Antisymmetric(terms, weights) && |terms| >= 2
    ensures Antisymmetric(terms[1..|terms| - 1], weights[1..|terms| - 1])
    ensures terms[0] == -terms[|terms| - 1] && weights[0] == weights[|terms| - 1]
  {
    var n := |terms|;
    var inner, innerWeights := terms[1..n - 1], weights[1..n - 1];
    forall i, j | 0 <= i < |inner| && 0 <= j < |inner| && i + j == |inner| - 1
      ensures inner[i] == -inner[j] && innerWeights[i] == innerWeights[j]
    {
      assert inner[i] == terms[i + 1] && inner[j] == terms[j + 1];
      assert innerWeights[i] == weights[i + 1] && innerWeights[j] == weights[j + 1];
      assert terms[i + 1] == -terms[j + 1] && weights[i + 1] == weights[j + 1];
    }
    assert terms[0] == -terms[n - 1] && weights[0] == weights[n - 1];
  }

  /** Terms that are opposite at mirrored positions, under mirror-equal weights, sum to zero. */
  lemma {:induction false} AntisymmetricCancel(terms: seq<real>, weights: seq<real>)
    requires Antisymmetric(terms, weights)
    ensures WeightedTotal(terms, weights) == 0.0
    decreases |terms|
  {
    var n := |terms|;
    if n == 1 {
      assert terms[0] == -terms[0];
    } else if n > 1 {
      var inner, innerWeights := terms[1..n - 1], weights[1..n - 1];
      AntisymmetricInner(terms, weights);
      AntisymmetricCancel(inner, innerWeights);
      assert terms[1..][..n - 2] == inner;
      assert weights[1..][..n - 2] == innerWeights;
      WeightedTotalLast(terms[1..], weights[1..]);
      PairCancel(weights[0], terms[0], weights[n - 1], terms[n - 1],
                 WeightedTotal(inner, innerWeights), WeightedTotal(terms[1..], weights[1..]));
    }
  }

  lemma PairCancel(w: real, x: real, wLast: real, xLast: real, inner: real, rest: real)
    requires wLast == w && x == -xLast && inner == 0.0 && rest == inner + wLast * xLast
    ensures w * x + rest == 0.0
  {
  }

  /** Symmetric data has its centre as weighted mean. */
  lemma SymmetricMean(values: seq<real>, weights: seq<real>, c: real)
    requires SymmetricAbout(values, weights, c) && Total(weights) != 0.0
    ensures Average(values, weights) == Ok(c)
  {
    SymmetricOddCancel(values, weights, c, 1);
    WeightedTotalShift(values, weights, c);
    assert WeightedTotal(values, weights) == c * Total(weights);
    QuotientOfProduct(c, Total(weights));
    assert WeightedTotal(values, weights) / Total(weights) == c;
  }

  /** Symmetric data has every odd central moment exactly zero. */
  lemma SymmetricOddMomentsVanish(values: seq<real>, weights: seq<real>, c: real, k: nat)
    requires SymmetricAbout(values, weights, c) && Total(weights) != 0.0 && k % 2 == 1
    ensures Moment(values, weights, k, NoClip) == Ok(0.0)
  {
    SymmetricMean(values, weights, c);
    SymmetricOddCancel(values, weights, c, k);
  }

  /** Symmetric data with a positive variance has skewness exactly zero. */
  lemma SymmetricSkewnessIsZero(values: seq<real>, weights: seq<real>, c: real, sqrt: real -> real)
    requires IsSquareRoot(sqrt)
    requires SymmetricAbout(values, weights, c) && Total(weights) != 0.0
    requires Variance(values, weights, NoClip).Ok? && Variance(values, weights, NoClip).value > 0.0
    ensures Skewness(values, weights, NoClip, sqrt) == Ok(Finite(0.0))
  {
    SymmetricOddMomentsVanish(values, weights, c, 3);
    var s := Std(values, weights, NoClip, sqrt).value;
    RootPositive(s.r, Variance(values, weights, NoClip).value);
    CubePositive(s.r);
  }
}
