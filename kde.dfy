/**
 * The reflected kernel density estimate: a wrapper around a Gaussian KDE that
 * drops non-finite samples when it is built and, when evaluated, adds mirror
 * images of the density across an optional lower and upper bound and zeroes
 * the result outside those bounds.
 *
 * The underlying Gaussian density (its kernel and bandwidth) belongs to the
 * wrapped library; here it is the parameter `base`, the density of the fitted
 * estimator at a point.
 */
module ReflectedKde {
  import opened Floats

  datatype KdeError =
    | NoValidData        // ValueError: no finite sample in the input
    | NotOneDimensional  // TypeError: reflection needs a one-dimensional dataset
    | TooFewPoints       // IndexError: `points[1]` does not exist

  /**
   * A fitted estimator. The dataset is stored as the wrapped library stores
   * it: `d` rows of `n` samples each (a one-dimensional input is one row).
   */
  datatype Kde = Kde(dataset: seq<seq<real>>)

  // ---------------------------------------------------------------------
  // Construction

  /** An input array: every row has the same length. */
  ghost predicate Rectangular<T>(rows: seq<seq<T>>)
  {
    forall i, j :: 0 <= i < |rows| && 0 <= j < |rows| ==> |rows[i]| == |rows[j]|
  }

  /** The entries of a two-dimensional array in row-major order. */
  function Flatten<T>(rows: seq<seq<T>>): seq<T>
  {
    if |rows| == 0 then [] else rows[0] + Flatten(rows[1..])
  }

  predicate AllFinite(xs: seq<Num>)
  {
    forall i :: 0 <= i < |xs| ==> xs[i].Finite?
  }

  /** The finite entries of `xs`, in their original order (boolean-mask indexing). */
  function FiniteValues(xs: seq<Num>): (r: seq<real>)
    ensures |r| <= |xs|
    ensures |r| == |xs| <==> AllFinite(xs)
  {
    if |xs| == 0 then []
    else if xs[0].Finite? then [xs[0].r] + FiniteValues(xs[1..])
    else FiniteValues(xs[1..])
  }

  /** `FiniteValues` keeps every finite entry and nothing else. */
  lemma {:induction false} FiniteValuesMembers(xs: seq<Num>)
    ensures forall x :: x in FiniteValues(xs) <==> Finite(x) in xs
  {
    if |xs| > 0 {
      FiniteValuesMembers(xs[1..]);
      assert xs == [xs[0]] + xs[1..];
    }
  }

  /** Filtering distributes over concatenation: no entry is lost, gained or moved. */
  lemma {:induction false} FiniteValuesAppend(a: seq<Num>, b: seq<Num>)
    ensures FiniteValues(a + b) == FiniteValues(a) + FiniteValues(b)
  {
    if |a| == 0 {
      assert a + b == b;
    } else {
      var head := if a[0].Finite? then [a[0].r] else [];
      assert (a + b)[0] == a[0] && (a + b)[1..] == a[1..] + b;
      assert FiniteValues(a + b) == head + FiniteValues(a[1..] + b);
      FiniteValuesAppend(a[1..], b);
      assert FiniteValues(a) == head + FiniteValues(a[1..]);
    }
  }

  /** Appending one entry appends its value exactly when it is finite. */
  lemma FiniteValuesSnoc(a: seq<Num>, x: Num)
    ensures FiniteValues(a + [x]) == FiniteValues(a) + (if x.Finite? then [x.r] else [])
  {
    FiniteValuesAppend(a, [x]);
  }

  /** The real values of a row whose entries are all finite. */
  function Reals(row: seq<Num>): (r: seq<real>)
    requires AllFinite(row)
    ensures |r| == |row|
    ensures forall j :: 0 <= j < |row| ==> row[j] == Finite(r[j])
  {
    seq(|row|, j requires 0 <= j < |row| => row[j].r)
  }

  /** The real values of an array whose entries are all finite, in the same shape. */
  function RealRows(data: seq<seq<Num>>): (r: seq<seq<real>>)
    requires forall i :: 0 <= i < |data| ==> AllFinite(data[i])
    ensures |r| == |data|
    ensures forall i :: 0 <= i < |data| ==> r[i] == Reals(data[i])
  {
    seq(|data|, i requires 0 <= i < |data| => Reals(data[i]))
  }

  lemma {:induction false} FlattenAllFinite(data: seq<seq<Num>>)
    ensures AllFinite(Flatten(data)) <==> forall i :: 0 <= i < |data| ==> AllFinite(data[i])
  {
    if |data| > 0 {
      FlattenAllFinite(data[1..]);
      var rest := Flatten(data[1..]);
      assert Flatten(data) == data[0] + rest;
      if AllFinite(Flatten(data)) {
        forall i | 0 <= i < |data| ensures AllFinite(data[i]) {
          if i == 0 {
            assert forall j :: 0 <= j < |data[0]| ==> data[0][j] == Flatten(data)[j];
          } else {
            assert AllFinite(rest) by {
              assert forall j :: 0 <= j < |rest| ==> rest[j] == Flatten(data)[|data[0]| + j];
            }
            assert data[i] == data[1..][i - 1];
          }
        }
      }
    }
  }

  lemma {:induction false} FiniteValuesOfRealRows(data: seq<seq<Num>>)
    requires forall i :: 0 <= i < |data| ==> AllFinite(data[i])
    ensures Flatten(RealRows(data)) == FiniteValues(Flatten(data))
  {
    if |data| > 0 {
      FiniteValuesOfRealRows(data[1..]);
      assert RealRows(data)[1..] == RealRows(data[1..]);
      FiniteValuesOfFiniteRow(data[0], Flatten(data[1..]));
    }
  }

  lemma {:induction false} FiniteValuesOfFiniteRow(row: seq<Num>, rest: seq<Num>)
    requires AllFinite(row)
    ensures FiniteValues(row + rest) == Reals(row) + FiniteValues(rest)
  {
    if |row| > 0 {
      FiniteValuesOfFiniteRow(row[1..], rest);
      assert (row + rest)[1..] == row[1..] + rest;
      assert FiniteValues(row + rest) == [row[0].r] + FiniteValues(row[1..] + rest);
      assert Reals(row) == [row[0].r] + Reals(row[1..]);
    } else {
      assert row + rest == rest;
    }
  }

  /**
   * `KDE.__init__`. An all-finite array is kept as it is; otherwise boolean
   * indexing keeps the finite entries as one flat row. No finite entry at all
   * is a `ValueError`.
   */
  function Fit(data: seq<seq<Num>>): (r: Result<Kde, KdeError>)
    requires Rectangular(data)
    ensures r.Err? <==> FiniteValues(Flatten(data)) == []
    ensures r.Err? ==> r.error == NoValidData
    ensures r.Ok? ==> Flatten(r.value.dataset) == FiniteValues(Flatten(data))
    ensures r.Ok? && AllFinite(Flatten(data)) ==>
              |r.value.dataset| == |data|
              && (forall i :: 0 <= i < |data| ==> |r.value.dataset[i]| == |data[i]|)
              && forall i, j :: 0 <= i < |data| && 0 <= j < |data[i]| ==> data[i][j] == Finite(r.value.dataset[i][j])
    ensures r.Ok? && !AllFinite(Flatten(data)) ==> |r.value.dataset| == 1
  {
    var flat := Flatten(data);
    if AllFinite(flat) then
      FlattenAllFinite(data);
      FiniteValuesOfRealRows(data);
      if |flat| == 0 then Err(NoValidData) else Ok(Kde(RealRows(data)))
    else
      var kept := FiniteValues(flat);
      if |kept| == 0 then Err(NoValidData)
      else
        assert Flatten([kept]) == kept + Flatten([kept][1..]);
        Ok(Kde([kept]))
  }

  // ---------------------------------------------------------------------
  // Evaluation

  /**
   * The number of dimensions of the dataset once axes of length one are
   * squeezed out: one for the rows axis unless there is exactly one row, one
   * for the samples axis unless there is exactly one sample.
   */
  function SqueezedDims(kde: Kde): (r: nat)
    ensures r <= 2
    ensures r > 1 <==> |kde.dataset| != 1 && (|kde.dataset| == 0 || |kde.dataset[0]| != 1)
  {
    var d := |kde.dataset|;
    var n := if d == 0 then 0 else |kde.dataset[0]|;
    (if d == 1 then 0 else 1) + (if n == 1 then 0 else 1)
  }

  /** The tolerance beyond a bound within which points are not zeroed: a thousandth of the bin width. */
  function Tolerance(binsize: real): (r: real)
    ensures binsize > 0.0 ==> 0.0 < r < binsize
    ensures binsize == 0.0 ==> r == 0.0
    ensures binsize < 0.0 ==> binsize < r < 0.0
  {
    0.001 * binsize
  }

  /** The density plus its mirror images across the bounds that are given. */
  function ReflectedSum(base: real -> real, p: real, lower: Option<real>, upper: Option<real>, binsize: real): real
  {
    base(p) + LowerImage(base, p, lower, binsize) + UpperImage(base, p, upper, binsize)
  }

  /** The density at the mirror image of `p` across the lower bound, moved down by one bin; zero without a bound. */
  function LowerImage(base: real -> real, p: real, lower: Option<real>, binsize: real): real
  {
    if lower.Some? then base(2.0 * lower.value - p - binsize) else 0.0
  }

  /** The density at the mirror image of `p` across the upper bound, moved up by one bin; zero without a bound. */
  function UpperImage(base: real -> real, p: real, upper: Option<real>, binsize: real): real
  {
    if upper.Some? then base(2.0 * upper.value - p + binsize) else 0.0
  }

  /** The density evaluated at each of `xs`. */
  function Densities(base: real -> real, xs: seq<real>): (r: seq<real>)
    ensures |r| == |xs| && forall k :: 0 <= k < |xs| ==> r[k] == base(xs[k])
  {
    seq(|xs|, k requires 0 <= k < |xs| => base(xs[k]))
  }

  /** The points mirrored across the lower bound `low`, moved down by one bin. */
  function BelowImages(points: seq<real>, low: real, binsize: real): (r: seq<real>)
    ensures |r| == |points| && forall k :: 0 <= k < |points| ==> r[k] == 2.0 * low - points[k] - binsize
  {
    seq(|points|, k requires 0 <= k < |points| => 2.0 * low - points[k] - binsize)
  }

  /** The points mirrored across the upper bound `high`, moved up by one bin. */
  function AboveImages(points: seq<real>, high: real, binsize: real): (r: seq<real>)
    ensures |r| == |points| && forall k :: 0 <= k < |points| ==> r[k] == 2.0 * high - points[k] + binsize
  {
    seq(|points|, k requires 0 <= k < |points| => 2.0 * high - points[k] + binsize)
  }

  /** A point lies below the lower bound or above the upper bound, beyond the tolerance. */
  predicate OutOfBounds(p: real, lower: Option<real>, upper: Option<real>, delta: real)
  {
    (lower.Some? && p < lower.value - delta) || (upper.Some? && p > upper.value + delta)
  }

  /** The reflected density at one point: zero out of bounds, the reflected sum elsewhere. */
  function ReflectedDensity(base: real -> real, p: real, lower: Option<real>, upper: Option<real>, binsize: real): (r: real)
    ensures OutOfBounds(p, lower, upper, Tolerance(binsize)) ==> r == 0.0
    ensures !OutOfBounds(p, lower, upper, Tolerance(binsize)) ==> r == ReflectedSum(base, p, lower, upper, binsize)
  {
    if OutOfBounds(p, lower, upper, Tolerance(binsize)) then 0.0 else ReflectedSum(base, p, lower, upper, binsize)
  }

  /** `a += terms`: numpy's in-place addition of an array of the same shape. */
  method AddInPlace(a: array<real>, terms: seq<real>)
    requires a.Length == |terms|
    modifies a
    ensures forall k :: 0 <= k < a.Length ==> a[k] == old(a[k]) + terms[k]
  {
    for k := 0 to a.Length
      invariant forall j :: 0 <= j < k ==> a[j] == old(a[j]) + terms[j]
      invariant forall j :: k <= j < a.Length ==> a[j] == old(a[j])
    {
      a[k] := a[k] + terms[k];
    }
  }

  /** `a[mask] = 0.0`: numpy's in-place assignment through a boolean mask. */
  method ZeroWhere(a: array<real>, mask: seq<bool>)
    requires a.Length == |mask|
    modifies a
    ensures forall k :: 0 <= k < a.Length ==> a[k] == (if mask[k] then 0.0 else old(a[k]))
  {
    for k := 0 to a.Length
      invariant forall j :: 0 <= j < k ==> a[j] == (if mask[j] then 0.0 else old(a[j]))
      invariant forall j :: k <= j < a.Length ==> a[j] == old(a[j])
    {
      if mask[k] {
        a[k] := 0.0;
      }
    }
  }

  /**
   * The `pdf` array of `KDE.evaluate`: the base density at the points, to
   * which each given bound adds, in place, the density at the mirrored points.
   */
  method ReflectedPdf(points: seq<real>, lower: Option<real>, upper: Option<real>, base: real -> real, binsize: real)
    returns (pdf: array<real>)
    ensures fresh(pdf) && pdf.Length == |points|
    ensures forall k :: 0 <= k < |points| ==> pdf[k] == ReflectedSum(base, points[k], lower, upper, binsize)
  {
    var n := |points|;
    var direct := Densities(base, points);
    pdf := new real[n](k requires 0 <= k < n => direct[k]);
    AddLowerImages(pdf, points, lower, base, binsize);
    AddUpperImages(pdf, points, upper, base, binsize);
  }

  /** `pdf += base(2 * lower - points - binsize)` when a lower bound is given. */
  method AddLowerImages(pdf: array<real>, points: seq<real>, lower: Option<real>, base: real -> real, binsize: real)
    requires pdf.Length == |points|
    modifies pdf
    ensures forall k :: 0 <= k < |points| ==> pdf[k] == old(pdf[k]) + LowerImage(base, points[k], lower, binsize)
  {
    if lower.Some? {
      AddInPlace(pdf, Densities(base, BelowImages(points, lower.value, binsize)));
    }
  }

  /** `pdf += base(2 * upper - points + binsize)` when an upper bound is given. */
  method AddUpperImages(pdf: array<real>, points: seq<real>, upper: Option<real>, base: real -> real, binsize: real)
    requires pdf.Length == |points|
    modifies pdf
    ensures forall k :: 0 <= k < |points| ==> pdf[k] == old(pdf[k]) + UpperImage(base, points[k], upper, binsize)
  {
    if upper.Some? {
      AddInPlace(pdf, Densities(base, AboveImages(points, upper.value, binsize)));
    }
  }

  /**
   * The `normalization` array of `KDE.evaluate`: ones, zeroed in place below
   * the lower bound and above the upper bound, beyond the tolerance `delta`.
   */
  method Normalization(points: seq<real>, lower: Option<real>, upper: Option<real>, delta: real)
    returns (normalization: array<real>)
    ensures fresh(normalization) && normalization.Length == |points|
    ensures forall k :: 0 <= k < |points| ==>
              normalization[k] == (if OutOfBounds(points[k], lower, upper, delta) then 0.0 else 1.0)
  {
    var n := |points|;
    normalization := new real[n](_ => 1.0);
    if lower.Some? {
      var low := lower.value;
      ZeroWhere(normalization, seq(n, k requires 0 <= k < n => points[k] < low - delta));
    }
    ghost var lowered := normalization[..];
    if upper.Some? {
      var high := upper.value;
      ZeroWhere(normalization, seq(n, k requires 0 <= k < n => points[k] > high + delta));
    }
    forall k | 0 <= k < n
      ensures normalization[k] == (if OutOfBounds(points[k], lower, upper, delta) then 0.0 else 1.0)
    {
      assert lowered[k] == (if lower.Some? && points[k] < lower.value - delta then 0.0 else 1.0);
    }
  }

  /**
   * `KDE.evaluate`, which is also what calling the object does: the product
   * of the reflected `pdf` and the `normalization` mask.
   */
  method Evaluate(kde: Kde, points: seq<real>, lower: Option<real>, upper: Option<real>, base: real -> real)
    returns (r: Result<seq<real>, KdeError>)
    ensures SqueezedDims(kde) > 1 ==> r == Err(NotOneDimensional)
    ensures SqueezedDims(kde) <= 1 && |points| < 2 ==> r == Err(TooFewPoints)
    ensures r.Ok? <==> SqueezedDims(kde) <= 1 && |points| >= 2
    ensures r.Ok? ==> |r.value| == |points|
    ensures r.Ok? ==> forall k :: 0 <= k < |points| ==>
              r.value[k] == ReflectedDensity(base, points[k], lower, upper, points[1] - points[0])
  {
    if SqueezedDims(kde) > 1 {
      return Err(NotOneDimensional);
    }
    if |points| < 2 {
      return Err(TooFewPoints);
    }
    var binsize := points[1] - points[0];
    var delta := Tolerance(binsize);
    var pdf := ReflectedPdf(points, lower, upper, base, binsize);
    var normalization := Normalization(points, lower, upper, delta);
    r := Ok(seq(|points|, k requires 0 <= k < |points| reads pdf, normalization => pdf[k] * normalization[k]));
  }

  // ---------------------------------------------------------------------
  // Properties of the reflected density

  /** With neither bound given, the reflected density is the base density. */
  lemma UnboundedIsBase(base: real -> real, p: real, binsize: real)
    ensures ReflectedDensity(base, p, None, None, binsize) == base(p)
  {
  }

  /**
   * Points inside the bounds, up to the tolerance, get the density plus the
   * mirror terms of the bounds that are given.
   */
  lemma InsideBoundsIsReflectedSum(base: real -> real, p: real, lower: Option<real>, upper: Option<real>, binsize: real)
    requires lower.Some? ==> p >= lower.value - Tolerance(binsize)
    requires upper.Some? ==> p <= upper.value + Tolerance(binsize)
    ensures ReflectedDensity(base, p, lower, upper, binsize) == ReflectedSum(base, p, lower, upper, binsize)
  {
  }

  /**
   * The lower mirror term is the density at the reflection of `p` about the
   * point half a bin below the lower bound; reflecting twice gives `p` back.
   */
  lemma LowerMirrorIsReflection(base: real -> real, p: real, low: real, binsize: real)
    ensures var mirror := 2.0 * low - p - binsize;
            mirror + p == 2.0 * (low - binsize / 2.0)
            && 2.0 * low - mirror - binsize == p
            && ReflectedSum(base, p, Some(low), None, binsize) == base(p) + base(mirror)
  {
  }

  /** The upper mirror term is the density at the reflection of `p` about the point half a bin above the upper bound. */
  lemma UpperMirrorIsReflection(base: real -> real, p: real, high: real, binsize: real)
    ensures var mirror := 2.0 * high - p + binsize;
            mirror + p == 2.0 * (high + binsize / 2.0)
            && 2.0 * high - mirror + binsize == p
            && ReflectedSum(base, p, None, Some(high), binsize) == base(p) + base(mirror)
  {
  }

  /** A non-negative base density gives a non-negative reflected density. */
  lemma ReflectedDensityNonNegative(base: real -> real, p: real, lower: Option<real>, upper: Option<real>, binsize: real)
    requires forall x :: base(x) >= 0.0
    ensures ReflectedDensity(base, p, lower, upper, binsize) >= 0.0
  {
  }

  /**
   * With both bounds given, every point at which the result is not zero lies
   * within the bounds widened by the tolerance.
   */
  lemma NonZeroWithinBounds(base: real -> real, p: real, low: real, high: real, binsize: real)
    requires ReflectedDensity(base, p, Some(low), Some(high), binsize) != 0.0
    ensures low - Tolerance(binsize) <= p <= high + Tolerance(binsize)
  {
  }
}
