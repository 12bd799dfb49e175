/**
 * Miscellaneous array helpers: the indices and the values of a list nearest
 * to a given value, and the affine rescaling of an array onto a target
 * interval.
 */
module Misc {
  import opened Floats

  // ---------------------------------------------------------------------
  // Ordering indices by a key (the argsort the helpers rely on)

  ghost predicate ValidIndices(s: seq<nat>, n: nat)
  {
    forall k :: 0 <= k < |s| ==> s[k] < n
  }

  ghost predicate Distinct(s: seq<nat>)
  {
    forall a, b :: 0 <= a < b < |s| ==> s[a] != s[b]
  }

  /** The keys of the indices in `s` never decrease. */
  ghost predicate SortedBy(keys: seq<real>, s: seq<nat>)
    requires ValidIndices(s, |keys|)
  {
    forall a, b :: 0 <= a < b < |s| ==> keys[s[a]] <= keys[s[b]]
  }

  /** Inserts index `i` into the key-sorted index list `s`, after every index with a key no larger. */
  function Insert(keys: seq<real>, i: nat, s: seq<nat>): (r: seq<nat>)
    requires i < |keys| && ValidIndices(s, |keys|) && SortedBy(keys, s)
    ensures |r| == |s| + 1
    ensures ValidIndices(r, |keys|)
    ensures forall j :: j in r <==> j == i || j in s
    ensures SortedBy(keys, r)
    ensures i !in s && Distinct(s) ==> Distinct(r)
  {
    if |s| == 0 then [i]
    else if keys[i] < keys[s[0]] then [i] + s
    else
      var rest := Insert(keys, i, s[1..]);
      HeadBelowRest(keys, i, s, rest);
      ConsSorted(keys, s[0], rest);
      assert i !in s && Distinct(s) ==> Distinct([s[0]] + rest) by {
        if i !in s && Distinct(s) {
          assert s[0] in s && s[0] !in s[1..];
          assert Distinct(s[1..]);
          ConsDistinct(s[0], rest);
        }
      }
      assert s == [s[0]] + s[1..];
      [s[0]] + rest
  }

  /** Every index of a key-sorted list, and the inserted one, has a key at least the head's. */
  lemma HeadBelowRest(keys: seq<real>, i: nat, s: seq<nat>, rest: seq<nat>)
    requires |s| > 0 && i < |keys| && ValidIndices(s, |keys|) && SortedBy(keys, s)
    requires keys[s[0]] <= keys[i] && ValidIndices(rest, |keys|)
    requires forall j :: j in rest <==> j == i || j in s[1..]
    ensures forall k :: 0 <= k < |rest| ==> keys[s[0]] <= keys[rest[k]]
  {
    forall k | 0 <= k < |rest| ensures keys[s[0]] <= keys[rest[k]] {
      assert rest[k] in rest;
      if rest[k] != i {
        var q :| 0 <= q < |s[1..]| && s[1..][q] == rest[k];
        assert s[q + 1] == rest[k];
      }
    }
  }

  lemma ConsSorted(keys: seq<real>, x: nat, rest: seq<nat>)
    requires x < |keys| && ValidIndices(rest, |keys|) && SortedBy(keys, rest)
    requires forall k :: 0 <= k < |rest| ==> keys[x] <= keys[rest[k]]
    ensures ValidIndices([x] + rest, |keys|) && SortedBy(keys, [x] + rest)
  {
    var r := [x] + rest;
    forall a, b | 0 <= a < b < |r| ensures keys[r[a]] <= keys[r[b]] {
      if a > 0 {
        assert r[a] == rest[a - 1] && r[b] == rest[b - 1];
      }
    }
  }

  lemma ConsDistinct(x: nat, rest: seq<nat>)
    requires x !in rest && Distinct(rest)
    ensures Distinct([x] + rest)
  {
    var r := [x] + rest;
    forall a, b | 0 <= a < b < |r| ensures r[a] != r[b] {
      if a == 0 {
        assert r[b] in rest;
      } else {
        assert r[a] == rest[a - 1] && r[b] == rest[b - 1];
      }
    }
  }

  /** The indices `0 .. n-1` ordered by key. */
  function ArgSortPrefix(keys: seq<real>, n: nat): (r: seq<nat>)
    requires n <= |keys|
    ensures |r| == n
    ensures ValidIndices(r, |keys|)
    ensures forall j: nat :: j in r <==> j < n
    ensures Distinct(r)
    ensures SortedBy(keys, r)
  {
    if n == 0 then [] else Insert(keys, n - 1, ArgSortPrefix(keys, n - 1))
  }

  /**
   * `np.argsort`: a permutation of the indices of `keys` along which the keys
   * never decrease. Ties may come out in any order in numpy, so only this
   * ordering relation is relied upon.
   */
  function ArgSort(keys: seq<real>): (r: seq<nat>)
    ensures |r| == |keys|
    ensures ValidIndices(r, |keys|) && Distinct(r)
    ensures forall j: nat :: j in r <==> j < |keys|
    ensures SortedBy(keys, r)
  {
    ArgSortPrefix(keys, |keys|)
  }

  // ---------------------------------------------------------------------
  // get_argnearest and get_nearest

  /** The length of `a[:num]` for an array of length `n`; a negative `num` counts from the end. */
  function SliceLength(n: nat, num: int): (r: nat)
    ensures r <= n
    ensures 0 <= num <= n ==> r == num
    ensures num > n ==> r == n
    ensures num < 0 && n + num >= 0 ==> r == n + num
    ensures n + num < 0 ==> r == 0
  {
    if num >= 0 then (if num < n then num else n)
    else if n + num > 0 then n + num
    else 0
  }

  /** `np.array(value_list) - value`. */
  function Differences(valueList: seq<real>, value: real): (r: seq<real>)
    ensures |r| == |valueList|
  {
    seq(|valueList|, i requires 0 <= i < |valueList| => valueList[i] - value)
  }

  /** `np.abs(diff)`: how far each element is from `value`. */
  function Distances(valueList: seq<real>, value: real): (r: seq<real>)
    ensures |r| == |valueList|
    ensures forall i :: 0 <= i < |r| ==> r[i] == Abs(valueList[i] - value)
  {
    seq(|valueList|, i requires 0 <= i < |valueList| => Abs(Differences(valueList, value)[i]))
  }

  /**
   * In a key-sorted permutation of all indices, the indices of any prefix
   * have keys no larger than the key of any index left out of it.
   */
  lemma PrefixIsSmallest(keys: seq<real>, order: seq<nat>, len: nat)
    requires ValidIndices(order, |keys|) && SortedBy(keys, order)
    requires forall j: nat :: j in order <==> j < |keys|
    requires len <= |order|
    ensures forall i, k :: 0 <= i < |keys| && i !in order[..len] && 0 <= k < len ==> keys[order[k]] <= keys[i]
  {
    forall i, k | 0 <= i < |keys| && i !in order[..len] && 0 <= k < len
      ensures keys[order[k]] <= keys[i]
    {
      assert i in order;
      var p :| 0 <= p < |order| && order[p] == i;
    }
  }

  /**
   * `get_argnearest`: the first `num` indices of `value_list` in order of
   * distance from `value`.
   */
  function GetArgNearest(value: real, valueList: seq<real>, num: int): (r: seq<nat>)
    ensures |r| == SliceLength(|valueList|, num)
    ensures ValidIndices(r, |valueList|) && Distinct(r)
    ensures forall a, b :: 0 <= a < b < |r| ==>
              Abs(valueList[r[a]] - value) <= Abs(valueList[r[b]] - value)
    ensures forall i, k :: 0 <= i < |valueList| && i !in r && 0 <= k < |r| ==>
              Abs(valueList[r[k]] - value) <= Abs(valueList[i] - value)
  {
    var order := ArgSort(Distances(valueList, value));
    NearestFirst(value, valueList, order, SliceLength(|valueList|, num));
    order[..SliceLength(|valueList|, num)]
  }

  /** A prefix of the indices sorted by distance holds the nearest elements, nearest first. */
  lemma NearestFirst(value: real, valueList: seq<real>, order: seq<nat>, len: nat)
    requires order == ArgSort(Distances(valueList, value)) && len <= |order|
    ensures ValidIndices(order[..len], |valueList|) && Distinct(order[..len])
    ensures forall a, b :: 0 <= a < b < len ==>
              Abs(valueList[order[..len][a]] - value) <= Abs(valueList[order[..len][b]] - value)
    ensures forall i, k :: 0 <= i < |valueList| && i !in order[..len] && 0 <= k < len ==>
              Abs(valueList[order[..len][k]] - value) <= Abs(valueList[i] - value)
  {
    var keys := Distances(valueList, value);
    var prefix := order[..len];
    assert forall k :: 0 <= k < len ==> prefix[k] == order[k];
    PrefixIsSmallest(keys, order, len);
  }

  /**
   * `get_nearest`: the elements of `value_list` at the indices chosen by
   * `get_argnearest`, computed as `diff + value`.
   */
  function GetNearest(value: real, valueList: seq<real>, num: int): (r: seq<real>)
    ensures |r| == SliceLength(|valueList|, num)
    ensures forall k :: 0 <= k < |r| ==> r[k] == valueList[GetArgNearest(value, valueList, num)[k]]
    ensures forall a, b :: 0 <= a < b < |r| ==> Abs(r[a] - value) <= Abs(r[b] - value)
  {
    var diff := Differences(valueList, value);
    var idx := GetArgNearest(value, valueList, num);
    seq(|idx|, k requires 0 <= k < |idx| => diff[idx[k]] + value)
  }

  /**
   * Every element of `value_list` left out by `get_nearest` is at least as far
   * from `value` as every element it returns.
   */
  lemma NearestAreClosest(value: real, valueList: seq<real>, num: int, i: nat)
    requires i < |valueList| && i !in GetArgNearest(value, valueList, num)
    ensures forall k :: 0 <= k < |GetNearest(value, valueList, num)| ==>
              Abs(GetNearest(value, valueList, num)[k] - value) <= Abs(valueList[i] - value)
  {
  }

  /** With `num` no larger than the list, exactly `num` indices come back; with more, all of them. */
  lemma ArgNearestCount(value: real, valueList: seq<real>, num: nat)
    ensures |GetArgNearest(value, valueList, num)| == if num <= |valueList| then num else |valueList|
    ensures num >= |valueList| ==> forall j: nat :: j < |valueList| ==> j in GetArgNearest(value, valueList, num)
  {
    if num >= |valueList| {
      var keys := Distances(valueList, value);
      assert GetArgNearest(value, valueList, num) == ArgSort(keys)[..|valueList|];
      assert ArgSort(keys)[..|valueList|] == ArgSort(keys);
    }
  }

  // ---------------------------------------------------------------------
  // scale

  datatype ScaleError = EmptyInput  // ValueError: nanmin of a zero-size array

  /**
   * `np.nanmin`: the least non-NaN entry, or NaN when every entry is NaN.
   * numpy raises ValueError on an empty array instead; here the empty
   * sequence gives NaN, and `Scale` rejects empty input before calling this.
   */
  function NanMinimum(xs: seq<Num>): (r: Num)
    ensures r.NaN? <==> forall i :: 0 <= i < |xs| ==> xs[i].NaN?
    ensures !r.NaN? ==> r in xs
    ensures !r.NaN? ==> forall i :: 0 <= i < |xs| && !xs[i].NaN? ==> AtMost(r, xs[i])
  {
    if |xs| == 0 then NaN
    else
      var rest := NanMinimum(xs[1..]);
      if xs[0].NaN? then rest
      else if rest.NaN? || AtMost(xs[0], rest) then xs[0]
      else rest
  }

  /**
   * `np.nanmax`: the greatest non-NaN entry, or NaN when every entry is NaN.
   * As with `NanMinimum`, the empty sequence gives NaN where numpy raises.
   */
  function NanMaximum(xs: seq<Num>): (r: Num)
    ensures r.NaN? <==> forall i :: 0 <= i < |xs| ==> xs[i].NaN?
    ensures !r.NaN? ==> r in xs
    ensures !r.NaN? ==> forall i :: 0 <= i < |xs| && !xs[i].NaN? ==> AtMost(xs[i], r)
  {
    if |xs| == 0 then NaN
    else
      var rest := NanMaximum(xs[1..]);
      if xs[0].NaN? then rest
      else if rest.NaN? || AtMost(rest, xs[0]) then xs[0]
      else rest
  }

  /** One entry of `(ndarray - vmin) / (vmax - vmin) * (scale[1] - scale[0]) + scale[0]`. */
  function Rescale(x: Num, vmin: Num, vmax: Num, lo: real, hi: real): (r: Num)
    ensures x.NaN? || vmin.NaN? || vmax.NaN? ==> r.NaN?
    ensures x.Finite? && vmin.Finite? && vmax.Finite? ==> (r.Finite? <==> vmax.r != vmin.r)
    ensures vmin.Finite? && vmax.Finite? && vmax.r != vmin.r && x == vmin ==> r == Finite(lo)
    ensures vmin.Finite? && vmax.Finite? && vmax.r != vmin.r && x == vmax ==> r == Finite(hi)
  {
    Add(Mul(Div(Sub(x, vmin), Sub(vmax, vmin)), Finite(hi - lo)), Finite(lo))
  }

  /**
   * `scale`, with `scale[0]` as `lo` and `scale[1]` as `hi`. An empty array
   * is an error; NaN entries are ignored when finding the extremes and stay
   * NaN in the result.
   */
  function Scale(xs: seq<Num>, lo: real, hi: real): (r: Result<seq<Num>, ScaleError>)
    ensures r.Err? <==> |xs| == 0
    ensures r.Ok? ==> |r.value| == |xs|
    ensures r.Ok? ==> forall i :: 0 <= i < |xs| && xs[i].NaN? ==> r.value[i].NaN?
    ensures r.Ok? && (forall i :: 0 <= i < |xs| ==> xs[i].NaN?) ==>
              forall i :: 0 <= i < |xs| ==> r.value[i].NaN?
  {
    if |xs| == 0 then Err(EmptyInput)
    else
      var vmin, vmax := NanMinimum(xs), NanMaximum(xs);
      Ok(seq(|xs|, i requires 0 <= i < |xs| => Rescale(xs[i], vmin, vmax, lo, hi)))
  }

  ghost predicate NoInfinity(xs: seq<Num>)
  {
    forall i :: 0 <= i < |xs| ==> !xs[i].Inf?
  }

  /**
   * The data on which `scale` is an honest affine map: no infinite entry, at
   * least one finite one, and a minimum different from the maximum.
   */
  ghost predicate Spread(xs: seq<Num>)
  {
    NoInfinity(xs) && NanMinimum(xs).Finite? && NanMaximum(xs).Finite? && NanMinimum(xs).r < NanMaximum(xs).r
  }

  /** Without infinite entries and with one finite entry, the extremes are finite and ordered. */
  lemma ExtremesFinite(xs: seq<Num>, i: nat)
    requires NoInfinity(xs) && i < |xs| && xs[i].Finite?
    ensures NanMinimum(xs).Finite? && NanMaximum(xs).Finite?
    ensures NanMinimum(xs).r <= xs[i].r <= NanMaximum(xs).r
  {
  }

  // The affine map on finite values, and its arithmetic over plain reals

  /** `(x - min) / (max - min) * (hi - lo) + lo`. */
  function Affine(x: real, m: real, top: real, lo: real, hi: real): real
    requires m != top
  {
    (x - m) / (top - m) * (hi - lo) + lo
  }

  /** The inverse map, from a scaled value back to the data. */
  function Unaffine(y: real, m: real, top: real, lo: real, hi: real): real
    requires lo != hi
  {
    m + (y - lo) / (hi - lo) * (top - m)
  }

  function Slope(m: real, top: real, lo: real, hi: real): real
    requires m != top
  {
    (hi - lo) / (top - m)
  }

  /** The straight line `x -> slope * x + intercept`. */
  function Line(slope: real, intercept: real, x: real): real
  {
    slope * x + intercept
  }

  function Intercept(m: real, top: real, lo: real, hi: real): real
    requires m != top
  {
    lo - m * Slope(m, top, lo, hi)
  }

  lemma AffineEndpoints(m: real, top: real, lo: real, hi: real)
    requires m != top
    ensures Affine(m, m, top, lo, hi) == lo
    ensures Affine(top, m, top, lo, hi) == hi
  {
    assert (top - m) / (top - m) == 1.0;
  }

  lemma AffineForm(x: real, m: real, top: real, lo: real, hi: real)
    requires m != top
    ensures Affine(x, m, top, lo, hi) == Line(Slope(m, top, lo, hi), Intercept(m, top, lo, hi), x)
  {
    var span, width := top - m, hi - lo;
    var t, slope := (x - m) / span, width / span;
    assert t * span == x - m;
    assert slope * span == width;
    assert (t * width) * span == (slope * (x - m)) * span;
  }

  lemma AffineMonotone(x: real, y: real, m: real, top: real, lo: real, hi: real)
    requires m < top && lo <= hi && x <= y
    ensures Affine(x, m, top, lo, hi) <= Affine(y, m, top, lo, hi)
  {
    var span, width := top - m, hi - lo;
    var s, t := (x - m) / span, (y - m) / span;
    assert (t - s) * span == y - x;
    if t < s {
      ProductPositive(s - t, span, (s - t) * span);
    }
    ProductNonNegative(t - s, width, (t - s) * width);
  }

  lemma AffineRoundTrip(x: real, m: real, top: real, lo: real, hi: real)
    requires m != top && lo != hi
    ensures Unaffine(Affine(x, m, top, lo, hi), m, top, lo, hi) == x
  {
    var span, width := top - m, hi - lo;
    var t := (x - m) / span;
    assert t * span == x - m;
    assert (t * width) / width == t;
  }

  lemma RescaleFinite(x: real, m: real, top: real, lo: real, hi: real)
    requires m != top
    ensures Rescale(Finite(x), Finite(m), Finite(top), lo, hi) == Finite(Affine(x, m, top, lo, hi))
  {
    var d := Sub(Finite(x), Finite(m));
    var span := Sub(Finite(top), Finite(m));
    assert d == Finite(x - m) && span == Finite(top - m);
    var t := (x - m) / (top - m);
    assert Div(d, span) == Finite(t);
    var stretched := t * (hi - lo);
    assert Mul(Finite(t), Finite(hi - lo)) == Finite(stretched);
    assert Add(Finite(stretched), Finite(lo)) == Finite(stretched + lo);
  }

  // Properties of scale on data with a spread

  /** A finite entry is sent to `lo + (x - min) / (max - min) * (hi - lo)`. */
  lemma ScaleFinite(xs: seq<Num>, lo: real, hi: real, i: nat)
    requires Spread(xs) && i < |xs| && xs[i].Finite?
    ensures Scale(xs, lo, hi).Ok?
    ensures Scale(xs, lo, hi).value[i] == Finite(Affine(xs[i].r, NanMinimum(xs).r, NanMaximum(xs).r, lo, hi))
  {
    var m, top := NanMinimum(xs), NanMaximum(xs);
    assert Scale(xs, lo, hi).value[i] == Rescale(xs[i], m, top, lo, hi);
    RescaleFinite(xs[i].r, m.r, top.r, lo, hi);
  }

  /** `scale` sends the minimum to `scale[0]` and the maximum to `scale[1]`. */
  lemma ScaleEndpoints(xs: seq<Num>, lo: real, hi: real, i: nat)
    requires Spread(xs) && i < |xs|
    ensures xs[i] == NanMinimum(xs) ==> Scale(xs, lo, hi).value[i] == Finite(lo)
    ensures xs[i] == NanMaximum(xs) ==> Scale(xs, lo, hi).value[i] == Finite(hi)
  {
    if xs[i].Finite? {
      ScaleFinite(xs, lo, hi, i);
      AffineEndpoints(NanMinimum(xs).r, NanMaximum(xs).r, lo, hi);
    }
  }

  /**
   * On data with a spread, `scale` is one affine map `x -> slope * x + intercept`,
   * the same for every finite entry.
   */
  lemma ScaleIsAffine(xs: seq<Num>, lo: real, hi: real, i: nat)
    requires Spread(xs) && i < |xs| && xs[i].Finite?
    ensures Scale(xs, lo, hi).value[i]
            == Finite(Line(Slope(NanMinimum(xs).r, NanMaximum(xs).r, lo, hi),
                           Intercept(NanMinimum(xs).r, NanMaximum(xs).r, lo, hi), xs[i].r))
  {
    ScaleFinite(xs, lo, hi, i);
    AffineForm(xs[i].r, NanMinimum(xs).r, NanMaximum(xs).r, lo, hi);
  }

  /**
   * With `scale[0] <= scale[1]`, `scale` keeps the order of finite entries
   * and lands every one of them in `[scale[0], scale[1]]`.
   */
  lemma ScaleMonotone(xs: seq<Num>, lo: real, hi: real, i: nat, j: nat)
    requires Spread(xs) && lo <= hi
    requires i < |xs| && j < |xs| && xs[i].Finite? && xs[j].Finite? && xs[i].r <= xs[j].r
    ensures Scale(xs, lo, hi).value[i].r <= Scale(xs, lo, hi).value[j].r
    ensures lo <= Scale(xs, lo, hi).value[i].r <= hi
  {
    var m, top := NanMinimum(xs).r, NanMaximum(xs).r;
    ScaleFinite(xs, lo, hi, i);
    ScaleFinite(xs, lo, hi, j);
    ExtremesFinite(xs, i);
    AffineMonotone(xs[i].r, xs[j].r, m, top, lo, hi);
    AffineMonotone(m, xs[i].r, m, top, lo, hi);
    AffineMonotone(xs[i].r, top, m, top, lo, hi);
    AffineEndpoints(m, top, lo, hi);
  }

  /** With `scale[0] != scale[1]`, a finite entry is recovered from its scaled value. */
  lemma ScaleRoundTrip(xs: seq<Num>, lo: real, hi: real, i: nat)
    requires Spread(xs) && lo != hi && i < |xs| && xs[i].Finite?
    ensures Unaffine(Scale(xs, lo, hi).value[i].r, NanMinimum(xs).r, NanMaximum(xs).r, lo, hi) == xs[i].r
  {
    ScaleFinite(xs, lo, hi, i);
    AffineRoundTrip(xs[i].r, NanMinimum(xs).r, NanMaximum(xs).r, lo, hi);
  }

  /** Without infinite entries, data whose minimum equals its maximum scales to all NaN (zero over zero). */
  lemma ScaleNoSpread(xs: seq<Num>, lo: real, hi: real)
    requires |xs| > 0 && NoInfinity(xs) && NanMinimum(xs) == NanMaximum(xs)
    ensures forall i :: 0 <= i < |xs| ==> Scale(xs, lo, hi).value[i].NaN?
  {
    forall i | 0 <= i < |xs| && xs[i].Finite?
      ensures Scale(xs, lo, hi).value[i].NaN?
    {
      ExtremesFinite(xs, i);
    }
  }
}
