/** The summary statistics the charts take from the charting library:
    `mean` (arithmetic mean), `max` (largest value, `undefined` when there is
    none) and `quantile` (the R-7 linear-interpolation quantile). Salaries are
    whole US dollars, so sums are integers and means are exact reals. */
module Stats {
  import opened Collections
  import opened Sorting

  function Sum(xs: seq<int>): int
    decreases |xs|
  {
    if xs == [] then 0 else Sum(xs[..|xs| - 1]) + xs[|xs| - 1]
  }

  lemma SumSnoc(xs: seq<int>, x: int)
    ensures Sum(xs + [x]) == Sum(xs) + x
  {
    assert (xs + [x])[..|xs|] == xs;
  }

  /** The arithmetic mean; the library returns `undefined` for no values,
      which no caller here asks for. */
  function Mean(xs: seq<int>): real
    requires |xs| > 0
  {
    Sum(xs) as real / |xs| as real
  }

  /** The smallest element. */
  function Least(xs: seq<int>): (m: int)
    requires |xs| > 0
    ensures m in xs
    ensures forall i :: 0 <= i < |xs| ==> m <= xs[i]
    decreases |xs|
  {
    if |xs| == 1 then xs[0]
    else
      var m := Least(xs[..|xs| - 1]);
      assert forall i :: 0 <= i < |xs| - 1 ==> xs[..|xs| - 1][i] == xs[i];
      if xs[|xs| - 1] < m then xs[|xs| - 1] else m
  }

  /** The largest element. */
  function Greatest(xs: seq<int>): (m: int)
    requires |xs| > 0
    ensures m in xs
    ensures forall i :: 0 <= i < |xs| ==> xs[i] <= m
    decreases |xs|
  {
    if |xs| == 1 then xs[0]
    else
      var m := Greatest(xs[..|xs| - 1]);
      assert forall i :: 0 <= i < |xs| - 1 ==> xs[..|xs| - 1][i] == xs[i];
      if xs[|xs| - 1] > m then xs[|xs| - 1] else m
  }

  lemma {:induction false} SumBounds(xs: seq<int>, lo: int, hi: int)
    requires forall i :: 0 <= i < |xs| ==> lo <= xs[i] <= hi
    ensures |xs| * lo <= Sum(xs) <= |xs| * hi
    decreases |xs|
  {
    if xs != [] {
      var front := xs[..|xs| - 1];
      assert forall i :: 0 <= i < |front| ==> front[i] == xs[i];
      SumBounds(front, lo, hi);
      assert |xs| * lo == |front| * lo + lo;
      assert |xs| * hi == |front| * hi + hi;
    }
  }

  /** A mean lies between the smallest and the largest value averaged. */
  lemma MeanBounds(xs: seq<int>)
    requires |xs| > 0
    ensures Least(xs) as real <= Mean(xs) <= Greatest(xs) as real
  {
    SumBounds(xs, Least(xs), Greatest(xs));
    QuotientOfInts(Sum(xs), |xs|, Least(xs), Greatest(xs));
  }

  lemma QuotientOfInts(total: int, n: int, lo: int, hi: int)
    requires n > 0 && n * lo <= total <= n * hi
    ensures lo as real <= total as real / n as real <= hi as real
  {
    IntProductAsReal(n, lo);
    IntProductAsReal(n, hi);
    QuotientBounds(total as real, n as real, lo as real, hi as real);
  }

  lemma IntProductAsReal(a: int, b: int)
    ensures (a * b) as real == a as real * b as real
  {
  }

  lemma QuotientBounds(total: real, n: real, lo: real, hi: real)
    requires n > 0.0 && n * lo <= total <= n * hi
    ensures lo <= total / n <= hi
  {
  }

  /** The library's `max`: the largest value, or `undefined` (`None`) for none. */
  function Maximum(xs: seq<real>): (m: Option<real>)
    ensures m.None? <==> |xs| == 0
    ensures m.Some? ==> forall i :: 0 <= i < |xs| ==> xs[i] <= m.value
    ensures m.Some? ==> exists i :: 0 <= i < |xs| && xs[i] == m.value
    decreases |xs|
  {
    if xs == [] then None
    else
      var front, last := xs[..|xs| - 1], xs[|xs| - 1];
      assert forall i :: 0 <= i < |front| ==> front[i] == xs[i];
      match Maximum(front)
      case None => Some(last)
      case Some(m) =>
        assert exists i :: 0 <= i < |xs| && xs[i] == m by {
          var i :| 0 <= i < |front| && front[i] == m;
          assert xs[i] == m;
        }
        Some(if last > m then last else m)
  }

  function IntScore(x: int): real { x as real }

  /** Ascending order on integers. */
  predicate Ascending(s: seq<int>) {
    forall i, j :: 0 <= i < j < |s| ==> s[i] <= s[j]
  }

  lemma AscendingIsSortedBy(s: seq<int>)
    ensures Ascending(s) <==> SortedBy(s, IntScore)
  {
  }

  /** The first and last element of an ascending rearrangement of `t` are
      the least and the greatest element of `t`. */
  lemma AscendingEnds(s: seq<int>, t: seq<int>)
    requires Ascending(s) && multiset(s) == multiset(t) && |s| > 0
    ensures s[0] == Least(t) && s[|s| - 1] == Greatest(t)
  {
    assert |t| == |s| by {
      assert |multiset(s)| == |multiset(t)|;
    }
    assert s[0] in multiset(t) && s[|s| - 1] in multiset(t);
    assert Least(t) in multiset(s) && Greatest(t) in multiset(s);
  }

  /** R-7 quantile of values already sorted ascending (the library's
      `quantileSorted`): the position p * (n - 1) is split into a whole index
      and a fraction, and the result interpolates linearly between the two
      elements around it. `None` stands for `undefined` on no values. */
  function QuantileSorted(s: seq<int>, p: real): (q: Option<real>)
    ensures q.Some? <==> |s| > 0
  {
    var n := |s|;
    if n == 0 then None
    else if p <= 0.0 || n < 2 then Some(s[0] as real)
    else if p >= 1.0 then Some(s[n - 1] as real)
    else
      PositionInside(s, p);
      Some(Interpolate(s, Position(s, p)))
  }

  /** The fractional position of the p-quantile among the sorted values. */
  function Position(s: seq<int>, p: real): real {
    (|s| - 1) as real * p
  }

  lemma PositionInside(s: seq<int>, p: real)
    requires |s| >= 2 && 0.0 < p < 1.0
    ensures 0.0 < Position(s, p) < (|s| - 1) as real
  {
    ScaleFraction((|s| - 1) as real, p);
  }

  lemma PositionMonotone(s: seq<int>, p: real, p': real)
    requires |s| >= 2 && p <= p'
    ensures Position(s, p) <= Position(s, p')
  {
    ScaleMonotone((|s| - 1) as real, p, p');
  }

  /** The value at fractional position `h`, between `s[⌊h⌋]` and `s[⌊h⌋ + 1]`. */
  function Interpolate(s: seq<int>, h: real): real
    requires 0.0 <= h < (|s| - 1) as real
  {
    var i := h.Floor;
    Lerp(s[i], s[i + 1], h - i as real)
  }

  /** The point a fraction `f` of the way from `a` to `b`. */
  function Lerp(a: int, b: int, f: real): real {
    a as real + (b - a) as real * f
  }

  /** The library's `quantile`: its selection step picks the same two order
      statistics as sorting does, so it equals `QuantileSorted` of the
      values in ascending order. */
  function Quantile(values: seq<int>, p: real): (q: Option<real>)
    ensures q.Some? <==> |values| > 0
  {
    QuantileSorted(SortBy(values, IntScore), p)
  }

  /** An interpolated value lies between the two values it interpolates. */
  lemma LerpBetween(a: int, b: int, f: real)
    requires a <= b && 0.0 <= f < 1.0
    ensures a as real <= Lerp(a, b, f) <= b as real
  {
    var d := (b - a) as real;
    assert 0.0 <= d * f;
    assert d * f <= d * 1.0;
  }

  lemma LerpMonotone(a: int, b: int, f: real, f': real)
    requires a <= b && f <= f'
    ensures Lerp(a, b, f) <= Lerp(a, b, f')
  {
    ScaleMonotone((b - a) as real, f, f');
  }

  /** An interpolated value lies between the two elements around its position. */
  lemma InterpolateBetween(s: seq<int>, h: real)
    requires Ascending(s) && 0.0 <= h < (|s| - 1) as real
    ensures s[h.Floor] as real <= Interpolate(s, h) <= s[h.Floor + 1] as real
  {
    LerpBetween(s[h.Floor], s[h.Floor + 1], h - h.Floor as real);
  }

  /** Every R-7 quantile of a sorted sequence lies between its first and last element. */
  lemma QuantileSortedBounds(s: seq<int>, p: real)
    requires Ascending(s) && |s| > 0
    ensures s[0] as real <= QuantileSorted(s, p).value <= s[|s| - 1] as real
  {
    var n := |s|;
    if !(p <= 0.0 || n < 2) && p < 1.0 {
      PositionInside(s, p);
      InterpolateBetween(s, Position(s, p));
    }
  }

  lemma ScaleFraction(c: real, p: real)
    requires 0.0 < c && 0.0 < p < 1.0
    ensures 0.0 < c * p < c
  {
    assert c - c * p == c * (1.0 - p);
  }

  lemma ScaleMonotone(c: real, p: real, p': real)
    requires 0.0 <= c && p <= p'
    ensures c * p <= c * p'
  {
    assert c * p' - c * p == c * (p' - p);
  }

  /** Interpolation is monotone in the position. */
  lemma InterpolateMonotone(s: seq<int>, h: real, h': real)
    requires Ascending(s) && 0.0 <= h <= h' < (|s| - 1) as real
    ensures Interpolate(s, h) <= Interpolate(s, h')
  {
    var i, i' := h.Floor, h'.Floor;
    InterpolateBetween(s, h);
    InterpolateBetween(s, h');
    if i == i' {
      LerpMonotone(s[i], s[i + 1], h - i as real, h' - i as real);
    } else {
      assert i + 1 <= i';
      assert s[i + 1] <= s[i'];
    }
  }

  /** The R-7 quantile is monotone in p, so q1 <= median <= q3. */
  lemma QuantileSortedMonotone(s: seq<int>, p: real, p': real)
    requires Ascending(s) && |s| > 0 && p <= p'
    ensures QuantileSorted(s, p).value <= QuantileSorted(s, p').value
  {
    var n := |s|;
    if n < 2 || p <= 0.0 {
      QuantileSortedBounds(s, p');
    } else if p' >= 1.0 {
      QuantileSortedBounds(s, p);
    } else {
      PositionInside(s, p);
      PositionInside(s, p');
      PositionMonotone(s, p, p');
      InterpolateMonotone(s, Position(s, p), Position(s, p'));
    }
  }
}
