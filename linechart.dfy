/** The data behind the country page's line chart (`createLineChart`): one
    series per work setting, each holding the average salary per work year
    sorted by year, and the axis domains derived from all series. */
module LineChart {
  import opened Collections
  import opened Grouping
  import opened Sorting
  import opened Stats
  import opened Records
  import opened BarChart

  /** One line: a work setting and its (year, average salary) points. */
  datatype Series = Series(workSetting: string, points: seq<Entry<int>>)

  function YearScore(e: Entry<int>): real { e.key as real }

  /** The rollup of one work setting's records: the mean salary per value
      of `x`, sorted by `a.key - b.key`. */
  function SeriesPoints(rs: seq<Record>, x: Record -> int): seq<Entry<int>> {
    SortBy(GroupAverage(rs, x), YearScore)
  }

  /** The nested data: the work settings in first-seen order, each with the
      points of its own records. */
  function LineSeries(rs: seq<Record>, x: Record -> int): (series: seq<Series>)
    ensures |series| == |Keys(rs, WorkSettingKey)|
  {
    var ws := Keys(rs, WorkSettingKey);
    seq(|ws|, i requires 0 <= i < |ws| =>
      Series(ws[i], SeriesPoints(Members(rs, WorkSettingKey, ws[i]), x)))
  }

  /** A series has exactly one point per distinct year of its records, the
      points strictly ascend by year, and each value is the mean salary of
      that year's records. */
  lemma SeriesPointsSpec(rs: seq<Record>, x: Record -> int)
    ensures var pts := SeriesPoints(rs, x);
      && |pts| == |Keys(rs, x)|
      && (forall y :: (exists i :: 0 <= i < |pts| && pts[i].key == y) <==> Occurs(rs, x, y))
      && (forall i, j :: 0 <= i < j < |pts| ==> pts[i].key < pts[j].key)
      && (forall i :: 0 <= i < |pts| ==>
            Occurs(rs, x, pts[i].key) && pts[i].value == GroupMean(rs, x, pts[i].key))
  {
    SeriesPointsAscend(rs, x);
    SeriesPointsAverage(rs, x);
    SeriesPointsYears(rs, x);
  }

  lemma SeriesPointsAscend(rs: seq<Record>, x: Record -> int)
    ensures var pts := SeriesPoints(rs, x);
      forall i, j :: 0 <= i < j < |pts| ==> pts[i].key < pts[j].key
  {
    var es, pts := GroupAverage(rs, x), SeriesPoints(rs, x);
    GroupAverageKeys(rs, x);
    forall i, j | 0 <= i < j < |es| ensures YearScore(es[i]) != YearScore(es[j]) {
      assert es[i].key != es[j].key;
    }
    SortBySorted(es, YearScore);
    forall i, j | 0 <= i < j < |pts| ensures pts[i].key < pts[j].key {
      assert YearScore(pts[i]) < YearScore(pts[j]);
    }
  }

  lemma SeriesPointsAverage(rs: seq<Record>, x: Record -> int)
    ensures var pts := SeriesPoints(rs, x);
      forall i :: 0 <= i < |pts| ==>
        Occurs(rs, x, pts[i].key) && pts[i].value == GroupMean(rs, x, pts[i].key)
  {
    var es, pts := GroupAverage(rs, x), SeriesPoints(rs, x);
    forall i | 0 <= i < |pts|
      ensures Occurs(rs, x, pts[i].key) && pts[i].value == GroupMean(rs, x, pts[i].key)
    {
      assert pts[i] in multiset(es);
      var j :| 0 <= j < |es| && es[j] == pts[i];
    }
  }

  lemma SeriesPointsYears(rs: seq<Record>, x: Record -> int)
    ensures var pts := SeriesPoints(rs, x);
      forall y :: (exists i :: 0 <= i < |pts| && pts[i].key == y) <==> Occurs(rs, x, y)
  {
    var pts := SeriesPoints(rs, x);
    forall y ensures (exists i :: 0 <= i < |pts| && pts[i].key == y) <==> Occurs(rs, x, y) {
      if Occurs(rs, x, y) {
        YearHasPoint(rs, x, y);
      }
      if exists i :: 0 <= i < |pts| && pts[i].key == y {
        var i :| 0 <= i < |pts| && pts[i].key == y;
        PointHasYear(rs, x, i);
      }
    }
  }

  lemma YearHasPoint(rs: seq<Record>, x: Record -> int, y: int)
    requires Occurs(rs, x, y)
    ensures var pts := SeriesPoints(rs, x);
      exists i :: 0 <= i < |pts| && pts[i].key == y
  {
    var es, pts := GroupAverage(rs, x), SeriesPoints(rs, x);
    GroupAverageKeys(rs, x);
    var j :| 0 <= j < |es| && es[j].key == y;
    assert es[j] in multiset(pts);
    var i :| 0 <= i < |pts| && pts[i] == es[j];
  }

  lemma PointHasYear(rs: seq<Record>, x: Record -> int, i: nat)
    requires i < |SeriesPoints(rs, x)|
    ensures Occurs(rs, x, SeriesPoints(rs, x)[i].key)
  {
    var es, pts := GroupAverage(rs, x), SeriesPoints(rs, x);
    assert pts[i] in multiset(es);
    var j :| 0 <= j < |es| && es[j] == pts[i];
  }

  /** The series follow the work settings in first-seen order, and each
      point of a series is the mean salary of one (work setting, year) cell
      of the records, one point per year present in that setting. */
  lemma LineSeriesSpec(rs: seq<Record>, x: Record -> int)
    ensures var series, ws := LineSeries(rs, x), Keys(rs, WorkSettingKey);
      forall i :: 0 <= i < |series| ==>
        var cell := Members(rs, WorkSettingKey, ws[i]);
        var pts := series[i].points;
        && series[i].workSetting == ws[i]
        && |pts| == |Keys(cell, x)|
        && (forall j, k :: 0 <= j < k < |pts| ==> pts[j].key < pts[k].key)
        && (forall j :: 0 <= j < |pts| ==>
              Occurs(cell, x, pts[j].key) && pts[j].value == GroupMean(cell, x, pts[j].key))
  {
    var series, ws := LineSeries(rs, x), Keys(rs, WorkSettingKey);
    forall i | 0 <= i < |series|
      ensures var cell := Members(rs, WorkSettingKey, ws[i]);
        var pts := series[i].points;
        && series[i].workSetting == ws[i]
        && |pts| == |Keys(cell, x)|
        && (forall j, k :: 0 <= j < k < |pts| ==> pts[j].key < pts[k].key)
        && (forall j :: 0 <= j < |pts| ==>
              Occurs(cell, x, pts[j].key) && pts[j].value == GroupMean(cell, x, pts[j].key))
    {
      SeriesPointsSpec(Members(rs, WorkSettingKey, ws[i]), x);
    }
  }

  /** The points of all series, series after series: the order in which the
      nested `forEach` visits them. */
  function AllPoints(nested: seq<Series>): seq<Entry<int>>
    decreases |nested|
  {
    if nested == [] then [] else AllPoints(nested[..|nested| - 1]) + nested[|nested| - 1].points
  }

  function PointYear(e: Entry<int>): int { e.key }

  /** The values of `pts`, in order. */
  function Values(pts: seq<Entry<int>>): (vs: seq<real>)
    ensures |vs| == |pts|
    ensures forall i :: 0 <= i < |pts| ==> vs[i] == pts[i].value
  {
    seq(|pts|, i requires 0 <= i < |pts| => pts[i].value)
  }

  lemma AllPointsSnoc(nested: seq<Series>, g: nat)
    requires g < |nested|
    ensures AllPoints(nested[..g + 1]) == AllPoints(nested[..g]) + nested[g].points
  {
    assert nested[..g + 1][..g] == nested[..g];
  }

  /** The domains of the line chart: `uniqueYears`, the distinct years of
      all points (collected in a set in visiting order, then sorted
      ascending), and `yMax`, the library maximum of all point values. */
  method LineDomains(nested: seq<Series>) returns (uniqueYears: seq<int>, yMax: Option<real>)
    ensures uniqueYears == SortBy(Keys(AllPoints(nested), PointYear), IntScore)
    ensures forall y :: y in uniqueYears <==> Occurs(AllPoints(nested), PointYear, y)
    ensures forall i, j :: 0 <= i < j < |uniqueYears| ==> uniqueYears[i] < uniqueYears[j]
    ensures yMax == Maximum(Values(AllPoints(nested)))
    ensures yMax.None? <==> |AllPoints(nested)| == 0
    ensures yMax.Some? ==>
      var pts := AllPoints(nested);
      && (forall k :: 0 <= k < |pts| ==> pts[k].value <= yMax.value)
      && (exists k :: 0 <= k < |pts| && pts[k].value == yMax.value)
  {
    var allYears: seq<int> := [];
    var allValues: seq<real> := [];
    var g := 0;
    while g < |nested|
      invariant 0 <= g <= |nested|
      invariant allYears == Keys(AllPoints(nested[..g]), PointYear)
      invariant allValues == Values(AllPoints(nested[..g]))
    {
      allYears, allValues := VisitSeries(nested[g].points, allYears, allValues, AllPoints(nested[..g]));
      AllPointsSnoc(nested, g);
      g := g + 1;
    }
    assert nested[..g] == nested;
    uniqueYears := SortBy(allYears, IntScore);
    yMax := Maximum(allValues);
    SortedYears(allYears);
  }

  /** The inner `forEach` over one series: each year goes into the set
      (kept in insertion order, appended only when new) and each value is
      pushed, so both stay those of all points visited so far. */
  method VisitSeries(points: seq<Entry<int>>, years: seq<int>, values: seq<real>, ghost before: seq<Entry<int>>)
    returns (years': seq<int>, values': seq<real>)
    requires years == Keys(before, PointYear) && values == Values(before)
    ensures years' == Keys(before + points, PointYear)
    ensures values' == Values(before + points)
  {
    years', values' := years, values;
    var p := 0;
    assert before + points[..p] == before;
    while p < |points|
      invariant 0 <= p <= |points|
      invariant years' == Keys(before + points[..p], PointYear)
      invariant values' == Values(before + points[..p])
    {
      assert before + points[..p + 1] == (before + points[..p]) + [points[p]];
      VisitStep(before + points[..p], points[p], years', values');
      if points[p].key !in years' {
        years' := years' + [points[p].key];
      }
      values' := values' + [points[p].value];
      p := p + 1;
    }
    assert points[..p] == points;
  }

  /** Visiting one more point: its year is added when new, its value pushed. */
  lemma VisitStep(visited: seq<Entry<int>>, pt: Entry<int>, years: seq<int>, values: seq<real>)
    requires years == Keys(visited, PointYear) && values == Values(visited)
    ensures (if pt.key in years then years else years + [pt.key]) == Keys(visited + [pt], PointYear)
    ensures values + [pt.value] == Values(visited + [pt])
  {
    KeysSnoc(visited, pt, PointYear);
  }

  /** Sorting distinct years gives them strictly ascending, none lost or added. */
  lemma SortedYears(ys: seq<int>)
    requires Distinct(ys)
    ensures var u := SortBy(ys, IntScore);
      && (forall y :: y in u <==> y in ys)
      && (forall i, j :: 0 <= i < j < |u| ==> u[i] < u[j])
  {
    var u := SortBy(ys, IntScore);
    assert DistinctScores(ys, IntScore);
    SortBySorted(ys, IntScore);
    forall y ensures y in u <==> y in ys {
      assert y in u <==> y in multiset(u);
    }
    forall i, j | 0 <= i < j < |u| ensures u[i] < u[j] {
      assert IntScore(u[i]) < IntScore(u[j]);
    }
  }

  /** `extent(s)`: the least and the greatest element, `None` for none. */
  function Extent(s: seq<int>): (e: Option<(int, int)>)
    ensures e.None? <==> |s| == 0
    ensures e.Some? ==> e.value.0 in s && e.value.1 in s
    ensures e.Some? ==> forall i :: 0 <= i < |s| ==> e.value.0 <= s[i] <= e.value.1
  {
    if |s| == 0 then None else Some((Least(s), Greatest(s)))
  }

  /** On the ascending year list the x-domain is its first and last year. */
  lemma ExtentOfAscending(s: seq<int>)
    requires |s| > 0 && Ascending(s)
    ensures Extent(s) == Some((s[0], s[|s| - 1]))
  {
    AscendingEnds(s, s);
  }
}
