/** The five-number summaries behind the country page's box plot
    (`createBoxPlot`): per group, the salaries sorted ascending, their R-7
    quartiles and their two end elements. */
module BoxPlot {
  import opened Collections
  import opened Grouping
  import opened Sorting
  import opened Stats
  import opened Records

  datatype Summary<K> = Summary(
    key: K,
    q1: real,
    median: real,
    q3: real,
    min: int,
    max: int,
    values: seq<int>)

  /** The summary of one group: its salaries sorted ascending, the library
      quantiles of that sorted list at 0.25, 0.5 and 0.75, and its first and
      last element as minimum and maximum. */
  function Summarize<K>(key: K, salaries: seq<int>): Summary<K>
    requires |salaries| > 0
  {
    var sortedValues := SortBy(salaries, IntScore);
    Summary(key,
      Quantile(sortedValues, 0.25).value,
      Quantile(sortedValues, 0.5).value,
      Quantile(sortedValues, 0.75).value,
      sortedValues[0],
      sortedValues[|sortedValues| - 1],
      sortedValues)
  }

  /** The summaries of all groups in first-seen key order; `None` when there
      are no records, where the chart returns before computing any. */
  function BoxPlotData<K(==, !new)>(rs: seq<Record>, key: Record -> K): Option<seq<Summary<K>>> {
    if |rs| == 0 then None
    else
      var ks := Keys(rs, key);
      Some(seq(|ks|, i requires 0 <= i < |ks| => Summarize(ks[i], Salaries(Members(rs, key, ks[i])))))
  }

  /** `values` is the group's salaries in ascending order, `min` and `max`
      are its end elements and the group's least and greatest salary, and
      min <= q1 <= median <= q3 <= max. */
  lemma SummarizeSpec<K>(key: K, salaries: seq<int>)
    requires |salaries| > 0
    ensures var b := Summarize(key, salaries);
      && b.key == key
      && multiset(b.values) == multiset(salaries)
      && Ascending(b.values)
      && b.min == b.values[0] && b.max == b.values[|b.values| - 1]
      && b.min == Least(salaries) && b.max == Greatest(salaries)
      && b.min as real <= b.q1 <= b.median <= b.q3 <= b.max as real
  {
    var s := SortBy(salaries, IntScore);
    SortBySorted(salaries, IntScore);
    AscendingIsSortedBy(s);
    SortByIdentity(s, IntScore);
    AscendingEnds(s, salaries);
    QuantileSortedBounds(s, 0.25);
    QuantileSortedBounds(s, 0.75);
    QuantileSortedMonotone(s, 0.25, 0.5);
    QuantileSortedMonotone(s, 0.5, 0.75);
  }

  /** A group of one salary has all five numbers equal to it. */
  lemma SummarizeSingle<K>(key: K, x: int)
    ensures Summarize(key, [x]) == Summary(key, x as real, x as real, x as real, x, x, [x])
  {
    assert SortBy([x], IntScore) == [x];
  }

  lemma QuartilesExample()
    ensures var s := [10, 20, 30, 40];
      && QuantileSorted(s, 0.25) == Some(17.5)
      && QuantileSorted(s, 0.5) == Some(25.0)
      && QuantileSorted(s, 0.75) == Some(32.5)
  {
    var s := [10, 20, 30, 40];
    assert Position(s, 0.25) == 0.75 && (0.75).Floor == 0;
    assert Position(s, 0.5) == 1.5 && (1.5).Floor == 1;
    assert Position(s, 0.75) == 2.25 && (2.25).Floor == 2;
  }

  /** The R-7 quartiles of 10, 20, 30, 40 are 17.5, 25 and 32.5. */
  lemma SummarizeExample<K>(key: K)
    ensures var b := Summarize(key, [10, 20, 30, 40]);
      b.q1 == 17.5 && b.median == 25.0 && b.q3 == 32.5 && b.min == 10 && b.max == 40
  {
    var s := [10, 20, 30, 40];
    assert SortedBy(s, IntScore);
    SortByIdentity(s, IntScore);
    QuartilesExample();
  }

  /** No records give no summaries; otherwise there is one summary per
      distinct key, in first-seen order, each summarising exactly that
      group's salaries and keeping min <= q1 <= median <= q3 <= max. */
  lemma BoxPlotDataSpec<K(!new)>(rs: seq<Record>, key: Record -> K)
    ensures BoxPlotData(rs, key).None? <==> |rs| == 0
    ensures BoxPlotData(rs, key).Some? ==>
      var bs, ks := BoxPlotData(rs, key).value, Keys(rs, key);
      && |bs| == |ks|
      && forall i :: 0 <= i < |bs| ==>
           var group := Salaries(Members(rs, key, ks[i]));
           && bs[i].key == ks[i]
           && multiset(bs[i].values) == multiset(group)
           && Ascending(bs[i].values)
           && bs[i].min == Least(group) && bs[i].max == Greatest(group)
           && bs[i].min as real <= bs[i].q1 <= bs[i].median <= bs[i].q3 <= bs[i].max as real
  {
    if |rs| > 0 {
      var bs, ks := BoxPlotData(rs, key).value, Keys(rs, key);
      forall i | 0 <= i < |bs|
        ensures var group := Salaries(Members(rs, key, ks[i]));
          && bs[i].key == ks[i]
          && multiset(bs[i].values) == multiset(group)
          && Ascending(bs[i].values)
          && bs[i].min == Least(group) && bs[i].max == Greatest(group)
          && bs[i].min as real <= bs[i].q1 <= bs[i].median <= bs[i].q3 <= bs[i].max as real
      {
        SummarizeSpec(ks[i], Salaries(Members(rs, key, ks[i])));
      }
    }
  }
}
