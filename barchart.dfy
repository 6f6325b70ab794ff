/** The data behind the country page's bar charts: the average salary per
    value of a grouping column (`createGroupedBarChart`), and the five best
    paid job categories (`createBarChart`), ranked by a stable descending
    sort and cut with `slice(0, topN)`. */
module BarChart {
  import opened Collections
  import opened Grouping
  import opened Sorting
  import opened Stats
  import opened Records

  /** One bar: a group key and the average salary of its group. */
  datatype Entry<K> = Entry(key: K, value: real)

  /** The mean salary of the records carrying key `k`. */
  function GroupMean<K(==, !new)>(rs: seq<Record>, key: Record -> K, k: K): real
    requires Occurs(rs, key, k)
  {
    Mean(Salaries(Members(rs, key, k)))
  }

  /** `Array.from(group(rs, key), ([k, v]) => {key: k, value: mean(v, salary)})`. */
  function GroupAverage<K(==, !new)>(rs: seq<Record>, key: Record -> K): (es: seq<Entry<K>>)
    ensures |es| == |Keys(rs, key)|
  {
    var ks := Keys(rs, key);
    seq(|ks|, i requires 0 <= i < |ks| => Entry(ks[i], GroupMean(rs, key, ks[i])))
  }

  /** Every entry is a key of the records paired with the mean of its group. */
  lemma GroupAverageEntry<K(!new)>(rs: seq<Record>, key: Record -> K, e: Entry<K>)
    requires e in GroupAverage(rs, key)
    ensures Occurs(rs, key, e.key) && e.value == GroupMean(rs, key, e.key)
  {
    var es := GroupAverage(rs, key);
    var i :| 0 <= i < |es| && es[i] == e;
  }

  /** One entry per distinct key and no key twice. */
  lemma GroupAverageKeys<K(!new)>(rs: seq<Record>, key: Record -> K)
    ensures var es := GroupAverage(rs, key);
      && (forall k :: (exists i :: 0 <= i < |es| && es[i].key == k) <==> Occurs(rs, key, k))
      && (forall i, j :: 0 <= i < j < |es| ==> es[i].key != es[j].key)
  {
    var es, ks := GroupAverage(rs, key), Keys(rs, key);
    assert forall i :: 0 <= i < |es| ==> es[i].key == ks[i];
    forall k | Occurs(rs, key, k) ensures exists i :: 0 <= i < |es| && es[i].key == k {
      var i :| 0 <= i < |ks| && ks[i] == k;
      assert es[i].key == k;
    }
  }

  /** The entries come in the order in which their keys are first met in the records. */
  lemma GroupAverageOrder<K(!new)>(rs: seq<Record>, key: Record -> K)
    ensures var es := GroupAverage(rs, key);
      forall i, j :: 0 <= i < j < |es| ==>
        FirstIndex(rs, key, es[i].key) < FirstIndex(rs, key, es[j].key)
  {
    var es, ks := GroupAverage(rs, key), Keys(rs, key);
    forall i, j | 0 <= i < j < |es|
      ensures FirstIndex(rs, key, es[i].key) < FirstIndex(rs, key, es[j].key)
    {
      assert es[i].key == ks[i] && es[j].key == ks[j];
      KeysFirstSeenAt(rs, key, i, j);
    }
  }

  /** Each entry's value is the mean salary of its group, a group that is
      not empty, so the value lies between the group's lowest and highest
      salary. */
  lemma GroupAverageMeans<K(!new)>(rs: seq<Record>, key: Record -> K)
    ensures var es := GroupAverage(rs, key);
      forall i :: 0 <= i < |es| ==>
        var group := Salaries(Members(rs, key, es[i].key));
        && |group| > 0
        && es[i].value == Mean(group)
        && Least(group) as real <= es[i].value <= Greatest(group) as real
  {
    var es := GroupAverage(rs, key);
    forall i | 0 <= i < |es|
      ensures var group := Salaries(Members(rs, key, es[i].key));
        |group| > 0 && Least(group) as real <= es[i].value <= Greatest(group) as real
    {
      MeanBounds(Salaries(Members(rs, key, es[i].key)));
    }
  }

  /** Records that all share one key make a single bar: the mean of all salaries. */
  lemma GroupAverageSingle<K(!new)>(rs: seq<Record>, key: Record -> K, k: K)
    requires |rs| > 0
    requires forall i :: 0 <= i < |rs| ==> key(rs[i]) == k
    ensures GroupAverage(rs, key) == [Entry(k, Mean(Salaries(rs)))]
  {
    SingleGroup(rs, key, k);
  }

  function NegValue<K>(e: Entry<K>): real { -e.value }

  /** `sort((a, b) => b.value - a.value)`: stable, highest value first. */
  function SortDescending<K(!new)>(es: seq<Entry<K>>): seq<Entry<K>> {
    SortBy(es, NegValue)
  }

  /** `s.slice(0, end)`: a negative end counts back from the length, and
      either way the end is clamped to the sequence. */
  function Slice<T>(s: seq<T>, end: int): (r: seq<T>)
    ensures r <= s
    ensures 0 <= end ==> |r| == if end <= |s| then end else |s|
    ensures end < 0 ==> |r| == if |s| + end < 0 then 0 else |s| + end
  {
    if end < 0 then s[..if |s| + end < 0 then 0 else |s| + end]
    else if end <= |s| then s[..end]
    else s
  }

  /** The top-N list: sort descending, keep the first `n`. */
  function TopN<K(!new)>(es: seq<Entry<K>>, n: int): seq<Entry<K>> {
    Slice(SortDescending(es), n)
  }

  /** The top-N list is ordered by value, highest first; it is a prefix of
      the sorted list of the requested length; it takes every entry at most
      as often as the input has it, and all of them when `n` covers the
      input. */
  lemma TopNSpec<K(!new)>(es: seq<Entry<K>>, n: int)
    ensures var r := TopN(es, n);
      && (forall i, j :: 0 <= i < j < |r| ==> r[i].value >= r[j].value)
      && r <= SortDescending(es)
      && (0 <= n ==> |r| == if n <= |es| then n else |es|)
      && (n < 0 ==> |r| == if |es| + n < 0 then 0 else |es| + n)
      && multiset(r) <= multiset(es)
      && (|es| <= n ==> multiset(r) == multiset(es))
  {
    var sorted, r := SortDescending(es), TopN(es, n);
    SortBySorted(es, NegValue);
    assert sorted == r + sorted[|r|..];
    assert multiset(sorted) == multiset(r) + multiset(sorted[|r|..]);
    forall i, j | 0 <= i < j < |r| ensures r[i].value >= r[j].value {
      assert NegValue(sorted[i]) <= NegValue(sorted[j]);
    }
  }

  /** Stability of the ranking: the entries of the top-N list that share a
      value appear in the order the input has them, as a prefix of that
      value's entries in the input. */
  lemma TopNStable<K(!new)>(es: seq<Entry<K>>, n: int, v: real)
    ensures var tied := WithScore(TopN(es, n), NegValue, -v);
      tied <= WithScore(es, NegValue, -v)
  {
    SortedPrefixTies(es, TopN(es, n), NegValue, -v);
  }

  /** Ranking the top-N list again changes nothing. */
  lemma TopNIdempotent<K(!new)>(es: seq<Entry<K>>, n: int)
    requires 0 <= n
    ensures TopN(TopN(es, n), n) == TopN(es, n)
  {
    var r := TopN(es, n);
    TopNSpec(es, n);
    SortBySorted(es, NegValue);
    assert SortedBy(r, NegValue) by {
      assert forall i :: 0 <= i < |r| ==> r[i] == SortDescending(es)[i];
    }
    SortByIdentity(r, NegValue);
  }

  /** The data of the job-category bar chart. */
  function BarChartData(rs: seq<Record>, topN: int): seq<Entry<string>> {
    TopN(GroupAverage(rs, JobCategoryKey), topN)
  }

  /** The bar chart shows `min(topN, number of job categories)` bars, best
      paid first, each a distinct job category of the records with the mean
      salary of that category. */
  lemma BarChartDataSpec(rs: seq<Record>, topN: int)
    requires 0 <= topN
    ensures var r := BarChartData(rs, topN);
      var cats := |Keys(rs, JobCategoryKey)|;
      && |r| == (if topN <= cats then topN else cats)
      && (forall i, j :: 0 <= i < j < |r| ==> r[i].value >= r[j].value)
      && (forall i, j :: 0 <= i < j < |r| ==> r[i].key != r[j].key)
      && (forall i :: 0 <= i < |r| ==>
            Occurs(rs, JobCategoryKey, r[i].key)
            && r[i].value == GroupMean(rs, JobCategoryKey, r[i].key))
  {
    var es := GroupAverage(rs, JobCategoryKey);
    var r := BarChartData(rs, topN);
    TopNSpec(es, topN);
    GroupAverageKeys(rs, JobCategoryKey);
    assert Distinct(es);
    forall i | 0 <= i < |r|
      ensures Occurs(rs, JobCategoryKey, r[i].key)
      ensures r[i].value == GroupMean(rs, JobCategoryKey, r[i].key)
    {
      assert r[i] in multiset(es);
      var j :| 0 <= j < |es| && es[j] == r[i];
    }
    SubmultisetDistinct(r, es);
  }
}
