/** The stable sort behind `Array.prototype.sort` with a numeric comparator:
    elements are ordered by a real-valued score, and elements with equal scores
    keep their input order. It is written as insertion sort. */
module Sorting {
  import opened Collections

  /** Scores never decrease along `s`. */
  predicate SortedBy<T>(s: seq<T>, score: T -> real) {
    forall i, j :: 0 <= i < j < |s| ==> score(s[i]) <= score(s[j])
  }

  /** Scores strictly increase along `s`. */
  predicate StrictlySortedBy<T>(s: seq<T>, score: T -> real) {
    forall i, j :: 0 <= i < j < |s| ==> score(s[i]) < score(s[j])
  }

  /** No two elements of `s` share a score. */
  predicate DistinctScores<T>(s: seq<T>, score: T -> real) {
    forall i, j :: 0 <= i < j < |s| ==> score(s[i]) != score(s[j])
  }

  /** The elements whose score is `v`, in order: the tie class that stability is about. */
  function WithScore<T>(s: seq<T>, score: T -> real, v: real): seq<T> {
    Filter(s, x => score(x) == v)
  }

  lemma WithScoreConcat<T(!new)>(a: seq<T>, b: seq<T>, score: T -> real, v: real)
    ensures WithScore(a + b, score, v) == WithScore(a, score, v) + WithScore(b, score, v)
  {
    FilterConcat(a, b, x => score(x) == v);
  }

  /** Puts `x` in front of the first element whose score is not below its own. */
  function InsertBy<T(!new)>(x: T, s: seq<T>, score: T -> real): (r: seq<T>)
    ensures |r| == |s| + 1
    ensures multiset(r) == multiset(s) + multiset{x}
    decreases |s|
  {
    if s == [] then [x]
    else if score(x) <= score(s[0]) then [x] + s
    else
      assert s == [s[0]] + s[1..];
      [s[0]] + InsertBy(x, s[1..], score)
  }

  /** Inserting into a sorted sequence keeps it sorted, and strictly sorted
      when the new score is not already present. */
  lemma {:induction false} InsertBySorted<T(!new)>(x: T, s: seq<T>, score: T -> real)
    requires SortedBy(s, score)
    ensures SortedBy(InsertBy(x, s, score), score)
    ensures FreshScore(x, s, score) ==> StrictlySortedBy(InsertBy(x, s, score), score)
    decreases |s|
  {
    if s == [] {
    } else if score(x) <= score(s[0]) {
      InsertInFront(x, s, score);
    } else {
      var tail := s[1..];
      assert s == [s[0]] + tail;
      assert SortedBy(tail, score);
      assert FreshScore(x, s, score) ==> FreshScore(x, tail, score) by {
        assert forall i :: 0 <= i < |tail| ==> tail[i] == s[i + 1];
      }
      InsertBySorted(x, tail, score);
      var rest := InsertBy(x, tail, score);
      HeadBelowInserted(x, s, rest, score);
      assert InsertBy(x, s, score) == [s[0]] + rest;
      PrependSorted(s[0], rest, score, FreshScore(x, s, score));
    }
  }

  /** `s` is strictly sorted and no element of it has the score of `x`. */
  predicate FreshScore<T>(x: T, s: seq<T>, score: T -> real) {
    StrictlySortedBy(s, score) && forall i :: 0 <= i < |s| ==> score(s[i]) != score(x)
  }

  lemma InsertInFront<T(!new)>(x: T, s: seq<T>, score: T -> real)
    requires SortedBy(s, score) && s != [] && score(x) <= score(s[0])
    ensures SortedBy([x] + s, score)
    ensures FreshScore(x, s, score) ==> StrictlySortedBy([x] + s, score)
  {
    var r := [x] + s;
    forall i, j | 0 <= i < j < |r|
      ensures score(r[i]) <= score(r[j])
      ensures FreshScore(x, s, score) ==> score(r[i]) < score(r[j])
    {
      if i > 0 {
        assert r[i] == s[i - 1] && r[j] == s[j - 1];
      } else {
        assert r[j] == s[j - 1];
        assert s[0] in s;
      }
    }
  }

  /** Putting an element in front of a sorted sequence whose elements all
      score at least as high keeps it sorted (strictly, with strict bounds). */
  lemma PrependSorted<T>(a: T, rest: seq<T>, score: T -> real, strict: bool)
    requires SortedBy(rest, score)
    requires strict ==> StrictlySortedBy(rest, score)
    requires forall j :: 0 <= j < |rest| ==> score(a) <= score(rest[j])
    requires strict ==> forall j :: 0 <= j < |rest| ==> score(a) < score(rest[j])
    ensures SortedBy([a] + rest, score)
    ensures strict ==> StrictlySortedBy([a] + rest, score)
  {
    var r := [a] + rest;
    forall i, j | 0 <= i < j < |r|
      ensures score(r[i]) <= score(r[j])
      ensures strict ==> score(r[i]) < score(r[j])
    {
      assert r[j] == rest[j - 1];
      if i > 0 {
        assert r[i] == rest[i - 1];
      }
    }
  }

  /** The head of `s` stays below everything inserted behind it. */
  lemma HeadBelowInserted<T(!new)>(x: T, s: seq<T>, rest: seq<T>, score: T -> real)
    requires SortedBy(s, score) && s != [] && score(s[0]) < score(x)
    requires rest == InsertBy(x, s[1..], score)
    ensures forall j :: 0 <= j < |rest| ==> score(s[0]) <= score(rest[j])
    ensures StrictlySortedBy(s, score) ==> forall j :: 0 <= j < |rest| ==> score(s[0]) < score(rest[j])
  {
    var tail := s[1..];
    forall j | 0 <= j < |rest|
      ensures score(s[0]) <= score(rest[j])
      ensures StrictlySortedBy(s, score) ==> score(s[0]) < score(rest[j])
    {
      assert rest[j] in multiset(rest);
      if rest[j] != x {
        assert rest[j] in multiset(tail);
        var k :| 0 <= k < |tail| && tail[k] == rest[j];
        assert s[k + 1] == rest[j];
      }
    }
  }

  /** Stable insertion sort by ascending score. */
  function SortBy<T(!new)>(s: seq<T>, score: T -> real): (r: seq<T>)
    ensures |r| == |s|
    ensures multiset(r) == multiset(s)
    decreases |s|
  {
    if s == [] then []
    else
      assert s == [s[0]] + s[1..];
      InsertBy(s[0], SortBy(s[1..], score), score)
  }

  /** The sort's output is ordered by score, strictly so when no two inputs tie. */
  lemma {:induction false} SortBySorted<T(!new)>(s: seq<T>, score: T -> real)
    ensures SortedBy(SortBy(s, score), score)
    ensures DistinctScores(s, score) ==> StrictlySortedBy(SortBy(s, score), score)
    decreases |s|
  {
    if s != [] {
      var tail := s[1..];
      assert s == [s[0]] + tail;
      SortBySorted(tail, score);
      var rest := SortBy(tail, score);
      InsertBySorted(s[0], rest, score);
      if DistinctScores(s, score) {
        assert DistinctScores(tail, score);
        forall i | 0 <= i < |rest| ensures score(rest[i]) != score(s[0]) {
          assert rest[i] in multiset(rest);
          var k :| 0 <= k < |tail| && tail[k] == rest[i];
          assert s[k + 1] == rest[i];
        }
      }
    }
  }

  lemma {:induction false} InsertByTies<T(!new)>(x: T, s: seq<T>, score: T -> real, v: real)
    ensures WithScore(InsertBy(x, s, score), score, v)
         == (if score(x) == v then [x] else []) + WithScore(s, score, v)
    decreases |s|
  {
    WithScoreSingle(x, score, v);
    if s != [] && score(x) <= score(s[0]) {
      WithScoreConcat([x], s, score, v);
    } else if s != [] {
      var head, tail := s[0], s[1..];
      assert s == [head] + tail;
      InsertByTies(x, tail, score, v);
      TiesBehindHead(x, head, tail, InsertBy(x, tail, score), score, v);
    }
  }

  /** `x` inserted behind a lower-scoring `head`: the tie class of `v` gains
      `x` in front exactly when `x` scores `v`, since then `head` does not. */
  lemma TiesBehindHead<T(!new)>(x: T, head: T, tail: seq<T>, rest: seq<T>, score: T -> real, v: real)
    requires score(head) < score(x)
    requires WithScore(rest, score, v) == (if score(x) == v then [x] else []) + WithScore(tail, score, v)
    ensures WithScore([head] + rest, score, v)
         == (if score(x) == v then [x] else []) + WithScore([head] + tail, score, v)
  {
    WithScoreConcat([head], rest, score, v);
    WithScoreConcat([head], tail, score, v);
    WithScoreSingle(head, score, v);
    var later := WithScore(tail, score, v);
    if score(x) == v {
      assert WithScore([head], score, v) == [];
      assert [] + ([x] + later) == [x] + ([] + later);
    } else {
      assert [] + later == later;
    }
  }

  /** Stability: for every score, the elements with that score appear in the
      sorted output exactly as they appear in the input. */
  lemma {:induction false} SortByStable<T(!new)>(s: seq<T>, score: T -> real, v: real)
    ensures WithScore(SortBy(s, score), score, v) == WithScore(s, score, v)
    decreases |s|
  {
    if s != [] {
      var head, tail := s[0], s[1..];
      assert s == [head] + tail;
      var ties := if score(head) == v then [head] else [];
      SortByStable(tail, score, v);
      InsertByTies(head, SortBy(tail, score), score, v);
      assert WithScore(SortBy(s, score), score, v) == ties + WithScore(tail, score, v);
      WithScoreConcat([head], tail, score, v);
      WithScoreSingle(head, score, v);
    }
  }

  lemma WithScoreSingle<T(!new)>(x: T, score: T -> real, v: real)
    ensures WithScore([x], score, v) == if score(x) == v then [x] else []
  {
    FilterSnoc([], x, y => score(y) == v);
    assert [] + [x] == [x];
  }

  /** In any prefix of the sorted output, the elements with one score are a
      prefix of the input's elements with that score. */
  lemma SortedPrefixTies<T(!new)>(s: seq<T>, r: seq<T>, score: T -> real, v: real)
    requires r <= SortBy(s, score)
    ensures WithScore(r, score, v) <= WithScore(s, score, v)
  {
    var sorted := SortBy(s, score);
    var rest := sorted[|r|..];
    assert sorted == r + rest;
    WithScoreConcat(r, rest, score, v);
    SortByStable(s, score, v);
    var tied, later := WithScore(r, score, v), WithScore(rest, score, v);
    assert (tied + later)[..|tied|] == tied;
  }

  /** Sorting an already sorted sequence changes nothing. */
  lemma {:induction false} SortByIdentity<T(!new)>(s: seq<T>, score: T -> real)
    requires SortedBy(s, score)
    ensures SortBy(s, score) == s
    decreases |s|
  {
    if s != [] {
      assert SortedBy(s[1..], score);
      SortByIdentity(s[1..], score);
      assert s == [s[0]] + s[1..];
    }
  }
}
