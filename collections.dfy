/** Sequence helpers shared by the aggregation model: an optional value for
    results the charting library leaves `undefined`, the order-preserving
    filter behind `Array.prototype.filter`, and subsequences. */
module Collections {

  datatype Option<T> = None | Some(value: T)

  /** No element occurs twice. */
  predicate Distinct<T(==)>(s: seq<T>) {
    forall i, j :: 0 <= i < j < |s| ==> s[i] != s[j]
  }

  /** `a` is obtained from `b` by deleting elements, keeping the order of the rest. */
  predicate IsSubsequence<T(==)>(a: seq<T>, b: seq<T>)
    decreases |b|
  {
    if a == [] then true
    else if b == [] then false
    else (a[|a| - 1] == b[|b| - 1] && IsSubsequence(a[..|a| - 1], b[..|b| - 1]))
         || IsSubsequence(a, b[..|b| - 1])
  }

  lemma {:induction false} SubsequenceReflexive<T>(a: seq<T>)
    ensures IsSubsequence(a, a)
    decreases |a|
  {
    if a != [] {
      SubsequenceReflexive(a[..|a| - 1]);
    }
  }

  lemma {:induction false} SubsequenceTransitive<T>(a: seq<T>, b: seq<T>, c: seq<T>)
    requires IsSubsequence(a, b) && IsSubsequence(b, c)
    ensures IsSubsequence(a, c)
    decreases |c|
  {
    if a != [] {
      assert b != [] && c != [];
      if b[|b| - 1] == c[|c| - 1] && IsSubsequence(b[..|b| - 1], c[..|c| - 1]) {
        if a[|a| - 1] == b[|b| - 1] && IsSubsequence(a[..|a| - 1], b[..|b| - 1]) {
          SubsequenceTransitive(a[..|a| - 1], b[..|b| - 1], c[..|c| - 1]);
        } else {
          SubsequenceTransitive(a, b[..|b| - 1], c[..|c| - 1]);
        }
      } else {
        SubsequenceTransitive(a, b, c[..|c| - 1]);
      }
    }
  }

  /** The elements of `xs` that satisfy `p`, in their original order (the
      semantics of `Array.prototype.filter`). */
  function Filter<T>(xs: seq<T>, p: T -> bool): (r: seq<T>)
    ensures |r| <= |xs|
    decreases |xs|
  {
    if xs == [] then []
    else
      var r := Filter(xs[..|xs| - 1], p);
      if p(xs[|xs| - 1]) then r + [xs[|xs| - 1]] else r
  }

  /** What `Filter` keeps: exactly the elements satisfying `p`, each as often
      as it occurs in the input, in the input's order. */
  lemma {:induction false} FilterSpec<T(!new)>(xs: seq<T>, p: T -> bool)
    ensures var r := Filter(xs, p);
      && (forall x :: x in r <==> x in xs && p(x))
      && (forall x :: multiset(r)[x] == if p(x) then multiset(xs)[x] else 0)
      && IsSubsequence(r, xs)
    decreases |xs|
  {
    if xs != [] {
      var front, last := xs[..|xs| - 1], xs[|xs| - 1];
      assert xs == front + [last];
      FilterSpec(front, p);
      var r := Filter(front, p);
      if p(last) {
        assert (r + [last])[..|r|] == r;
      }
    }
  }

  lemma FilterSnoc<T(!new)>(xs: seq<T>, x: T, p: T -> bool)
    ensures Filter(xs + [x], p) == Filter(xs, p) + (if p(x) then [x] else [])
  {
    assert (xs + [x])[..|xs|] == xs;
  }

  lemma {:induction false} FilterConcat<T(!new)>(a: seq<T>, b: seq<T>, p: T -> bool)
    ensures Filter(a + b, p) == Filter(a, p) + Filter(b, p)
    decreases |b|
  {
    if b == [] {
      assert a + b == a;
    } else {
      var front, last := b[..|b| - 1], b[|b| - 1];
      var tail := if p(last) then [last] else [];
      assert b == front + [last];
      assert a + b == (a + front) + [last];
      calc {
        Filter(a + b, p);
        { FilterSnoc(a + front, last, p); }
        Filter(a + front, p) + tail;
        { FilterConcat(a, front, p); }
        Filter(a, p) + Filter(front, p) + tail;
        { FilterSnoc(front, last, p); }
        Filter(a, p) + Filter(b, p);
      }
    }
  }

  /** A filter that keeps everything returns its input. */
  lemma {:induction false} FilterKeepsAll<T(!new)>(xs: seq<T>, p: T -> bool)
    requires forall x :: x in xs ==> p(x)
    ensures Filter(xs, p) == xs
    decreases |xs|
  {
    if xs != [] {
      var front := xs[..|xs| - 1];
      assert xs == front + [xs[|xs| - 1]];
      FilterKeepsAll(front, p);
    }
  }

  /** Filters by pointwise equal predicates agree. */
  lemma {:induction false} FilterSame<T(!new)>(xs: seq<T>, p: T -> bool, q: T -> bool)
    requires forall x :: p(x) == q(x)
    ensures Filter(xs, p) == Filter(xs, q)
    decreases |xs|
  {
    if xs != [] {
      FilterSame(xs[..|xs| - 1], p, q);
    }
  }

  /** Filtering twice is filtering once by the conjunction. */
  lemma {:induction false} FilterFuse<T(!new)>(xs: seq<T>, p: T -> bool, q: T -> bool, pq: T -> bool)
    requires forall x :: pq(x) == (p(x) && q(x))
    ensures Filter(Filter(xs, p), q) == Filter(xs, pq)
    decreases |xs|
  {
    if xs != [] {
      var front, last := xs[..|xs| - 1], xs[|xs| - 1];
      FilterFuse(front, p, q, pq);
      if p(last) {
        FilterSnoc(Filter(front, p), last, q);
      }
    }
  }

  /** In a sequence without repetitions every value occurs at most once. */
  lemma {:induction false} DistinctCount<T>(s: seq<T>, x: T)
    requires Distinct(s)
    ensures multiset(s)[x] <= 1
    decreases |s|
  {
    if s != [] {
      var rest := s[1..];
      assert s == [s[0]] + rest;
      assert Distinct(rest);
      DistinctCount(rest, x);
      if x == s[0] {
        assert x !in rest;
      }
    }
  }

  /** Taking no element more often than a sequence without repetitions has it
      gives a sequence without repetitions. */
  lemma SubmultisetDistinct<T>(a: seq<T>, b: seq<T>)
    requires Distinct(b) && multiset(a) <= multiset(b)
    ensures Distinct(a)
  {
    forall i, j | 0 <= i < j < |a| ensures a[i] != a[j] {
      if a[i] == a[j] {
        assert a == a[..j] + a[j..];
        assert a[i] in a[..j] && a[j] in a[j..];
        assert multiset(a)[a[i]] >= 2;
        DistinctCount(b, a[i]);
      }
    }
  }
}
