/** The partition that the charting library's `group(data, key)` builds: the
    distinct keys in the order in which they are first seen, and for each key
    the elements carrying it, in input order. */
module Grouping {
  import opened Collections

  /** Some element of `xs` carries key `k`. */
  predicate Occurs<T, K(==, !new)>(xs: seq<T>, key: T -> K, k: K) {
    exists i :: 0 <= i < |xs| && key(xs[i]) == k
  }

  lemma OccursSnoc<T, K(!new)>(xs: seq<T>, x: T, key: T -> K, k: K)
    ensures Occurs(xs + [x], key, k) <==> Occurs(xs, key, k) || key(x) == k
  {
    var ys := xs + [x];
    if Occurs(ys, key, k) {
      var i :| 0 <= i < |ys| && key(ys[i]) == k;
      if i < |xs| {
        assert key(xs[i]) == k;
      }
    }
    if Occurs(xs, key, k) {
      var i :| 0 <= i < |xs| && key(xs[i]) == k;
      assert ys[i] == xs[i];
    }
    if key(x) == k {
      assert ys[|xs|] == x;
    }
  }

  /** The group keys, in first-seen order: scanning the input, a key is
      appended when it has not been seen before. */
  function Keys<T, K(==, !new)>(xs: seq<T>, key: T -> K): (ks: seq<K>)
    ensures forall k :: k in ks <==> Occurs(xs, key, k)
    ensures Distinct(ks)
    decreases |xs|
  {
    if xs == [] then []
    else
      var front, last := xs[..|xs| - 1], xs[|xs| - 1];
      assert xs == front + [last];
      var ks := Keys(front, key);
      var k := key(last);
      OccursSnoc(front, last, key, k);
      assert forall k' :: Occurs(xs, key, k') <==> Occurs(front, key, k') || k == k' by {
        forall k' ensures Occurs(xs, key, k') <==> Occurs(front, key, k') || k == k' {
          OccursSnoc(front, last, key, k');
        }
      }
      if k in ks then ks else ks + [k]
  }

  lemma KeysSnoc<T, K(!new)>(xs: seq<T>, x: T, key: T -> K)
    ensures Keys(xs + [x], key)
         == if key(x) in Keys(xs, key) then Keys(xs, key) else Keys(xs, key) + [key(x)]
  {
    assert (xs + [x])[..|xs|] == xs;
  }

  /** The position of the first element carrying `k`, or `|xs|` when there is none. */
  function FirstIndex<T, K(==, !new)>(xs: seq<T>, key: T -> K, k: K): (i: nat)
    ensures i <= |xs|
    ensures i < |xs| <==> Occurs(xs, key, k)
    ensures i < |xs| ==> key(xs[i]) == k
    ensures forall j :: 0 <= j < i ==> key(xs[j]) != k
    decreases |xs|
  {
    if xs == [] then 0
    else if key(xs[0]) == k then 0
    else
      var i := 1 + FirstIndex(xs[1..], key, k);
      assert forall j :: 1 <= j < |xs| ==> xs[j] == xs[1..][j - 1];
      assert Occurs(xs, key, k) ==> Occurs(xs[1..], key, k) by {
        if Occurs(xs, key, k) {
          var j :| 0 <= j < |xs| && key(xs[j]) == k;
          assert key(xs[1..][j - 1]) == k;
        }
      }
      i
  }

  /** A key already seen in a prefix has the same first position in the whole. */
  lemma FirstIndexSnoc<T, K(!new)>(xs: seq<T>, x: T, key: T -> K, k: K)
    ensures FirstIndex(xs + [x], key, k)
         == if Occurs(xs, key, k) then FirstIndex(xs, key, k)
            else if key(x) == k then |xs| else |xs| + 1
  {
    var ys := xs + [x];
    var i, j := FirstIndex(xs, key, k), FirstIndex(ys, key, k);
    OccursSnoc(xs, x, key, k);
    assert forall m :: 0 <= m < |xs| ==> ys[m] == xs[m];
    if Occurs(xs, key, k) {
      assert key(ys[i]) == k;
      assert j <= i;
      assert j < |xs|;
      assert key(xs[j]) == k;
    } else if key(x) == k {
      assert key(ys[|xs|]) == k;
    }
  }

  /** In the key order, every key is first seen before the keys that follow it. */
  lemma {:induction false} KeysFirstSeen<T, K(!new)>(xs: seq<T>, key: T -> K)
    ensures var ks := Keys(xs, key);
      forall i, j :: 0 <= i < j < |ks| ==> FirstIndex(xs, key, ks[i]) < FirstIndex(xs, key, ks[j])
    decreases |xs|
  {
    if xs != [] {
      var front, last := xs[..|xs| - 1], xs[|xs| - 1];
      assert xs == front + [last];
      KeysFirstSeen(front, key);
      KeysSnoc(front, last, key);
      var ks, ks' := Keys(front, key), Keys(xs, key);
      forall k | k in ks
        ensures FirstIndex(xs, key, k) == FirstIndex(front, key, k) < |front|
      {
        FirstIndexSnoc(front, last, key, k);
      }
      if key(last) !in ks {
        FirstIndexSnoc(front, last, key, key(last));
        assert ks' == ks + [key(last)];
        forall i, j | 0 <= i < j < |ks'|
          ensures FirstIndex(xs, key, ks'[i]) < FirstIndex(xs, key, ks'[j])
        {
          assert ks'[i] == ks[i];
          if j < |ks| {
            assert ks'[j] == ks[j];
          }
        }
      }
    }
  }

  lemma KeysFirstSeenAt<T, K(!new)>(xs: seq<T>, key: T -> K, i: nat, j: nat)
    requires i < j < |Keys(xs, key)|
    ensures FirstIndex(xs, key, Keys(xs, key)[i]) < FirstIndex(xs, key, Keys(xs, key)[j])
  {
    KeysFirstSeen(xs, key);
  }

  /** The members of group `k`: the elements carrying key `k`, in input order. */
  function Members<T(!new), K(==, !new)>(xs: seq<T>, key: T -> K, k: K): (ms: seq<T>)
    ensures |ms| > 0 <==> Occurs(xs, key, k)
  {
    var ms := Filter(xs, x => key(x) == k);
    FilterSpec(xs, x => key(x) == k);
    assert Occurs(xs, key, k) ==> |ms| > 0 by {
      if Occurs(xs, key, k) {
        var i :| 0 <= i < |xs| && key(xs[i]) == k;
        assert xs[i] in ms;
      }
    }
    assert |ms| > 0 ==> Occurs(xs, key, k) by {
      if |ms| > 0 {
        assert ms[0] in xs;
        var i :| 0 <= i < |xs| && xs[i] == ms[0];
      }
    }
    ms
  }

  /** A group holds exactly the elements carrying its key, each as often as
      the input has it, in input order. */
  lemma MembersSpec<T(!new), K(!new)>(xs: seq<T>, key: T -> K, k: K)
    ensures var ms := Members(xs, key, k);
      && (forall x :: x in ms <==> x in xs && key(x) == k)
      && (forall x :: multiset(ms)[x] == if key(x) == k then multiset(xs)[x] else 0)
      && IsSubsequence(ms, xs)
  {
    FilterSpec(xs, x => key(x) == k);
  }

  lemma MembersSnoc<T(!new), K(!new)>(xs: seq<T>, x: T, key: T -> K, k: K)
    ensures Members(xs + [x], key, k) == Members(xs, key, k) + (if key(x) == k then [x] else [])
  {
    FilterSnoc(xs, x, y => key(y) == k);
  }

  /** When every element carries the same key, there is one group holding all of them. */
  lemma SingleGroup<T(!new), K(!new)>(xs: seq<T>, key: T -> K, k: K)
    requires |xs| > 0
    requires forall i :: 0 <= i < |xs| ==> key(xs[i]) == k
    ensures Keys(xs, key) == [k]
    ensures Members(xs, key, k) == xs
  {
    var ks := Keys(xs, key);
    assert Occurs(xs, key, k) by {
      assert key(xs[0]) == k;
    }
    assert k in ks;
    forall k' | k' in ks ensures k' == k {
      var i :| 0 <= i < |xs| && key(xs[i]) == k';
    }
    assert |ks| == 1;
    assert ks == [k];
    FilterKeepsAll(xs, y => key(y) == k);
  }
}
