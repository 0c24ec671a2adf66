/** Generic sequence functions shared by the providers, the store and the generators. */
module Seqs {
  /** The elements that `keep` accepts, in order. */
  function Filter<X>(xs: seq<X>, keep: X -> bool): (r: seq<X>)
    ensures |r| <= |xs|
  {
    if |xs| == 0 then []
    else (if keep(xs[0]) then [xs[0]] else []) + Filter(xs[1..], keep)
  }

  /** Filter keeps exactly the accepted elements. */
  lemma {:induction false} FilterMembers<X>(xs: seq<X>, keep: X -> bool)
    ensures forall x :: x in Filter(xs, keep) <==> x in xs && keep(x)
  {
    if |xs| > 0 {
      FilterMembers(xs[1..], keep);
      assert forall x :: x in xs <==> x == xs[0] || x in xs[1..];
    }
  }

  lemma {:induction false} FilterAppend<X>(a: seq<X>, b: seq<X>, keep: X -> bool)
    ensures Filter(a + b, keep) == Filter(a, keep) + Filter(b, keep)
    decreases |a|
  {
    if |a| == 0 {
      assert a + b == b;
    } else {
      var head := if keep(a[0]) then [a[0]] else [];
      FilterAppend(a[1..], b, keep);
      assert (a + b)[0] == a[0];
      assert (a + b)[1..] == a[1..] + b;
      calc {
        Filter(a + b, keep);
        head + Filter(a[1..] + b, keep);
        head + (Filter(a[1..], keep) + Filter(b, keep));
        (head + Filter(a[1..], keep)) + Filter(b, keep);
      }
    }
  }

  /** The total weight of a sequence, e.g. the notifications each element causes. */
  function Sum<X>(xs: seq<X>, weight: X -> nat): nat
  {
    if |xs| == 0 then 0 else weight(xs[0]) + Sum(xs[1..], weight)
  }

  lemma {:induction false} SumAppend<X>(a: seq<X>, b: seq<X>, weight: X -> nat)
    ensures Sum(a + b, weight) == Sum(a, weight) + Sum(b, weight)
  {
    if |a| == 0 {
      assert a + b == b;
    } else {
      SumAppend(a[1..], b, weight);
      assert (a + b)[1..] == a[1..] + b;
    }
  }

  /** A weighted sum is positive exactly when some element has positive weight. */
  lemma {:induction false} SumPositive<X>(xs: seq<X>, weight: X -> nat)
    ensures Sum(xs, weight) > 0 <==> exists i :: 0 <= i < |xs| && weight(xs[i]) > 0
  {
    if |xs| > 0 {
      SumPositive(xs[1..], weight);
      if Sum(xs[1..], weight) > 0 {
        var i :| 0 <= i < |xs[1..]| && weight(xs[1..][i]) > 0;
        assert weight(xs[i + 1]) > 0;
      }
      if exists i :: 0 <= i < |xs| && weight(xs[i]) > 0 {
        var i :| 0 <= i < |xs| && weight(xs[i]) > 0;
        if i > 0 {
          assert weight(xs[1..][i - 1]) > 0;
        }
      }
    }
  }

  /** Prefixes never accept more than the whole. */
  lemma FilterPrefixLength<X>(xs: seq<X>, n: nat, keep: X -> bool)
    requires n <= |xs|
    ensures |Filter(xs[..n], keep)| <= |Filter(xs, keep)|
  {
    assert xs == xs[..n] + xs[n..];
    FilterAppend(xs[..n], xs[n..], keep);
  }

  /** Accepting one more element grows the accepted list by at most one. */
  lemma FilterStep<X>(xs: seq<X>, m: nat, keep: X -> bool)
    requires m < |xs|
    ensures |Filter(xs[..m + 1], keep)| <= |Filter(xs[..m], keep)| + 1
  {
    assert xs[..m + 1] == xs[..m] + [xs[m]];
    FilterAppend(xs[..m], [xs[m]], keep);
  }

  /** Filtering a consed sequence looks at the head, then the rest. */
  lemma FilterCons<X>(x: X, xs: seq<X>, keep: X -> bool)
    ensures Filter([x] + xs, keep) == (if keep(x) then [x] else []) + Filter(xs, keep)
  {
    assert ([x] + xs)[0] == x && ([x] + xs)[1..] == xs;
  }

  /** The first position from `from` on whose element `p` accepts, or |xs| when there is none. */
  function FirstIndex<X>(xs: seq<X>, p: X -> bool, from: nat): (r: nat)
    requires from <= |xs|
    ensures from <= r <= |xs|
    ensures forall j :: from <= j < r ==> !p(xs[j])
    ensures r < |xs| ==> p(xs[r])
    decreases |xs| - from
  {
    if from == |xs| then from
    else if p(xs[from]) then from
    else FirstIndex(xs, p, from + 1)
  }

  // ---------------------------------------------------------------- partition by a predicate

  /** How many elements `p` accepts. */
  function Count<X>(xs: seq<X>, p: X -> bool): (r: nat)
    ensures r <= |xs|
  {
    if |xs| == 0 then 0 else (if p(xs[0]) then 1 else 0) + Count(xs[1..], p)
  }

  function Not<X>(p: X -> bool): X -> bool
  {
    x => !p(x)
  }

  /** No accepted element follows a rejected one. */
  predicate Partitioned<X>(xs: seq<X>, p: X -> bool)
  {
    forall i, j :: 0 <= i < j < |xs| && p(xs[j]) ==> p(xs[i])
  }

  /** The first Count elements are all accepted. */
  predicate AcceptedPrefix<X>(xs: seq<X>, p: X -> bool)
  {
    forall i :: 0 <= i < Count(xs, p) ==> p(xs[i])
  }

  lemma {:induction false} NoneAccepted<X>(xs: seq<X>, p: X -> bool)
    ensures Count(xs, p) == 0 <==> forall i :: 0 <= i < |xs| ==> !p(xs[i])
    ensures Count(xs, p) == 0 ==> Filter(xs, Not(p)) == xs
    decreases |xs|
  {
    if |xs| > 0 {
      NoneAccepted(xs[1..], p);
      assert forall i :: 1 <= i < |xs| ==> xs[i] == xs[1..][i - 1];
    }
  }

  /**
   * A sequence is partitioned exactly when its first Count elements are
   * accepted, and then the rest is what the complement keeps.
   */
  lemma {:induction false} PartitionedIffAcceptedPrefix<X>(xs: seq<X>, p: X -> bool)
    ensures Partitioned(xs, p) <==> AcceptedPrefix(xs, p)
    ensures Partitioned(xs, p) ==> xs[Count(xs, p)..] == Filter(xs, Not(p))
    decreases |xs|
  {
    if |xs| > 0 {
      var t := xs[1..];
      PartitionedIffAcceptedPrefix(t, p);
      NoneAccepted(t, p);
      if p(xs[0]) {
        if Partitioned(xs, p) {
          forall i, j | 0 <= i < j < |t| && p(t[j]) ensures p(t[i]) {
            assert xs[i + 1] == t[i] && xs[j + 1] == t[j];
          }
          assert xs[Count(xs, p)..] == t[Count(t, p)..];
        }
        if AcceptedPrefix(xs, p) {
          forall i | 0 <= i < Count(t, p) ensures p(t[i]) {
            assert t[i] == xs[i + 1];
          }
          forall i, j | 0 <= i < j < |xs| && p(xs[j]) ensures p(xs[i]) {
            if i > 0 {
              assert t[i - 1] == xs[i] && t[j - 1] == xs[j];
            }
          }
        }
      } else if Count(t, p) == 0 {
        assert forall j :: 1 <= j < |xs| ==> xs[j] == t[j - 1];
        assert xs == [xs[0]] + t;
      } else {
        var j :| 0 <= j < |t| && p(t[j]);
        assert xs[j + 1] == t[j];
      }
    }
  }

  // ---------------------------------------------------------------- stable insertion sort

  /** No element is ordered before another that is ordered before it. */
  ghost predicate Asymmetric<X(!new)>(before: (X, X) -> bool)
  {
    forall a, b :: before(a, b) ==> !before(b, a)
  }

  /** Adjacent elements are never out of order. */
  predicate SortedBy<X>(s: seq<X>, before: (X, X) -> bool)
  {
    forall i :: 0 <= i < |s| - 1 ==> !before(s[i + 1], s[i])
  }

  /** Inserts `x` in front of the first element it comes strictly before. */
  function InsertBy<X>(sorted: seq<X>, x: X, before: (X, X) -> bool): (r: seq<X>)
    ensures |r| == |sorted| + 1
  {
    if |sorted| == 0 then [x]
    else if before(x, sorted[0]) then [x] + sorted
    else [sorted[0]] + InsertBy(sorted[1..], x, before)
  }

  /** Inserting the elements in list order: the stable sort. */
  function SortBy<X>(xs: seq<X>, before: (X, X) -> bool): (r: seq<X>)
    ensures |r| == |xs|
  {
    if |xs| == 0 then []
    else InsertBy(SortBy(xs[..|xs| - 1], before), xs[|xs| - 1], before)
  }

  lemma {:induction false} InsertByPermutes<X>(sorted: seq<X>, x: X, before: (X, X) -> bool)
    ensures multiset(InsertBy(sorted, x, before)) == multiset(sorted) + multiset{x}
  {
    if |sorted| > 0 && !before(x, sorted[0]) {
      InsertByPermutes(sorted[1..], x, before);
      assert sorted == [sorted[0]] + sorted[1..];
    }
  }

  /** Sorting only reorders: the result is a permutation of the input. */
  lemma {:induction false} SortByPermutes<X>(xs: seq<X>, before: (X, X) -> bool)
    ensures multiset(SortBy(xs, before)) == multiset(xs)
  {
    if |xs| > 0 {
      SortByPermutes(xs[..|xs| - 1], before);
      InsertByPermutes(SortBy(xs[..|xs| - 1], before), xs[|xs| - 1], before);
      assert xs == xs[..|xs| - 1] + [xs[|xs| - 1]];
    }
  }

  lemma SortedByTail<X>(sorted: seq<X>, before: (X, X) -> bool)
    requires SortedBy(sorted, before) && |sorted| > 0
    ensures SortedBy(sorted[1..], before)
  {
    forall i | 0 <= i < |sorted[1..]| - 1
      ensures !before(sorted[1..][i + 1], sorted[1..][i])
    {
      assert sorted[1..][i] == sorted[i + 1];
    }
  }

  lemma {:induction false} InsertByKeepsSorted<X(!new)>(sorted: seq<X>, x: X, before: (X, X) -> bool)
    requires Asymmetric(before) && SortedBy(sorted, before)
    ensures SortedBy(InsertBy(sorted, x, before), before)
    ensures |sorted| > 0 ==> InsertBy(sorted, x, before)[0] == x || InsertBy(sorted, x, before)[0] == sorted[0]
  {
    var r := InsertBy(sorted, x, before);
    if |sorted| > 0 && before(x, sorted[0]) {
      forall i | 0 <= i < |r| - 1
        ensures !before(r[i + 1], r[i])
      {
        if i > 0 {
          assert r[i] == sorted[i - 1] && r[i + 1] == sorted[i];
        }
      }
    } else if |sorted| > 0 {
      SortedByTail(sorted, before);
      InsertByKeepsSorted(sorted[1..], x, before);
      forall i | 0 <= i < |r| - 1
        ensures !before(r[i + 1], r[i])
      {
        if i > 0 {
          assert r[i] == InsertBy(sorted[1..], x, before)[i - 1];
        }
      }
    }
  }

  /** With an asymmetric order the sort's output is ordered. */
  lemma {:induction false} SortBySorted<X(!new)>(xs: seq<X>, before: (X, X) -> bool)
    requires Asymmetric(before)
    ensures SortedBy(SortBy(xs, before), before)
  {
    if |xs| > 0 {
      SortBySorted(xs[..|xs| - 1], before);
      InsertByKeepsSorted(SortBy(xs[..|xs| - 1], before), xs[|xs| - 1], before);
    }
  }
}
