/** Counting facts about finite sequences and sets of indices. */
module Combinatorics {

  predicate Distinct<T(==)>(s: seq<T>) {
    forall i, j :: 0 <= i < j < |s| ==> s[i] != s[j]
  }

  function Range(n: nat): (r: set<int>)
    ensures forall i :: i in r <==> 0 <= i < n
    ensures |r| == n
  {
    if n == 0 then {} else Range(n - 1) + {n - 1}
  }

  ghost function Elements<T>(s: seq<T>): (r: set<T>) {
    set x | x in s
  }

  lemma {:induction false} DistinctSize<T>(s: seq<T>)
    requires Distinct(s)
    ensures |Elements(s)| == |s|
  {
    if |s| > 0 {
      var front := s[..|s| - 1];
      DistinctSize(front);
      assert Elements(s) == Elements(front) + {s[|s| - 1]};
    }
  }

  /** A set of naturals below n has at most n members. */
  lemma {:induction false} BoundedSize(s: set<int>, n: nat)
    requires s <= Range(n)
    ensures |s| <= n
  {
    SubsetSize(s, Range(n));
  }

  lemma {:induction false} SubsetSize<T>(a: set<T>, b: set<T>)
    requires a <= b
    ensures |a| <= |b|
    ensures |a| == |b| ==> a == b
  {
    assert b == a + (b - a);
    assert |b| == |a| + |b - a|;
    if |a| == |b| {
      assert b - a == {};
    }
  }

  /** n distinct indices below n are all of 0..n-1. */
  lemma {:induction false} Pigeonhole(s: seq<int>)
    requires Distinct(s)
    requires forall i :: 0 <= i < |s| ==> 0 <= s[i] < |s|
    ensures forall v :: 0 <= v < |s| ==> v in s
  {
    DistinctSize(s);
    SubsetSize(Elements(s), Range(|s|));
    forall v | 0 <= v < |s| ensures v in s {
      assert v in Elements(s);
    }
  }

  /** Inclusion-exclusion: two sets of positions below n overlap in at least |a| + |b| - n of them. */
  lemma {:induction false} Overlap(a: set<int>, b: set<int>, n: nat)
    requires a <= Range(n) && b <= Range(n)
    ensures |a * b| >= |a| + |b| - n
  {
    assert |a + b| == |a| + |b| - |a * b|;
    BoundedSize(a + b, n);
  }
}
