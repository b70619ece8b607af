/**
 What the library sorts deliver: the elements in ascending key order. Written as a stable insertion sort; when
 no two different elements share a key there is only one ascending rearrangement (SortUnique), so the choice
 of algorithm does not matter.
 */
module Sorting {
  import opened Combinatorics

  function Insert<T>(x: T, s: seq<T>, key: T -> real): (r: seq<T>)
    ensures |r| == |s| + 1
  {
    if s == [] || key(x) < key(s[0]) then [x] + s else [s[0]] + Insert(x, s[1..], key)
  }

  function Sort<T>(xs: seq<T>, key: T -> real): (r: seq<T>)
    ensures |r| == |xs|
  {
    if xs == [] then [] else Insert(xs[|xs| - 1], Sort(xs[..|xs| - 1], key), key)
  }

  ghost predicate Ascending<T>(s: seq<T>, key: T -> real) {
    forall i, j :: 0 <= i < j < |s| ==> key(s[i]) <= key(s[j])
  }

  lemma {:induction false} InsertContents<T>(x: T, s: seq<T>, key: T -> real)
    ensures multiset(Insert(x, s, key)) == multiset{x} + multiset(s)
  {
    if !(s == [] || key(x) < key(s[0])) {
      InsertContents(x, s[1..], key);
      assert s == [s[0]] + s[1..];
    }
  }

  lemma {:induction false} InsertAscending<T>(x: T, s: seq<T>, key: T -> real)
    requires Ascending(s, key)
    ensures Ascending(Insert(x, s, key), key)
  {
    if !(s == [] || key(x) < key(s[0])) {
      var rest := Insert(x, s[1..], key);
      InsertAscending(x, s[1..], key);
      InsertContents(x, s[1..], key);
      forall i | 0 <= i < |rest| ensures key(s[0]) <= key(rest[i]) {
        assert rest[i] in multiset(rest);
        assert rest[i] == x || rest[i] in s[1..];
      }
    }
  }

  lemma {:induction false} SortContents<T>(xs: seq<T>, key: T -> real)
    ensures multiset(Sort(xs, key)) == multiset(xs) && Ascending(Sort(xs, key), key)
  {
    hide Insert, Ascending;
    if xs == [] {
      NothingAscending(Sort(xs, key), key);
    } else {
      var front := xs[..|xs| - 1];
      SortContents(front, key);
      InsertContents(xs[|xs| - 1], Sort(front, key), key);
      InsertAscending(xs[|xs| - 1], Sort(front, key), key);
      assert xs == front + [xs[|xs| - 1]];
    }
  }

  lemma {:induction false} NothingAscending<T>(s: seq<T>, key: T -> real)
    requires s == []
    ensures Ascending(s, key)
  {
  }

  /** Elements with the same key are the same. */
  ghost predicate KeyDetermines<T>(s: seq<T>, key: T -> real) {
    forall i, j :: 0 <= i < |s| && 0 <= j < |s| && key(s[i]) == key(s[j]) ==> s[i] == s[j]
  }

  lemma {:induction false} TailContents<T>(s: seq<T>)
    requires s != []
    ensures multiset(s) == multiset{s[0]} + multiset(s[1..])
  {
    assert s == [s[0]] + s[1..];
  }

  lemma {:induction false} TailAscending<T>(s: seq<T>, key: T -> real)
    requires s != [] && Ascending(s, key)
    ensures Ascending(s[1..], key)
    ensures forall x :: x in s ==> key(s[0]) <= key(x)
  {
  }

  lemma {:induction false} TailDetermines<T>(s: seq<T>, key: T -> real)
    requires s != [] && KeyDetermines(s, key)
    ensures KeyDetermines(s[1..], key)
    ensures forall x, y :: x in s && y in s && key(x) == key(y) ==> x == y
  {
  }

  lemma {:induction false} CancelHead<T>(x: T, a: multiset<T>, b: multiset<T>)
    requires multiset{x} + a == multiset{x} + b
    ensures a == b
  {
    forall y ensures a[y] == b[y] {
      assert (multiset{x} + a)[y] == (multiset{x} + b)[y];
    }
  }

  /** There is only one ascending rearrangement. */
  lemma {:induction false} SortUnique<T>(a: seq<T>, b: seq<T>, key: T -> real)
    requires Ascending(a, key) && Ascending(b, key) && KeyDetermines(a, key)
    requires multiset(a) == multiset(b)
    ensures a == b
  {
    hide Ascending, KeyDetermines;
    assert |multiset(a)| == |a| && |multiset(b)| == |b|;
    if a != [] {
      TailContents(a);
      TailContents(b);
      TailAscending(a, key);
      TailAscending(b, key);
      TailDetermines(a, key);
      assert a[0] in multiset(a) && b[0] in multiset(b);
      assert a[0] in b && b[0] in a;
      CancelHead(a[0], multiset(a[1..]), multiset(b[1..]));
      SortUnique(a[1..], b[1..], key);
      assert a == [a[0]] + a[1..] && b == [b[0]] + b[1..];
    }
  }

  // Counting is not affected by sorting

  function Count<T>(s: seq<T>, p: T -> bool): (n: nat)
    ensures n <= |s|
  {
    if s == [] then 0 else Count(s[1..], p) + (if p(s[0]) then 1 else 0)
  }

  lemma {:induction false} CountConcat<T>(a: seq<T>, b: seq<T>, p: T -> bool)
    ensures Count(a + b, p) == Count(a, p) + Count(b, p)
  {
    if a == [] {
      assert a + b == b;
    } else {
      assert (a + b)[1..] == a[1..] + b;
      CountConcat(a[1..], b, p);
    }
  }

  lemma {:induction false} CountInsert<T>(x: T, s: seq<T>, key: T -> real, p: T -> bool)
    ensures Count(Insert(x, s, key), p) == Count(s, p) + (if p(x) then 1 else 0)
  {
    if s == [] || key(x) < key(s[0]) {
      assert ([x] + s)[1..] == s;
    } else {
      var r := Insert(x, s, key);
      assert r[1..] == Insert(x, s[1..], key);
      CountInsert(x, s[1..], key, p);
    }
  }

  lemma {:induction false} CountSort<T>(xs: seq<T>, key: T -> real, p: T -> bool)
    ensures Count(Sort(xs, key), p) == Count(xs, p)
  {
    if xs != [] {
      var front, x := xs[..|xs| - 1], xs[|xs| - 1];
      CountSort(front, key, p);
      CountInsert(x, Sort(front, key), key, p);
      CountConcat(front, [x], p);
      assert xs == front + [x];
      assert [x][1..] == [];
    }
  }

  lemma {:induction false} CountNone<T>(s: seq<T>, p: T -> bool)
    requires forall i :: 0 <= i < |s| ==> !p(s[i])
    ensures Count(s, p) == 0
  {
    if s != [] {
      CountNone(s[1..], p);
    }
  }

  /** A set of positions where p holds is no larger than the count. */
  lemma {:induction false} CountPositions<T>(s: seq<T>, p: T -> bool, positions: set<int>)
    requires forall i :: i in positions ==> 0 <= i < |s| && p(s[i])
    ensures |positions| <= Count(s, p)
  {
    if s == [] {
      assert forall i :: i !in positions;
      assert positions == {};
    } else {
      var front, n := s[..|s| - 1], |s| - 1;
      CountPositions(front, p, positions - {n});
      CountConcat(front, [s[n]], p);
      assert s == front + [s[n]];
      assert [s[n]][1..] == [];
      if n in positions {
        assert positions == (positions - {n}) + {n};
      } else {
        assert positions - {n} == positions;
      }
    }
  }

  // Permutations of lists without repetition

  lemma {:induction false} DistinctMultiset<T>(s: seq<T>)
    requires Distinct(s)
    ensures forall x :: multiset(s)[x] == if x in s then 1 else 0
  {
    if s != [] {
      var front, last := s[..|s| - 1], s[|s| - 1];
      DistinctMultiset(front);
      assert s == front + [last];
    }
  }

  lemma {:induction false} PermutedDistinct<T>(s: seq<T>, t: seq<T>)
    requires Distinct(s) && multiset(s) == multiset(t)
    ensures Distinct(t)
  {
    DistinctMultiset(s);
    forall i, j | 0 <= i < j < |t| ensures t[i] != t[j] {
      assert t == t[..j] + [t[j]] + t[j + 1..];
      assert t[..j][i] in multiset(t[..j]);
      assert t[i] == t[j] ==> multiset(t)[t[j]] >= 2;
    }
  }

  /** Two lists without repetition and with the same members are permutations of each other. */
  lemma {:induction false} SameMembers<T>(s: seq<T>, t: seq<T>)
    requires Distinct(s) && Distinct(t) && forall x :: x in s <==> x in t
    ensures multiset(s) == multiset(t)
  {
    DistinctMultiset(s);
    DistinctMultiset(t);
  }
}
