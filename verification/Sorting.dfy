/** Python's `sorted` on distinct values under a strict order. */
module Sorting {
  import opened Sequences

  /** `less` orders the members of `s` strictly and completely. */
  ghost predicate Orders<T(!new)>(less: (T, T) -> bool, s: set<T>) {
    && (forall x :: x in s ==> !less(x, x))
    && (forall x, y :: x in s && y in s && x != y ==> less(x, y) || less(y, x))
    && (forall x, y, z :: x in s && y in s && z in s && less(x, y) && less(y, z) ==> less(x, z))
  }

  ghost predicate SortedBy<T(!new)>(r: seq<T>, less: (T, T) -> bool) {
    forall i, j :: 0 <= i < j < |r| ==> less(r[i], r[j])
  }

  /** `r` lists the members of `s` in order. */
  ghost predicate Lists<T(!new)>(r: seq<T>, s: set<T>, less: (T, T) -> bool) {
    SortedBy(r, less) && forall x :: x in r <==> x in s
  }

  method Insert<T(==, !new)>(r: seq<T>, x: T, ghost s: set<T>, less: (T, T) -> bool) returns (r': seq<T>)
    requires Orders(less, s) && x in s && x !in r && SortedBy(r, less)
    requires forall y :: y in r ==> y in s
    ensures SortedBy(r', less)
    ensures forall y :: y in r' <==> y in r || y == x
  {
    var i := 0;
    while i < |r| && less(r[i], x)
      invariant 0 <= i <= |r|
      invariant forall j :: 0 <= j < i ==> less(r[j], x)
    {
      i := i + 1;
    }
    r' := r[..i] + [x] + r[i..];
    forall j | i <= j < |r|
      ensures less(x, r[j])
    {
      assert r[j] in r && r[i] in r;
      assert j > i ==> less(r[i], r[j]);
    }
    forall a, b | 0 <= a < b < |r'|
      ensures less(r'[a], r'[b])
    {
      var a', b' := if a < i then a else a - 1, if b < i then b else b - 1;
      assert a != i ==> r'[a] == r[a'];
      assert b != i ==> r'[b] == r[b'];
    }
  }

  method SortSet<T(==, !new)>(s: set<T>, less: (T, T) -> bool) returns (r: seq<T>)
    requires Orders(less, s)
    ensures Lists(r, s, less)
  {
    r := [];
    var rest := s;
    while rest != {}
      invariant rest <= s
      invariant SortedBy(r, less)
      invariant forall x :: x in r <==> x in s && x !in rest
      decreases rest
    {
      var x :| x in rest;
      r := Insert(r, x, s, less);
      rest := rest - {x};
    }
  }

  lemma ListsNoRepeats<T(!new)>(r: seq<T>, s: set<T>, less: (T, T) -> bool)
    requires Orders(less, s) && Lists(r, s, less)
    ensures NoRepeats(r)
  {
    forall i, j | 0 <= i < j < |r|
      ensures r[i] != r[j]
    {
      assert less(r[i], r[j]) && r[i] in r;
    }
  }

  lemma {:induction false} ListsSize<T(!new)>(r: seq<T>, s: set<T>, less: (T, T) -> bool)
    requires Orders(less, s) && Lists(r, s, less)
    ensures |r| == |s|
    decreases |r|
  {
    if |r| > 0 {
      RestLists(r, s, less);
      ListsSize(r[1..], s - {r[0]}, less);
    } else {
      assert s == {};
    }
  }

  /** There is only one way to list a set in order. */
  lemma {:induction false} ListsUnique<T(!new)>(a: seq<T>, b: seq<T>, s: set<T>, less: (T, T) -> bool)
    requires Orders(less, s) && Lists(a, s, less) && Lists(b, s, less)
    ensures a == b
    decreases |s|
  {
    if s != {} {
      FirstIsLeast(a, s, less);
      FirstIsLeast(b, s, less);
      assert a[0] in a && b[0] in b;
      assert a[0] == b[0];
      RestLists(a, s, less);
      RestLists(b, s, less);
      ListsUnique(a[1..], b[1..], s - {a[0]}, less);
      assert a == [a[0]] + a[1..] && b == [b[0]] + b[1..];
    } else if |a| > 0 {
      FirstIsIn(a);
    } else if |b| > 0 {
      FirstIsIn(b);
    }
  }

  lemma FirstIsIn<T>(a: seq<T>)
    requires |a| > 0
    ensures a[0] in a
  {
  }

  lemma FirstIsLeast<T(!new)>(a: seq<T>, s: set<T>, less: (T, T) -> bool)
    requires Orders(less, s) && Lists(a, s, less) && s != {}
    ensures |a| > 0 && a[0] in s && forall x :: x in s && x != a[0] ==> less(a[0], x) && !less(x, a[0])
  {
    var y :| y in s;
    assert y in a;
    forall x | x in s && x != a[0]
      ensures less(a[0], x) && !less(x, a[0])
    {
      var i :| 0 <= i < |a| && a[i] == x;
      assert less(a[0], a[i]);
      assert a[0] in a;
    }
  }

  lemma RestLists<T(!new)>(a: seq<T>, s: set<T>, less: (T, T) -> bool)
    requires Orders(less, s) && Lists(a, s, less) && |a| > 0
    ensures Lists(a[1..], s - {a[0]}, less) && Orders(less, s - {a[0]}) && a[0] in s
  {
    var t := a[1..];
    assert a == [a[0]] + t;
    assert a[0] in a;
    forall x
      ensures x in t <==> x in s - {a[0]}
    {
      if x in t {
        var i :| 0 <= i < |t| && t[i] == x;
        assert less(a[0], a[i + 1]);
      }
    }
  }

  /** Distinct values listed twice over the same set are the same multiset. */
  lemma {:induction false} SameMultiset<T(!new)>(a: seq<T>, b: seq<T>)
    requires NoRepeats(a) && NoRepeats(b) && forall x :: x in a <==> x in b
    ensures multiset(a) == multiset(b)
  {
    forall x
      ensures multiset(a)[x] == multiset(b)[x]
    {
      CountsOnce(a, x);
      CountsOnce(b, x);
    }
  }

  lemma {:induction false} CountsOnce<T(!new)>(a: seq<T>, x: T)
    requires NoRepeats(a)
    ensures multiset(a)[x] == if x in a then 1 else 0
  {
    if |a| > 0 {
      var n := |a| - 1;
      assert a == a[..n] + [a[n]];
      CountsOnce(a[..n], x);
    }
  }
}
