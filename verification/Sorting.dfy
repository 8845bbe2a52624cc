/** The stable sort behind every `sort_by` and `sort_by_key` of the program, as
    insertion from the right, with the algebra its callers rely on. */
module Sorting {
  import opened Prelude

  function Insert<T>(x: T, s: seq<T>, le: (T, T) -> bool): seq<T> {
    if s == [] then [x]
    else if le(x, s[0]) then [x] + s
    else [s[0]] + Insert(x, s[1..], le)
  }

  function Sort<T>(s: seq<T>, le: (T, T) -> bool): seq<T> {
    if s == [] then [] else Insert(s[0], Sort(s[1..], le), le)
  }

  ghost predicate Sorted<T>(s: seq<T>, le: (T, T) -> bool) {
    forall i, j :: 0 <= i < j < |s| ==> le(s[i], s[j])
  }

  ghost predicate TotalPreorder<T(!new)>(le: (T, T) -> bool) {
    && (forall x, y :: le(x, y) || le(y, x))
    && (forall x, y, z :: le(x, y) && le(y, z) ==> le(x, z))
  }

  lemma {:induction false} InsertMultiset<T>(x: T, s: seq<T>, le: (T, T) -> bool)
    ensures multiset(Insert(x, s, le)) == multiset(s) + multiset{x}
  {
    if s != [] {
      assert s == [s[0]] + s[1..];
      if !le(x, s[0]) {
        InsertMultiset(x, s[1..], le);
      }
    }
  }

  /** Sorting only permutes. */
  lemma {:induction false} SortMultiset<T>(s: seq<T>, le: (T, T) -> bool)
    ensures multiset(Sort(s, le)) == multiset(s)
    ensures |Sort(s, le)| == |s|
  {
    if s != [] {
      assert s == [s[0]] + s[1..];
      SortMultiset(s[1..], le);
      InsertMultiset(s[0], Sort(s[1..], le), le);
    }
    assert |multiset(Sort(s, le))| == |Sort(s, le)|;
  }

  lemma InSort<T>(s: seq<T>, le: (T, T) -> bool, x: T)
    ensures x in Sort(s, le) <==> x in s
  {
    SortMultiset(s, le);
    assert x in Sort(s, le) <==> x in multiset(Sort(s, le));
    assert x in s <==> x in multiset(s);
  }

  lemma {:induction false} InsertSorted<T(!new)>(x: T, s: seq<T>, le: (T, T) -> bool)
    requires TotalPreorder(le) && Sorted(s, le)
    ensures Sorted(Insert(x, s, le), le)
  {
    if s != [] && !le(x, s[0]) {
      InsertSorted(x, s[1..], le);
      var t := Insert(x, s[1..], le);
      InsertMultiset(x, s[1..], le);
      forall y | y in t ensures le(s[0], y) {
        assert y in multiset(t);
        assert y == x || y in s[1..];
      }
    } else if s != [] {
      forall y | y in s ensures le(x, y) {
        var i :| 0 <= i < |s| && s[i] == y;
        assert i == 0 || le(s[0], s[i]);
      }
    }
  }

  lemma {:induction false} SortSorted<T(!new)>(s: seq<T>, le: (T, T) -> bool)
    requires TotalPreorder(le)
    ensures Sorted(Sort(s, le), le)
  {
    if s != [] {
      SortSorted(s[1..], le);
      InsertSorted(s[0], Sort(s[1..], le), le);
    }
  }

  /** A sorted list is a fixed point. */
  lemma {:induction false} SortFixed<T>(s: seq<T>, le: (T, T) -> bool)
    requires Sorted(s, le)
    ensures Sort(s, le) == s
  {
    if s != [] {
      SortFixed(s[1..], le);
      assert s == [s[0]] + s[1..];
      assert |s| > 1 ==> le(s[0], s[1]);
    }
  }

  /** Only the order of the elements present matters. */
  lemma {:induction false} SortAgrees<T>(s: seq<T>, le1: (T, T) -> bool, le2: (T, T) -> bool)
    requires forall x, y :: x in s && y in s ==> le1(x, y) == le2(x, y)
    ensures Sort(s, le1) == Sort(s, le2)
  {
    if s != [] {
      SortAgrees(s[1..], le1, le2);
      var t := Sort(s[1..], le1);
      forall y | y in t ensures y in s { InSort(s[1..], le1, y); }
      InsertAgrees(s[0], t, le1, le2);
    }
  }

  lemma {:induction false} InsertAgrees<T>(x: T, s: seq<T>, le1: (T, T) -> bool, le2: (T, T) -> bool)
    requires forall y :: y in s ==> le1(x, y) == le2(x, y)
    ensures Insert(x, s, le1) == Insert(x, s, le2)
  {
    if s != [] {
      InsertAgrees(x, s[1..], le1, le2);
    }
  }

  lemma {:induction false} InsertFilter<T(!new)>(x: T, s: seq<T>, le: (T, T) -> bool, p: T -> bool)
    requires TotalPreorder(le) && Sorted(s, le)
    ensures Filter(Insert(x, s, le), p) == if p(x) then Insert(x, Filter(s, p), le) else Filter(s, p)
  {
    if s == [] {
    } else if le(x, s[0]) {
      assert ([x] + s)[1..] == s;
      var f := Filter(s, p);
      if f != [] {
        InFilter(s, p, f[0]);
        var i :| 0 <= i < |s| && s[i] == f[0];
        assert i == 0 || le(s[0], s[i]);
        assert le(x, f[0]);
      }
    } else {
      InsertFilter(x, s[1..], le, p);
      assert ([s[0]] + Insert(x, s[1..], le))[1..] == Insert(x, s[1..], le);
      if p(s[0]) {
        assert ([s[0]] + Filter(s[1..], p))[1..] == Filter(s[1..], p);
      } else if p(x) {
        // s[0] disappears from both sides
      }
    }
  }

  /** Stability: sorting and then keeping some elements is keeping them and then sorting.
      With `p` a class of equal elements this says that ties keep their order. */
  lemma {:induction false} SortFilter<T(!new)>(s: seq<T>, le: (T, T) -> bool, p: T -> bool)
    requires TotalPreorder(le)
    ensures Filter(Sort(s, le), p) == Sort(Filter(s, p), le)
  {
    if s != [] {
      SortFilter(s[1..], le, p);
      SortSorted(s[1..], le);
      InsertFilter(s[0], Sort(s[1..], le), le, p);
      if p(s[0]) {
        assert ([s[0]] + Filter(s[1..], p))[1..] == Filter(s[1..], p);
      }
    }
  }

  /** Sorting the images is taking the images of the list sorted by the pulled-back order. */
  lemma {:induction false} SortMap<T, U>(s: seq<T>, f: T -> U, le: (U, U) -> bool, leT: (T, T) -> bool)
    requires forall x, y :: x in s && y in s ==> leT(x, y) == le(f(x), f(y))
    ensures Sort(Map(s, f), le) == Map(Sort(s, leT), f)
  {
    if s != [] {
      SortMap(s[1..], f, le, leT);
      var t := Sort(s[1..], leT);
      forall y | y in t ensures y in s { InSort(s[1..], leT, y); }
      InsertMap(s[0], t, f, le, leT);
      assert Map(s, f)[1..] == Map(s[1..], f);
    }
  }

  lemma {:induction false} InsertMap<T, U>(x: T, s: seq<T>, f: T -> U, le: (U, U) -> bool, leT: (T, T) -> bool)
    requires forall y :: y in s ==> leT(x, y) == le(f(x), f(y))
    ensures Insert(f(x), Map(s, f), le) == Map(Insert(x, s, leT), f)
  {
    if s != [] {
      assert Map(s, f)[1..] == Map(s[1..], f);
      if leT(x, s[0]) {
        assert ([x] + s)[1..] == s;
      } else {
        InsertMap(x, s[1..], f, le, leT);
        assert ([s[0]] + Insert(x, s[1..], leT))[1..] == Insert(x, s[1..], leT);
      }
    }
  }

  /** Two sorted arrangements of the same elements are equal when no two distinct elements tie. */
  lemma {:induction false} SortedUnique<T>(a: seq<T>, b: seq<T>, le: (T, T) -> bool)
    requires Sorted(a, le) && Sorted(b, le) && multiset(a) == multiset(b)
    requires forall x, y :: x in a && y in a && le(x, y) && le(y, x) ==> x == y
    ensures a == b
  {
    if a == [] {
      assert |multiset(b)| == 0;
    } else {
      SameHead(a, b, le);
      assert a == [a[0]] + a[1..] && b == [b[0]] + b[1..];
      assert multiset(a[1..]) == multiset(a) - multiset{a[0]};
      SortedUnique(a[1..], b[1..], le);
    }
  }

  lemma SameHead<T>(a: seq<T>, b: seq<T>, le: (T, T) -> bool)
    requires a != [] && Sorted(a, le) && Sorted(b, le) && multiset(a) == multiset(b)
    requires forall x, y :: x in a && y in a && le(x, y) && le(y, x) ==> x == y
    ensures b != [] && a[0] == b[0]
  {
    assert a[0] in multiset(b);
    var j :| 0 <= j < |b| && b[j] == a[0];
    assert b[0] in multiset(a);
    var i :| 0 <= i < |a| && a[i] == b[0];
    assert i > 0 ==> le(a[0], a[i]);
    assert j > 0 ==> le(b[0], b[j]);
  }
}
