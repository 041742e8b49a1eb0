/** Python's sorted: a stable sort under a total preorder. */
module Sorting {
  import opened Sequences

  ghost predicate TotalPreorder<T(!new)>(le: (T, T) -> bool) {
    && (forall a, b :: le(a, b) || le(b, a))
    && (forall a, b, c :: le(a, b) && le(b, c) ==> le(a, c))
  }

  ghost predicate IsSorted<T>(le: (T, T) -> bool, s: seq<T>) {
    forall i, j :: 0 <= i < j < |s| ==> le(s[i], s[j])
  }

  /** Puts x behind every element it does not precede. */
  function Insert<T>(le: (T, T) -> bool, s: seq<T>, x: T): seq<T> {
    if s == [] || le(s[|s| - 1], x) then s + [x]
    else Insert(le, s[..|s| - 1], x) + [s[|s| - 1]]
  }

  function Sort<T>(le: (T, T) -> bool, s: seq<T>): seq<T> {
    if s == [] then [] else Insert(le, Sort(le, s[..|s| - 1]), s[|s| - 1])
  }

  lemma {:induction false} InsertPermutes<T>(le: (T, T) -> bool, s: seq<T>, x: T)
    ensures multiset(Insert(le, s, x)) == multiset(s) + multiset{x}
  {
    if s != [] {
      InsertPermutes(le, s[..|s| - 1], x);
      assert s == s[..|s| - 1] + [s[|s| - 1]];
    }
  }

  lemma {:induction false} SortPermutes<T>(le: (T, T) -> bool, s: seq<T>)
    ensures multiset(Sort(le, s)) == multiset(s)
  {
    hide Insert;
    if s != [] {
      SortPermutes(le, s[..|s| - 1]);
      InsertPermutes(le, Sort(le, s[..|s| - 1]), s[|s| - 1]);
      assert s == s[..|s| - 1] + [s[|s| - 1]];
    }
  }

  lemma SortMember<T>(le: (T, T) -> bool, s: seq<T>, x: T)
    ensures x in Sort(le, s) <==> x in s
    ensures |Sort(le, s)| == |s|
  {
    hide Sort;
    SortPermutes(le, s);
    assert x in s <==> x in multiset(s);
    assert |s| == |multiset(s)| && |Sort(le, s)| == |multiset(Sort(le, s))|;
  }

  lemma {:induction false} InsertMember<T>(le: (T, T) -> bool, s: seq<T>, x: T, y: T)
    ensures y in Insert(le, s, x) <==> y in s || y == x
  {
    if s != [] {
      InsertMember(le, s[..|s| - 1], x, y);
      assert s == s[..|s| - 1] + [s[|s| - 1]];
    }
  }

  /** In a sorted list everything precedes what the last element precedes. */
  lemma AllBefore<T(!new)>(le: (T, T) -> bool, s: seq<T>, x: T, i: nat)
    requires TotalPreorder(le) && IsSorted(le, s) && i < |s| && le(s[|s| - 1], x)
    ensures le(s[i], x)
  {
  }

  lemma {:induction false} InsertSorted<T(!new)>(le: (T, T) -> bool, s: seq<T>, x: T)
    requires TotalPreorder(le) && IsSorted(le, s)
    ensures IsSorted(le, Insert(le, s, x))
  {
    hide TotalPreorder;
    if s == [] || le(s[|s| - 1], x) {
      forall i | 0 <= i < |s|
        ensures le(s[i], x)
      {
        AllBefore(le, s, x, i);
      }
    } else {
      var front, last := s[..|s| - 1], s[|s| - 1];
      InsertSorted(le, front, x);
      var r := Insert(le, front, x);
      forall i | 0 <= i < |r|
        ensures le(r[i], last)
      {
        InsertMember(le, front, x, r[i]);
        NotBefore(le, last, x);
        if r[i] != x {
          var j :| 0 <= j < |front| && front[j] == r[i];
          assert le(s[j], s[|s| - 1]);
        }
      }
    }
  }

  lemma NotBefore<T(!new)>(le: (T, T) -> bool, a: T, b: T)
    requires TotalPreorder(le)
    ensures !le(a, b) ==> le(b, a)
  {
  }

  lemma {:induction false} SortSorted<T(!new)>(le: (T, T) -> bool, s: seq<T>)
    requires TotalPreorder(le)
    ensures IsSorted(le, Sort(le, s))
  {
    hide TotalPreorder, Insert;
    if s != [] {
      SortSorted(le, s[..|s| - 1]);
      InsertSorted(le, Sort(le, s[..|s| - 1]), s[|s| - 1]);
    }
  }

  /** Inserting and filtering commute on a sorted list. */
  lemma {:induction false} InsertFilter<T(!new)>(le: (T, T) -> bool, keep: T -> bool, s: seq<T>, x: T)
    requires TotalPreorder(le) && IsSorted(le, s)
    ensures Filter(keep, Insert(le, s, x)) == if keep(x) then Insert(le, Filter(keep, s), x) else Filter(keep, s)
  {
    hide TotalPreorder;
    if s == [] || le(s[|s| - 1], x) {
      FilterLast(keep, s, x);
      var f := Filter(keep, s);
      if f != [] {
        LastBefore(le, keep, s, x);
      }
    } else {
      var front, last := s[..|s| - 1], s[|s| - 1];
      InsertFilter(le, keep, front, x);
      FilterLast(keep, Insert(le, front, x), last);
      var f := Filter(keep, front);
      assert (f + [last])[..|f|] == f;
    }
  }

  lemma LastBefore<T(!new)>(le: (T, T) -> bool, keep: T -> bool, s: seq<T>, x: T)
    requires TotalPreorder(le) && IsSorted(le, s) && s != [] && le(s[|s| - 1], x) && Filter(keep, s) != []
    ensures var f := Filter(keep, s); le(f[|f| - 1], x)
  {
  }

  /** Sorting commutes with filtering, so it keeps the order of elements that compare equal. */
  lemma {:induction false} SortFilter<T(!new)>(le: (T, T) -> bool, keep: T -> bool, s: seq<T>)
    requires TotalPreorder(le)
    ensures Filter(keep, Sort(le, s)) == Sort(le, Filter(keep, s))
  {
    if s != [] {
      var front, last := s[..|s| - 1], s[|s| - 1];
      SortFilter(le, keep, front);
      SortSorted(le, front);
      InsertFilter(le, keep, Sort(le, front), last);
      var f := Filter(keep, front);
      assert (f + [last])[..|f|] == f;
    }
  }

  /** A sorted list is left as it is. */
  lemma {:induction false} SortOfSorted<T(!new)>(le: (T, T) -> bool, s: seq<T>)
    requires IsSorted(le, s)
    ensures Sort(le, s) == s
  {
    if s != [] {
      var front := s[..|s| - 1];
      SortOfSorted(le, front);
      if front != [] {
        assert le(s[|s| - 2], s[|s| - 1]);
      }
      assert s == front + [s[|s| - 1]];
    }
  }

  /** The elements that compare equal to k. */
  function SameAs<T>(le: (T, T) -> bool, k: T): T -> bool {
    x => le(x, k) && le(k, x)
  }

  ghost predicate SameClasses<T(!new)>(le: (T, T) -> bool, a: seq<T>, b: seq<T>) {
    forall k :: SameClass(le, k, a, b)
  }

  ghost predicate SameClass<T>(le: (T, T) -> bool, k: T, a: seq<T>, b: seq<T>) {
    Filter(SameAs(le, k), a) == Filter(SameAs(le, k), b)
  }

  lemma {:induction false} AllSame<T>(le: (T, T) -> bool, k: T, s: seq<T>)
    requires forall i, j :: 0 <= i < |s| && 0 <= j < |s| ==> le(s[i], s[j])
    ensures Sort(le, s) == s
  {
    if s != [] {
      AllSame(le, k, s[..|s| - 1]);
      assert s == s[..|s| - 1] + [s[|s| - 1]];
    }
  }

  lemma SortStable<T(!new)>(le: (T, T) -> bool, s: seq<T>)
    requires TotalPreorder(le)
    ensures SameClasses(le, Sort(le, s), s)
  {
    forall k
      ensures SameClass(le, k, Sort(le, s), s)
    {
      SortFilter(le, SameAs(le, k), s);
      var f := Filter(SameAs(le, k), s);
      forall i, j | 0 <= i < |f| && 0 <= j < |f|
        ensures le(f[i], f[j])
      {
        FilterMember(SameAs(le, k), s, f[i]);
        FilterMember(SameAs(le, k), s, f[j]);
        assert le(f[i], k) && le(k, f[j]);
      }
      AllSame(le, k, f);
    }
  }

  lemma LastOfClass<T(!new)>(le: (T, T) -> bool, a: seq<T>, b: seq<T>)
    requires TotalPreorder(le) && IsSorted(le, b) && SameClasses(le, a, b) && a != []
    ensures b != [] && le(a[|a| - 1], b[|b| - 1])
  {
    var m := a[|a| - 1];
    var same := SameAs(le, m);
    assert le(m, m) && SameClass(le, m, a, b);
    FilterMember(same, a, m);
    assert m in Filter(same, b);
    FilterMember(same, b, m);
    var j :| 0 <= j < |b| && b[j] == m;
    assert j < |b| - 1 ==> le(b[j], b[|b| - 1]);
  }

  lemma ClassFront<T>(le: (T, T) -> bool, k: T, a: seq<T>, b: seq<T>, m: T)
    requires SameClass(le, k, a + [m], b + [m])
    ensures SameClass(le, k, a, b)
  {
    var same := SameAs(le, k);
    FilterLast(same, a, m);
    FilterLast(same, b, m);
    if same(m) {
      assert (Filter(same, a) + [m])[..|Filter(same, a)|] == Filter(same, a);
      assert (Filter(same, b) + [m])[..|Filter(same, b)|] == Filter(same, b);
    }
  }

  lemma ClassesSymmetric<T(!new)>(le: (T, T) -> bool, a: seq<T>, b: seq<T>)
    requires SameClasses(le, a, b)
    ensures SameClasses(le, b, a)
  {
    forall k
      ensures SameClass(le, k, b, a)
    {
      assert SameClass(le, k, a, b);
    }
  }

  /** Sortedness and stability determine the result: any other stable sort gives the same list. */
  lemma {:induction false} StableSortUnique<T(!new)>(le: (T, T) -> bool, a: seq<T>, b: seq<T>)
    requires TotalPreorder(le) && IsSorted(le, a) && IsSorted(le, b) && SameClasses(le, a, b)
    ensures a == b
  {
    ClassesSymmetric(le, a, b);
    if a == [] && b == [] {
    } else if a == [] {
      LastOfClass(le, b, a);
    } else {
      LastOfClass(le, a, b);
      LastOfClass(le, b, a);
      var m, n := a[|a| - 1], b[|b| - 1];
      var same := SameAs(le, m);
      assert same(m) && same(n) && SameClass(le, m, a, b);
      assert Filter(same, a)[|Filter(same, a)| - 1] == m;
      assert Filter(same, b)[|Filter(same, b)| - 1] == n;
      assert m == n;
      var a', b' := a[..|a| - 1], b[..|b| - 1];
      assert a == a' + [m] && b == b' + [m];
      forall k
        ensures SameClass(le, k, a', b')
      {
        assert SameClass(le, k, a' + [m], b' + [m]);
        ClassFront(le, k, a', b', m);
      }
      StableSortUnique(le, a', b');
    }
  }
}
