/** Orders and sorting.

    Every answer of the store is given in one order: records by `sort_key`, slots of a timeline
    by `(effective_at, key)`, dictionaries by text.  This module holds the text order (by code
    point, as the original language compares strings) and a stable sort over any preorder. */
module Ordering {

  // ---------------------------------------------------------------- text

  predicate StrLess(a: string, b: string) {
    if |b| == 0 then false
    else if |a| == 0 then true
    else a[0] < b[0] || (a[0] == b[0] && StrLess(a[1..], b[1..]))
  }

  lemma {:induction false} StrIrreflexive(a: string)
    ensures !StrLess(a, a)
  {
    if a != "" { StrIrreflexive(a[1..]); }
  }

  /** The order of texts: the first character that differs decides, and a text comes after its own
      beginnings. */
  lemma {:induction false} StrLessIs(a: string, b: string)
    ensures StrLess(a, b) <==>
            exists k :: 0 <= k <= |a| && k < |b| && a[..k] == b[..k] && (k == |a| || a[k] < b[k])
  {
    if a == "" {
      assert b != "" ==> a[..0] == b[..0];
    } else if b == "" {
    } else if a[0] != b[0] {
      assert a[..0] == b[..0];
      forall k | 0 < k <= |a| && k < |b| ensures a[..k] != b[..k] { assert a[..k][0] == a[0] && b[..k][0] == b[0]; }
    } else {
      StrLessIs(a[1..], b[1..]);
      if k :| 0 <= k <= |a[1..]| && k < |b[1..]| && a[1..][..k] == b[1..][..k] && (k == |a[1..]| || a[1..][k] < b[1..][k]) {
        assert a[..k + 1] == [a[0]] + a[1..][..k] && b[..k + 1] == [b[0]] + b[1..][..k];
      }
      if k :| 0 <= k <= |a| && k < |b| && a[..k] == b[..k] && (k == |a| || a[k] < b[k]) {
        assert k > 0;
        assert a[1..][..k - 1] == a[..k][1..] && b[1..][..k - 1] == b[..k][1..];
      }
    }
  }

  lemma {:induction false} StrTotal(a: string, b: string)
    ensures StrLess(a, b) || a == b || StrLess(b, a)
  {
    if a == "" || b == "" || a[0] != b[0] {
    } else {
      StrTotal(a[1..], b[1..]);
      assert a == [a[0]] + a[1..] && b == [b[0]] + b[1..];
    }
  }

  lemma {:induction false} StrTransitive(a: string, b: string, c: string)
    requires StrLess(a, b) && StrLess(b, c)
    ensures StrLess(a, c)
  {
    if a == "" || !(a[0] == b[0] == c[0]) {
    } else {
      StrTransitive(a[1..], b[1..], c[1..]);
    }
  }

  predicate StrLe(a: string, b: string) { !StrLess(b, a) }

  lemma StrOrder()
    ensures Preorder(StrLe)
    ensures forall a, b :: StrLe(a, b) && StrLe(b, a) <==> a == b
  {
    forall a, b
      ensures StrLe(a, b) || StrLe(b, a)
      ensures StrLe(a, b) && StrLe(b, a) <==> a == b
    {
      StrTotal(a, b);
      StrIrreflexive(a);
      if StrLess(a, b) && StrLess(b, a) { StrTransitive(a, b, a); }
    }
    forall a, b, c | StrLe(a, b) && StrLe(b, c)
      ensures StrLe(a, c)
    {
      StrTotal(a, b);
      StrTotal(b, c);
      if StrLess(c, a) {
        if StrLess(a, b) { StrTransitive(c, a, b); }
      }
    }
  }

  /** `sorted(names)` of a set: each name once, in order. */
  method SortedNames(names: set<string>) returns (r: seq<string>)
    ensures Sorted(r, StrLe)
    ensures forall n :: n in r <==> n in names
    ensures |r| == |names|
  {
    var rest := names;
    var listed: seq<string> := [];
    while rest != {}
      invariant rest <= names
      invariant forall n :: n in listed <==> n in names && n !in rest
      invariant |listed| + |rest| == |names|
      decreases rest
    {
      var n :| n in rest;
      listed := listed + [n];
      rest := rest - {n};
    }
    r := Sort(listed, StrLe);
    StrOrder();
    SortSorted(listed, StrLe);
    SortContents(listed, StrLe);
    forall n ensures n in r <==> n in names { SortMember(listed, StrLe, n); }
  }

  // ---------------------------------------------------------------- filtering

  function Filter<T>(s: seq<T>, p: T -> bool): seq<T> {
    if s == [] then []
    else if p(s[0]) then [s[0]] + Filter(s[1..], p)
    else Filter(s[1..], p)
  }

  lemma {:induction false} FilterConcat<T>(a: seq<T>, b: seq<T>, p: T -> bool)
    ensures Filter(a + b, p) == Filter(a, p) + Filter(b, p)
  {
    if a == [] {
      assert a + b == b;
    } else {
      assert (a + b)[1..] == a[1..] + b;
      FilterConcat(a[1..], b, p);
    }
  }

  lemma FilterSnoc<T>(s: seq<T>, x: T, p: T -> bool)
    ensures Filter(s + [x], p) == if p(x) then Filter(s, p) + [x] else Filter(s, p)
  {
    FilterConcat(s, [x], p);
    assert Filter(s, p) + [] == Filter(s, p);
  }

  lemma {:induction false} FilterMember<T>(s: seq<T>, p: T -> bool, x: T)
    ensures x in Filter(s, p) <==> x in s && p(x)
  {
    if s == [] {
    } else {
      FilterMember(s[1..], p, x);
      assert s == [s[0]] + s[1..];
    }
  }

  lemma {:induction false} FilterCount<T>(s: seq<T>, p: T -> bool, x: T)
    ensures multiset(Filter(s, p))[x] == if p(x) then multiset(s)[x] else 0
  {
    if s == [] {
    } else {
      FilterCount(s[1..], p, x);
      assert s == [s[0]] + s[1..];
    }
  }

  lemma {:induction false} FilterAll<T>(s: seq<T>, p: T -> bool)
    requires forall x :: x in s ==> p(x)
    ensures Filter(s, p) == s
  {
    if s == [] {
    } else {
      FilterAll(s[1..], p);
      assert s == [s[0]] + s[1..];
    }
  }

  lemma {:induction false} FilterNone<T>(s: seq<T>, p: T -> bool)
    requires forall x :: x in s ==> !p(x)
    ensures Filter(s, p) == []
  {
    if s != [] { FilterNone(s[1..], p); }
  }

  /** Two predicates that agree on the elements select the same subsequence. */
  lemma {:induction false} FilterAgree<T>(s: seq<T>, p: T -> bool, q: T -> bool)
    requires forall x :: x in s ==> p(x) == q(x)
    ensures Filter(s, p) == Filter(s, q)
  {
    if s != [] { FilterAgree(s[1..], p, q); }
  }

  lemma {:induction false} FilterTwice<T>(s: seq<T>, p: T -> bool, q: T -> bool, both: T -> bool)
    requires forall x :: x in s ==> both(x) == (p(x) && q(x))
    ensures Filter(Filter(s, p), q) == Filter(s, both)
  {
    if s == [] {
    } else {
      FilterTwice(s[1..], p, q, both);
      if p(s[0]) {
        assert Filter(s, p)[1..] == Filter(s[1..], p);
      }
    }
  }

  // ---------------------------------------------------------------- sorting

  ghost predicate Preorder<T(!new)>(le: (T, T) -> bool) {
    && (forall a, b :: le(a, b) || le(b, a))
    && (forall a, b, c :: le(a, b) && le(b, c) ==> le(a, c))
  }

  ghost predicate Sorted<T>(s: seq<T>, le: (T, T) -> bool) {
    forall i, j :: 0 <= i < j < |s| ==> le(s[i], s[j])
  }

  /** Elements that the order cannot tell apart are the same element. */
  ghost predicate Distinguishing<T>(s: seq<T>, le: (T, T) -> bool) {
    forall i, j :: 0 <= i < |s| && 0 <= j < |s| && le(s[i], s[j]) && le(s[j], s[i]) ==> s[i] == s[j]
  }

  function Insert<T>(x: T, s: seq<T>, le: (T, T) -> bool): seq<T> {
    if s == [] || le(x, s[0]) then [x] + s else [s[0]] + Insert(x, s[1..], le)
  }

  /** A stable sort: equal elements keep their order, as the original's sort guarantees. */
  function Sort<T>(s: seq<T>, le: (T, T) -> bool): seq<T> {
    if s == [] then [] else Insert(s[0], Sort(s[1..], le), le)
  }

  lemma SortTwo<T>(a: T, b: T, le: (T, T) -> bool)
    ensures Sort([a, b], le) == if le(a, b) then [a, b] else [b, a]
  {
    assert [a, b][1..] == [b] && [b][1..] == [];
    assert Sort([b], le) == [b];
    assert Insert(a, [], le) == [a];
  }

  lemma {:induction false} InsertContents<T>(x: T, s: seq<T>, le: (T, T) -> bool)
    ensures multiset(Insert(x, s, le)) == multiset{x} + multiset(s)
  {
    if s == [] || le(x, s[0]) {
    } else {
      InsertContents(x, s[1..], le);
      assert s == [s[0]] + s[1..];
    }
  }

  lemma {:induction false} SortContents<T>(s: seq<T>, le: (T, T) -> bool)
    ensures multiset(Sort(s, le)) == multiset(s)
    ensures |Sort(s, le)| == |s|
  {
    if s == [] {
    } else {
      SortContents(s[1..], le);
      InsertContents(s[0], Sort(s[1..], le), le);
      assert s == [s[0]] + s[1..];
    }
    assert |multiset(Sort(s, le))| == |Sort(s, le)|;
  }

  lemma SortMember<T>(s: seq<T>, le: (T, T) -> bool, x: T)
    ensures x in Sort(s, le) <==> x in s
  {
    SortContents(s, le);
    assert x in multiset(s) <==> x in s;
    assert x in multiset(Sort(s, le)) <==> x in Sort(s, le);
  }

  lemma {:induction false} InsertSorted<T(!new)>(x: T, s: seq<T>, le: (T, T) -> bool)
    requires Preorder(le) && Sorted(s, le)
    ensures Sorted(Insert(x, s, le), le)
  {
    if s == [] || le(x, s[0]) {
    } else {
      assert Sorted(s[1..], le);
      InsertSorted(x, s[1..], le);
      var t := Insert(x, s[1..], le);
      InsertContents(x, s[1..], le);
      forall j | 0 <= j < |t|
        ensures le(s[0], t[j])
      {
        assert t[j] in multiset(t);
        assert t[j] == x || t[j] in s[1..];
      }
    }
  }

  lemma {:induction false} SortSorted<T(!new)>(s: seq<T>, le: (T, T) -> bool)
    requires Preorder(le)
    ensures Sorted(Sort(s, le), le)
  {
    if s == [] {
    } else {
      SortSorted(s[1..], le);
      InsertSorted(s[0], Sort(s[1..], le), le);
    }
  }

  lemma {:induction false} SortOfSorted<T>(s: seq<T>, le: (T, T) -> bool)
    requires Sorted(s, le)
    ensures Sort(s, le) == s
  {
    if s == [] {
    } else {
      assert Sorted(s[1..], le);
      SortOfSorted(s[1..], le);
      assert s == [s[0]] + s[1..];
    }
  }

  lemma {:induction false} FilterInsert<T(!new)>(x: T, s: seq<T>, le: (T, T) -> bool, p: T -> bool)
    requires Preorder(le) && Sorted(s, le)
    ensures Filter(Insert(x, s, le), p) ==
            if p(x) then Insert(x, Filter(s, p), le) else Filter(s, p)
  {
    if s == [] {
    } else if le(x, s[0]) {
      assert ([x] + s)[1..] == s;
      var f := Filter(s, p);
      if f != [] {
        FilterMember(s, p, f[0]);
        assert le(x, f[0]);
      }
    } else {
      assert Sorted(s[1..], le);
      FilterInsert(x, s[1..], le, p);
      assert ([s[0]] + Insert(x, s[1..], le))[1..] == Insert(x, s[1..], le);
    }
  }

  /** Sorting stably and selecting commute: a selection of the sorted journal is the sorted
      selection. */
  lemma {:induction false} FilterSort<T(!new)>(s: seq<T>, le: (T, T) -> bool, p: T -> bool)
    requires Preorder(le)
    ensures Filter(Sort(s, le), p) == Sort(Filter(s, p), le)
  {
    if s == [] {
    } else {
      FilterSort(s[1..], le, p);
      SortSorted(s[1..], le);
      FilterInsert(s[0], Sort(s[1..], le), le, p);
      assert p(s[0]) ==> Filter(s, p)[1..] == Filter(s[1..], p);
    }
  }

  /** A selection whose elements already stand in order is sorted. */
  lemma {:induction false} FilterSorted<T>(s: seq<T>, p: T -> bool, le: (T, T) -> bool)
    requires forall i, j :: 0 <= i < j < |s| && p(s[i]) && p(s[j]) ==> le(s[i], s[j])
    ensures Sorted(Filter(s, p), le)
  {
    if s == [] {
    } else {
      FilterSorted(s[1..], p, le);
      var t := Filter(s[1..], p);
      if p(s[0]) {
        forall j | 0 <= j < |t| ensures le(s[0], t[j]) {
          FilterMember(s[1..], p, t[j]);
          var k :| 0 <= k < |s[1..]| && s[1..][k] == t[j];
          assert s[k + 1] == t[j];
        }
      }
    }
  }

  lemma SortedSameHead<T(!new)>(a: seq<T>, b: seq<T>, le: (T, T) -> bool)
    requires Sorted(a, le) && Sorted(b, le) && a != [] && b != []
    requires forall x :: x in a <==> x in b
    requires Distinguishing(a, le)
    ensures a[0] == b[0]
  {
    assert a[0] in b && b[0] in a;
    var i :| 0 <= i < |b| && b[i] == a[0];
    var j :| 0 <= j < |a| && a[j] == b[0];
    assert i == 0 || le(b[0], b[i]);
    assert j == 0 || le(a[0], a[j]);
  }

  lemma SameMembers<T>(a: seq<T>, b: seq<T>)
    requires multiset(a) == multiset(b)
    ensures forall x :: x in a <==> x in b
  {
    forall x ensures x in a <==> x in b {
      assert x in a <==> x in multiset(a);
      assert x in b <==> x in multiset(b);
    }
  }

  lemma TailContents<T>(a: seq<T>, b: seq<T>)
    requires a != [] && b != [] && a[0] == b[0] && multiset(a) == multiset(b)
    ensures multiset(a[1..]) == multiset(b[1..])
  {
    assert a == [a[0]] + a[1..] && b == [b[0]] + b[1..];
    assert multiset(a[1..]) == multiset(a) - multiset{a[0]};
    assert multiset(b[1..]) == multiset(b) - multiset{b[0]};
  }

  lemma {:induction false} SortedSameContents<T(!new)>(a: seq<T>, b: seq<T>, le: (T, T) -> bool)
    requires Sorted(a, le) && Sorted(b, le)
    requires multiset(a) == multiset(b)
    requires Distinguishing(a, le)
    ensures a == b
  {
    assert |multiset(a)| == |a| && |multiset(b)| == |b|;
    if a == [] {
    } else {
      SameMembers(a, b);
      SortedSameHead(a, b, le);
      TailContents(a, b);
      SortedSameContents(a[1..], b[1..], le);
      assert a == [a[0]] + a[1..] && b == [b[0]] + b[1..];
    }
  }

  /** When equal keys mean equal elements, a sort forgets the order of its input. */
  lemma SortOrderIndependent<T(!new)>(a: seq<T>, b: seq<T>, le: (T, T) -> bool)
    requires Preorder(le)
    requires multiset(a) == multiset(b)
    requires Distinguishing(a, le)
    ensures Sort(a, le) == Sort(b, le)
  {
    SortSorted(a, le);
    SortSorted(b, le);
    SortContents(a, le);
    SortContents(b, le);
    forall i | 0 <= i < |a| ensures Sort(a, le)[i] in a { SortMember(a, le, Sort(a, le)[i]); }
    SortedSameContents(Sort(a, le), Sort(b, le), le);
  }

  // ---------------------------------------------------------------- sorting apart

  lemma {:induction false} InsertBefore<T>(x: T, s: seq<T>, t: seq<T>, le: (T, T) -> bool)
    requires forall y :: y in t ==> le(x, y)
    ensures Insert(x, s + t, le) == Insert(x, s, le) + t
  {
    if s == [] {
      assert s + t == t;
      if t != [] { assert t[0] in t; }
    } else {
      assert (s + t)[1..] == s[1..] + t;
      InsertBefore(x, s[1..], t, le);
    }
  }

  lemma {:induction false} InsertAfter<T>(x: T, s: seq<T>, t: seq<T>, le: (T, T) -> bool)
    requires forall y :: y in s ==> !le(x, y)
    ensures Insert(x, s + t, le) == s + Insert(x, t, le)
  {
    if s == [] {
      assert s + t == t;
    } else {
      assert s[0] in s && (s + t)[1..] == s[1..] + t;
      InsertAfter(x, s[1..], t, le);
    }
  }

  lemma {:induction false} SortLowHigh<T>(a: seq<T>, b: seq<T>, le: (T, T) -> bool)
    requires forall x, y :: x in a && y in b ==> le(x, y)
    ensures Sort(a + b, le) == Sort(a, le) + Sort(b, le)
  {
    if a == [] {
      assert a + b == b;
    } else {
      assert (a + b)[1..] == a[1..] + b;
      SortLowHigh(a[1..], b, le);
      forall y | y in Sort(b, le) ensures le(a[0], y) { SortMember(b, le, y); }
      InsertBefore(a[0], Sort(a[1..], le), Sort(b, le), le);
    }
  }

  lemma {:induction false} SortHighLow<T>(b: seq<T>, a: seq<T>, le: (T, T) -> bool)
    requires forall x, y :: x in a && y in b ==> !le(y, x)
    ensures Sort(b + a, le) == Sort(a, le) + Sort(b, le)
  {
    if b == [] {
      assert b + a == a && Sort(a, le) + [] == Sort(a, le);
    } else {
      assert (b + a)[1..] == b[1..] + a;
      SortHighLow(b[1..], a, le);
      forall x | x in Sort(a, le) ensures !le(b[0], x) { SortMember(a, le, x); }
      InsertAfter(b[0], Sort(a, le), Sort(b[1..], le), le);
    }
  }

  // ---------------------------------------------------------------- ascending lists

  ghost predicate Ascends(s: seq<int>) { forall i, j :: 0 <= i < j < |s| ==> s[i] < s[j] }

  lemma AscendsAround(a: seq<int>, x: int, b: seq<int>)
    requires Ascends(a) && Ascends(b) && (forall m :: m in a ==> m < x) && (forall m :: m in b ==> x < m)
    ensures Ascends(a + [x] + b)
  {
    forall i | 0 <= i < |a| ensures a[i] < x { assert a[i] in a; }
    forall i | 0 <= i < |b| ensures x < b[i] { assert b[i] in b; }
  }

  lemma SomeNumber(s: set<int>)
    requires s != {}
    ensures exists x :: x in s
  {
    if forall x: int :: x !in s { assert false; }
  }

  /** Every finite set of numbers has its ascending list. */
  lemma {:induction false} AscendingListExists(s: set<int>)
    ensures exists ms :: Ascends(ms) && forall m :: m in ms <==> m in s
    decreases s
  {
    if s == {} {
      assert Ascends([]) && forall m: int :: m in [] <==> m in s;
    } else {
      SomeNumber(s);
      var x :| x in s;
      AscendingListExists(s - {x});
      var rest :| Ascends(rest) && forall m :: m in rest <==> m in s - {x};
      var below: int -> bool, above: int -> bool := (m: int) => m < x, (m: int) => x < m;
      var ms := Filter(rest, below) + [x] + Filter(rest, above);
      FilterSorted(rest, below, (a: int, b: int) => a < b);
      FilterSorted(rest, above, (a: int, b: int) => a < b);
      forall m: int
        ensures m in Filter(rest, below) <==> m in rest && m < x
        ensures m in Filter(rest, above) <==> m in rest && x < m
      {
        FilterMember(rest, below, m);
        FilterMember(rest, above, m);
      }
      AscendsAround(Filter(rest, below), x, Filter(rest, above));
      assert forall m :: m in ms <==> m in s;
    }
  }

  /** An ascending list that another extends only with greater numbers is its prefix. */
  lemma {:induction false} AscendingPrefix(a: seq<int>, b: seq<int>)
    requires forall i, j :: 0 <= i < j < |a| ==> a[i] < a[j]
    requires forall i, j :: 0 <= i < j < |b| ==> b[i] < b[j]
    requires forall x :: x in a ==> x in b
    requires forall x, y :: x in b && x !in a && y in a ==> y < x
    ensures |a| <= |b| && a == b[..|a|]
  {
    if a == [] {
    } else {
      SameFirst(a, b);
      AscendingTail(a, b);
      AscendingPrefix(a[1..], b[1..]);
      assert a == [a[0]] + a[1..] && b == [b[0]] + b[1..];
    }
  }

  lemma SameFirst(a: seq<int>, b: seq<int>)
    requires forall i, j :: 0 <= i < j < |a| ==> a[i] < a[j]
    requires forall i, j :: 0 <= i < j < |b| ==> b[i] < b[j]
    requires forall x :: x in a ==> x in b
    requires forall x, y :: x in b && x !in a && y in a ==> y < x
    requires a != []
    ensures b != [] && a[0] == b[0]
  {
    assert a[0] in a && a[0] in b;
    var k :| 0 <= k < |b| && b[k] == a[0];
    assert b[0] in b;
    if b[0] in a {
      var i :| 0 <= i < |a| && a[i] == b[0];
    }
  }

  lemma AscendingTail(a: seq<int>, b: seq<int>)
    requires forall i, j :: 0 <= i < j < |a| ==> a[i] < a[j]
    requires forall i, j :: 0 <= i < j < |b| ==> b[i] < b[j]
    requires forall x :: x in a ==> x in b
    requires forall x, y :: x in b && x !in a && y in a ==> y < x
    requires a != [] && b != [] && a[0] == b[0]
    ensures forall x :: x in a[1..] ==> x in b[1..]
    ensures forall x, y :: x in b[1..] && x !in a[1..] && y in a[1..] ==> y < x
  {
    forall x ensures x in a[1..] <==> x in a && x != a[0] { Beheaded(a, x); }
    forall x ensures x in b[1..] <==> x in b && x != b[0] { Beheaded(b, x); }
  }

  lemma Beheaded(a: seq<int>, x: int)
    requires a != [] && forall i, j :: 0 <= i < j < |a| ==> a[i] < a[j]
    ensures x in a[1..] <==> x in a && x != a[0]
  {
    assert a == [a[0]] + a[1..];
    if x in a[1..] {
      var i :| 0 <= i < |a[1..]| && a[1..][i] == x;
      assert a[i + 1] == x;
    }
  }
}
