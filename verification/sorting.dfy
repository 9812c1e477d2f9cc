/** What `Array.prototype.sort` does with a comparator: a stable sort of the elements. */
module Sorting {
  /** `cmp(a, b)` positive asks for b before a. */
  function Insert<T>(s: seq<T>, x: T, cmp: (T, T) -> int): (r: seq<T>)
    ensures multiset(r) == multiset(s) + multiset{x}
  {
    if s == [] || cmp(s[|s| - 1], x) <= 0 then s + [x]
    else
      assert s == s[..|s| - 1] + [s[|s| - 1]];
      Insert(s[..|s| - 1], x, cmp) + [s[|s| - 1]]
  }

  function SortBy<T>(s: seq<T>, cmp: (T, T) -> int): (r: seq<T>)
    ensures multiset(r) == multiset(s)
  {
    if s == [] then []
    else
      assert s == s[..|s| - 1] + [s[|s| - 1]];
      Insert(SortBy(s[..|s| - 1], cmp), s[|s| - 1], cmp)
  }

  ghost function Elems<T>(s: seq<T>): set<T> {
    set e | e in s
  }

  /** No element asks to stand before an earlier one. */
  ghost predicate Ordered<T>(s: seq<T>, cmp: (T, T) -> int) {
    forall i, j | 0 <= i < j < |s| :: cmp(s[i], s[j]) <= 0
  }

  /** On these elements `cmp` never asks for both orders, and chains. */
  ghost predicate Consistent<T(!new)>(elems: set<T>, cmp: (T, T) -> int) {
    && (forall a, b | a in elems && b in elems :: cmp(a, b) > 0 ==> cmp(b, a) <= 0)
    && (forall a, b, c | a in elems && b in elems && c in elems ::
          cmp(a, b) <= 0 && cmp(b, c) <= 0 ==> cmp(a, c) <= 0)
  }

  lemma {:induction false} InsertOrders<T(!new)>(s: seq<T>, x: T, cmp: (T, T) -> int, elems: set<T>)
    requires Consistent(elems, cmp) && Ordered(s, cmp)
    requires x in elems && forall e | e in s :: e in elems
    ensures Ordered(Insert(s, x, cmp), cmp)
  {
    if s == [] {
    } else if cmp(s[|s| - 1], x) <= 0 {
      AppendOrders(s, x, cmp, elems);
    } else {
      var front, last := s[..|s| - 1], s[|s| - 1];
      InsertOrders(front, x, cmp, elems);
      assert last in s;
      forall r | r in Insert(front, x, cmp) ensures cmp(r, last) <= 0 {
        Inserted(front, x, cmp, r);
      }
    }
  }

  lemma AppendOrders<T(!new)>(s: seq<T>, x: T, cmp: (T, T) -> int, elems: set<T>)
    requires Consistent(elems, cmp) && Ordered(s, cmp) && s != [] && cmp(s[|s| - 1], x) <= 0
    requires x in elems && forall e | e in s :: e in elems
    ensures Ordered(s + [x], cmp)
  {
    forall i | 0 <= i < |s| ensures cmp(s[i], x) <= 0 {
      assert s[i] in s && s[|s| - 1] in s;
    }
  }

  lemma Inserted<T(!new)>(s: seq<T>, x: T, cmp: (T, T) -> int, r: T)
    requires r in Insert(s, x, cmp)
    ensures r == x || exists i :: 0 <= i < |s| && s[i] == r
  {
    assert r in multiset(Insert(s, x, cmp));
  }

  /** With a consistent comparator the result is ordered. */
  lemma SortByOrders<T(!new)>(s: seq<T>, cmp: (T, T) -> int)
    requires Consistent(Elems(s), cmp)
    ensures Ordered(SortBy(s, cmp), cmp)
  {
    SortByOrdersWithin(s, cmp, Elems(s));
  }

  lemma {:induction false} SortByOrdersWithin<T(!new)>(s: seq<T>, cmp: (T, T) -> int, elems: set<T>)
    requires Consistent(elems, cmp) && forall e | e in s :: e in elems
    ensures Ordered(SortBy(s, cmp), cmp)
  {
    if s != [] {
      var front := s[..|s| - 1];
      SortByOrdersWithin(front, cmp, elems);
      SameMembers(SortBy(front, cmp), front);
      InsertOrders(SortBy(front, cmp), s[|s| - 1], cmp, elems);
    }
  }

  /** Two rearrangements of the same elements have the same members. */
  lemma SameMembers<T>(a: seq<T>, b: seq<T>)
    requires multiset(a) == multiset(b)
    ensures |a| == |b|
    ensures forall x :: x in a <==> x in b
  {
    assert |a| == |multiset(a)| && |b| == |multiset(b)|;
    assert forall x :: x in a <==> x in multiset(a);
    assert forall x :: x in b <==> x in multiset(b);
  }

  /** No two elements share a key. */
  ghost predicate DistinctKeys<T, K>(s: seq<T>, key: T -> K) {
    forall i, j | 0 <= i < j < |s| :: key(s[i]) != key(s[j])
  }

  lemma {:induction false} CountDistinct<T, K>(s: seq<T>, key: T -> K, x: T)
    requires DistinctKeys(s, key)
    ensures multiset(s)[x] <= 1
  {
    if s != [] {
      var front, last := s[..|s| - 1], s[|s| - 1];
      assert s == front + [last];
      CountDistinct(front, key, x);
      assert x == last ==> x !in multiset(front);
    }
  }

  lemma TwiceIsTwo<T>(s: seq<T>, i: nat, j: nat)
    requires i < j < |s| && s[i] == s[j]
    ensures multiset(s)[s[i]] >= 2
  {
    assert s == s[..j] + s[j..];
    assert s[..j][i] in multiset(s[..j]);
    assert s[j..][0] in multiset(s[j..]);
  }

  lemma RearrangedStaysDistinct<T, K>(a: seq<T>, b: seq<T>, key: T -> K)
    requires DistinctKeys(a, key) && multiset(a) == multiset(b)
    ensures DistinctKeys(b, key)
  {
    SameMembers(a, b);
    forall i, j | 0 <= i < j < |b| ensures key(b[i]) != key(b[j]) {
      if key(b[i]) == key(b[j]) {
        assert b[i] in b && b[j] in b;
        var p: nat :| p < |a| && a[p] == b[i];
        var q: nat :| q < |a| && a[q] == b[j];
        assert p == q;
        TwiceIsTwo(b, i, j);
        CountDistinct(a, key, b[i]);
        assert false;
      }
    }
  }
}
