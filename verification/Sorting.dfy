/**
 Stable sorting, and the byte order of strings (which UTF-8 makes the order of their characters),
 for the listings of categories.
 */
module Sorting {
  import opened Numbers

  /** Inserts after every element the new one is not less than. */
  function Insert<T>(s: seq<T>, x: T, less: (T, T) -> bool): seq<T> {
    if s == [] || !less(x, s[|s| - 1]) then s + [x]
    else Insert(s[..|s| - 1], x, less) + [s[|s| - 1]]
  }

  /** The only stable arrangement in ascending order. */
  function StableSort<T>(s: seq<T>, less: (T, T) -> bool): seq<T> {
    if s == [] then [] else Insert(StableSort(s[..|s| - 1], less), s[|s| - 1], less)
  }

  lemma {:induction false} InsertKeeps<T>(s: seq<T>, x: T, less: (T, T) -> bool)
    ensures multiset(Insert(s, x, less)) == multiset(s) + multiset{x}
  {
    if s != [] && less(x, s[|s| - 1]) {
      InsertKeeps(s[..|s| - 1], x, less);
      assert s == s[..|s| - 1] + [s[|s| - 1]];
    }
  }

  lemma {:induction false} SortKeeps<T>(s: seq<T>, less: (T, T) -> bool)
    ensures multiset(StableSort(s, less)) == multiset(s)
  {
    if s != [] {
      SortKeeps(s[..|s| - 1], less);
      InsertKeeps(StableSort(s[..|s| - 1], less), s[|s| - 1], less);
      assert s == s[..|s| - 1] + [s[|s| - 1]];
    }
  }

  lemma SameElements<T>(s: seq<T>, t: seq<T>, e: T)
    requires multiset(s) == multiset(t)
    ensures e in s <==> e in t
  {
    assert e in s <==> e in multiset(s);
    assert e in t <==> e in multiset(t);
  }

  ghost predicate StrictOrder<T(!new)>(before: (T, T) -> bool) {
    && (forall a :: !before(a, a))
    && (forall a, b, c :: before(a, b) && before(b, c) ==> before(a, c))
  }

  ghost predicate Ordered<T>(s: seq<T>, before: (T, T) -> bool) {
    forall i, j :: 0 <= i < j < |s| ==> before(s[i], s[j])
  }

  /** `x` comes after the elements it is not less than, and before the others. */
  ghost predicate Fits<T>(s: seq<T>, x: T, less: (T, T) -> bool, before: (T, T) -> bool) {
    forall i :: 0 <= i < |s| ==> if less(x, s[i]) then before(x, s[i]) else before(s[i], x)
  }

  lemma {:induction false} InsertOrdered<T(!new)>(s: seq<T>, x: T, less: (T, T) -> bool, before: (T, T) -> bool)
    requires StrictOrder(before) && Ordered(s, before) && Fits(s, x, less, before)
    ensures Ordered(Insert(s, x, less), before)
  {
    if s != [] {
      var init, last := s[..|s| - 1], s[|s| - 1];
      if less(x, last) {
        InsertOrdered(init, x, less, before);
        InsertKeeps(init, x, less);
        var inserted := Insert(init, x, less);
        forall i | 0 <= i < |inserted|
          ensures before(inserted[i], last)
        {
          assert inserted[i] in multiset(inserted);
          assert inserted[i] == x || inserted[i] in init;
        }
      } else {
        forall i | 0 <= i < |s|
          ensures before(s[i], x)
        {
          assert i < |s| - 1 ==> before(s[i], last);
        }
      }
    }
  }

  /** An element and a later one are arranged by `before` as `less` compares them. */
  ghost predicate Compares<T>(s: seq<T>, less: (T, T) -> bool, before: (T, T) -> bool) {
    forall i, j :: 0 <= i < j < |s| ==> if less(s[j], s[i]) then before(s[j], s[i]) else before(s[i], s[j])
  }

  lemma {:induction false} SortOrdered<T(!new)>(s: seq<T>, less: (T, T) -> bool, before: (T, T) -> bool)
    requires StrictOrder(before) && Compares(s, less, before)
    ensures Ordered(StableSort(s, less), before)
  {
    if s != [] {
      var init, last := s[..|s| - 1], s[|s| - 1];
      SortOrdered(init, less, before);
      var sorted := StableSort(init, less);
      SortKeeps(init, less);
      forall i | 0 <= i < |sorted|
        ensures if less(last, sorted[i]) then before(last, sorted[i]) else before(sorted[i], last)
      {
        SameElements(sorted, init, sorted[i]);
        var k :| 0 <= k < |init| && init[k] == sorted[i];
        assert s[k] == sorted[i] && s[|s| - 1] == last;
      }
      InsertOrdered(sorted, last, less, before);
    }
  }

  lemma FirstIn<T>(s: seq<T>)
    requires s != []
    ensures s[0] in s
  {
  }

  /** An element of an ordered list is its first or comes after it. */
  lemma FirstOrLater<T(!new)>(s: seq<T>, before: (T, T) -> bool, e: T)
    requires Ordered(s, before) && e in s
    ensures e == s[0] || before(s[0], e)
  {
    var i :| 0 <= i < |s| && s[i] == e;
    if i > 0 {
      assert before(s[0], s[i]);
    }
  }

  /** Two ordered lists of the same elements are the same list. */
  lemma {:induction false} OrderedUnique<T(!new)>(s: seq<T>, t: seq<T>, before: (T, T) -> bool)
    requires StrictOrder(before) && Ordered(s, before) && Ordered(t, before)
    requires forall e :: e in s <==> e in t
    ensures s == t
  {
    if s == [] {
      if t != [] {
        FirstIn(t);
      }
    } else {
      assert s[0] in s;
      assert t != [];
      FirstIsFirst(s, t, before);
      forall e
        ensures e in s[1..] <==> e in t[1..]
      {
        RestOf(s, before, e);
        RestOf(t, before, e);
      }
      OrderedUnique(s[1..], t[1..], before);
      assert s == [s[0]] + s[1..] && t == [t[0]] + t[1..];
    }
  }

  lemma FirstIsFirst<T(!new)>(s: seq<T>, t: seq<T>, before: (T, T) -> bool)
    requires StrictOrder(before) && Ordered(s, before) && Ordered(t, before) && s != [] && t != []
    requires forall e :: e in s <==> e in t
    ensures s[0] == t[0]
  {
    assert s[0] in s && t[0] in t;
    FirstOrLater(t, before, s[0]);
    FirstOrLater(s, before, t[0]);
  }

  lemma RestOf<T(!new)>(s: seq<T>, before: (T, T) -> bool, e: T)
    requires StrictOrder(before) && Ordered(s, before) && s != []
    ensures e in s[1..] <==> e in s && e != s[0]
  {
    if e in s[1..] {
      var i :| 0 <= i < |s[1..]| && s[1..][i] == e;
      assert before(s[0], s[i + 1]);
    }
    if e in s && e != s[0] {
      var i :| 0 <= i < |s| && s[i] == e;
      assert s[1..][i - 1] == e;
    }
  }

  // ----- Strings

  predicate StringLess(a: string, b: string) {
    b != [] && (a == [] || a[0] < b[0] || (a[0] == b[0] && StringLess(a[1..], b[1..])))
  }

  lemma {:induction false} StringIrreflexive(a: string)
    ensures !StringLess(a, a)
  {
    if a != [] {
      StringIrreflexive(a[1..]);
    }
  }

  lemma {:induction false} StringTransitive(a: string, b: string, c: string)
    requires StringLess(a, b) && StringLess(b, c)
    ensures StringLess(a, c)
  {
    if a != [] && a[0] == b[0] == c[0] {
      StringTransitive(a[1..], b[1..], c[1..]);
    }
  }

  lemma {:induction false} StringTotal(a: string, b: string)
    ensures a == b || StringLess(a, b) || StringLess(b, a)
  {
    if a != [] && b != [] && a[0] == b[0] {
      StringTotal(a[1..], b[1..]);
      assert a == [a[0]] + a[1..] && b == [b[0]] + b[1..];
    }
  }

  /** A common start does not matter. */
  lemma {:induction false} SamePrefix(p: string, a: string, b: string)
    ensures StringLess(p + a, p + b) <==> StringLess(a, b)
  {
    if p == [] {
      assert p + a == a && p + b == b;
    } else {
      assert (p + a)[1..] == p[1..] + a && (p + b)[1..] == p[1..] + b;
      SamePrefix(p[1..], a, b);
    }
  }

  /** What follows two starts of one length does not matter once the starts differ. */
  lemma {:induction false} LesserPrefix(p: string, q: string, a: string, b: string)
    requires |p| == |q| && StringLess(p, q)
    ensures StringLess(p + a, q + b)
  {
    if p[0] == q[0] {
      assert (p + a)[1..] == p[1..] + a && (q + b)[1..] == q[1..] + b;
      LesserPrefix(p[1..], q[1..], a, b);
    }
  }

  // ----- Numbers as strings

  /** Numbers written with the same number of digits compare as their texts do. */
  lemma {:induction false} DigitsOrder(a: nat, b: nat)
    requires a < b && |Digits(a)| == |Digits(b)|
    ensures StringLess(Digits(a), Digits(b))
  {
    if a >= 10 {
      DigitsLength(b);
      if a / 10 == b / 10 {
        SamePrefix(Digits(a / 10), [Digit(a % 10)], [Digit(b % 10)]);
        assert Digit(a % 10) < Digit(b % 10);
      } else {
        DigitsOrder(a / 10, b / 10);
        LesserPrefix(Digits(a / 10), Digits(b / 10), [Digit(a % 10)], [Digit(b % 10)]);
      }
    }
  }

  lemma DigitsLength(n: nat)
    ensures |Digits(n)| == 1 <==> n < 10
  {
  }

  lemma FourDigits(n: nat)
    requires 1000 <= n < 10000
    ensures |Digits(n)| == 4 && Digits(n)[0] <= '9'
  {
    assert n / 10 / 10 / 10 < 10;
    var d := n / 10 / 10;
    assert Digits(d) == [Digit(d / 10), Digit(d % 10)];
    assert Digits(n / 10) == Digits(d) + [Digit(n / 10 % 10)];
  }
}
