/**
 Facts about sequences: joining them end to end, keeping the elements that pass a test, finding an
 element, and splitting at a separator.
 */
module Lists {

  lemma Reassociate<T>(a: seq<T>, b: seq<T>, c: seq<T>)
    ensures a + (b + c) == a + b + c
  {
  }

  /** Sequences joined end to end. */
  function Flat<T>(parts: seq<seq<T>>): seq<T> {
    if parts == [] then [] else Flat(parts[..|parts| - 1]) + parts[|parts| - 1]
  }

  /** The elements a test keeps, in order. */
  function Kept<T>(s: seq<T>, keep: T -> bool): seq<T> {
    if s == [] then []
    else if keep(s[0]) then [s[0]] + Kept(s[1..], keep)
    else Kept(s[1..], keep)
  }

  lemma {:induction false} KeptConcat<T>(a: seq<T>, b: seq<T>, keep: T -> bool)
    ensures Kept(a + b, keep) == Kept(a, keep) + Kept(b, keep)
  {
    if a == [] {
      assert a + b == b;
    } else {
      assert (a + b)[1..] == a[1..] + b;
      KeptConcat(a[1..], b, keep);
    }
  }

  lemma KeptLast<T>(s: seq<T>, e: T, keep: T -> bool)
    ensures Kept(s + [e], keep) == if keep(e) then Kept(s, keep) + [e] else Kept(s, keep)
  {
    KeptConcat(s, [e], keep);
    assert [e][1..] == [];
  }

  lemma {:induction false} KeptAlike<T(!new)>(s: seq<T>, keep: T -> bool, keep': T -> bool)
    requires forall v :: keep(v) == keep'(v)
    ensures Kept(s, keep) == Kept(s, keep')
  {
    if s != [] {
      KeptAlike(s[1..], keep, keep');
    }
  }

  lemma {:induction false} KeptTwice<T(!new)>(s: seq<T>, first: T -> bool, second: T -> bool, both: T -> bool)
    requires forall v :: both(v) == (first(v) && second(v))
    ensures Kept(s, both) == Kept(Kept(s, first), second)
  {
    if s != [] {
      KeptTwice(s[1..], first, second, both);
      var tail := Kept(s[1..], first);
      assert ([s[0]] + tail)[0] == s[0] && ([s[0]] + tail)[1..] == tail;
    }
  }

  lemma {:induction false} KeptAll<T(!new)>(s: seq<T>, keep: T -> bool)
    requires forall v :: keep(v)
    ensures Kept(s, keep) == s
  {
    if s != [] {
      KeptAll(s[1..], keep);
    }
  }

  /** The index of the first occurrence of an element, or the length when there is none. */
  function IndexOf<T(==)>(s: seq<T>, c: T): (i: nat)
    ensures i <= |s| && forall k :: 0 <= k < i ==> s[k] != c
    ensures i < |s| ==> s[i] == c
  {
    if s == [] || s[0] == c then 0 else 1 + IndexOf(s[1..], c)
  }

  /** The first occurrence is where no earlier one is. */
  lemma IndexOfIs<T>(s: seq<T>, c: T, i: nat)
    requires i <= |s| && (forall k :: 0 <= k < i ==> s[k] != c) && (i < |s| ==> s[i] == c)
    ensures IndexOf(s, c) == i
  {
  }

  predicate Lacks<T(==)>(s: seq<T>, c: T) {
    forall k :: 0 <= k < |s| ==> s[k] != c
  }

  lemma LacksConcat<T>(a: seq<T>, b: seq<T>, c: T)
    ensures Lacks(a + b, c) <==> Lacks(a, c) && Lacks(b, c)
  {
    if Lacks(a + b, c) {
      assert forall k :: 0 <= k < |a| ==> a[k] == (a + b)[k];
      assert forall k :: 0 <= k < |b| ==> b[k] == (a + b)[|a| + k];
    }
  }

  /** Go's `strings.Split` on a one-element separator. */
  function Split<T(==)>(s: seq<T>, sep: T): (parts: seq<seq<T>>)
    ensures parts != []
    decreases |s|
  {
    var i := IndexOf(s, sep);
    if i == |s| then [s] else [s[..i]] + Split(s[i + 1..], sep)
  }

  /** Splitting a joined sequence splits both sides. */
  lemma {:induction false} SplitJoined<T>(a: seq<T>, sep: T, b: seq<T>)
    ensures Split(a + [sep] + b, sep) == Split(a, sep) + Split(b, sep)
    decreases |a|
  {
    var whole := a + [sep] + b;
    var i := IndexOf(a, sep);
    IndexOfIs(whole, sep, i);
    assert whole[..i] == a[..i];
    if i == |a| {
      assert whole[..i] == a && whole[i + 1..] == b;
    } else {
      assert whole[i + 1..] == a[i + 1..] + [sep] + b;
      SplitJoined(a[i + 1..], sep, b);
      assert Split(whole, sep) == [a[..i]] + (Split(a[i + 1..], sep) + Split(b, sep));
    }
  }

  lemma SplitWithout<T>(s: seq<T>, sep: T)
    requires Lacks(s, sep)
    ensures Split(s, sep) == [s]
  {
    IndexOfIs(s, sep, |s|);
  }

  // ----- Permutations

  function Each<A, B>(s: seq<A>, f: A -> B): seq<B> {
    if s == [] then [] else Each(s[..|s| - 1], f) + [f(s[|s| - 1])]
  }

  lemma {:induction false} EachConcat<A, B>(a: seq<A>, b: seq<A>, f: A -> B)
    ensures Each(a + b, f) == Each(a, f) + Each(b, f)
  {
    if b == [] {
      assert a + b == a;
    } else {
      assert (a + b)[..|a + b| - 1] == a + b[..|b| - 1];
      EachConcat(a, b[..|b| - 1], f);
    }
  }

  lemma EachOne<A, B>(x: A, f: A -> B)
    ensures Each([x], f) == [f(x)]
  {
    assert [x][..0] == [];
  }

  lemma EachAround<A, B>(a: seq<A>, x: A, b: seq<A>, f: A -> B)
    ensures Each(a + [x] + b, f) == Each(a, f) + [f(x)] + Each(b, f)
  {
    EachConcat(a + [x], b, f);
    EachConcat(a, [x], f);
    EachOne(x, f);
  }

  lemma Around<T>(a: seq<T>, x: T, b: seq<T>)
    ensures multiset(a + [x] + b) == multiset(a + b) + multiset{x}
  {
  }

  lemma Cancel<T>(a: multiset<T>, b: multiset<T>, x: T)
    requires a + multiset{x} == b + multiset{x}
    ensures a == b
  {
    assert a == (a + multiset{x}) - multiset{x};
    assert b == (b + multiset{x}) - multiset{x};
  }

  lemma SameMembers<T>(p: seq<T>, q: seq<T>)
    requires multiset(p) == multiset(q)
    ensures forall e :: e in p ==> e in q
  {
    forall e | e in p
      ensures e in q
    {
      assert e in multiset(p);
      assert e in multiset(q);
    }
  }

  /** Where an element stands. */
  lemma PartsAround<T>(s: seq<T>, x: T) returns (a: seq<T>, b: seq<T>)
    requires x in s
    ensures s == a + [x] + b
  {
    var k :| 0 <= k < |s| && s[k] == x;
    a, b := s[..k], s[k + 1..];
  }

  /** A permuted sequence has its elements mapped to a permuted one. */
  lemma {:induction false} EachPermutes<A, B>(p: seq<A>, q: seq<A>, f: A -> B)
    requires multiset(p) == multiset(q)
    ensures multiset(Each(p, f)) == multiset(Each(q, f))
  {
    if p == [] {
      if q != [] {
        SameMembers(q, p);
      }
    } else {
      var init, x := p[..|p| - 1], p[|p| - 1];
      assert p == init + [x] + [];
      SameMembers(p, q);
      var a, b := PartsAround(q, x);
      Around(init, x, []);
      Around(a, x, b);
      assert init + [] == init;
      Cancel(multiset(init), multiset(a + b), x);
      EachPermutes(init, a + b, f);
      EachPermuted(init, a, x, b, f);
    }
  }

  lemma EachPermuted<A, B>(p: seq<A>, a: seq<A>, x: A, b: seq<A>, f: A -> B)
    requires multiset(Each(p, f)) == multiset(Each(a + b, f))
    ensures multiset(Each(p + [x] + [], f)) == multiset(Each(a + [x] + b, f))
  {
    EachAround(p, x, [], f);
    EachAround(a, x, b, f);
    Around(Each(p, f), f(x), []);
    Around(Each(a, f), f(x), Each(b, f));
    EachConcat(a, b, f);
    assert Each(p, f) + [] == Each(p, f);
  }
}
