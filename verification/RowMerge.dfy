/** Merging result rows. */
module RowMerge {
  // The children of the rows that follow a kept row are moved to the end of its own.

  import opened Wrappers
  import opened Lists

  /** A document node, with the links of Go's `html.Node`. */
  class Node {
    var parent: Node?
    var firstChild: Node?
    var lastChild: Node?
    var prevSibling: Node?
    var nextSibling: Node?

    constructor ()
      ensures parent == null && firstChild == null && lastChild == null && prevSibling == null && nextSibling == null
    {
      parent, firstChild, lastChild, prevSibling, nextSibling := null, null, null, null, null;
    }

    /** Where a list of children stands, seen from one of them. */
    predicate Linked(kids: seq<Node>, i: nat)
      requires i < |kids|
      reads {kids[i]}`parent, {kids[i]}`prevSibling, {kids[i]}`nextSibling
    {
      kids[i].parent == this && kids[i].prevSibling == PrevOf(kids, i) && kids[i].nextSibling == NextOf(kids, i)
    }

    /** The children of this node, in order. */
    predicate HasChildren(kids: seq<Node>)
      reads this`firstChild, this`lastChild, kids`parent, kids`prevSibling, kids`nextSibling
    {
      && firstChild == (if kids == [] then null else kids[0])
      && lastChild == (if kids == [] then null else kids[|kids| - 1])
      && (forall i :: 0 <= i < |kids| ==> Linked(kids, i))
      && (forall i, j :: 0 <= i < j < |kids| ==> kids[i] != kids[j])
    }

    predicate Detached()
      reads this
    {
      parent == null && prevSibling == null && nextSibling == null
    }

    /** The children are linked past one of them. */
    predicate LinkedPast(kids: seq<Node>, i: nat, m: nat)
      requires i < |kids| && m < |kids|
      reads {kids[m]}`parent, {kids[m]}`prevSibling, {kids[m]}`nextSibling
    {
      && kids[m].parent == this
      && kids[m].prevSibling == PrevOf(kids, if m == i + 1 then i else m)
      && kids[m].nextSibling == NextOf(kids, if m + 1 == i then i else m)
    }

    /** Unlinks a child. */
    method Unlink(c: Node, ghost kids: seq<Node>, ghost i: nat)
      requires HasChildren(kids) && i < |kids| && kids[i] == c
      modifies this`firstChild, this`lastChild, kids`prevSibling, kids`nextSibling, c`parent
      ensures c.Detached() && forall m :: 0 <= m < |kids| && m != i ==> LinkedPast(kids, i, m)
      ensures firstChild == if i == 0 then NextOf(kids, 0) else kids[0]
      ensures lastChild == if i + 1 == |kids| then PrevOf(kids, i) else kids[|kids| - 1]
    {
      assert Linked(kids, i) && (i > 0 ==> Linked(kids, i - 1)) && (i + 1 < |kids| ==> Linked(kids, i + 1));
      if firstChild == c {
        firstChild := c.nextSibling;
      }
      if c.nextSibling != null {
        c.nextSibling.prevSibling := c.prevSibling;
      }
      if lastChild == c {
        lastChild := c.prevSibling;
      }
      if c.prevSibling != null {
        c.prevSibling.nextSibling := c.nextSibling;
      }
      c.parent, c.prevSibling, c.nextSibling := null, null, null;
      forall m | 0 <= m < |kids| && m != i
        ensures LinkedPast(kids, i, m)
      {
        assert old(Linked(kids, m));
      }
    }

    /** Unlinks a child; the rest keep their order. */
    method RemoveChild(c: Node, ghost kids: seq<Node>, ghost i: nat, ghost rest: seq<Node>)
      requires HasChildren(kids) && i < |kids| && kids[i] == c && rest == kids[..i] + kids[i + 1..]
      modifies this`firstChild, this`lastChild, kids`prevSibling, kids`nextSibling, c`parent
      ensures HasChildren(rest) && c.Detached()
    {
      Unlink(c, kids, i);
      forall k | 0 <= k < |rest|
        ensures Linked(rest, k)
      {
        assert LinkedPast(kids, i, if k < i then k else k + 1);
        RestLinks(kids, i, k);
      }
    }

    /** Links a detached node after the last child. */
    method AppendChild(c: Node, ghost kids: seq<Node>)
      requires HasChildren(kids) && c.Detached() && c !in kids
      modifies this`firstChild, this`lastChild, kids`nextSibling, c`parent, c`prevSibling, c`nextSibling
      ensures HasChildren(kids + [c])
    {
      var last := lastChild;
      if last != null {
        assert Linked(kids, |kids| - 1);
        last.nextSibling := c;
      } else {
        firstChild := c;
      }
      lastChild := c;
      c.parent := this;
      c.prevSibling := last;
      ghost var all := kids + [c];
      forall k | 0 <= k < |all|
        ensures Linked(all, k)
      {
        if k < |kids| {
          assert old(Linked(kids, k));
          assert all[k] == kids[k];
        }
      }
    }
  }

  /** The neighbours of an element of a list. */
  function PrevOf(kids: seq<Node>, i: nat): Node?
    requires i < |kids|
  {
    if i == 0 then null else kids[i - 1]
  }

  function NextOf(kids: seq<Node>, i: nat): Node?
    requires i < |kids|
  {
    if i + 1 == |kids| then null else kids[i + 1]
  }

  /** Without one element, its two neighbours meet and the others keep theirs. */
  lemma RestLinks(kids: seq<Node>, i: nat, k: nat)
    requires i < |kids| && k < |kids| - 1
    ensures var rest, m := kids[..i] + kids[i + 1..], if k < i then k else k + 1;
      && rest[k] == kids[m]
      && PrevOf(rest, k) == (if m == i + 1 then PrevOf(kids, i) else PrevOf(kids, m))
      && NextOf(rest, k) == (if m + 1 == i then NextOf(kids, i) else NextOf(kids, m))
  {
  }

  /** Children of two nodes are different nodes. */
  lemma OnlyChildren(a: Node, b: Node, as': seq<Node>, bs: seq<Node>)
    requires a != b && a.HasChildren(as') && b.HasChildren(bs)
    ensures forall i, j :: 0 <= i < |as'| && 0 <= j < |bs| ==> as'[i] != bs[j]
  {
    forall i, j | 0 <= i < |as'| && 0 <= j < |bs|
      ensures as'[i] != bs[j]
    {
      assert a.Linked(as', i) && b.Linked(bs, j);
    }
  }

  predicate Disjoint(a: seq<Node>, b: seq<Node>) {
    forall i, j :: 0 <= i < |a| && 0 <= j < |b| ==> a[i] != b[j]
  }

  /** Unlinks the first of the children that are left; another node's children stay as they are. */
  method RemoveFirst(dst: Node, src: Node, c: Node, ghost there: seq<Node>, ghost left: seq<Node>,
                     ghost rest: seq<Node>)
    returns (next: Node?)
    requires dst != src && left == [c] + rest && Disjoint(there, left)
    requires dst.HasChildren(there) && src.HasChildren(left)
    modifies src`firstChild, src`lastChild, left`prevSibling, left`nextSibling, c`parent
    ensures next == (if rest == [] then null else rest[0])
    ensures dst.HasChildren(there) && src.HasChildren(rest) && c.Detached()
  {
    assert src.Linked(left, 0);
    next := c.nextSibling;
    FirstGone(left, c, rest);
    src.RemoveChild(c, left, 0, rest);
    forall i | 0 <= i < |there|
      ensures dst.Linked(there, i)
    {
      assert old(dst.Linked(there, i));
    }
  }

  lemma FirstGone(left: seq<Node>, c: Node, rest: seq<Node>)
    requires left == [c] + rest
    ensures left[0] == c && rest == left[..0] + left[1..]
  {
  }

  /** Links a detached node after a node's children; another node's children stay as they are. */
  method AppendNext(dst: Node, src: Node, c: Node, ghost there: seq<Node>, ghost rest: seq<Node>)
    requires dst != src && c !in there && c !in rest && Disjoint(there, rest)
    requires dst.HasChildren(there) && src.HasChildren(rest) && c.Detached()
    modifies dst`firstChild, dst`lastChild, there`nextSibling, c`parent, c`prevSibling, c`nextSibling
    ensures dst.HasChildren(there + [c]) && src.HasChildren(rest)
  {
    dst.AppendChild(c, there);
    forall i | 0 <= i < |rest|
      ensures src.Linked(rest, i)
    {
      assert old(src.Linked(rest, i));
    }
  }

  /** A list of children among given nodes. */
  predicate Among(kids: seq<Node>, nodes: set<Node>) {
    forall i :: 0 <= i < |kids| ==> kids[i] in nodes
  }

  /** Moves every child of `src` to the end of `dst`'s children. */
  method AppendChildren(dst: Node, src: Node, ghost theirs: seq<Node>, ghost moved: seq<Node>, ghost nodes: set<Node>)
    requires dst != src && dst.HasChildren(theirs) && src.HasChildren(moved)
    requires Among(theirs, nodes) && Among(moved, nodes)
    modifies dst`firstChild, dst`lastChild, src`firstChild, src`lastChild
    modifies nodes`parent, nodes`prevSibling, nodes`nextSibling
    ensures dst.HasChildren(theirs + moved) && src.HasChildren([])
  {
    OnlyChildren(dst, src, theirs, moved);
    var c := src.firstChild;
    ghost var there: seq<Node> := theirs;
    ghost var left: seq<Node> := moved;
    while c != null
      invariant there + left == theirs + moved && Among(there, nodes) && Among(left, nodes)
      invariant c == (if left == [] then null else left[0]) && Disjoint(there, left)
      invariant src.HasChildren(left) && dst.HasChildren(there)
      decreases |left|
    {
      ghost var rest := left[1..];
      StillDisjoint(there, left, src);
      OneMore(there, left, theirs + moved);
      var next := RemoveFirst(dst, src, c, there, left, rest);
      AppendNext(dst, src, c, there, rest);
      c := next;
      there, left := there + [left[0]], rest;
    }
    assert there == theirs + moved;
  }

  lemma OneMore(there: seq<Node>, left: seq<Node>, whole: seq<Node>)
    requires there + left == whole && left != []
    ensures left == [left[0]] + left[1..] && there + [left[0]] + left[1..] == whole
  {
    assert left == [left[0]] + left[1..];
  }

  lemma StillDisjoint(there: seq<Node>, left: seq<Node>, n: Node)
    requires Disjoint(there, left) && left != [] && n.HasChildren(left)
    ensures Disjoint(there, left[1..]) && Disjoint(there + [left[0]], left[1..])
    ensures left[0] !in there && left[0] !in left[1..]
  {
  }

  // ----- Rows and their child lists

  function NodeSet(kids: seq<Node>): set<Node> {
    set j | 0 <= j < |kids| :: kids[j]
  }

  function NodesOf(kids: seq<seq<Node>>): set<Node> {
    set i, j | 0 <= i < |kids| && 0 <= j < |kids[i]| :: kids[i][j]
  }

  predicate Distinct(elems: seq<Node>) {
    forall i, j :: 0 <= i < j < |elems| ==> elems[i] != elems[j]
  }

  /** Each row has its own list of children. */
  predicate Rows(elems: seq<Node>, kids: seq<seq<Node>>)
    requires |elems| == |kids|
    reads elems`firstChild, elems`lastChild
    reads NodesOf(kids)`parent, NodesOf(kids)`prevSibling, NodesOf(kids)`nextSibling
  {
    forall i :: 0 <= i < |elems| ==> elems[i].HasChildren(kids[i])
  }

  /** The lists after row `b`'s children moved to row `a`. */
  function Moved(kids: seq<seq<Node>>, a: nat, b: nat): seq<seq<Node>>
    requires a < b < |kids|
  {
    kids[a := kids[a] + kids[b]][b := []]
  }

  lemma MovedNodes(kids: seq<seq<Node>>, a: nat, b: nat)
    requires a < b < |kids|
    ensures NodesOf(Moved(kids, a, b)) <= NodesOf(kids)
  {
    var m := Moved(kids, a, b);
    forall i, j | 0 <= i < |m| && 0 <= j < |m[i]|
      ensures m[i][j] in NodesOf(kids)
    {
      if i == a {
        assert m[i][j] == if j < |kids[a]| then kids[a][j] else kids[b][j - |kids[a]|];
      } else {
        assert m[i][j] == kids[i][j];
      }
    }
  }

  method AppendRow(elems: seq<Node>, ghost kids: seq<seq<Node>>, a: nat, b: nat)
    requires |elems| == |kids| && Distinct(elems) && Rows(elems, kids) && a < b < |elems|
    modifies elems`firstChild, elems`lastChild
    modifies NodesOf(kids)`parent, NodesOf(kids)`prevSibling, NodesOf(kids)`nextSibling
    ensures Rows(elems, Moved(kids, a, b))
  {
    forall i | 0 <= i < |elems| && i != a && i != b
      ensures Disjoint(kids[i], kids[a]) && Disjoint(kids[i], kids[b]) && elems[i] != elems[a] && elems[i] != elems[b]
    {
      OnlyChildren(elems[i], elems[a], kids[i], kids[a]);
      OnlyChildren(elems[i], elems[b], kids[i], kids[b]);
    }
    AppendChildren(elems[a], elems[b], kids[a], kids[b], NodeSet(kids[a]) + NodeSet(kids[b]));
    forall i | 0 <= i < |elems|
      ensures elems[i].HasChildren(Moved(kids, a, b)[i])
    {
      if i != a && i != b {
        StaysApart(kids[i], kids[a], kids[b]);
        forall k | 0 <= k < |kids[i]|
          ensures elems[i].Linked(kids[i], k)
        {
          assert old(elems[i].Linked(kids[i], k));
        }
      }
    }
  }

  lemma StaysApart(kids: seq<Node>, a: seq<Node>, b: seq<Node>)
    requires Disjoint(kids, a) && Disjoint(kids, b)
    ensures forall i :: 0 <= i < |kids| ==> kids[i] !in a && kids[i] !in b
  {
  }

  // ----- Groups

  /** The lists from `lo` to `hi`, joined. */
  function Joined<T>(kids: seq<seq<T>>, lo: nat, hi: nat): seq<T>
    requires lo <= hi <= |kids|
  {
    if lo == hi then [] else Joined(kids, lo, hi - 1) + kids[hi - 1]
  }

  function GroupEnd(len: nat, i: nat, step: nat): (e: nat)
    requires i < len && step > 0
    ensures i < e <= len
  {
    if i + step < len then i + step else len
  }

  function Empties<T>(n: nat): (s: seq<seq<T>>)
    ensures |s| == n && forall k :: 0 <= k < n ==> s[k] == []
  {
    if n == 0 then [] else Empties(n - 1) + [[]]
  }

  /** The lists after rows `i` to `e` are merged into row `i`. */
  function Gathered<T>(kids: seq<seq<T>>, i: nat, e: nat): (r: seq<seq<T>>)
    requires i < e <= |kids|
    ensures |r| == |kids|
  {
    kids[..i] + [Joined(kids, i, e)] + Empties(e - i - 1) + kids[e..]
  }

  /** The lists after every group from `i` on is merged. */
  function MergedFrom<T>(kids: seq<seq<T>>, i: nat, step: nat): (r: seq<seq<T>>)
    requires i <= |kids| && step > 0
    ensures |r| == |kids| - i
    decreases |kids| - i
  {
    if i == |kids| then [] else
    var e := GroupEnd(|kids|, i, step);
    [Joined(kids, i, e)] + Empties(e - i - 1) + MergedFrom(kids, e, step)
  }

  /** The first row of every group from `i` on. */
  function Heads<T>(elems: seq<T>, i: nat, step: nat): seq<T>
    requires i <= |elems| && step > 0
    decreases |elems| - i
  {
    if i == |elems| then [] else [elems[i]] + Heads(elems, GroupEnd(|elems|, i, step), step)
  }

  lemma GatheredMore(kids: seq<seq<Node>>, i: nat, e: nat)
    requires i < e < |kids|
    ensures Moved(Gathered(kids, i, e), i, e) == Gathered(kids, i, e + 1)
  {
    var g, m := Gathered(kids, i, e), Gathered(kids, i, e + 1);
    assert g[i] == Joined(kids, i, e) && g[e] == kids[e] && m[i] == Joined(kids, i, e + 1);
    forall k | 0 <= k < |kids|
      ensures Moved(g, i, e)[k] == m[k]
    {
    }
  }

  /** The lists after the rows up to `e` are merged into row `i`, one after another. */
  function MovedThrough(kids: seq<seq<Node>>, i: nat, e: nat): (r: seq<seq<Node>>)
    requires i < e <= |kids|
    ensures |r| == |kids|
  {
    if e == i + 1 then kids else Moved(MovedThrough(kids, i, e - 1), i, e - 1)
  }

  lemma {:induction false} ThroughIsGathered(kids: seq<seq<Node>>, i: nat, e: nat)
    requires i < e <= |kids|
    ensures MovedThrough(kids, i, e) == Gathered(kids, i, e)
  {
    if e == i + 1 {
      GatheredOne(kids, i);
    } else {
      ThroughIsGathered(kids, i, e - 1);
      GatheredMore(kids, i, e - 1);
    }
  }

  lemma GatheredOne(kids: seq<seq<Node>>, i: nat)
    requires i < |kids|
    ensures Gathered(kids, i, i + 1) == kids
  {
    assert Joined(kids, i, i) == [];
    assert Joined(kids, i, i + 1) == kids[i];
  }

  /** The rows up to `e` are merged into row `i`, and only nodes of the whole were used. */
  ghost predicate MergedTo(elems: seq<Node>, i: nat, e: nat, whole: seq<seq<Node>>, kids: seq<seq<Node>>)
    requires |elems| == |kids| && i < e <= |kids|
    reads elems`firstChild, elems`lastChild
    reads NodesOf(MovedThrough(kids, i, e))`parent, NodesOf(MovedThrough(kids, i, e))`prevSibling
    reads NodesOf(MovedThrough(kids, i, e))`nextSibling
  {
    Rows(elems, MovedThrough(kids, i, e)) && NodesOf(MovedThrough(kids, i, e)) <= NodesOf(whole)
  }

  /** Merges one row more into row `i`. */
  method MergeOne(elems: seq<Node>, i: nat, e: nat, ghost whole: seq<seq<Node>>, ghost kids: seq<seq<Node>>)
    returns (next: nat)
    requires |elems| == |kids| && Distinct(elems) && i < e < |elems| && MergedTo(elems, i, e, whole, kids)
    modifies elems`firstChild, elems`lastChild
    modifies NodesOf(whole)`parent, NodesOf(whole)`prevSibling, NodesOf(whole)`nextSibling
    ensures next == e + 1 && MergedTo(elems, i, next, whole, kids)
  {
    ghost var cur := MovedThrough(kids, i, e);
    AppendRow(elems, cur, i, e);
    MovedNodes(cur, i, e);
    next := e + 1;
  }

  /** Merges the rows after `i`, up to `n` of them, into it. */
  method MergeGroup(elems: seq<Node>, i: nat, n: nat, ghost whole: seq<seq<Node>>, ghost kids: seq<seq<Node>>)
    requires |elems| == |kids| && Distinct(elems) && i < |elems|
    requires Rows(elems, kids) && NodesOf(kids) <= NodesOf(whole)
    modifies elems`firstChild, elems`lastChild
    modifies NodesOf(whole)`parent, NodesOf(whole)`prevSibling, NodesOf(whole)`nextSibling
    ensures MergedTo(elems, i, GroupEnd(|elems|, i, n + 1), whole, kids)
  {
    var e := i + 1;
    NoneMoved(elems, i, whole, kids);
    while e - i <= n && e < |elems|
      invariant i < e <= GroupEnd(|elems|, i, n + 1)
      invariant MergedTo(elems, i, e, whole, kids) == true // as one term, kept folded
      decreases |elems| - e
    {
      e := MergeOne(elems, i, e, whole, kids);
    }
    assert e == GroupEnd(|elems|, i, n + 1);
  }

  lemma NoneMoved(elems: seq<Node>, i: nat, whole: seq<seq<Node>>, kids: seq<seq<Node>>)
    requires |elems| == |kids| && i < |elems| && Rows(elems, kids) && NodesOf(kids) <= NodesOf(whole)
    ensures MergedTo(elems, i, i + 1, whole, kids)
  {
  }

  lemma JoinedStart<T>(a: seq<seq<T>>, b: seq<seq<T>>, lo: nat, hi: nat)
    requires lo <= hi <= |a| && hi <= |b| && (forall k :: lo <= k < hi ==> a[k] == b[k])
    ensures Joined(a, lo, hi) == Joined(b, lo, hi)
  {
    if lo < hi {
      JoinedStart(a, b, lo, hi - 1);
    }
  }

  /** Merging the next group of what is left of the original lists. */
  lemma GatheredNext<T>(merged: seq<seq<T>>, kids: seq<seq<T>>, i: nat, e: nat)
    requires |merged| == i < e <= |kids|
    ensures Gathered(merged + kids[i..], i, e) == merged + ([Joined(kids, i, e)] + Empties(e - i - 1)) + kids[e..]
  {
    var cur := merged + kids[i..];
    JoinedStart(cur, kids, i, e);
    assert cur[..i] == merged && cur[e..] == kids[e..];
  }

  /** What has been merged so far, one more group, and what the whole comes to from here. */
  function MergedMore<T>(merged: seq<seq<T>>, kids: seq<seq<T>>, i: nat, step: nat): seq<seq<T>>
    requires i < |kids| && step > 0
  {
    var e := GroupEnd(|kids|, i, step);
    merged + ([Joined(kids, i, e)] + Empties(e - i - 1))
  }

  function Outlook<T>(merged: seq<seq<T>>, kids: seq<seq<T>>, i: nat, step: nat): seq<seq<T>>
    requires i <= |kids| && step > 0
  {
    merged + MergedFrom(kids, i, step)
  }

  function HeadsOutlook<T>(out: seq<T>, elems: seq<T>, i: nat, step: nat): seq<T>
    requires i <= |elems| && step > 0
  {
    out + Heads(elems, i, step)
  }

  lemma MergedNext<T>(merged: seq<seq<T>>, kids: seq<seq<T>>, i: nat, step: nat)
    requires |merged| == i < |kids| && step > 0
    ensures Outlook(merged, kids, i, step)
         == Outlook(MergedMore(merged, kids, i, step), kids, GroupEnd(|kids|, i, step), step)
    ensures |MergedMore(merged, kids, i, step)| == GroupEnd(|kids|, i, step)
  {
    var e := GroupEnd(|kids|, i, step);
    Reassociate(merged, [Joined(kids, i, e)] + Empties(e - i - 1), MergedFrom(kids, e, step));
  }

  /** Merging a group in the lists as they are then. */
  lemma ThroughNext(merged: seq<seq<Node>>, kids: seq<seq<Node>>, i: nat, step: nat)
    requires |merged| == i < |kids| && step > 0
    ensures MovedThrough(Partly(merged, kids, i), i, GroupEnd(|kids|, i, step))
         == Partly(MergedMore(merged, kids, i, step), kids, GroupEnd(|kids|, i, step))
  {
    var e := GroupEnd(|kids|, i, step);
    ThroughIsGathered(merged + kids[i..], i, e);
    GatheredNext(merged, kids, i, e);
  }

  lemma HeadsNext<T>(out: seq<T>, elems: seq<T>, i: nat, step: nat)
    requires i < |elems| && step > 0
    ensures HeadsOutlook(out, elems, i, step) == HeadsOutlook(out + [elems[i]], elems, GroupEnd(|elems|, i, step), step)
  {
    Reassociate(out, [elems[i]], Heads(elems, GroupEnd(|elems|, i, step), step));
  }

  /** The lists once the groups before `i` are merged. */
  function Partly<T>(merged: seq<seq<T>>, kids: seq<seq<T>>, i: nat): seq<seq<T>>
    requires i <= |kids|
  {
    merged + kids[i..]
  }

  /** Merges the group that starts at row `i`. */
  method MergeNext(elems: seq<Node>, i: nat, n: nat, ghost kids: seq<seq<Node>>, ghost merged: seq<seq<Node>>)
    returns (ghost merged': seq<seq<Node>>)
    requires |elems| == |kids| && Distinct(elems) && |merged| == i < |elems|
    requires Rows(elems, Partly(merged, kids, i)) && NodesOf(Partly(merged, kids, i)) <= NodesOf(kids)
    modifies elems`firstChild, elems`lastChild
    modifies NodesOf(kids)`parent, NodesOf(kids)`prevSibling, NodesOf(kids)`nextSibling
    ensures var e := GroupEnd(|kids|, i, n + 1);
      && |merged'| == e && Outlook(merged', kids, e, n + 1) == Outlook(merged, kids, i, n + 1)
      && Rows(elems, Partly(merged', kids, e)) && NodesOf(Partly(merged', kids, e)) <= NodesOf(kids)
  {
    MergedNext(merged, kids, i, n + 1);
    ThroughNext(merged, kids, i, n + 1);
    MergeGroup(elems, i, n, kids, Partly(merged, kids, i));
    merged' := MergedMore(merged, kids, i, n + 1);
  }

  method MergeAfter(elems: seq<Node>, after: Option<int>, ghost kids: seq<seq<Node>>) returns (out: seq<Node>)
    requires |elems| == |kids| && Distinct(elems) && Rows(elems, kids)
    modifies elems`firstChild, elems`lastChild
    modifies NodesOf(kids)`parent, NodesOf(kids)`prevSibling, NodesOf(kids)`nextSibling
    ensures out == Heads(elems, 0, Step(after))
    ensures Rows(elems, MergedFrom(kids, 0, Step(after)))
  {
    var n := after.GetOr(0);
    if n <= 0 || |elems| == 0 {
      AloneStays(kids, 0);
      AloneHeads(elems, 0);
      NoneLeft(elems, kids, Step(after));
      return elems;
    }
    out := MergeGroups(elems, n, kids);
  }

  /** The groups before `i` are merged, and what is written with the rest is what is to be written. */
  ghost predicate Halfway(elems: seq<Node>, kids: seq<seq<Node>>, step: nat, i: nat, out: seq<Node>,
                          merged: seq<seq<Node>>)
    requires |elems| == |kids| && step > 0 && i <= |elems| && |merged| == i
    reads elems`firstChild, elems`lastChild
    reads NodesOf(Partly(merged, kids, i))`parent, NodesOf(Partly(merged, kids, i))`prevSibling
    reads NodesOf(Partly(merged, kids, i))`nextSibling
  {
    && HeadsOutlook(out, elems, i, step) == Heads(elems, 0, step)
    && Outlook(merged, kids, i, step) == MergedFrom(kids, 0, step)
    && Rows(elems, Partly(merged, kids, i)) && NodesOf(Partly(merged, kids, i)) <= NodesOf(kids)
  }

  /** One turn of the loop. */
  method MergeTurn(elems: seq<Node>, i: nat, n: nat, ghost kids: seq<seq<Node>>, out: seq<Node>,
                   ghost merged: seq<seq<Node>>)
    returns (i': nat, out': seq<Node>, ghost merged': seq<seq<Node>>)
    requires |elems| == |kids| && Distinct(elems) && |merged| == i < |elems|
    requires Halfway(elems, kids, n + 1, i, out, merged)
    modifies elems`firstChild, elems`lastChild
    modifies NodesOf(kids)`parent, NodesOf(kids)`prevSibling, NodesOf(kids)`nextSibling
    ensures i < i' <= |elems| && |merged'| == i' && Halfway(elems, kids, n + 1, i', out', merged')
  {
    HeadsNext(out, elems, i, n + 1);
    merged' := MergeNext(elems, i, n, kids, merged);
    out' := out + [elems[i]];
    i' := if i + n + 1 < |elems| then i + n + 1 else |elems|;
  }

  /** The loop over the groups. */
  method MergeGroups(elems: seq<Node>, n: nat, ghost kids: seq<seq<Node>>) returns (out: seq<Node>)
    requires |elems| == |kids| && Distinct(elems) && Rows(elems, kids)
    modifies elems`firstChild, elems`lastChild
    modifies NodesOf(kids)`parent, NodesOf(kids)`prevSibling, NodesOf(kids)`nextSibling
    ensures out == Heads(elems, 0, n + 1) && Rows(elems, MergedFrom(kids, 0, n + 1))
  {
    out := [];
    var i: nat := 0;
    ghost var merged: seq<seq<Node>> := [];
    Beginning(elems, kids, n + 1);
    while i < |elems|
      invariant i <= |elems| && |merged| == i
      invariant Halfway(elems, kids, n + 1, i, out, merged) == true // as one term, kept folded
    {
      i, out, merged := MergeTurn(elems, i, n, kids, out, merged);
    }
    NothingLeft(merged, kids, n + 1);
    NoHeadsLeft(out, elems, n + 1);
  }

  lemma Beginning<T>(elems: seq<Node>, kids: seq<seq<T>>, step: nat)
    requires |elems| == |kids| && step > 0
    ensures Partly([], kids, 0) == kids
    ensures Outlook([], kids, 0, step) == MergedFrom(kids, 0, step)
    ensures HeadsOutlook([], elems, 0, step) == Heads(elems, 0, step)
  {
  }

  lemma NothingLeft<T>(merged: seq<seq<T>>, kids: seq<seq<T>>, step: nat)
    requires |merged| == |kids| && step > 0
    ensures Partly(merged, kids, |kids|) == Outlook(merged, kids, |kids|, step)
  {
  }

  lemma NoHeadsLeft<T>(out: seq<T>, elems: seq<T>, step: nat)
    requires step > 0
    ensures HeadsOutlook(out, elems, |elems|, step) == out
  {
  }

  lemma NoneLeft<T>(elems: seq<Node>, kids: seq<seq<T>>, step: nat)
    requires |elems| == |kids| && step > 0
    ensures elems == [] ==> Heads(elems, 0, step) == elems && MergedFrom(kids, 0, step) == kids
  {
  }

  /** How many rows make one group. */
  function Step(after: Option<int>): (step: nat)
    ensures step > 0
  {
    var n := after.GetOr(0);
    if n <= 0 then 1 else n + 1
  }

  lemma AloneStays<T>(kids: seq<seq<T>>, i: nat)
    requires i <= |kids|
    ensures MergedFrom(kids, i, 1) == kids[i..]
    decreases |kids| - i
  {
    if i < |kids| {
      AloneStays(kids, i + 1);
      assert Joined(kids, i, i) == [] && Joined(kids, i, i + 1) == kids[i];
      assert MergedFrom(kids, i, 1) == [kids[i]] + Empties(0) + kids[i + 1..];
    }
  }

  lemma AloneHeads<T>(elems: seq<T>, i: nat)
    requires i <= |elems|
    ensures Heads(elems, i, 1) == elems[i..]
    decreases |elems| - i
  {
    if i < |elems| {
      AloneHeads(elems, i + 1);
    }
  }

  // ----- What the merged rows are

  /** Where group `g` starts: `g` steps on. */
  function GroupStart(g: nat, step: nat): nat {
    if g == 0 then 0 else GroupStart(g - 1, step) + step
  }

  lemma {:induction false} GroupStartIs(g: nat, step: nat)
    ensures GroupStart(g, step) == g * step
  {
    if g > 0 {
      GroupStartIs(g - 1, step);
      assert g * step == (g - 1) * step + step;
    }
  }

  /** There is one output row for every started group: the length divided by the step, rounded up. */
  lemma {:induction false} HeadCount<T>(elems: seq<T>, i: nat, step: nat)
    requires i <= |elems| && step > 0
    ensures |elems| - i <= GroupStart(|Heads(elems, i, step)|, step) < |elems| - i + step
    decreases |elems| - i
  {
    if i < |elems| {
      HeadCount(elems, GroupEnd(|elems|, i, step), step);
    }
  }

  lemma {:induction false} HeadAt<T>(elems: seq<T>, i: nat, step: nat, g: nat)
    requires i <= |elems| && step > 0 && g < |Heads(elems, i, step)|
    ensures i + GroupStart(g, step) < |elems| && Heads(elems, i, step)[g] == elems[i + GroupStart(g, step)]
    decreases |elems| - i
  {
    if g > 0 {
      HeadAt(elems, GroupEnd(|elems|, i, step), step, g - 1);
    }
  }

  /** A list is what its place makes it: its group's lists joined at the group's start, empty `r` rows on. */
  predicate IsMerged<T(==)>(kids: seq<seq<T>>, step: nat, at: nat, r: nat, list: seq<T>)
    requires step > 0 && at < |kids|
  {
    list == if r == 0 then Joined(kids, at, GroupEnd(|kids|, at, step)) else []
  }

  /** A group's first row has the group's lists joined; the others, `r` rows on, are left empty. */
  lemma {:induction false} MergedAt<T>(kids: seq<seq<T>>, i: nat, step: nat, g: nat, at: nat, r: nat)
    requires r < step && at == i + GroupStart(g, step) && at + r < |kids|
    ensures IsMerged(kids, step, at, r, MergedFrom(kids, i, step)[at - i + r])
    decreases g
  {
    if g == 0 {
      FirstGroup(kids, i, step, r);
    } else {
      MergedAt(kids, i + step, step, g - 1, at, r);
      LaterGroup(kids, i, step, at - i + r);
      assert at - (i + step) + r == at - i + r - step;
    }
  }

  lemma FirstGroup<T>(kids: seq<seq<T>>, i: nat, step: nat, r: nat)
    requires r < step && i + r < |kids|
    ensures IsMerged(kids, step, i, r, MergedFrom(kids, i, step)[r])
  {
    var e := GroupEnd(|kids|, i, step);
    var group := [Joined(kids, i, e)] + Empties(e - i - 1);
    assert MergedFrom(kids, i, step) == group + MergedFrom(kids, e, step);
  }

  lemma LaterGroup<T>(kids: seq<seq<T>>, i: nat, step: nat, k: nat)
    requires step > 0 && step <= k && i + k < |kids|
    ensures MergedFrom(kids, i, step)[k] == MergedFrom(kids, i + step, step)[k - step]
  {
    var e := GroupEnd(|kids|, i, step);
    assert e == i + step;
    IndexPast([Joined(kids, i, e)] + Empties(e - i - 1), MergedFrom(kids, e, step), k);
  }

  lemma IndexPast<T>(a: seq<T>, b: seq<T>, k: nat)
    requires |a| <= k < |a| + |b|
    ensures (a + b)[k] == b[k - |a|]
  {
  }

  lemma {:induction false} FlatConcat<T>(a: seq<seq<T>>, b: seq<seq<T>>)
    ensures Flat(a + b) == Flat(a) + Flat(b)
  {
    if b == [] {
      assert a + b == a;
    } else {
      var init, last := b[..|b| - 1], b[|b| - 1];
      assert (a + b)[..|a + b| - 1] == a + init;
      FlatConcat(a, init);
      Reassociate(Flat(a), Flat(init), last);
    }
  }

  lemma {:induction false} FlatEmpties<T>(n: nat)
    ensures Flat(Empties<T>(n)) == []
  {
    if n > 0 {
      FlatEmpties<T>(n - 1);
      assert Empties<T>(n)[..n - 1] == Empties<T>(n - 1);
    }
  }

  lemma {:induction false} FlatJoined<T>(kids: seq<seq<T>>, lo: nat, hi: nat)
    requires lo <= hi <= |kids|
    ensures Joined(kids, lo, hi) == Flat(kids[lo..hi])
  {
    if lo < hi {
      FlatJoined(kids, lo, hi - 1);
      assert kids[lo..hi][..hi - 1 - lo] == kids[lo..hi - 1];
    }
  }

  lemma FlatGroup<T>(list: seq<T>, n: nat)
    ensures Flat([list] + Empties(n)) == list
  {
    FlatConcat([list], Empties(n));
    FlatEmpties<T>(n);
    assert [list][..0] == [];
    assert Flat([list]) == list;
  }

  /** Merging loses, duplicates and reorders no child: all the lists, joined, are what they were. */
  lemma {:induction false} Conserved<T>(kids: seq<seq<T>>, i: nat, step: nat)
    requires i <= |kids| && step > 0
    ensures Flat(MergedFrom(kids, i, step)) == Flat(kids[i..])
    decreases |kids| - i
  {
    if i < |kids| {
      var e := GroupEnd(|kids|, i, step);
      Conserved(kids, e, step);
      FlatConcat([Joined(kids, i, e)] + Empties(e - i - 1), MergedFrom(kids, e, step));
      FlatGroup(Joined(kids, i, e), e - i - 1);
      FlatJoined(kids, i, e);
      FlatConcat(kids[i..e], kids[e..]);
      assert kids[i..] == kids[i..e] + kids[e..];
    }
  }

  // ----- With a given number of rows to take in

  /** With `n` rows to take in, the kept row of index `g` is row `g` times `n` + 1. */
  lemma KeptRow<T>(elems: seq<T>, n: nat, g: nat)
    requires n > 0 && g < |Heads(elems, 0, Step(Some(n)))|
    ensures g * (n + 1) < |elems| && Heads(elems, 0, Step(Some(n)))[g] == elems[g * (n + 1)]
  {
    HeadAt(elems, 0, n + 1, g);
    GroupStartIs(g, n + 1);
  }

  /** With none to take in, or fewer, every row is kept. */
  lemma AllKept<T>(elems: seq<T>, after: Option<int>)
    requires after == None || after.value <= 0
    ensures Heads(elems, 0, Step(after)) == elems
  {
    AloneHeads(elems, 0);
  }
}
