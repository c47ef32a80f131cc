/**
 The caps document's category tree, rebuilt from the flat advertised list by indexing nodes and
 appending to them.
 */
module CategoryTree {
  import opened Wrappers
  import opened Categories
  import opened Numbers
  import opened Sorting
  import opened CategoryMapper

  datatype CapsCategory = CapsCategory(id: int, name: string, subcats: seq<Category>)

  // ----- Specification

  predicate IsTop(c: Category) {
    c.IsCustom() || c.IsParent()
  }

  function TopsOf(adv: seq<Category>): seq<Category> {
    if adv == [] then []
    else TopsOf(adv[..|adv| - 1]) + (if IsTop(adv[|adv| - 1]) then [adv[|adv| - 1]] else [])
  }

  /** The standard top-level category of a name: the last one, as the index is filled in order. */
  function Owner(tops: seq<Category>, name: string): (i: Option<nat>)
    ensures i.Some? ==> i.value < |tops| && !tops[i.value].IsCustom() && tops[i.value].name == name
    ensures i.None? ==> forall k :: 0 <= k < |tops| ==> tops[k].IsCustom() || tops[k].name != name
  {
    if tops == [] then None
    else if !tops[|tops| - 1].IsCustom() && tops[|tops| - 1].name == name then Some(|tops| - 1)
    else Owner(tops[..|tops| - 1], name)
  }

  /** The top-level category a subcategory goes under, if there is one. */
  function OwnerOf(tops: seq<Category>, c: Category): Option<nat> {
    if IsTop(c) then None else Owner(tops, c.Parent())
  }

  /** What goes under one top-level category, in list order. */
  function SubsOf(adv: seq<Category>, tops: seq<Category>, i: nat): seq<Category> {
    if adv == [] then [] else
    var last := adv[|adv| - 1];
    SubsOf(adv[..|adv| - 1], tops, i) + (if OwnerOf(tops, last) == Some(i) then [last] else [])
  }

  function TopLevelSortKey(c: Category): string {
    if c.id >= CUSTOM_CATEGORY_OFFSET then "zzz" + c.name else Itoa(c.id)
  }

  predicate KeyLess(a: Category, b: Category) {
    StringLess(TopLevelSortKey(a), TopLevelSortKey(b))
  }

  function RootOfNode(n: CapsCategory): Category {
    Category(n.id, n.name)
  }

  predicate NodeLess(a: CapsCategory, b: CapsCategory) {
    KeyLess(RootOfNode(a), RootOfNode(b))
  }

  function NodeFor(adv: seq<Category>, tops: seq<Category>, i: nat): CapsCategory
    requires i < |tops|
  {
    CapsCategory(tops[i].id, tops[i].name, StableSort(SubsOf(adv, tops, i), IdLess))
  }

  /** The nodes of the first `n` top-level categories, before the top level is sorted. */
  function NodesOf(adv: seq<Category>, tops: seq<Category>, n: nat): (nodes: seq<CapsCategory>)
    requires n <= |tops|
    ensures |nodes| == n && forall i :: 0 <= i < n ==> nodes[i] == NodeFor(adv, tops, i)
  {
    if n == 0 then [] else NodesOf(adv, tops, n - 1) + [NodeFor(adv, tops, n - 1)]
  }

  function Tree(adv: seq<Category>): seq<CapsCategory> {
    var tops := TopsOf(adv);
    StableSort(NodesOf(adv, tops, |tops|), NodeLess)
  }

  // ----- The builder

  class Node {
    const id: int
    const name: string
    var subcats: seq<Category>

    constructor (id: int, name: string)
      ensures this.id == id && this.name == name && subcats == []
    {
      this.id, this.name := id, name;
      subcats := [];
    }

    function Root(): Category {
      Category(id, name)
    }
  }

  predicate RefLess(a: Node, b: Node) {
    KeyLess(a.Root(), b.Root())
  }

  /** The values of nodes. */
  function Values(top: seq<Node>): (out: seq<CapsCategory>)
    reads top
    ensures |out| == |top|
  {
    if top == [] then []
    else Values(top[..|top| - 1]) + [ValueOf(top[|top| - 1])]
  }

  function ValueOf(n: Node): CapsCategory
    reads n
  {
    CapsCategory(n.id, n.name, n.subcats)
  }

  lemma ValuesLast(top: seq<Node>, x: Node)
    ensures Values(top + [x]) == Values(top) + [ValueOf(x)]
  {
    assert (top + [x])[..|top|] == top;
  }

  lemma InsertLast<T>(s: seq<T>, last: T, x: T, less: (T, T) -> bool)
    ensures Insert(s + [last], x, less) == if less(x, last) then Insert(s, x, less) + [last] else s + [last] + [x]
  {
    assert (s + [last])[..|s|] == s;
  }

  lemma {:induction false} InsertValues(top: seq<Node>, x: Node)
    ensures Values(Insert(top, x, RefLess)) == Insert(Values(top), ValueOf(x), NodeLess)
  {
    if top != [] {
      var init, last := top[..|top| - 1], top[|top| - 1];
      InsertValues(init, x);
      InsertLast(Values(init), ValueOf(last), ValueOf(x), NodeLess);
      ValuesLast(Insert(init, x, RefLess), last);
    }
    ValuesLast(top, x);
  }

  /** Sorting nodes sorts their values. */
  lemma {:induction false} SortValues(top: seq<Node>)
    ensures Values(StableSort(top, RefLess)) == StableSort(Values(top), NodeLess)
  {
    if top != [] {
      SortValues(top[..|top| - 1]);
      InsertValues(StableSort(top[..|top| - 1], RefLess), top[|top| - 1]);
      assert Values(top)[..|top| - 1] == Values(top[..|top| - 1]);
    }
  }

  /** The nodes stand for the top-level categories. */
  predicate Stands(top: seq<Node>, tops: seq<Category>) {
    |top| == |tops| && forall i :: 0 <= i < |top| ==> top[i].Root() == tops[i]
  }

  predicate Distinct(top: seq<Node>) {
    forall i, j :: 0 <= i < j < |top| ==> top[i] != top[j]
  }

  /** The index finds each standard top-level category by name. */
  ghost predicate Indexed(parents: map<string, Node>, top: seq<Node>, tops: seq<Category>)
    requires |top| == |tops|
  {
    forall name :: match Owner(tops, name)
                   case None => name !in parents
                   case Some(i) => name in parents && parents[name] == top[i]
  }

  predicate Holds(adv: seq<Category>, top: seq<Node>, tops: seq<Category>)
    reads top
  {
    forall i :: 0 <= i < |top| ==> top[i].subcats == SubsOf(adv, tops, i)
  }

  lemma IndexOneMore(parents: map<string, Node>, top: seq<Node>, tops: seq<Category>, node: Node, c: Category)
    requires |top| == |tops| && Indexed(parents, top, tops)
    ensures Indexed(if c.IsCustom() then parents else parents[c.name := node], top + [node], tops + [c])
  {
    assert (tops + [c])[..|tops|] == tops;
  }

  /** Adds a top-level node, indexed by name unless it is custom. */
  method AddTop(parents: map<string, Node>, top: seq<Node>, ghost tops: seq<Category>, c: Category)
    returns (parents': map<string, Node>, node: Node)
    requires Stands(top, tops) && Indexed(parents, top, tops)
    ensures fresh(node) && node.subcats == [] && node.Root() == c
    ensures Indexed(parents', top + [node], tops + [c])
  {
    node := new Node(c.id, c.name);
    IndexOneMore(parents, top, tops, node, c);
    parents' := if c.IsCustom() then parents else parents[c.name := node];
  }

  /** Appends a subcategory to the node its root's name finds, if it finds one. */
  method AddSub(parents: map<string, Node>, top: seq<Node>, ghost tops: seq<Category>, c: Category)
    requires Stands(top, tops) && Distinct(top) && Indexed(parents, top, tops) && !IsTop(c)
    modifies top
    ensures forall i :: 0 <= i < |top| ==>
      top[i].subcats == old(top[i].subcats) + (if OwnerOf(tops, c) == Some(i) then [c] else [])
  {
    assert OwnerOf(tops, c) == Owner(tops, c.Parent());
    if c.Parent() in parents {
      ghost var i := Owner(tops, c.Parent()).value;
      var parent := parents[c.Parent()];
      assert parent == top[i];
      parent.subcats := parent.subcats + [c];
    }
  }

  lemma HoldsMore(adv: seq<Category>, k: nat, tops: seq<Category>, i: nat)
    requires k < |adv|
    ensures SubsOf(adv[..k + 1], tops, i)
         == SubsOf(adv[..k], tops, i) + (if OwnerOf(tops, adv[k]) == Some(i) then [adv[k]] else [])
  {
    assert adv[..k + 1][..k] == adv[..k];
  }

  method BuildCategoryTree(advertised: seq<Category>) returns (out: seq<CapsCategory>)
    ensures out == Tree(advertised)
  {
    var parents, top := TopLevel(advertised);
    ghost var tops := TopsOf(advertised);
    for k := 0 to |advertised|
      invariant fresh(set n | n in top)
      invariant Holds(advertised[..k], top, tops)
    {
      var c := advertised[k];
      forall i: nat
        ensures SubsOf(advertised[..k + 1], tops, i)
             == SubsOf(advertised[..k], tops, i) + (if OwnerOf(tops, c) == Some(i) then [c] else [])
      {
        HoldsMore(advertised, k, tops, i);
      }
      if !(c.IsCustom() || c.IsParent()) {
        AddSub(parents, top, tops, c);
      }
    }
    assert advertised[..|advertised|] == advertised;
    var sorted := SortCategoryTree(top, advertised, tops);
    out := Copied(sorted);
  }

  /** The nodes' values, copied out. */
  method Copied(sorted: seq<Node>) returns (out: seq<CapsCategory>)
    ensures out == Values(sorted)
  {
    out := [];
    for i := 0 to |sorted|
      invariant out == Values(sorted[..i])
    {
      assert sorted[..i + 1][..i] == sorted[..i];
      out := out + [CapsCategory(sorted[i].id, sorted[i].name, sorted[i].subcats)];
    }
    assert sorted[..|sorted|] == sorted;
  }

  lemma TopsMore(adv: seq<Category>, k: nat)
    requires k < |adv|
    ensures TopsOf(adv[..k + 1]) == if IsTop(adv[k]) then TopsOf(adv[..k]) + [adv[k]] else TopsOf(adv[..k])
  {
    assert adv[..k + 1][..k] == adv[..k];
  }

  /** Makes the top-level nodes and their index. */
  method TopLevel(advertised: seq<Category>) returns (parents: map<string, Node>, top: seq<Node>)
    ensures fresh(set n | n in top) && Distinct(top)
    ensures Stands(top, TopsOf(advertised)) && Indexed(parents, top, TopsOf(advertised))
    ensures Holds([], top, TopsOf(advertised))
  {
    parents, top := map[], [];
    ghost var tops := [];
    for k := 0 to |advertised|
      invariant tops == TopsOf(advertised[..k])
      invariant fresh(set n | n in top) && Distinct(top)
      invariant Stands(top, tops) && Indexed(parents, top, tops)
      invariant Holds([], top, tops)
    {
      var c := advertised[k];
      TopsMore(advertised, k);
      if c.IsCustom() || c.IsParent() {
        var node;
        parents, node := AddTop(parents, top, tops, c);
        top := top + [node];
        tops := tops + [c];
      }
    }
    assert advertised[..|advertised|] == advertised;
  }

  /** Sorts each node's subcategories in place. */
  method SortSubcats(top: seq<Node>)
    requires Distinct(top)
    modifies top
    ensures forall i :: 0 <= i < |top| ==> top[i].subcats == StableSort(old(top[i].subcats), IdLess)
  {
    for k := 0 to |top|
      invariant forall i :: 0 <= i < k ==> top[i].subcats == StableSort(old(top[i].subcats), IdLess)
      invariant forall i :: k <= i < |top| ==> top[i].subcats == old(top[i].subcats)
    {
      top[k].subcats := StableSort(top[k].subcats, IdLess);
    }
  }

  /** Sorts each node's subcategories in place, then the nodes. */
  method SortCategoryTree(top: seq<Node>, ghost adv: seq<Category>, ghost tops: seq<Category>)
    returns (sorted: seq<Node>)
    requires Stands(top, tops) && Distinct(top) && Holds(adv, top, tops)
    modifies top
    ensures Values(sorted) == StableSort(NodesOf(adv, tops, |tops|), NodeLess)
  {
    SortSubcats(top);
    ValuesAre(top, adv, tops, |top|);
    assert top[..|top|] == top;
    SortValues(top);
    sorted := StableSort(top, RefLess);
  }

  lemma {:induction false} ValuesAre(top: seq<Node>, adv: seq<Category>, tops: seq<Category>, n: nat)
    requires Stands(top, tops) && n <= |top|
    requires forall i :: 0 <= i < n ==> top[i].subcats == StableSort(SubsOf(adv, tops, i), IdLess)
    ensures Values(top[..n]) == NodesOf(adv, tops, n)
  {
    if n > 0 {
      ValuesAre(top, adv, tops, n - 1);
      assert top[..n][..n - 1] == top[..n - 1];
    }
  }
}
