/** What the tree holds. */
module CategoryConservation {
  import opened Wrappers
  import opened Categories
  import opened Numbers
  import opened Sorting
  import opened CategoryMapper
  import opened AdvertisedSet
  import opened CategoryTree

  // ----- Every category, once

  /** How often a category occurs in a list. */
  function Times(s: seq<Category>, x: Category): nat {
    if s == [] then 0 else Times(s[..|s| - 1], x) + One(s[|s| - 1] == x)
  }

  function TimesInNode(n: CapsCategory, x: Category): nat {
    One(RootOfNode(n) == x) + Times(n.subcats, x)
  }

  /** How often a category occurs in a tree, as a root or as a subcategory. */
  function TimesIn(tree: seq<CapsCategory>, x: Category): nat {
    if tree == [] then 0 else TimesIn(tree[..|tree| - 1], x) + TimesInNode(tree[|tree| - 1], x)
  }

  function One(b: bool): nat {
    if b then 1 else 0
  }

  /** A category the tree has a place for: a top-level one, or one whose family root is a standard top-level one. */
  predicate Placed(tops: seq<Category>, c: Category) {
    IsTop(c) || OwnerOf(tops, c).Some?
  }

  function PlacedOf(adv: seq<Category>, tops: seq<Category>): seq<Category> {
    if adv == [] then []
    else PlacedOf(adv[..|adv| - 1], tops) + (if Placed(tops, adv[|adv| - 1]) then [adv[|adv| - 1]] else [])
  }

  function Sum(f: nat -> nat, n: nat): nat {
    if n == 0 then 0 else Sum(f, n - 1) + f(n - 1)
  }

  /** How often a category occurs under each top-level category. */
  function UnderEach(adv: seq<Category>, tops: seq<Category>, x: Category): nat -> nat {
    i => Times(SubsOf(adv, tops, i), x)
  }

  /** How often a category occurs under the first `n` top-level categories. */
  function TimesUnder(adv: seq<Category>, tops: seq<Category>, n: nat, x: Category): nat {
    Sum(UnderEach(adv, tops, x), n)
  }

  lemma TimesLast(s: seq<Category>, e: Category, x: Category)
    ensures Times(s + [e], x) == Times(s, x) + One(e == x)
  {
    assert (s + [e])[..|s|] == s;
  }

  lemma {:induction false} TimesInsertById(s: seq<Category>, e: Category, x: Category)
    ensures Times(Insert(s, e, IdLess), x) == Times(s, x) + One(e == x)
  {
    if s == [] || !IdLess(e, s[|s| - 1]) {
      TimesLast(s, e, x);
    } else {
      TimesInsertById(s[..|s| - 1], e, x);
      TimesLast(Insert(s[..|s| - 1], e, IdLess), s[|s| - 1], x);
    }
  }

  lemma {:induction false} TimesSortById(s: seq<Category>, x: Category)
    ensures Times(StableSort(s, IdLess), x) == Times(s, x)
  {
    if s != [] {
      TimesSortById(s[..|s| - 1], x);
      TimesInsertById(StableSort(s[..|s| - 1], IdLess), s[|s| - 1], x);
    }
  }

  lemma TimesMaybe(s: seq<Category>, keep: bool, e: Category, x: Category)
    ensures Times(s + (if keep then [e] else []), x) == Times(s, x) + One(keep && e == x)
  {
    if keep {
      TimesLast(s, e, x);
    } else {
      assert s + [] == s;
    }
  }

  lemma TimesInLast(tree: seq<CapsCategory>, n: CapsCategory, x: Category)
    ensures TimesIn(tree + [n], x) == TimesIn(tree, x) + TimesInNode(n, x)
  {
    assert (tree + [n])[..|tree|] == tree;
  }

  lemma {:induction false} TimesInserted(tree: seq<CapsCategory>, n: CapsCategory, x: Category)
    ensures TimesIn(Insert(tree, n, NodeLess), x) == TimesIn(tree, x) + TimesInNode(n, x)
  {
    if tree == [] || !NodeLess(n, tree[|tree| - 1]) {
      TimesInLast(tree, n, x);
    } else {
      var init, last := tree[..|tree| - 1], tree[|tree| - 1];
      TimesInserted(init, n, x);
      TimesInLast(Insert(init, n, NodeLess), last, x);
    }
  }

  lemma {:induction false} TimesSorted(tree: seq<CapsCategory>, x: Category)
    ensures TimesIn(StableSort(tree, NodeLess), x) == TimesIn(tree, x)
  {
    if tree != [] {
      TimesSorted(tree[..|tree| - 1], x);
      TimesInserted(StableSort(tree[..|tree| - 1], NodeLess), tree[|tree| - 1], x);
    }
  }

  lemma TimesInNodeFor(adv: seq<Category>, tops: seq<Category>, i: nat, x: Category)
    requires i < |tops|
    ensures TimesInNode(NodeFor(adv, tops, i), x) == One(tops[i] == x) + Times(SubsOf(adv, tops, i), x)
  {
    TimesSortById(SubsOf(adv, tops, i), x);
  }

  /** How often a category occurs among the first `n`. */
  function TimesAmong(s: seq<Category>, n: nat, x: Category): nat
    requires n <= |s|
  {
    if n == 0 then 0 else TimesAmong(s, n - 1, x) + One(s[n - 1] == x)
  }

  lemma {:induction false} TimesAmongStart(a: seq<Category>, b: seq<Category>, n: nat, x: Category)
    requires n <= |a| && a <= b
    ensures TimesAmong(a, n, x) == TimesAmong(b, n, x)
  {
    if n > 0 {
      TimesAmongStart(a, b, n - 1, x);
    }
  }

  lemma {:induction false} TimesAmongAll(s: seq<Category>, x: Category)
    ensures TimesAmong(s, |s|, x) == Times(s, x)
  {
    if s != [] {
      TimesAmongAll(s[..|s| - 1], x);
      TimesAmongStart(s[..|s| - 1], s, |s| - 1, x);
    }
  }

  lemma {:induction false} TimesAddUp(nodes: seq<CapsCategory>, tops: seq<Category>, under: nat -> nat, x: Category)
    requires |nodes| <= |tops|
    requires forall i :: 0 <= i < |nodes| ==> TimesInNode(nodes[i], x) == One(tops[i] == x) + under(i)
    ensures TimesIn(nodes, x) == TimesAmong(tops, |nodes|, x) + Sum(under, |nodes|)
  {
    if nodes != [] {
      TimesAddUp(nodes[..|nodes| - 1], tops, under, x);
    }
  }

  lemma TimesInNodes(adv: seq<Category>, tops: seq<Category>, x: Category)
    ensures TimesIn(NodesOf(adv, tops, |tops|), x) == Times(tops, x) + TimesUnder(adv, tops, |tops|, x)
  {
    var nodes := NodesOf(adv, tops, |tops|);
    forall i | 0 <= i < |nodes|
      ensures TimesInNode(nodes[i], x) == One(tops[i] == x) + UnderEach(adv, tops, x)(i)
    {
      TimesInNodeFor(adv, tops, i, x);
    }
    TimesAddUp(nodes, tops, UnderEach(adv, tops, x), x);
    TimesAmongAll(tops, x);
  }

  lemma SubsOfLast(adv: seq<Category>, c: Category, tops: seq<Category>, i: nat, x: Category)
    ensures Times(SubsOf(adv + [c], tops, i), x)
         == Times(SubsOf(adv, tops, i), x) + One(OwnerOf(tops, c) == Some(i) && c == x)
  {
    assert (adv + [c])[..|adv|] == adv;
    TimesMaybe(SubsOf(adv, tops, i), OwnerOf(tops, c) == Some(i), c, x);
  }

  /** Raising one term of a sum by one raises the sums that reach it. */
  lemma {:induction false} SumRaised(f: nat -> nat, g: nat -> nat, raised: Option<nat>, n: nat)
    requires forall i: nat :: g(i) == f(i) + One(raised == Some(i))
    ensures Sum(g, n) == Sum(f, n) + One(raised.Some? && raised.value < n)
  {
    if n > 0 {
      SumRaised(f, g, raised, n - 1);
    }
  }

  /** A category is under one of the first `n` nodes when its owner is one of them. */
  lemma TimesUnderLast(adv: seq<Category>, c: Category, tops: seq<Category>, n: nat, x: Category)
    ensures TimesUnder(adv + [c], tops, n, x)
         == TimesUnder(adv, tops, n, x) + One(OwnerOf(tops, c).Some? && OwnerOf(tops, c).value < n && c == x)
  {
    var raised := if c == x then OwnerOf(tops, c) else None;
    forall i: nat
      ensures UnderEach(adv + [c], tops, x)(i) == UnderEach(adv, tops, x)(i) + One(raised == Some(i))
    {
      SubsOfLast(adv, c, tops, i, x);
    }
    SumRaised(UnderEach(adv, tops, x), UnderEach(adv + [c], tops, x), raised, n);
  }

  lemma {:induction false} NoneUnder(tops: seq<Category>, n: nat, x: Category)
    ensures TimesUnder([], tops, n, x) == 0
  {
    if n > 0 {
      NoneUnder(tops, n - 1, x);
    }
  }

  lemma TopsOfLast(adv: seq<Category>, c: Category, x: Category)
    ensures Times(TopsOf(adv + [c]), x) == Times(TopsOf(adv), x) + One(IsTop(c) && c == x)
  {
    assert (adv + [c])[..|adv|] == adv;
    TimesMaybe(TopsOf(adv), IsTop(c), c, x);
  }

  lemma PlacedOfLast(adv: seq<Category>, c: Category, tops: seq<Category>, x: Category)
    ensures Times(PlacedOf(adv + [c], tops), x) == Times(PlacedOf(adv, tops), x) + One(Placed(tops, c) && c == x)
  {
    assert (adv + [c])[..|adv|] == adv;
    TimesMaybe(PlacedOf(adv, tops), Placed(tops, c), c, x);
  }

  lemma {:induction false} TopsAndSubs(adv: seq<Category>, tops: seq<Category>, x: Category)
    ensures Times(TopsOf(adv), x) + TimesUnder(adv, tops, |tops|, x) == Times(PlacedOf(adv, tops), x)
  {
    if adv == [] {
      NoneUnder(tops, |tops|, x);
    } else {
      var init, last := adv[..|adv| - 1], adv[|adv| - 1];
      assert adv == init + [last];
      TopsAndSubs(init, tops, x);
      TopsOfLast(init, last, x);
      TimesUnderLast(init, last, tops, |tops|, x);
      PlacedOfLast(init, last, tops, x);
    }
  }

  /** For every list: the tree holds exactly the list's placed categories, each as often as the list does. */
  lemma TreeHoldsPlaced(adv: seq<Category>, x: Category)
    ensures TimesIn(Tree(adv), x) == Times(PlacedOf(adv, TopsOf(adv)), x)
  {
    var tops := TopsOf(adv);
    TimesSorted(NodesOf(adv, tops, |tops|), x);
    TimesInNodes(adv, tops, x);
    TopsAndSubs(adv, tops, x);
  }

  lemma {:induction false} TopsAreTheTops(adv: seq<Category>, c: Category)
    ensures c in TopsOf(adv) <==> c in adv && IsTop(c)
  {
    if adv != [] {
      var init := adv[..|adv| - 1];
      TopsAreTheTops(init, c);
      assert adv == init + [adv[|adv| - 1]];
    }
  }

  lemma {:induction false} PlacedTimes(adv: seq<Category>, tops: seq<Category>, c: Category)
    ensures Times(PlacedOf(adv, tops), c) == if Placed(tops, c) then Times(adv, c) else 0
  {
    if adv != [] {
      var init, last := adv[..|adv| - 1], adv[|adv| - 1];
      PlacedTimes(init, tops, c);
      assert adv == init + [last];
      PlacedOfLast(init, last, tops, c);
      TimesLast(init, last, c);
    }
  }

  /** A category is top-level, or a standard category of its root's name is advertised. */
  ghost predicate HasPlace(adv: map<int, Category>, c: Category) {
    IsTop(c) || exists root :: IsAdvertised(adv, root) && !root.IsCustom() && root.name == c.Parent()
  }

  lemma PlacedIff(list: seq<Category>, adv: map<int, Category>, c: Category)
    requires IsListing(list, adv)
    ensures Placed(TopsOf(list), c) <==> HasPlace(adv, c)
  {
    var tops := TopsOf(list);
    if !IsTop(c) && HasPlace(adv, c) {
      var root :| IsAdvertised(adv, root) && !root.IsCustom() && root.name == c.Parent();
      ParentHasNoSlash(c);
      TopsAreTheTops(list, root);
      var i :| 0 <= i < |tops| && tops[i] == root;
    }
    if !IsTop(c) && Placed(tops, c) {
      var root := tops[OwnerOf(tops, c).value];
      TopsAreTheTops(list, root);
      assert IsAdvertised(adv, root);
    }
  }

  /** Every advertised set: its tree holds, once each, the advertised categories that have a place. */
  lemma TreeHoldsHoused(list: seq<Category>, adv: map<int, Category>, x: Category)
    requires IsListing(list, adv)
    ensures TimesIn(Tree(list), x) == One(IsAdvertised(adv, x) && HasPlace(adv, x))
  {
    TreeHoldsPlaced(list, x);
    PlacedTimes(list, TopsOf(list), x);
    OrderedTimes(list, x);
    PlacedIff(list, adv, x);
  }

  ghost predicate AllHavePlace(adv: map<int, Category>) {
    forall c :: IsAdvertised(adv, c) ==> HasPlace(adv, c)
  }

  /** The tree holds each advertised category once, and nothing else. */
  ghost predicate HoldsEachOnce(tree: seq<CapsCategory>, adv: map<int, Category>) {
    forall x :: TimesIn(tree, x) == One(IsAdvertised(adv, x))
  }

  lemma EachCategoryOnceIff(list: seq<Category>, adv: map<int, Category>)
    requires IsListing(list, adv)
    ensures HoldsEachOnce(Tree(list), adv) <==> AllHavePlace(adv)
  {
    forall x
      ensures TimesIn(Tree(list), x) == One(IsAdvertised(adv, x) && HasPlace(adv, x))
    {
      TreeHoldsHoused(list, adv, x);
    }
    if HoldsEachOnce(Tree(list), adv) {
      forall c | IsAdvertised(adv, c)
        ensures HasPlace(adv, c)
      {
        assert TimesIn(Tree(list), c) == One(true);
      }
    }
  }

  /** In a well-built set every category has its place. */
  lemma WellBuiltHasPlaces(table: seq<Category>, st: MapState)
    requires GoodTable(table) && WellBuilt(table, st)
    ensures AllHavePlace(st.advertised)
  {
    forall c | IsAdvertised(st.advertised, c)
      ensures HasPlace(st.advertised, c)
    {
      assert InPlace(table, st.advertised, st.advertised[c.id]);
      if !c.IsCustom() {
        RowIdIsSmall(table, ByName(table, c.Parent()).value);
      }
    }
  }

  /** So the tree of a well-built set holds each advertised category exactly once, and nothing else. */
  lemma EachCategoryOnce(table: seq<Category>, st: MapState, list: seq<Category>, x: Category)
    requires GoodTable(table) && WellBuilt(table, st) && IsListing(list, st.advertised)
    ensures TimesIn(Tree(list), x) == One(IsAdvertised(st.advertised, x))
  {
    WellBuiltHasPlaces(table, st);
    TreeHoldsHoused(list, st.advertised, x);
  }

  lemma {:induction false} OrderedTimes(list: seq<Category>, c: Category)
    requires Ordered(list, IdLess)
    ensures Times(list, c) == One(c in list)
  {
    if list != [] {
      var init, last := list[..|list| - 1], list[|list| - 1];
      OrderedTimes(init, c);
      assert list == init + [last];
      TimesLast(init, last, c);
      forall i | 0 <= i < |init|
        ensures init[i] != last
      {
        assert IdLess(list[i], list[|list| - 1]);
      }
    }
  }

  // ----- Under which root

  lemma {:induction false} SubsBelong(adv: seq<Category>, tops: seq<Category>, i: nat, c: Category)
    requires c in SubsOf(adv, tops, i)
    ensures c in adv && OwnerOf(tops, c) == Some(i)
  {
    if adv != [] {
      var init, last := adv[..|adv| - 1], adv[|adv| - 1];
      if c in SubsOf(init, tops, i) {
        SubsBelong(init, tops, i, c);
      }
    }
  }

  /** For every list: a subcategory stands under the standard category its name starts with. */
  lemma SubcatsUnderTheirRoot(adv: seq<Category>, n: CapsCategory, c: Category)
    requires n in Tree(adv) && c in n.subcats
    ensures c in adv && !RootOfNode(n).IsCustom() && c.Parent() == n.name
  {
    var i := NodeInTree(adv, n);
    var tops := TopsOf(adv);
    SortKeeps(SubsOf(adv, tops, i), IdLess);
    SameElements(n.subcats, SubsOf(adv, tops, i), c);
    SubsBelong(adv, tops, i, c);
  }

  /** A node of the tree is that of some top-level category. */
  lemma NodeInTree(adv: seq<Category>, n: CapsCategory) returns (i: nat)
    requires n in Tree(adv)
    ensures i < |TopsOf(adv)| && n == NodeFor(adv, TopsOf(adv), i)
  {
    var tops := TopsOf(adv);
    i := NodeSorted(NodesOf(adv, tops, |tops|), n);
  }

  lemma NodeSorted(nodes: seq<CapsCategory>, n: CapsCategory) returns (i: nat)
    requires n in StableSort(nodes, NodeLess)
    ensures i < |nodes| && nodes[i] == n
  {
    SortKeeps(nodes, NodeLess);
    SameElements(StableSort(nodes, NodeLess), nodes, n);
    i :| 0 <= i < |nodes| && nodes[i] == n;
  }

  // ----- In which order

  /** Standard categories by id, then custom ones by name, ties by id. */
  predicate TopBefore(a: CapsCategory, b: CapsCategory) {
    if a.id >= CUSTOM_CATEGORY_OFFSET then
      b.id >= CUSTOM_CATEGORY_OFFSET && (StringLess(a.name, b.name) || (a.name == b.name && a.id < b.id))
    else b.id >= CUSTOM_CATEGORY_OFFSET || a.id < b.id
  }

  lemma TopOrder()
    ensures StrictOrder(TopBefore)
  {
    forall a
      ensures !TopBefore(a, a)
    {
      StringIrreflexive(a.name);
    }
    forall a, b, c | TopBefore(a, b) && TopBefore(b, c)
      ensures TopBefore(a, c)
    {
      if StringLess(a.name, b.name) && StringLess(b.name, c.name) {
        StringTransitive(a.name, b.name, c.name);
      }
    }
  }

  predicate FourDigitOrCustom(c: Category) {
    1000 <= c.id < 10000 || c.IsCustom()
  }

  lemma NotBoth(a: string, b: string)
    requires StringLess(a, b)
    ensures !StringLess(b, a)
  {
    if StringLess(b, a) {
      StringTransitive(a, b, a);
      StringIrreflexive(a);
    }
  }

  lemma {:induction false} DigitsStart(n: nat)
    ensures Digits(n)[0] <= '9'
  {
    if n >= 10 {
      DigitsStart(n / 10);
    }
  }

  /** A standard key comes before every custom one. */
  lemma StandardKeyFirst(a: Category, b: Category)
    requires !a.IsCustom() && b.IsCustom()
    ensures KeyLess(a, b) && !KeyLess(b, a)
  {
    DigitsStart(if a.id < 0 then -a.id else a.id);
    assert Itoa(a.id)[0] <= '9' < 'z' && TopLevelSortKey(b)[0] == 'z';
    NotBoth(TopLevelSortKey(a), TopLevelSortKey(b));
  }

  lemma CustomKeysCompare(a: Category, b: Category)
    requires a.IsCustom() && b.IsCustom()
    ensures KeyLess(a, b) <==> StringLess(a.name, b.name)
  {
    SamePrefix("zzz", a.name, b.name);
  }

  predicate Arranged(a: Category, b: Category) {
    var na, nb := CapsCategory(a.id, a.name, []), CapsCategory(b.id, b.name, []);
    if KeyLess(b, a) then TopBefore(nb, na) else TopBefore(na, nb)
  }

  /**
   The sort key arranges two top-level categories, the first of lower id, as documented, unless both
   are standard and their ids written in decimal are in the other order.
   */
  lemma KeyArrangesIff(a: Category, b: Category)
    requires a.id < b.id
    ensures Arranged(a, b) <==> b.IsCustom() || !StringLess(Itoa(b.id), Itoa(a.id))
  {
    if a.IsCustom() {
      CustomKeysCompare(b, a);
      StringTotal(a.name, b.name);
    } else if b.IsCustom() {
      StandardKeyFirst(a, b);
    }
  }

  lemma FourDigitKeys(a: Category, b: Category)
    requires a.id < b.id && FourDigitOrCustom(a) && FourDigitOrCustom(b)
    ensures b.IsCustom() || !StringLess(Itoa(b.id), Itoa(a.id))
  {
    if !b.IsCustom() {
      FourDigits(a.id);
      FourDigits(b.id);
      DigitsOrder(a.id, b.id);
      NotBoth(Itoa(a.id), Itoa(b.id));
    }
  }

  /** Four-digit ids are written in their order. */
  lemma KeyArranges(a: Category, b: Category)
    requires a.id < b.id && FourDigitOrCustom(a) && FourDigitOrCustom(b)
    ensures Arranged(a, b)
  {
    FourDigitKeys(a, b);
    KeyArrangesIff(a, b);
  }

  lemma {:induction false} TopsAscend(adv: seq<Category>)
    requires Ordered(adv, IdLess)
    ensures Ordered(TopsOf(adv), IdLess)
  {
    if adv != [] {
      var init, last := adv[..|adv| - 1], adv[|adv| - 1];
      TopsAscend(init);
      forall i | 0 <= i < |TopsOf(init)|
        ensures IdLess(TopsOf(init)[i], last)
      {
        TopsAreTheTops(init, TopsOf(init)[i]);
        var k :| 0 <= k < |init| && init[k] == TopsOf(init)[i];
        assert IdLess(adv[k], adv[|adv| - 1]);
      }
    }
  }

  lemma {:induction false} SubsAscend(adv: seq<Category>, tops: seq<Category>, i: nat)
    requires Ordered(adv, IdLess)
    ensures Ordered(SubsOf(adv, tops, i), IdLess)
  {
    if adv != [] {
      var init, last := adv[..|adv| - 1], adv[|adv| - 1];
      SubsAscend(init, tops, i);
      forall j | 0 <= j < |SubsOf(init, tops, i)|
        ensures IdLess(SubsOf(init, tops, i)[j], last)
      {
        SubsBelong(init, tops, i, SubsOf(init, tops, i)[j]);
        var k :| 0 <= k < |init| && init[k] == SubsOf(init, tops, i)[j];
        assert IdLess(adv[k], adv[|adv| - 1]);
      }
    }
  }

  /** By sort key, ties by id: what the sort itself arranges by. */
  predicate KeyThenId(a: CapsCategory, b: CapsCategory) {
    NodeLess(a, b) || (!NodeLess(b, a) && a.id < b.id)
  }

  lemma KeyOrder()
    ensures StrictOrder(KeyThenId)
  {
    forall a
      ensures !KeyThenId(a, a)
    {
      StringIrreflexive(TopLevelSortKey(RootOfNode(a)));
    }
    forall a, b, c | KeyThenId(a, b) && KeyThenId(b, c)
      ensures KeyThenId(a, c)
    {
      var ka, kb, kc := TopLevelSortKey(RootOfNode(a)), TopLevelSortKey(RootOfNode(b)), TopLevelSortKey(RootOfNode(c));
      KeysCompose(ka, kb, kc, a.id, b.id, c.id);
    }
  }

  predicate KeyAndId(k: string, i: int, l: string, j: int) {
    StringLess(k, l) || (!StringLess(l, k) && i < j)
  }

  lemma KeysCompose(ka: string, kb: string, kc: string, a: int, b: int, c: int)
    requires KeyAndId(ka, a, kb, b) && KeyAndId(kb, b, kc, c)
    ensures KeyAndId(ka, a, kc, c)
  {
    StringTotal(ka, kb);
    StringTotal(kb, kc);
    if StringLess(ka, kb) && StringLess(kb, kc) {
      StringTransitive(ka, kb, kc);
    }
  }

  /** The tree of every list that ascends by id is in key order, and each root's subcategories ascend by id. */
  lemma TreeByKey(adv: seq<Category>)
    requires Ordered(adv, IdLess)
    ensures Ordered(Tree(adv), KeyThenId)
    ensures forall k :: 0 <= k < |Tree(adv)| ==> Ordered(Tree(adv)[k].subcats, IdLess)
  {
    var tops := TopsOf(adv);
    var nodes := NodesOf(adv, tops, |tops|);
    TopsAscend(adv);
    forall i, j | 0 <= i < j < |nodes|
      ensures if NodeLess(nodes[j], nodes[i]) then KeyThenId(nodes[j], nodes[i]) else KeyThenId(nodes[i], nodes[j])
    {
      assert IdLess(tops[i], tops[j]);
    }
    KeyOrder();
    SortOrdered(nodes, NodeLess, KeyThenId);
    forall k | 0 <= k < |Tree(adv)|
      ensures Ordered(Tree(adv)[k].subcats, IdLess)
    {
      var i := NodeInTree(adv, Tree(adv)[k]);
      SubcatsArranged(adv, tops, i);
    }
  }

  predicate StandardTop(c: Category) {
    IsTop(c) && !c.IsCustom()
  }

  /** The decimal ids of the standard top-level categories of a list are in the order of the ids. */
  ghost predicate KeysFollowIds(adv: seq<Category>) {
    forall a, b :: a in adv && b in adv && StandardTop(a) && StandardTop(b) && a.id < b.id ==>
      !StringLess(Itoa(b.id), Itoa(a.id))
  }

  lemma NodesArranged(adv: seq<Category>, tops: seq<Category>)
    requires Ordered(tops, IdLess) && forall i, j :: 0 <= i < j < |tops| ==> Arranged(tops[i], tops[j])
    ensures Ordered(StableSort(NodesOf(adv, tops, |tops|), NodeLess), TopBefore)
  {
    var nodes := NodesOf(adv, tops, |tops|);
    forall i, j | 0 <= i < j < |nodes|
      ensures if NodeLess(nodes[j], nodes[i]) then TopBefore(nodes[j], nodes[i]) else TopBefore(nodes[i], nodes[j])
    {
      assert Arranged(tops[i], tops[j]);
    }
    TopOrder();
    SortOrdered(nodes, NodeLess, TopBefore);
  }

  lemma TopInTree(adv: seq<Category>, c: Category) returns (n: CapsCategory)
    requires c in adv && IsTop(c)
    ensures n in Tree(adv) && RootOfNode(n) == c
  {
    var tops := TopsOf(adv);
    TopsAreTheTops(adv, c);
    var i :| 0 <= i < |tops| && tops[i] == c;
    var nodes := NodesOf(adv, tops, |tops|);
    n := nodes[i];
    SortKeeps(nodes, NodeLess);
    SameElements(StableSort(nodes, NodeLess), nodes, n);
  }

  /** Of two elements of a list ordered two ways, the first comes before the second in both, or in neither. */
  lemma BothWays<T(!new)>(s: seq<T>, one: (T, T) -> bool, other: (T, T) -> bool, a: T, b: T)
    requires Ordered(s, one) && Ordered(s, other) && a in s && b in s && a != b
    ensures one(b, a) || other(a, b)
  {
    var p :| 0 <= p < |s| && s[p] == a;
    var q :| 0 <= q < |s| && s[q] == b;
    if p < q {
      assert other(s[p], s[q]);
    } else {
      assert one(s[q], s[p]);
    }
  }

  lemma OrderedKeys(adv: seq<Category>, a: Category, b: Category)
    requires Ordered(adv, IdLess) && Ordered(Tree(adv), TopBefore)
    requires a in adv && b in adv && StandardTop(a) && StandardTop(b) && a.id < b.id
    ensures !StringLess(Itoa(b.id), Itoa(a.id))
  {
    TreeByKey(adv);
    var na := TopInTree(adv, a);
    var nb := TopInTree(adv, b);
    BothWays(Tree(adv), TopBefore, KeyThenId, na, nb);
    assert !TopBefore(nb, na);
    KeysInOrder(a, b);
  }

  lemma KeysInOrder(a: Category, b: Category)
    requires !a.IsCustom() && !b.IsCustom() && (KeyLess(a, b) || !KeyLess(b, a))
    ensures !StringLess(Itoa(b.id), Itoa(a.id))
  {
    if StringLess(Itoa(b.id), Itoa(a.id)) {
      NotBoth(Itoa(b.id), Itoa(a.id));
    }
  }

  /**
   The tree of a list that ascends by id has its standard roots first, by id, then its custom
   categories by name with ties by id, exactly when the decimal ids of its standard roots are in the
   order of the ids.
   */
  lemma TreeIsOrderedIff(adv: seq<Category>)
    requires Ordered(adv, IdLess)
    ensures Ordered(Tree(adv), TopBefore) <==> KeysFollowIds(adv)
  {
    if KeysFollowIds(adv) {
      TreeIsOrderedIf(adv);
    }
    if Ordered(Tree(adv), TopBefore) {
      forall a, b | a in adv && b in adv && StandardTop(a) && StandardTop(b) && a.id < b.id
        ensures !StringLess(Itoa(b.id), Itoa(a.id))
      {
        OrderedKeys(adv, a, b);
      }
    }
  }

  lemma TreeIsOrderedIf(adv: seq<Category>)
    requires Ordered(adv, IdLess) && KeysFollowIds(adv)
    ensures Ordered(Tree(adv), TopBefore)
  {
    var tops := TopsOf(adv);
    TopsAscend(adv);
    forall i, j | 0 <= i < j < |tops|
      ensures Arranged(tops[i], tops[j])
    {
      assert IdLess(tops[i], tops[j]);
      TopsAreTheTops(adv, tops[i]);
      TopsAreTheTops(adv, tops[j]);
      KeyArrangesIff(tops[i], tops[j]);
    }
    NodesArranged(adv, tops);
  }

  lemma SubcatsArranged(adv: seq<Category>, tops: seq<Category>, i: nat)
    requires Ordered(adv, IdLess)
    ensures Ordered(StableSort(SubsOf(adv, tops, i), IdLess), IdLess)
  {
    SubsAscend(adv, tops, i);
    IdOrder();
    SortOrdered(SubsOf(adv, tops, i), IdLess, IdLess);
  }

  /** The standard roots of a well-built set have four digits, so its tree is in the documented order. */
  lemma TreeIsOrdered(table: seq<Category>, st: MapState, list: seq<Category>)
    requires GoodTable(table) && WellBuilt(table, st) && IsListing(list, st.advertised)
    ensures Ordered(Tree(list), TopBefore)
    ensures forall k :: 0 <= k < |Tree(list)| ==> Ordered(Tree(list)[k].subcats, IdLess)
  {
    TreeByKey(list);
    forall c | c in list
      ensures FourDigitOrCustom(c)
    {
      RowIsFourDigit(table, st.advertised, c);
    }
    FourDigitsFollowIds(list);
    TreeIsOrderedIff(list);
  }

  lemma FourDigitsFollowIds(list: seq<Category>)
    requires forall c :: c in list ==> FourDigitOrCustom(c)
    ensures KeysFollowIds(list)
  {
    forall a, b | a in list && b in list && StandardTop(a) && StandardTop(b) && a.id < b.id
      ensures !StringLess(Itoa(b.id), Itoa(a.id))
    {
      FourDigitKeys(a, b);
    }
  }

  lemma RowIsFourDigit(table: seq<Category>, adv: map<int, Category>, c: Category)
    requires GoodTable(table) && AllInPlace(table, adv) && IsAdvertised(adv, c)
    ensures FourDigitOrCustom(c)
  {
    assert InPlace(table, adv, adv[c.id]);
  }
}
