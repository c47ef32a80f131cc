/** Whole definitions. */
module CategoryDefinitions {
  // The tree and the query take the flat category map apart again. Both are exact on the advertised
  // set of any definition: its tree holds the categories that have a place, and a query reaches the
  // families that the set spells. Under plain tracker ids every category has its place and every
  // family is spelt as the standard table has it; examples show what other ids can do.

  import opened Wrappers
  import opened Lists
  import opened Categories
  import opened Numbers
  import opened Sorting
  import opened CategoryMapper
  import opened AdvertisedSet
  import opened CategoryTree
  import opened CategoryConservation
  import opened CategoryQuery

  // ----- What every definition builds

  /** Every entry maps to an advertised id. */
  predicate EntriesAdvertised(st: MapState) {
    forall i :: 0 <= i < |st.entries| ==> st.entries[i].newznabId in st.advertised
  }

  lemma StepAdvertises(table: seq<Category>, hash: string -> Hash16, st: MapState, m: Mapping)
    requires EntriesAdvertised(st) && MappingStep(table, hash, st, m).Success?
    ensures EntriesAdvertised(MappingStep(table, hash, st, m).value)
  {
  }

  lemma {:induction false} CategoriesAdvertise(table: seq<Category>, cats: seq<(string, string)>)
    requires AfterCategories(table, cats).Success?
    ensures EntriesAdvertised(AfterCategories(table, cats).value)
  {
    if cats != [] {
      CategoriesAdvertise(table, cats[..|cats| - 1]);
    }
  }

  lemma {:induction false} MappingsAdvertise(table: seq<Category>, hash: string -> Hash16, st: MapState,
                                             ms: seq<Mapping>)
    requires EntriesAdvertised(st) && AfterMappings(table, hash, st, ms).Success?
    ensures EntriesAdvertised(AfterMappings(table, hash, st, ms).value)
  {
    if ms != [] {
      var init := ms[..|ms| - 1];
      MappingsAdvertise(table, hash, st, init);
      StepAdvertises(table, hash, AfterMappings(table, hash, st, init).value, ms[|ms| - 1]);
    }
  }

  /** Every definition files its categories under their own ids, and advertises what its entries map to. */
  lemma EntriesAreAdvertised(table: seq<Category>, hash: string -> Hash16, def: Definition)
    requires AfterAll(table, hash, def).Success?
    ensures FiledById(AfterAll(table, hash, def).value.advertised)
    ensures EntriesAdvertised(AfterAll(table, hash, def).value)
  {
    CategoriesFile(table, def.categories);
    CategoriesAdvertise(table, def.categories);
    var st := AfterCategories(table, def.categories).value;
    MappingsFile(table, hash, st, def.mappings);
    MappingsAdvertise(table, hash, st, def.mappings);
  }

  /** What one mapping of a definition records: its row's id and, with a description, its custom id. */
  predicate Records(table: seq<Category>, hash: string -> Hash16, m: Mapping, e: Entry) {
    && e.trackerCategory == m.id && e.desc == m.desc
    && ((ByName(table, m.cat).Some? && e.newznabId == ByName(table, m.cat).value.id)
        || (m.desc != "" && e.newznabId == CustomCategoryId(hash, m.id)))
  }

  /** What one pair of the category map does: its row's id, without a description. */
  predicate RecordsPair(table: seq<Category>, c: (string, string), e: Entry) {
    && e.trackerCategory == c.0 && e.desc == ""
    && ByName(table, c.1).Some? && e.newznabId == ByName(table, c.1).value.id
  }

  lemma {:induction false} PairEntriesIff(table: seq<Category>, cats: seq<(string, string)>, e: Entry)
    requires AfterCategories(table, cats).Success?
    ensures e in AfterCategories(table, cats).value.entries <==>
      exists i :: 0 <= i < |cats| && RecordsPair(table, cats[i], e)
  {
    if cats != [] {
      var init := cats[..|cats| - 1];
      PairEntriesIff(table, init, e);
      assert forall i :: 0 <= i < |init| ==> init[i] == cats[i];
    }
  }

  lemma {:induction false} MappingEntriesIff(table: seq<Category>, hash: string -> Hash16, st: MapState,
                                             ms: seq<Mapping>, e: Entry)
    requires AfterMappings(table, hash, st, ms).Success?
    ensures e in AfterMappings(table, hash, st, ms).value.entries <==>
      e in st.entries || exists i :: 0 <= i < |ms| && Records(table, hash, ms[i], e)
  {
    if ms != [] {
      var init := ms[..|ms| - 1];
      MappingEntriesIff(table, hash, st, init, e);
      assert forall i :: 0 <= i < |init| ==> init[i] == ms[i];
      StepRecords(table, hash, AfterMappings(table, hash, st, init).value, ms[|ms| - 1], e);
    }
  }

  lemma StepRecords(table: seq<Category>, hash: string -> Hash16, st: MapState, m: Mapping, e: Entry)
    requires MappingStep(table, hash, st, m).Success?
    ensures e in MappingStep(table, hash, st, m).value.entries <==> e in st.entries || Records(table, hash, m, e)
  {
  }

  /** The entries of every definition that maps are those its pairs and its mappings record. */
  lemma EntriesIff(table: seq<Category>, hash: string -> Hash16, def: Definition, e: Entry)
    requires AfterAll(table, hash, def).Success?
    ensures e in AfterAll(table, hash, def).value.entries <==>
      || (exists i :: 0 <= i < |def.categories| && RecordsPair(table, def.categories[i], e))
      || (exists i :: 0 <= i < |def.mappings| && Records(table, hash, def.mappings[i], e))
  {
    PairEntriesIff(table, def.categories, e);
    MappingEntriesIff(table, hash, AfterCategories(table, def.categories).value, def.mappings, e);
  }

  // ----- The tree

  ghost predicate SubcatsAscend(tree: seq<CapsCategory>) {
    forall k :: 0 <= k < |tree| ==> Ordered(tree[k].subcats, IdLess)
  }

  /**
   For every definition that maps on the standard table, whatever the order its map is visited in:
   the tree holds every advertised category once, and nothing else, exactly when all of them have a
   place; it is in the documented order exactly when the decimal ids of its standard roots are in the
   order of the ids; and in every case it is in key order, with subcategories by id.
   */
  lemma DefinitionTreeIff(hash: string -> Hash16, def: Definition, caps: Capabilities)
    requires AfterAll(StandardCategories(), hash, def).Success?
    requires IsCapabilitiesOf(caps, AfterAll(StandardCategories(), hash, def).value)
    ensures var adv, tree := AfterAll(StandardCategories(), hash, def).value.advertised, Tree(caps.categories);
      && (HoldsEachOnce(tree, adv) <==> AllHavePlace(adv))
      && (Ordered(tree, TopBefore) <==> KeysFollowIds(caps.categories))
      && Ordered(tree, KeyThenId) && SubcatsAscend(tree)
  {
    EachCategoryOnceIff(caps.categories, AfterAll(StandardCategories(), hash, def).value.advertised);
    TreeIsOrderedIff(caps.categories);
    TreeByKey(caps.categories);
  }

  /** With plain ids all of that holds. */
  lemma DefinitionTree(hash: string -> Hash16, def: Definition, caps: Capabilities)
    requires PlainIds(def.mappings) && AfterAll(StandardCategories(), hash, def).Success?
    requires IsCapabilitiesOf(caps, AfterAll(StandardCategories(), hash, def).value)
    ensures var adv, tree := AfterAll(StandardCategories(), hash, def).value.advertised, Tree(caps.categories);
      HoldsEachOnce(tree, adv) && Ordered(tree, TopBefore) && SubcatsAscend(tree)
  {
    StandardIsGood();
    AdvertisedIff(StandardCategories(), hash, def);
    DefinitionTreeIff(hash, def, caps);
    WellBuiltHasPlaces(StandardCategories(), AfterAll(StandardCategories(), hash, def).value);
    TreeIsOrdered(StandardCategories(), AfterAll(StandardCategories(), hash, def).value, caps.categories);
  }

  // ----- The queries

  /** Some entry that is not blank maps a tracker id to an id the query reaches. */
  ghost predicate Drives(st: MapState, query: seq<int>, t: string) {
    exists e :: e in st.entries && !IsBlank(e.trackerCategory) && e.trackerCategory == t
                && Reaches(st.advertised, query, e.newznabId)
  }

  lemma StateReturnsIff(st: MapState, caps: Capabilities, query: seq<int>, t: string)
    requires FiledById(st.advertised) && IsCapabilitiesOf(caps, st)
    ensures t in Trackers(caps, query) <==> Drives(st, query, t)
  {
    ListingHasOneIdEach(caps.categories, st.advertised);
    ReturnedIff(caps, query, t);
    forall e | e in st.entries
      ensures Queried(caps.categories, query, e.newznabId) <==> Reaches(st.advertised, query, e.newznabId)
    {
      QueriedIff(caps.categories, st.advertised, query, e.newznabId);
    }
  }

  /**
   For every definition that maps, and every query: a tracker id is returned exactly when one of its
   mappings is to a queried id or to a member of the family whose advertised root is queried.
   */
  lemma DefinitionReturnsIff(table: seq<Category>, hash: string -> Hash16, def: Definition, caps: Capabilities,
                             query: seq<int>, t: string)
    requires AfterAll(table, hash, def).Success? && IsCapabilitiesOf(caps, AfterAll(table, hash, def).value)
    ensures t in Trackers(caps, query) <==> Drives(AfterAll(table, hash, def).value, query, t)
  {
    EntriesAreAdvertised(table, hash, def);
    StateReturnsIff(AfterAll(table, hash, def).value, caps, query, t);
  }

  /** Whatever the ids: querying a mapping's own category returns its tracker id. */
  lemma OwnReturns(table: seq<Category>, hash: string -> Hash16, def: Definition, caps: Capabilities, e: Entry)
    requires AfterAll(table, hash, def).Success? && IsCapabilitiesOf(caps, AfterAll(table, hash, def).value)
    requires e in caps.entries && !IsBlank(e.trackerCategory)
    ensures e.trackerCategory in Trackers(caps, [e.newznabId])
  {
    DefinitionReturnsIff(table, hash, def, caps, [e.newznabId], e.trackerCategory);
    assert Reaches(AfterAll(table, hash, def).value.advertised, [e.newznabId], e.newznabId);
  }

  /** For another id alone, the guards of the expansion decide whether it reaches a mapping's category. */
  lemma OneIdReaches(adv: map<int, Category>, id: int, mapped: int)
    requires id != mapped
    ensures Reaches(adv, [id], mapped) <==>
      id in adv && mapped in adv && id < CUSTOM_CATEGORY_OFFSET && adv[id].IsParent()
      && IsChildOf(adv[mapped], adv[id].name)
  {
    if InFamily(adv, id, mapped) {
      assert InFamily(adv, [id][0], mapped);
    }
  }

  lemma RootIsFamily(table: seq<Category>, adv: map<int, Category>, mapped: int, id: int)
    requires GoodTable(table) && FiledById(adv) && AllInPlace(table, adv) && mapped in adv
    requires Covers(table, mapped, id) && id != mapped
    ensures InFamily(adv, id, mapped)
  {
    var root, c := RootOf(table, mapped).value, adv[mapped];
    assert InPlace(table, adv, c);
    RowIdIsSmall(table, ById(table, mapped).value);
    RowCovers(table, c);
    assert adv[id] == root;
  }

  /**
   For every mapping of a definition with plain ids: querying its category, or the root of its
   category's family, returns its tracker id.
   */
  lemma OwnAndRootReturn(hash: string -> Hash16, def: Definition, caps: Capabilities, e: Entry, id: int)
    requires PlainIds(def.mappings) && AfterAll(StandardCategories(), hash, def).Success?
    requires IsCapabilitiesOf(caps, AfterAll(StandardCategories(), hash, def).value)
    requires e in caps.entries && !IsBlank(e.trackerCategory) && Covers(StandardCategories(), e.newznabId, id)
    ensures e.trackerCategory in Trackers(caps, [id])
  {
    var st := AfterAll(StandardCategories(), hash, def).value;
    DefinitionReturnsIff(StandardCategories(), hash, def, caps, [id], e.trackerCategory);
    if id != e.newznabId {
      StandardIsGood();
      AdvertisedIff(StandardCategories(), hash, def);
      EntriesAreAdvertised(StandardCategories(), hash, def);
      RootIsFamily(StandardCategories(), st.advertised, e.newznabId, id);
      OneIdReaches(st.advertised, id, e.newznabId);
    }
    assert Reaches(st.advertised, [id], e.newznabId);
  }

  // ----- The order a map is visited in

  /**
   Two visits of one category map list the same categories and return the same tracker ids for every
   query.
   */
  lemma VisitsReturnTheSame(table: seq<Category>, hash: string -> Hash16, p: Definition, q: Definition,
                            a: Capabilities, b: Capabilities, query: seq<int>, t: string)
    requires GoodTable(table) && p.mappings == q.mappings && multiset(p.categories) == multiset(q.categories)
    requires AfterAll(table, hash, p).Success? && IsCapabilitiesOf(a, AfterAll(table, hash, p).value)
    requires AfterAll(table, hash, q).Success? && IsCapabilitiesOf(b, AfterAll(table, hash, q).value)
    ensures a.categories == b.categories && (t in Trackers(a, query) <==> t in Trackers(b, query))
  {
    OrderDoesNotShow(table, hash, p, q);
    OneListing(a.categories, b.categories, AfterAll(table, hash, p).value.advertised);
    EntriesAreAdvertised(table, hash, p);
    ListingHasOneIdEach(a.categories, AfterAll(table, hash, p).value.advertised);
    ReturnedIff(a, query, t);
    ReturnedIff(b, query, t);
    SameMembers(a.entries, b.entries);
    SameMembers(b.entries, a.entries);
  }

  lemma TwoCategories(table: seq<Category>, a: (string, string), b: (string, string), ca: Category, cb: Category)
    requires ByName(table, a.1) == Some(ca) && ByName(table, b.1) == Some(cb)
    ensures AfterCategories(table, [a, b])
         == Success(Mapped(table, Mapped(table, MapState([], map[]), a.0, "", ca), b.0, "", cb))
  {
    assert [a, b][..1] == [a] && [a][..0] == [];
    assert AfterCategories(table, []) == Success(MapState([], map[]));
    assert AfterCategories(table, [a]) == Success(Mapped(table, MapState([], map[]), a.0, "", ca));
  }

  /** Capabilities built from one visit of a category map. */
  ghost predicate IsVisit(hash: string -> Hash16, cats: seq<(string, string)>, caps: Capabilities) {
    var r := AfterAll(StandardCategories(), hash, Definition(cats, []));
    r.Success? && IsCapabilitiesOf(caps, r.value)
  }

  predicate Readable(s: string) {
    |s| == 1 && !Text.IsSpace(s[0])
  }

  lemma BothReturned(caps: Capabilities, query: seq<int>, e: Entry, f: Entry)
    requires caps.entries == [e, f] && e.trackerCategory != f.trackerCategory && OneIdEach(caps.categories)
    requires Readable(e.trackerCategory) && Readable(f.trackerCategory) && e.newznabId in query && f.newznabId in query
    ensures Trackers(caps, query) == [e.trackerCategory, f.trackerCategory]
  {
    ExpandedIff(caps.categories, query, e.newznabId);
    ExpandedIff(caps.categories, query, f.newznabId);
    TwoWanted(e, f, Elements(Firsts(Families(caps.categories, query))));
  }

  lemma FirstsOfTwo<T(!new)>(a: T, b: T)
    requires a != b
    ensures Firsts([a] + [b]) == [a] + [b]
  {
    FirstsLast([], a);
    FirstsLast([a], b);
    assert [] + [a] == [a];
  }

  lemma TrackersLast(entries: seq<Entry>, e: Entry, want: set<int>)
    requires IsWanted(e, want)
    ensures TrackersOf(entries + [e], want) == TrackersOf(entries, want) + [e.trackerCategory]
  {
    assert (entries + [e])[..|entries|] == entries;
  }

  lemma TwoWanted(e: Entry, f: Entry, want: set<int>)
    requires IsWanted(e, want) && IsWanted(f, want) && e.trackerCategory != f.trackerCategory
    ensures Firsts(TrackersOf([e, f], want)) == [e.trackerCategory, f.trackerCategory]
  {
    TrackersLast([], e, want);
    TrackersLast([e], f, want);
    assert [] + [e] == [e] && [e] + [f] == [e, f];
    FirstsOfTwo(e.trackerCategory, f.trackerCategory);
  }

  lemma VisitReturns(hash: string -> Hash16, a: (string, string), b: (string, string), ca: Category, cb: Category,
                     caps: Capabilities, query: seq<int>)
    requires ByName(StandardCategories(), a.1) == Some(ca) && ByName(StandardCategories(), b.1) == Some(cb)
    requires IsVisit(hash, [a, b], caps) && a.0 != b.0 && Readable(a.0) && Readable(b.0)
    requires ca.id in query && cb.id in query
    ensures Trackers(caps, query) == [a.0, b.0]
  {
    TwoCategories(StandardCategories(), a, b, ca, cb);
    var r := AfterAll(StandardCategories(), hash, Definition([a, b], []));
    ListingHasOneIdEach(caps.categories, r.value.advertised);
    BothReturned(caps, query, Entry(a.0, "", ca.id), Entry(b.0, "", cb.id));
  }

  /** The order they are returned in does depend on the visit. */
  lemma VisitsReturnInTheirOrder(hash: string -> Hash16, a: Capabilities, b: Capabilities)
    requires IsVisit(hash, [("1", "Other/Misc"), ("2", "Other/Hashed")], a)
    requires IsVisit(hash, [("2", "Other/Hashed"), ("1", "Other/Misc")], b)
    ensures Trackers(a, [8010, 8020]) == ["1", "2"] && Trackers(b, [8010, 8020]) == ["2", "1"]
  {
    OtherIsFound();
    var misc, hashed := Category(8010, "Other/Misc"), Category(8020, "Other/Hashed");
    assert "1"[0] != "2"[0];
    VisitReturns(hash, ("1", misc.name), ("2", hashed.name), misc, hashed, a, [8010, 8020]);
    VisitReturns(hash, ("2", hashed.name), ("1", misc.name), hashed, misc, b, [8010, 8020]);
  }

  // ----- What ids that are not plain can do

  /** One mapping of a root with a negative id and a description. */
  lemma OneMapping(table: seq<Category>, hash: string -> Hash16, m: Mapping, cat: Category, n: int)
    requires ByName(table, m.cat) == Some(cat) && cat.IsParent() && m.desc != "" && Atoi(m.id) == Some(n) && n < 0
    ensures !PlainId(m.id)
    ensures var r := AfterAll(table, hash, Definition([], [m]));
      r.Success? && r.value.advertised == Two(cat, Category(n + CUSTOM_CATEGORY_OFFSET, m.desc))
  {
    assert [m][..0] == [];
    assert AfterMappings(table, hash, MapState([], map[]), []) == Success(MapState([], map[]));
  }

  function Two(a: Category, b: Category): map<int, Category> {
    map[a.id := a][b.id := b]
  }

  lemma OtherIsParent()
    ensures Category(8000, "Other").IsParent()
  {
  }

  lemma TwoAdvertised(a: Category, b: Category, c: Category)
    requires a.id != b.id
    ensures IsAdvertised(Two(a, b), c) <==> c == a || c == b
  {
  }

  /**
   A negative tracker id can land below the custom offset: its category is then taken for a
   standard subcategory of a family that does not exist, and the tree drops it.
   */
  lemma NegativeIdIsDropped(hash: string -> Hash16, list: seq<Category>)
    ensures var r := AfterAll(StandardCategories(), hash, Definition([], [Mapping("-1", "Other", "a/b")]));
      && !PlainId("-1")
      && r.Success? && IsAdvertised(r.value.advertised, Category(99999, "a/b"))
      && (IsListing(list, r.value.advertised) ==> TimesIn(Tree(list), Category(99999, "a/b")) == 0)
  {
    var other, c := Category(8000, "Other"), Category(99999, "a/b");
    MinusOne();
    OtherIsFound();
    OtherIsParent();
    OneMapping(StandardCategories(), hash, Mapping("-1", "Other", "a/b"), other, -1);
    NoPlaceForSub(other, c);
    if IsListing(list, Two(other, c)) {
      TreeHoldsHoused(list, Two(other, c), c);
    }
  }

  lemma NoPlaceForSub(other: Category, c: Category)
    requires other == Category(8000, "Other") && c == Category(99999, "a/b")
    ensures IsAdvertised(Two(other, c), c) && !HasPlace(Two(other, c), c)
  {
    SubParent("a", "b", 99999);
    assert c.name == "a" + ['/'] + "b";
    assert c.name[1] == '/';
    forall root | IsAdvertised(Two(other, c), root)
      ensures root.name != "a"
    {
      TwoAdvertised(other, c, root);
      assert |"Other"| == 5 && |"a/b"| == 3;
    }
  }

  lemma MinusOne()
    ensures Atoi("-1") == Some(-1)
  {
    assert "-1"[1..] == ['1'];
    assert ['1'][..0] == [];
    assert Magnitude(['1']) == 1;
  }

  /** A negative id alone does no harm: this one gives a top-level category, listed and ordered as it should be. */
  lemma NegativeIdIsKept(hash: string -> Hash16, list: seq<Category>)
    ensures var r := AfterAll(StandardCategories(), hash, Definition([], [Mapping("-1", "Other", "X")]));
      && !PlainId("-1") && r.Success?
      && (IsListing(list, r.value.advertised) ==>
            HoldsEachOnce(Tree(list), r.value.advertised) && Ordered(Tree(list), TopBefore))
  {
    var other, c := Category(8000, "Other"), Category(99999, "X");
    MinusOne();
    OtherIsFound();
    OtherIsParent();
    OneMapping(StandardCategories(), hash, Mapping("-1", "Other", "X"), other, -1);
    if IsListing(list, Two(other, c)) {
      TopsHavePlaces(other, c);
      EachCategoryOnceIff(list, Two(other, c));
      KeysOf(list, other, c);
      TreeIsOrderedIff(list);
    }
  }

  lemma TopsHavePlaces(a: Category, b: Category)
    requires a.id != b.id && a.name == "Other" && b.name == "X"
    ensures AllHavePlace(Two(a, b))
  {
    forall c | IsAdvertised(Two(a, b), c)
      ensures HasPlace(Two(a, b), c)
    {
      TwoAdvertised(a, b, c);
      assert c.IsParent();
    }
  }

  lemma KeysOf(list: seq<Category>, a: Category, b: Category)
    requires IsListing(list, Two(a, b)) && a.id == 8000 && b.id == 99999
    ensures KeysFollowIds(list)
  {
    forall c, d | c in list && d in list && c.id < d.id
      ensures !StringLess(Itoa(d.id), Itoa(c.id))
    {
      TwoAdvertised(a, b, c);
      TwoAdvertised(a, b, d);
      Leads();
    }
  }

  lemma LeadingDigit(n: nat)
    requires n >= 10
    ensures Digits(n)[0] == Digits(n / 10)[0]
  {
  }

  lemma Leads()
    ensures Itoa(8000)[0] == '8' && Itoa(50000)[0] == '5' && Itoa(99999)[0] == '9'
  {
    LeadingDigit(8000);
    LeadingDigit(800);
    LeadingDigit(80);
    LeadingDigit(50000);
    LeadingDigit(5000);
    LeadingDigit(500);
    LeadingDigit(50);
    LeadingDigit(99999);
    LeadingDigit(9999);
    LeadingDigit(999);
    LeadingDigit(99);
  }

  /** A negative id can disturb the order: "50000" sorts before the standard root's "8000". */
  lemma NegativeIdIsMisplaced(hash: string -> Hash16, list: seq<Category>)
    ensures var r := AfterAll(StandardCategories(), hash, Definition([], [Mapping("-50000", "Other", "X")]));
      && !PlainId("-50000") && r.Success?
      && (IsListing(list, r.value.advertised) ==>
            HoldsEachOnce(Tree(list), r.value.advertised) && !Ordered(Tree(list), TopBefore))
  {
    var other, c := Category(8000, "Other"), Category(50000, "X");
    FiveDigitId("50000", 50000);
    NegativeId(hash, "-50000", "50000", 50000);
    OtherIsFound();
    OtherIsParent();
    OneMapping(StandardCategories(), hash, Mapping("-50000", "Other", "X"), other, -50000);
    if IsListing(list, Two(other, c)) {
      Misplaced(list, other, c);
    }
  }

  lemma Misplaced(list: seq<Category>, a: Category, b: Category)
    requires IsListing(list, Two(a, b)) && a.id == 8000 && b.id == 50000 && a.name == "Other" && b.name == "X"
    ensures HoldsEachOnce(Tree(list), Two(a, b)) && !Ordered(Tree(list), TopBefore)
  {
    TopsHavePlaces(a, b);
    EachCategoryOnceIff(list, Two(a, b));
    Disturbed(list, a, b);
    TreeIsOrderedIff(list);
  }

  lemma Disturbed(list: seq<Category>, a: Category, b: Category)
    requires IsListing(list, Two(a, b)) && a.id == 8000 && b.id == 50000 && IsTop(a) && IsTop(b)
    ensures !KeysFollowIds(list)
  {
    TwoAdvertised(a, b, a);
    TwoAdvertised(a, b, b);
    Leads();
    assert StringLess(Itoa(b.id), Itoa(a.id));
  }

  lemma FiveDigitId(d: string, n: int)
    requires |d| == 5 && (forall i :: 0 <= i < 5 ==> IsDigit(d[i]))
    requires n == 10000 * DigitValue(d[0]) + 1000 * DigitValue(d[1]) + 100 * DigitValue(d[2])
                  + 10 * DigitValue(d[3]) + DigitValue(d[4])
    ensures Atoi(['-'] + d) == Some(-n)
  {
    assert (['-'] + d)[1..] == d;
    assert d[..5] == d && d[..5][..4] == d[..4] && d[..4][..3] == d[..3] && d[..3][..2] == d[..2];
    assert d[..2][..1] == d[..1] && d[..1][..0] == [];
    assert Magnitude(d[..1]) == DigitValue(d[0]);
    assert Magnitude(d[..2]) == 10 * Magnitude(d[..1]) + DigitValue(d[1]);
    assert Magnitude(d[..3]) == 10 * Magnitude(d[..2]) + DigitValue(d[2]);
    assert Magnitude(d[..4]) == 10 * Magnitude(d[..3]) + DigitValue(d[3]);
  }

  lemma SubOfOther(c: Category)
    requires c.name == "Other/Misc" || c.name == "Other/Hashed"
    ensures !c.IsParent() && c.Parent() == "Other"
  {
    OtherNames();
    SubParent("Other", if c.name == "Other/Misc" then "Misc" else "Hashed", c.id);
    assert c.name[5] == '/';
  }

  lemma TwoMappings(table: seq<Category>, hash: string -> Hash16, a: Mapping, b: Mapping, st: MapState)
    requires MappingStep(table, hash, MapState([], map[]), a) == Success(st)
    ensures AfterAll(table, hash, Definition([], [a, b])) == MappingStep(table, hash, st, b)
  {
    assert [a, b][..1] == [a] && [a][..0] == [];
    assert AfterMappings(table, hash, MapState([], map[]), []) == Success(MapState([], map[]));
    assert AfterMappings(table, hash, MapState([], map[]), [a]) == Success(st);
  }

  /** What two subcategories of one root leave advertised, and a category that takes the root's id. */
  function Overwritten(a: Category, b: Category, root: Category, x: Category): map<int, Category> {
    WithBoth(WithBoth(map[], a, root), b, root)[x.id := x]
  }

  lemma OverwrittenHolds(a: Category, b: Category, root: Category, x: Category)
    requires a.id != b.id && a.id != root.id && x.id == root.id
    ensures var adv := Overwritten(a, b, root, x);
      root.id in adv && adv[root.id] == x && a.id in adv && adv[a.id] == a
  {
  }

  lemma HidingBuilds(table: seq<Category>, hash: string -> Hash16, m: Mapping, n: Mapping, a: Category, b: Category,
                     root: Category)
    requires ByName(table, m.cat) == Some(a) && ByName(table, n.cat) == Some(b)
    requires ByName(table, a.Parent()) == Some(root)
    requires !a.IsParent() && !b.IsParent() && b.Parent() == a.Parent() && m.desc == "" && n.desc != ""
    ensures var x := Category(CustomCategoryId(hash, n.id), n.desc);
      AfterAll(table, hash, Definition([], [m, n])) == Success(MapState(
        [] + [Entry(m.id, "", a.id)] + [Entry(n.id, n.desc, b.id)] + [Entry(n.id, n.desc, x.id)],
        Overwritten(a, b, root, x)))
  {
    TwoMappings(table, hash, m, n, Mapped(table, MapState([], map[]), m.id, "", a));
  }

  /** One tracker id of its own, mapped to a category whose family root is no longer advertised. */
  lemma RootIsHidden(st: MapState, e: Entry, f: Entry, g: Entry, root: int)
    requires st.entries == [] + [e] + [f] + [g] && f.trackerCategory == g.trackerCategory != e.trackerCategory
    requires e.newznabId in st.advertised && root in st.advertised && root != e.newznabId
    requires !IsChildOf(st.advertised[e.newznabId], st.advertised[root].name)
    ensures !Drives(st, [root], e.trackerCategory)
  {
    forall d | d in st.entries && d.trackerCategory == e.trackerCategory
      ensures !Reaches(st.advertised, [root], d.newznabId)
    {
      assert d == e;
      OneIdReaches(st.advertised, root, e.newznabId);
    }
  }

  /** A mapping to a subcategory, and one to a sibling whose custom category takes the root's id. */
  lemma SiblingHides(table: seq<Category>, hash: string -> Hash16, m: Mapping, n: Mapping, a: Category, b: Category,
                     root: Category, caps: Capabilities)
    requires ByName(table, m.cat) == Some(a) && ByName(table, n.cat) == Some(b)
    requires ByName(table, a.Parent()) == Some(root)
    requires !a.IsParent() && !b.IsParent() && b.Parent() == a.Parent() && m.desc == "" && n.desc != ""
    requires a.id != b.id && a.id != root.id && CustomCategoryId(hash, n.id) == root.id && n.desc != root.name
    requires m.id != n.id
    ensures var r := AfterAll(table, hash, Definition([], [m, n]));
      && r.Success? && Entry(m.id, "", a.id) in r.value.entries
      && (IsCapabilitiesOf(caps, r.value) ==> m.id !in Trackers(caps, [root.id]))
  {
    var x := Category(root.id, n.desc);
    var st := MapState([] + [Entry(m.id, "", a.id)] + [Entry(n.id, n.desc, b.id)] + [Entry(n.id, n.desc, x.id)],
                       Overwritten(a, b, root, x));
    HidingBuilds(table, hash, m, n, a, b, root);
    assert st.entries[0] == Entry(m.id, "", a.id);
    if IsCapabilitiesOf(caps, st) {
      DefinitionReturnsIff(table, hash, Definition([], [m, n]), caps, [root.id], m.id);
      OverwrittenHolds(a, b, root, x);
      RootIsHidden(st, Entry(m.id, "", a.id), Entry(n.id, n.desc, b.id), Entry(n.id, n.desc, x.id), root.id);
    }
  }

  lemma NegativeId(hash: string -> Hash16, id: string, d: string, n: int)
    requires id == ['-'] + d && Atoi(['-'] + d) == Some(-n) && n > 0
    ensures Atoi(id) == Some(-n) && !PlainId(id) && CustomCategoryId(hash, id) == CUSTOM_CATEGORY_OFFSET - n
  {
    AtoiInRange(id);
  }

  lemma RootCovers(c: Category, root: Category)
    requires IsRow(StandardCategories(), c) && ByName(StandardCategories(), c.Parent()) == Some(root)
    ensures Covers(StandardCategories(), c.id, root.id)
  {
    StandardIsGood();
    RowCovers(StandardCategories(), c);
  }

  lemma MiscUnderOther()
    ensures Covers(StandardCategories(), 8010, 8000)
  {
    OtherIsFound();
    SubOfOther(Category(8010, "Other/Misc"));
    RootCovers(Category(8010, "Other/Misc"), Category(8000, "Other"));
  }

  /** Two mappings to the subcategories of the last family. */
  lemma SiblingInOther(hash: string -> Hash16, m: Mapping, n: Mapping, caps: Capabilities)
    requires m.cat == "Other/Misc" && n.cat == "Other/Hashed" && m.desc == "" && n.desc != "" && n.desc != "Other"
    requires CustomCategoryId(hash, n.id) == 8000 && m.id != n.id
    ensures var r := AfterAll(StandardCategories(), hash, Definition([], [m, n]));
      && r.Success? && Entry(m.id, "", 8010) in r.value.entries
      && (IsCapabilitiesOf(caps, r.value) ==> m.id !in Trackers(caps, [8000]))
  {
    OtherIsFound();
    var misc, hashed := Category(8010, m.cat), Category(8020, n.cat);
    SubOfOther(misc);
    SubOfOther(hashed);
    SiblingHides(StandardCategories(), hash, m, n, misc, hashed, Category(8000, "Other"), caps);
  }

  /**
   A negative id can take a standard root's id away from it: querying the root then no longer
   returns the tracker ids mapped to the rest of the family.
   */
  lemma NegativeIdHidesFamily(hash: string -> Hash16, m: Mapping, n: Mapping, caps: Capabilities)
    requires m == Mapping("7", "Other/Misc", "") && n == Mapping("-92000", "Other/Hashed", "X")
    ensures !PlainId(n.id) && Covers(StandardCategories(), 8010, 8000)
    ensures var r := AfterAll(StandardCategories(), hash, Definition([], [m, n]));
      && r.Success? && Entry(m.id, "", 8010) in r.value.entries
      && (IsCapabilitiesOf(caps, r.value) ==> m.id !in Trackers(caps, [8000]))
  {
    FiveDigitId("92000", 92000);
    NegativeId(hash, n.id, "92000", 92000);
    MiscUnderOther();
    assert |m.id| == 1 && |n.id| == 6 && |n.desc| == 1 && |"Other"| == 5;
    SiblingInOther(hash, m, n, caps);
  }
}
