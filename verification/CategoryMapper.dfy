/**
 The mapper stage: a definition's category mappings become a flat category map and the set of
 advertised categories.
 */
module CategoryMapper {
  import opened Wrappers
  import opened Categories
  import opened Numbers
  import opened Sorting

  /** Sixteen bits of a hash. */
  type Hash16 = n | 0 <= n < 0x1_0000 witness 0

  datatype Mapping = Mapping(id: string, cat: string, desc: string)

  /** `categories` lists the entries of a Go map in the order they happen to be visited. */
  datatype Definition = Definition(categories: seq<(string, string)>, mappings: seq<Mapping>)

  datatype Entry = Entry(trackerCategory: string, desc: string, newznabId: int)

  datatype MapError = UnknownCategory(id: string, name: string)

  datatype Capabilities = Capabilities(categories: seq<Category>, entries: seq<Entry>)

  // ----- Custom ids

  /** Addition on 64-bit integers, for a positive second operand. */
  function WrappingAdd(a: int, b: nat): int {
    if a + b > MAX_INT then a + b - 0x1_0000_0000_0000_0000 else a + b
  }

  function CustomCategoryId(hash: string -> Hash16, id: string): int {
    WrappingAdd(Atoi(id).GetOr(hash(id)), CUSTOM_CATEGORY_OFFSET)
  }

  /** A tracker id that is no number, or one that is not negative and stays in range with the offset added. */
  predicate PlainId(id: string) {
    Atoi(id).None? || 0 <= Atoi(id).value <= MAX_INT - CUSTOM_CATEGORY_OFFSET
  }

  /** Exactly the plain ids give custom ids at or past the offset. */
  lemma CustomIdIsCustomIff(hash: string -> Hash16, id: string, desc: string)
    ensures Category(CustomCategoryId(hash, id), desc).IsCustom() <==> PlainId(id)
  {
    AtoiInRange(id);
  }

  lemma AtoiInRange(s: string)
    ensures Atoi(s).Some? ==> -MAX_INT - 1 <= Atoi(s).value <= MAX_INT
  {
  }

  /** A tracker id that is a number gives the id that much past the offset, and any other its hash past it. */
  lemma CustomIdIs(hash: string -> Hash16, n: nat, id: string)
    ensures n <= MAX_INT - 100000 ==> CustomCategoryId(hash, Itoa(n)) == 100000 + n
    ensures Atoi(id).None? ==> CustomCategoryId(hash, id) == 100000 + hash(id)
  {
    if n <= MAX_INT - 100000 {
      AtoiOfItoa(n);
    }
  }

  // ----- What a run of the builder computes

  datatype MapState = MapState(entries: seq<Entry>, advertised: map<int, Category>)

  function Advertised(table: seq<Category>, adv: map<int, Category>, cat: Category): map<int, Category> {
    var direct := adv[cat.id := cat];
    if cat.IsParent() then direct else
    match ByName(table, cat.Parent())
    case None => direct
    case Some(root) => direct[root.id := root]
  }

  function Mapped(table: seq<Category>, st: MapState, id: string, desc: string, cat: Category): MapState {
    MapState(st.entries + [Entry(id, desc, cat.id)], Advertised(table, st.advertised, cat))
  }

  function Customized(st: MapState, id: string, custom: Category): MapState {
    MapState(st.entries + [Entry(id, custom.name, custom.id)], st.advertised[custom.id := custom])
  }

  function CategoryStep(table: seq<Category>, st: MapState, c: (string, string)): Result<MapState, MapError> {
    match ByName(table, c.1)
    case None => Failure(UnknownCategory(c.0, c.1))
    case Some(cat) => Success(Mapped(table, st, c.0, "", cat))
  }

  function MappingStep(table: seq<Category>, hash: string -> Hash16, st: MapState,
                       m: Mapping): Result<MapState, MapError> {
    match ByName(table, m.cat)
    case None => Failure(UnknownCategory(m.id, m.cat))
    case Some(cat) =>
      var st' := Mapped(table, st, m.id, m.desc, cat);
      Success(if m.desc == "" then st' else Customized(st', m.id, Category(CustomCategoryId(hash, m.id), m.desc)))
  }

  function AfterCategories(table: seq<Category>, cats: seq<(string, string)>): Result<MapState, MapError> {
    if cats == [] then Success(MapState([], map[])) else
    match AfterCategories(table, cats[..|cats| - 1])
    case Failure(e) => Failure(e)
    case Success(st) => CategoryStep(table, st, cats[|cats| - 1])
  }

  function AfterMappings(table: seq<Category>, hash: string -> Hash16, st0: MapState, ms: seq<Mapping>)
    : Result<MapState, MapError>
  {
    if ms == [] then Success(st0) else
    match AfterMappings(table, hash, st0, ms[..|ms| - 1])
    case Failure(e) => Failure(e)
    case Success(st) => MappingStep(table, hash, st, ms[|ms| - 1])
  }

  /** The state a definition is mapped to, or the first unknown name. */
  function AfterAll(table: seq<Category>, hash: string -> Hash16, def: Definition): Result<MapState, MapError> {
    match AfterCategories(table, def.categories)
    case Failure(e) => Failure(e)
    case Success(st) => AfterMappings(table, hash, st, def.mappings)
  }

  lemma {:induction false} CategoriesFailEarly(table: seq<Category>, cats: seq<(string, string)>, i: nat)
    requires i <= |cats| && AfterCategories(table, cats[..i]).Failure?
    ensures AfterCategories(table, cats) == AfterCategories(table, cats[..i])
  {
    if i == |cats| {
      assert cats[..i] == cats;
    } else {
      assert cats[..|cats| - 1][..i] == cats[..i];
      CategoriesFailEarly(table, cats[..|cats| - 1], i);
    }
  }

  lemma {:induction false} MappingsFailEarly(table: seq<Category>, hash: string -> Hash16, st0: MapState,
                                             ms: seq<Mapping>, i: nat)
    requires i <= |ms| && AfterMappings(table, hash, st0, ms[..i]).Failure?
    ensures AfterMappings(table, hash, st0, ms) == AfterMappings(table, hash, st0, ms[..i])
  {
    if i == |ms| {
      assert ms[..i] == ms;
    } else {
      assert ms[..|ms| - 1][..i] == ms[..i];
      MappingsFailEarly(table, hash, st0, ms[..|ms| - 1], i);
    }
  }

  // ----- The advertised list

  predicate IdLess(a: Category, b: Category) {
    a.id < b.id
  }

  lemma IdOrder()
    ensures StrictOrder(IdLess)
  {
  }

  /** Every category is filed under its own id. */
  predicate FiledById(adv: map<int, Category>) {
    forall id :: id in adv ==> adv[id].id == id
  }

  predicate IsAdvertised(adv: map<int, Category>, c: Category) {
    c.id in adv && adv[c.id] == c
  }

  /** The list of an advertised set: its categories, in ascending id order. */
  ghost predicate IsListing(list: seq<Category>, adv: map<int, Category>) {
    Ordered(list, IdLess) && forall c :: c in list <==> IsAdvertised(adv, c)
  }

  /** A set has one listing, so the order its map is visited in does not show. */
  lemma OneListing(a: seq<Category>, b: seq<Category>, adv: map<int, Category>)
    requires IsListing(a, adv) && IsListing(b, adv)
    ensures a == b
  {
    IdOrder();
    OrderedUnique(a, b, IdLess);
  }

  /** What has been collected from a map, when some of its keys are left. */
  ghost predicate Collected(out: seq<Category>, adv: map<int, Category>, left: set<int>) {
    && (forall c :: c in out <==> IsAdvertised(adv, c) && c.id !in left)
    && forall i, j :: 0 <= i < j < |out| ==> out[i].id != out[j].id
  }

  lemma CollectOne(out: seq<Category>, adv: map<int, Category>, left: set<int>, id: int)
    requires FiledById(adv) && Collected(out, adv, left) && id in left && id in adv
    ensures Collected(out + [adv[id]], adv, left - {id})
  {
    var out' := out + [adv[id]];
    forall i, j | 0 <= i < j < |out'|
      ensures out'[i].id != out'[j].id
    {
      assert out'[i] in out;
    }
  }

  lemma CollectedSorts(out: seq<Category>, adv: map<int, Category>)
    requires Collected(out, adv, {})
    ensures IsListing(StableSort(out, IdLess), adv)
  {
    IdOrder();
    assert Compares(out, IdLess, IdLess);
    SortOrdered(out, IdLess, IdLess);
    SortKeeps(out, IdLess);
    forall c
      ensures c in StableSort(out, IdLess) <==> IsAdvertised(adv, c)
    {
      SameElements(StableSort(out, IdLess), out, c);
    }
  }

  lemma EmptyIff(s: set<int>)
    ensures s == {} <==> forall e :: e !in s
  {
    if forall e :: e !in s {
      assert s == {};
    }
  }

  // ----- The builder

  class Builder {
    const table: seq<Category>
    const hash: string -> Hash16
    var entries: seq<Entry>
    var advertised: map<int, Category>

    constructor (table: seq<Category>, hash: string -> Hash16)
      ensures this.table == table && this.hash == hash && State() == MapState([], map[])
    {
      this.table, this.hash := table, hash;
      entries, advertised := [], map[];
    }

    function State(): MapState
      reads this
    {
      MapState(entries, advertised)
    }

    /** Advertises a category and its family root. */
    method Advertise(cat: Category)
      modifies this`advertised
      ensures advertised == Advertised(table, old(advertised), cat)
    {
      advertised := advertised[cat.id := cat];
      if !cat.IsParent() {
        var root := ByName(table, cat.Parent());
        if root.Some? {
          advertised := advertised[root.value.id := root.value];
        }
      }
    }

    method AddMapping(id: string, desc: string, cat: Category)
      modifies this
      ensures State() == Mapped(table, old(State()), id, desc, cat)
    {
      entries := entries + [Entry(id, desc, cat.id)];
      Advertise(cat);
    }

    method AddCustom(id: string, desc: string, custom: Category)
      requires custom.name == desc
      modifies this
      ensures State() == Customized(old(State()), id, custom)
    {
      entries := entries + [Entry(id, desc, custom.id)];
      advertised := advertised[custom.id := custom];
    }

    method MapCategories(cats: seq<(string, string)>) returns (err: Option<MapError>)
      requires State() == MapState([], map[])
      modifies this
      ensures match AfterCategories(table, cats)
              case Success(st) => err == None && State() == st
              case Failure(e) => err == Some(e)
    {
      for i := 0 to |cats|
        invariant AfterCategories(table, cats[..i]) == Success(State())
      {
        var (id, name) := cats[i];
        assert cats[..i + 1][..i] == cats[..i];
        var cat := ByName(table, name);
        if cat.None? {
          CategoriesFailEarly(table, cats, i + 1);
          return Some(UnknownCategory(id, name));
        }
        AddMapping(id, "", cat.value);
      }
      assert cats[..|cats|] == cats;
      return None;
    }

    method MapCategoryMappings(ms: seq<Mapping>) returns (err: Option<MapError>)
      modifies this
      ensures match AfterMappings(table, hash, old(State()), ms)
              case Success(st) => err == None && State() == st
              case Failure(e) => err == Some(e)
    {
      ghost var st0 := State();
      for i := 0 to |ms|
        invariant AfterMappings(table, hash, st0, ms[..i]) == Success(State())
      {
        var m := ms[i];
        assert ms[..i + 1][..i] == ms[..i];
        var cat := ByName(table, m.cat);
        if cat.None? {
          MappingsFailEarly(table, hash, st0, ms, i + 1);
          return Some(UnknownCategory(m.id, m.cat));
        }
        AddMapping(m.id, m.desc, cat.value);
        if m.desc != "" {
          AddCustom(m.id, m.desc, Category(CustomCategoryId(hash, m.id), m.desc));
        }
      }
      assert ms[..|ms|] == ms;
      return None;
    }

    /** Lists the advertised set, visiting its map in any order. */
    method SortedAdvertised() returns (list: seq<Category>)
      requires FiledById(advertised)
      ensures IsListing(list, advertised)
    {
      var out: seq<Category> := [];
      var left := advertised.Keys;
      while left != {}
        invariant left <= advertised.Keys && Collected(out, advertised, left)
        decreases left
      {
        EmptyIff(left);
        var id :| id in left;
        CollectOne(out, advertised, left, id);
        out := out + [advertised[id]];
        left := left - {id};
      }
      CollectedSorts(out, advertised);
      list := StableSort(out, IdLess);
    }
  }

  lemma {:induction false} CategoriesFile(table: seq<Category>, cats: seq<(string, string)>)
    ensures var r := AfterCategories(table, cats); r.Success? ==> FiledById(r.value.advertised)
  {
    if cats != [] {
      CategoriesFile(table, cats[..|cats| - 1]);
    }
  }

  lemma {:induction false} MappingsFile(table: seq<Category>, hash: string -> Hash16, st0: MapState, ms: seq<Mapping>)
    requires FiledById(st0.advertised)
    ensures var r := AfterMappings(table, hash, st0, ms); r.Success? ==> FiledById(r.value.advertised)
  {
    if ms != [] {
      MappingsFile(table, hash, st0, ms[..|ms| - 1]);
    }
  }

  /** The capabilities of a state: its map's entries as they are, and its advertised set listed by id. */
  ghost predicate IsCapabilitiesOf(caps: Capabilities, st: MapState) {
    caps.entries == st.entries && IsListing(caps.categories, st.advertised)
  }

  method Build(table: seq<Category>, hash: string -> Hash16, def: Definition)
    returns (r: Result<Capabilities, MapError>)
    ensures match AfterAll(table, hash, def)
            case Success(st) => r.Success? && IsCapabilitiesOf(r.value, st)
            case Failure(e) => r == Failure(e)
  {
    var b := new Builder(table, hash);
    CategoriesFile(table, def.categories);
    var err := b.MapCategories(def.categories);
    if err.Some? {
      return Failure(err.value);
    }
    MappingsFile(table, hash, b.State(), def.mappings);
    err := b.MapCategoryMappings(def.mappings);
    if err.Some? {
      return Failure(err.value);
    }
    var list := b.SortedAdvertised();
    return Success(Capabilities(list, b.entries));
  }
}
