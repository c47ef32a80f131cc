/**
 What the mapper advertises, told from the flat category map: the categories entries map to, the
 roots of their families, and nothing else.
 */
module AdvertisedSet {
  import opened Wrappers
  import opened Lists
  import opened Categories
  import opened CategoryMapper

  /** The row with an id. */
  function ById(table: seq<Category>, id: int): (c: Option<Category>)
    ensures c.Some? ==> c.value in table && c.value.id == id
    ensures c.None? ==> forall i :: 0 <= i < |table| ==> table[i].id != id
  {
    if table == [] then None
    else if table[|table| - 1].id == id then Some(table[|table| - 1])
    else ById(table[..|table| - 1], id)
  }

  /** The family root of the row with an id. */
  function RootOf(table: seq<Category>, id: int): Option<Category> {
    match ById(table, id)
    case None => None
    case Some(c) => ByName(table, c.Parent())
  }

  /** An id is an entry's own, or its family root's. */
  predicate Covers(table: seq<Category>, mapped: int, id: int) {
    id == mapped || (RootOf(table, mapped).Some? && RootOf(table, mapped).value.id == id)
  }

  predicate CoveredBy(table: seq<Category>, entries: seq<Entry>, id: int) {
    exists i :: 0 <= i < |entries| && Covers(table, entries[i].newznabId, id)
  }

  /** A row as a name looks it up. */
  predicate IsRow(table: seq<Category>, cat: Category) {
    ByName(table, cat.name) == Some(cat)
  }

  /** A standard category is a row of the table, and its family root is advertised with it. */
  predicate InPlace(table: seq<Category>, adv: map<int, Category>, c: Category) {
    c.IsCustom() ||
    (IsRow(table, c) && ByName(table, c.Parent()).Some? && IsAdvertised(adv, ByName(table, c.Parent()).value))
  }

  predicate AllInPlace(table: seq<Category>, adv: map<int, Category>) {
    forall id :: id in adv ==> InPlace(table, adv, adv[id])
  }

  /** The advertised ids are those the entries cover. */
  ghost predicate KeysMatch(table: seq<Category>, st: MapState) {
    forall id :: id in st.advertised <==> CoveredBy(table, st.entries, id)
  }

  /** The description of the last entry for an id. */
  function LastDesc(entries: seq<Entry>, id: int): string {
    if entries == [] then ""
    else if entries[|entries| - 1].newznabId == id then entries[|entries| - 1].desc
    else LastDesc(entries[..|entries| - 1], id)
  }

  /** A custom category carries the description its id was mapped with last. */
  predicate CustomsNamed(st: MapState) {
    forall id :: id in st.advertised && id >= CUSTOM_CATEGORY_OFFSET ==>
      st.advertised[id].name == LastDesc(st.entries, id)
  }

  ghost predicate WellBuilt(table: seq<Category>, st: MapState) {
    FiledById(st.advertised) && AllInPlace(table, st.advertised) && KeysMatch(table, st) && CustomsNamed(st)
  }

  // ----- One entry more

  lemma CoveredLast(table: seq<Category>, entries: seq<Entry>, e: Entry, id: int)
    ensures CoveredBy(table, entries + [e], id) <==> CoveredBy(table, entries, id) || Covers(table, e.newznabId, id)
  {
    var all := entries + [e];
    if CoveredBy(table, all, id) {
      var i :| 0 <= i < |all| && Covers(table, all[i].newznabId, id);
      assert i < |entries| ==> Covers(table, entries[i].newznabId, id);
    }
    if CoveredBy(table, entries, id) {
      var i :| 0 <= i < |entries| && Covers(table, entries[i].newznabId, id);
      assert Covers(table, all[i].newznabId, id);
    }
    if Covers(table, e.newznabId, id) {
      assert Covers(table, all[|entries|].newznabId, id);
    }
  }

  lemma LastDescLast(entries: seq<Entry>, e: Entry, id: int)
    ensures LastDesc(entries + [e], id) == if e.newznabId == id then e.desc else LastDesc(entries, id)
  {
    assert (entries + [e])[..|entries|] == entries;
  }

  /** What a row covers is itself and its family root. */
  lemma RowCovers(table: seq<Category>, cat: Category)
    requires GoodTable(table) && IsRow(table, cat)
    ensures ById(table, cat.id) == Some(cat) && RootOf(table, cat.id) == ByName(table, cat.Parent())
    ensures RootOf(table, cat.id).Some? && RootOf(table, cat.id).value.IsParent()
    ensures IsRow(table, RootOf(table, cat.id).value)
    ensures cat.IsParent() ==> RootOf(table, cat.id) == Some(cat)
    ensures cat.id < 10000 && RootOf(table, cat.id).value.id < 10000
  {
    OneRowPerId(table, cat, ById(table, cat.id).value);
    RootRow(table, cat);
    if cat.IsParent() {
      RootParent(cat);
    }
  }

  /** A map with a category and its root filed in. */
  function WithBoth(adv: map<int, Category>, c: Category, root: Category): map<int, Category> {
    adv[c.id := c][root.id := root]
  }

  predicate NoClash(a: Category, b: Category) {
    a.id == b.id ==> a == b
  }

  lemma AdvertisedIsBoth(table: seq<Category>, adv: map<int, Category>, cat: Category)
    requires GoodTable(table) && IsRow(table, cat)
    ensures RootOf(table, cat.id).Some?
    ensures Advertised(table, adv, cat) == WithBoth(adv, cat, RootOf(table, cat.id).value)
  {
    RowCovers(table, cat);
    AdvertisedUnfolds(table, adv, cat, RootOf(table, cat.id).value);
  }

  lemma AdvertisedUnfolds(table: seq<Category>, adv: map<int, Category>, cat: Category, root: Category)
    requires ByName(table, cat.Parent()) == Some(root) && (cat.IsParent() ==> root == cat)
    ensures Advertised(table, adv, cat) == WithBoth(adv, cat, root)
  {
    if cat.IsParent() {
      FiledTwice(adv, cat);
    }
  }

  lemma FiledTwice(adv: map<int, Category>, c: Category)
    ensures WithBoth(adv, c, c) == adv[c.id := c]
  {
  }

  lemma BothValue(adv: map<int, Category>, a: Category, b: Category, id: int)
    requires NoClash(a, b) && (id in adv ==> adv[id].id == id && NoClash(adv[id], a) && NoClash(adv[id], b))
    ensures id in WithBoth(adv, a, b) <==> id in adv || id == a.id || id == b.id
    ensures id in adv ==> WithBoth(adv, a, b)[id] == adv[id]
    ensures id == a.id ==> WithBoth(adv, a, b)[id] == a
    ensures id == b.id ==> WithBoth(adv, a, b)[id] == b
  {
  }

  lemma BothHas(adv: map<int, Category>, a: Category, b: Category)
    requires NoClash(a, b)
    ensures IsAdvertised(WithBoth(adv, a, b), a) && IsAdvertised(WithBoth(adv, a, b), b)
  {
  }

  lemma BothKeys(adv: map<int, Category>, a: Category, b: Category, id: int)
    ensures id in WithBoth(adv, a, b) <==> id in adv || id == a.id || id == b.id
  {
  }

  lemma RowIdIsSmall(table: seq<Category>, c: Category)
    requires GoodTable(table) && c in table
    ensures c.id < 10000
  {
  }

  lemma RowsNoClash(table: seq<Category>, a: Category, b: Category)
    requires GoodTable(table) && (a in table || a.IsCustom()) && b in table
    ensures NoClash(a, b)
  {
    RowIdIsSmall(table, b);
    if a in table && a.id == b.id {
      OneRowPerId(table, a, b);
    }
  }

  lemma RowAndRootNoClash(table: seq<Category>, cat: Category)
    requires GoodTable(table) && IsRow(table, cat)
    ensures RootOf(table, cat.id).Some? && NoClash(cat, RootOf(table, cat.id).value)
  {
    RowCovers(table, cat);
    RowsNoClash(table, cat, RootOf(table, cat.id).value);
  }

  lemma InPlaceNoClash(table: seq<Category>, adv: map<int, Category>, c: Category, cat: Category)
    requires GoodTable(table) && IsRow(table, cat) && InPlace(table, adv, c)
    ensures NoClash(c, cat) && RootOf(table, cat.id).Some? && NoClash(c, RootOf(table, cat.id).value)
  {
    RowCovers(table, cat);
    RowsNoClash(table, c, cat);
    RowsNoClash(table, c, RootOf(table, cat.id).value);
  }

  lemma AdvertisedKeys(table: seq<Category>, adv: map<int, Category>, cat: Category, id: int)
    requires GoodTable(table) && IsRow(table, cat)
    ensures id in Advertised(table, adv, cat) <==> id in adv || Covers(table, cat.id, id)
  {
    AdvertisedIsBoth(table, adv, cat);
    BothKeys(adv, cat, RootOf(table, cat.id).value, id);
  }

  /** What advertising a row leaves under an id: what was there, the row, or its root. */
  lemma AdvertisedValue(table: seq<Category>, adv: map<int, Category>, cat: Category, id: int)
    requires GoodTable(table) && IsRow(table, cat) && FiledById(adv) && AllInPlace(table, adv)
    requires id in Advertised(table, adv, cat)
    ensures RootOf(table, cat.id).Some?
    ensures var c := Advertised(table, adv, cat)[id];
      c.id == id && if id in adv then c == adv[id] else c == cat || c == RootOf(table, cat.id).value
  {
    AdvertisedIsBoth(table, adv, cat);
    RowAndRootNoClash(table, cat);
    if id in adv {
      InPlaceNoClash(table, adv, adv[id], cat);
    }
    BothValue(adv, cat, RootOf(table, cat.id).value, id);
  }

  /** Advertising a row changes no category already there. */
  lemma AdvertisedKeeps(table: seq<Category>, adv: map<int, Category>, cat: Category, c: Category)
    requires GoodTable(table) && IsRow(table, cat) && FiledById(adv) && AllInPlace(table, adv)
    requires IsAdvertised(adv, c)
    ensures IsAdvertised(Advertised(table, adv, cat), c)
  {
    AdvertisedKeys(table, adv, cat, c.id);
    AdvertisedValue(table, adv, cat, c.id);
  }

  lemma AdvertisedAdds(table: seq<Category>, adv: map<int, Category>, cat: Category)
    requires GoodTable(table) && IsRow(table, cat)
    ensures IsAdvertised(Advertised(table, adv, cat), cat)
    ensures RootOf(table, cat.id).Some? && IsAdvertised(Advertised(table, adv, cat), RootOf(table, cat.id).value)
  {
    AdvertisedIsBoth(table, adv, cat);
    RowAndRootNoClash(table, cat);
    BothHas(adv, cat, RootOf(table, cat.id).value);
  }

  lemma RowInPlace(table: seq<Category>, adv: map<int, Category>, cat: Category)
    requires GoodTable(table) && IsRow(table, cat)
    requires RootOf(table, cat.id).Some? && IsAdvertised(adv, RootOf(table, cat.id).value)
    ensures InPlace(table, adv, cat) && InPlace(table, adv, RootOf(table, cat.id).value)
  {
    RowCovers(table, cat);
    RowCovers(table, RootOf(table, cat.id).value);
  }

  lemma AdvertisedInPlace(table: seq<Category>, adv: map<int, Category>, cat: Category)
    requires GoodTable(table) && IsRow(table, cat) && FiledById(adv) && AllInPlace(table, adv)
    ensures FiledById(Advertised(table, adv, cat)) && AllInPlace(table, Advertised(table, adv, cat))
  {
    var adv' := Advertised(table, adv, cat);
    AdvertisedAdds(table, adv, cat);
    RowInPlace(table, adv', cat);
    forall id | id in adv'
      ensures adv'[id].id == id && InPlace(table, adv', adv'[id])
    {
      AdvertisedValue(table, adv, cat, id);
      if id in adv {
        StaysInPlace(table, adv, cat, adv[id]);
      }
    }
  }

  lemma StaysInPlace(table: seq<Category>, adv: map<int, Category>, cat: Category, c: Category)
    requires GoodTable(table) && IsRow(table, cat) && FiledById(adv) && AllInPlace(table, adv) && IsAdvertised(adv, c)
    ensures InPlace(table, Advertised(table, adv, cat), c)
  {
    assert InPlace(table, adv, adv[c.id]);
    if !c.IsCustom() {
      AdvertisedKeeps(table, adv, cat, ByName(table, c.Parent()).value);
    }
  }

  lemma MappedKeysMatch(table: seq<Category>, st: MapState, id: string, desc: string, cat: Category)
    requires GoodTable(table) && IsRow(table, cat) && KeysMatch(table, st)
    ensures KeysMatch(table, Mapped(table, st, id, desc, cat))
  {
    var st' := Mapped(table, st, id, desc, cat);
    forall k
      ensures k in st'.advertised <==> CoveredBy(table, st'.entries, k)
    {
      CoveredLast(table, st.entries, Entry(id, desc, cat.id), k);
      AdvertisedKeys(table, st.advertised, cat, k);
    }
  }

  lemma MappedNamesCustoms(table: seq<Category>, st: MapState, id: string, desc: string, cat: Category)
    requires GoodTable(table) && IsRow(table, cat) && WellBuilt(table, st)
    ensures CustomsNamed(Mapped(table, st, id, desc, cat))
  {
    var st' := Mapped(table, st, id, desc, cat);
    RowCovers(table, cat);
    forall k | k in st'.advertised && k >= CUSTOM_CATEGORY_OFFSET
      ensures st'.advertised[k].name == LastDesc(st'.entries, k)
    {
      LastDescLast(st.entries, Entry(id, desc, cat.id), k);
      AdvertisedKeys(table, st.advertised, cat, k);
      AdvertisedKeeps(table, st.advertised, cat, st.advertised[k]);
    }
  }

  lemma MappedWellBuilt(table: seq<Category>, st: MapState, id: string, desc: string, cat: Category)
    requires GoodTable(table) && IsRow(table, cat) && WellBuilt(table, st)
    ensures WellBuilt(table, Mapped(table, st, id, desc, cat))
  {
    AdvertisedInPlace(table, st.advertised, cat);
    MappedKeysMatch(table, st, id, desc, cat);
    MappedNamesCustoms(table, st, id, desc, cat);
  }

  lemma OtherIdStays(adv: map<int, Category>, custom: Category, c: Category)
    requires IsAdvertised(adv, c) && c.id != custom.id
    ensures IsAdvertised(adv[custom.id := custom], c)
  {
  }

  lemma CustomInPlace(table: seq<Category>, adv: map<int, Category>, custom: Category, c: Category)
    requires GoodTable(table) && custom.IsCustom() && InPlace(table, adv, c)
    ensures InPlace(table, adv[custom.id := custom], c)
  {
    if !c.IsCustom() {
      var root := ByName(table, c.Parent()).value;
      RowIdIsSmall(table, root);
      OtherIdStays(adv, custom, root);
    }
  }

  lemma CustomKeysMatch(table: seq<Category>, st: MapState, id: string, custom: Category)
    requires GoodTable(table) && custom.IsCustom() && KeysMatch(table, st)
    ensures KeysMatch(table, Customized(st, id, custom))
  {
    var st' := Customized(st, id, custom);
    if ById(table, custom.id).Some? {
      RowIdIsSmall(table, ById(table, custom.id).value);
    }
    forall k
      ensures k in st'.advertised <==> CoveredBy(table, st'.entries, k)
    {
      CoveredLast(table, st.entries, Entry(id, custom.name, custom.id), k);
    }
  }

  lemma CustomNamesCustoms(st: MapState, id: string, custom: Category)
    requires CustomsNamed(st)
    ensures CustomsNamed(Customized(st, id, custom))
  {
    var st' := Customized(st, id, custom);
    forall k | k in st'.advertised && k >= CUSTOM_CATEGORY_OFFSET
      ensures st'.advertised[k].name == LastDesc(st'.entries, k)
    {
      LastDescLast(st.entries, Entry(id, custom.name, custom.id), k);
    }
  }

  lemma CustomWellBuilt(table: seq<Category>, st: MapState, id: string, custom: Category)
    requires GoodTable(table) && custom.IsCustom() && WellBuilt(table, st)
    ensures WellBuilt(table, Customized(st, id, custom))
  {
    var adv' := st.advertised[custom.id := custom];
    forall k | k in adv'
      ensures adv'[k].id == k && InPlace(table, adv', adv'[k])
    {
      if k != custom.id {
        CustomInPlace(table, st.advertised, custom, st.advertised[k]);
      }
    }
    CustomKeysMatch(table, st, id, custom);
    CustomNamesCustoms(st, id, custom);
  }

  // ----- Whole definitions

  /** Every mapping that makes a custom category has a plain id. */
  predicate PlainIds(ms: seq<Mapping>) {
    forall i :: 0 <= i < |ms| && ms[i].desc != "" ==> PlainId(ms[i].id)
  }

  lemma {:induction false} CategoriesWellBuilt(table: seq<Category>, cats: seq<(string, string)>)
    requires GoodTable(table) && AfterCategories(table, cats).Success?
    ensures WellBuilt(table, AfterCategories(table, cats).value)
  {
    if cats != [] {
      var init, last := cats[..|cats| - 1], cats[|cats| - 1];
      CategoriesWellBuilt(table, init);
      MappedWellBuilt(table, AfterCategories(table, init).value, last.0, "", ByName(table, last.1).value);
    }
  }

  lemma MappingWellBuilt(table: seq<Category>, hash: string -> Hash16, st: MapState, m: Mapping)
    requires GoodTable(table) && WellBuilt(table, st) && MappingStep(table, hash, st, m).Success?
    requires m.desc != "" ==> PlainId(m.id)
    ensures WellBuilt(table, MappingStep(table, hash, st, m).value)
  {
    var cat := ByName(table, m.cat).value;
    MappedWellBuilt(table, st, m.id, m.desc, cat);
    if m.desc != "" {
      CustomIdIsCustomIff(hash, m.id, m.desc);
      CustomWellBuilt(table, Mapped(table, st, m.id, m.desc, cat), m.id,
                      Category(CustomCategoryId(hash, m.id), m.desc));
    }
  }

  lemma {:induction false} MappingsWellBuilt(table: seq<Category>, hash: string -> Hash16, st0: MapState,
                                             ms: seq<Mapping>)
    requires GoodTable(table) && WellBuilt(table, st0) && PlainIds(ms) && AfterMappings(table, hash, st0, ms).Success?
    ensures WellBuilt(table, AfterMappings(table, hash, st0, ms).value)
  {
    if ms != [] {
      var init, last := ms[..|ms| - 1], ms[|ms| - 1];
      MappingsWellBuilt(table, hash, st0, init);
      MappingWellBuilt(table, hash, AfterMappings(table, hash, st0, init).value, last);
    }
  }

  /**
   What a definition with plain ids advertises: exactly the ids its entries map to and the ids of
   their family roots; standard categories as the table has them, each with its root; and custom
   categories under the description their id was mapped with last.
   */
  lemma AdvertisedIff(table: seq<Category>, hash: string -> Hash16, def: Definition)
    requires GoodTable(table) && PlainIds(def.mappings) && AfterAll(table, hash, def).Success?
    ensures WellBuilt(table, AfterAll(table, hash, def).value)
  {
    CategoriesWellBuilt(table, def.categories);
    MappingsWellBuilt(table, hash, AfterCategories(table, def.categories).value, def.mappings);
  }

  /** A definition fails to map exactly when one of its names is unknown. */
  lemma {:induction false} CategoriesFailIff(table: seq<Category>, cats: seq<(string, string)>)
    ensures AfterCategories(table, cats).Failure? <==> exists i :: 0 <= i < |cats| && ByName(table, cats[i].1).None?
  {
    if cats != [] {
      CategoriesFailIff(table, cats[..|cats| - 1]);
      assert forall i :: 0 <= i < |cats| - 1 ==> cats[..|cats| - 1][i] == cats[i];
    }
  }

  lemma {:induction false} MappingsFailIff(table: seq<Category>, hash: string -> Hash16, st0: MapState,
                                           ms: seq<Mapping>)
    ensures AfterMappings(table, hash, st0, ms).Failure? <==>
      exists i :: 0 <= i < |ms| && ByName(table, ms[i].cat).None?
  {
    if ms != [] {
      MappingsFailIff(table, hash, st0, ms[..|ms| - 1]);
      assert forall i :: 0 <= i < |ms| - 1 ==> ms[..|ms| - 1][i] == ms[i];
    }
  }

  // ----- The order a map is visited in

  /** The entry a pair of the map makes. */
  function EntryFor(table: seq<Category>, c: (string, string)): Entry {
    Entry(c.0, "", match ByName(table, c.1) case None => 0 case Some(cat) => cat.id)
  }

  function EntriesFor(table: seq<Category>, cats: seq<(string, string)>): seq<Entry> {
    Each(cats, c => EntryFor(table, c))
  }

  lemma {:induction false} CategoryEntries(table: seq<Category>, cats: seq<(string, string)>)
    requires AfterCategories(table, cats).Success?
    ensures AfterCategories(table, cats).value.entries == EntriesFor(table, cats)
  {
    if cats != [] {
      CategoryEntries(table, cats[..|cats| - 1]);
    }
  }

  /** Two sets built on the same entries advertise the same standard categories. */
  lemma SameKeys(table: seq<Category>, a: MapState, b: MapState, id: int)
    requires KeysMatch(table, a) && KeysMatch(table, b)
    requires forall e :: e in a.entries ==> e in b.entries
    ensures id in a.advertised ==> id in b.advertised
  {
    if id in a.advertised {
      assert CoveredBy(table, a.entries, id);
      var i :| 0 <= i < |a.entries| && Covers(table, a.entries[i].newznabId, id);
      assert a.entries[i] in b.entries;
      var j :| 0 <= j < |b.entries| && b.entries[j] == a.entries[i];
      assert Covers(table, b.entries[j].newznabId, id);
    }
  }

  /** No entry of the map form makes a custom category. */
  lemma {:induction false} CategoriesAreRows(table: seq<Category>, cats: seq<(string, string)>, id: int)
    requires GoodTable(table) && AfterCategories(table, cats).Success?
    requires id in AfterCategories(table, cats).value.advertised
    ensures AfterCategories(table, cats).value.advertised[id] in table
    ensures AfterCategories(table, cats).value.advertised[id].id == id
  {
    if cats != [] {
      var init, last := cats[..|cats| - 1], cats[|cats| - 1];
      var st, cat := AfterCategories(table, init).value, ByName(table, last.1).value;
      CategoriesWellBuilt(table, init);
      AdvertisedValue(table, st.advertised, cat, id);
      RowCovers(table, cat);
      if id in st.advertised {
        CategoriesAreRows(table, init, id);
      }
    }
  }

  lemma SameAdvertised(table: seq<Category>, p: seq<(string, string)>, q: seq<(string, string)>)
    requires GoodTable(table) && multiset(p) == multiset(q)
    requires AfterCategories(table, p).Success? && AfterCategories(table, q).Success?
    ensures AfterCategories(table, p).value.advertised == AfterCategories(table, q).value.advertised
  {
    var a, b := AfterCategories(table, p).value, AfterCategories(table, q).value;
    forall id
      ensures id in a.advertised ==> id in b.advertised && a.advertised[id] == b.advertised[id]
      ensures id in b.advertised ==> id in a.advertised
    {
      if id in a.advertised {
        SameUnderId(table, p, q, id);
      }
      if id in b.advertised {
        SameUnderId(table, q, p, id);
      }
    }
    SameMap(a.advertised, b.advertised);
  }

  lemma SameMap<K(!new), V>(a: map<K, V>, b: map<K, V>)
    requires forall id :: id in a ==> id in b && a[id] == b[id]
    requires forall id :: id in b ==> id in a
    ensures a == b
  {
  }

  lemma SameUnderId(table: seq<Category>, p: seq<(string, string)>, q: seq<(string, string)>, id: int)
    requires GoodTable(table) && multiset(p) == multiset(q)
    requires AfterCategories(table, p).Success? && AfterCategories(table, q).Success?
    requires id in AfterCategories(table, p).value.advertised
    ensures id in AfterCategories(table, q).value.advertised
    ensures AfterCategories(table, p).value.advertised[id] == AfterCategories(table, q).value.advertised[id]
  {
    var a, b := AfterCategories(table, p).value, AfterCategories(table, q).value;
    CategoriesWellBuilt(table, p);
    CategoriesWellBuilt(table, q);
    SameEntries(table, p, q);
    SameMembers(a.entries, b.entries);
    SameKeys(table, a, b, id);
    assert id in b.advertised;
    CategoriesAreRows(table, p, id);
    CategoriesAreRows(table, q, id);
    OneRowPerId(table, a.advertised[id], b.advertised[id]);
  }

  lemma SameEntries(table: seq<Category>, p: seq<(string, string)>, q: seq<(string, string)>)
    requires multiset(p) == multiset(q)
    requires AfterCategories(table, p).Success? && AfterCategories(table, q).Success?
    ensures multiset(AfterCategories(table, p).value.entries) == multiset(AfterCategories(table, q).value.entries)
  {
    CategoryEntries(table, p);
    CategoryEntries(table, q);
    EachPermutes(p, q, c => EntryFor(table, c));
  }

  /** Two outcomes that differ in the order of their entries only. */
  predicate Alike(p: Result<MapState, MapError>, q: Result<MapState, MapError>) {
    && (p.Failure? <==> q.Failure?)
    && (p.Success? ==> p.value.advertised == q.value.advertised
                       && multiset(p.value.entries) == multiset(q.value.entries))
  }

  lemma {:induction false} MappingsFollow(table: seq<Category>, hash: string -> Hash16, a: MapState, b: MapState,
                                          ms: seq<Mapping>)
    requires a.advertised == b.advertised && multiset(a.entries) == multiset(b.entries)
    ensures Alike(AfterMappings(table, hash, a, ms), AfterMappings(table, hash, b, ms))
  {
    if ms != [] {
      MappingsFollow(table, hash, a, b, ms[..|ms| - 1]);
    }
  }

  /**
   Whatever order the category map is visited in, mapping fails or succeeds alike, advertises the
   same set (hence lists it alike), and records the same entries as often.
   */
  lemma OrderDoesNotShow(table: seq<Category>, hash: string -> Hash16, p: Definition, q: Definition)
    requires GoodTable(table) && p.mappings == q.mappings && multiset(p.categories) == multiset(q.categories)
    ensures Alike(AfterAll(table, hash, p), AfterAll(table, hash, q))
  {
    FailAlike(table, p.categories, q.categories);
    FailAlike(table, q.categories, p.categories);
    var ap, aq := AfterCategories(table, p.categories), AfterCategories(table, q.categories);
    if ap.Success? {
      SameAdvertised(table, p.categories, q.categories);
      SameEntries(table, p.categories, q.categories);
      MappingsFollow(table, hash, ap.value, aq.value, p.mappings);
    }
  }

  lemma FailAlike(table: seq<Category>, p: seq<(string, string)>, q: seq<(string, string)>)
    requires multiset(p) == multiset(q)
    ensures AfterCategories(table, p).Failure? ==> AfterCategories(table, q).Failure?
  {
    CategoriesFailIff(table, p);
    CategoriesFailIff(table, q);
    if AfterCategories(table, p).Failure? {
      var i :| 0 <= i < |p| && ByName(table, p[i].1).None?;
      SameMembers(p, q);
      assert p[i] in q;
    }
  }
}
