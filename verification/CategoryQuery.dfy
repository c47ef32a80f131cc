/** What a query drives. */
module CategoryQuery {
  import opened Wrappers
  import opened Lists
  import opened Categories
  import opened CategoryMapper
  import Text

  // ----- Keeping first occurrences

  function Firsts<T(==,!new)>(s: seq<T>): (r: seq<T>)
    ensures forall e :: e in r <==> e in s
  {
    if s == [] then [] else
    var init, last := Firsts(s[..|s| - 1]), s[|s| - 1];
    assert s == s[..|s| - 1] + [last];
    if last in init then init else init + [last]
  }

  predicate NoRepeats<T(==)>(s: seq<T>) {
    forall i, j :: 0 <= i < j < |s| ==> s[i] != s[j]
  }

  lemma {:induction false} FirstsDistinct<T(!new)>(s: seq<T>)
    ensures NoRepeats(Firsts(s))
  {
    if s != [] {
      FirstsDistinct(s[..|s| - 1]);
    }
  }

  lemma FirstsLast<T(!new)>(s: seq<T>, e: T)
    ensures Firsts(s + [e]) == if e in Firsts(s) then Firsts(s) else Firsts(s) + [e]
  {
    assert (s + [e])[..|s|] == s;
  }

  lemma IndexOfStart<T>(s: seq<T>, n: nat, e: T)
    requires n <= |s| && e in s[..n]
    ensures IndexOf(s, e) == IndexOf(s[..n], e) < n
  {
    var i := IndexOf(s[..n], e);
    var k :| 0 <= k < n && s[..n][k] == e;
    assert i <= k;
    assert forall j :: 0 <= j < i ==> s[j] == s[..n][j];
    IndexOfIs(s, e, i);
  }

  /** They stand in the order they first occur. */
  lemma {:induction false} FirstsInOrder<T(!new)>(s: seq<T>, i: nat, j: nat)
    requires i < j < |Firsts(s)|
    ensures IndexOf(s, Firsts(s)[i]) < IndexOf(s, Firsts(s)[j])
  {
    var init, last := s[..|s| - 1], s[|s| - 1];
    var a, b := Firsts(s)[i], Firsts(s)[j];
    assert a == Firsts(init)[i];
    assert a in Firsts(init);
    IndexOfStart(s, |s| - 1, a);
    if j < |Firsts(init)| {
      FirstsInOrder(init, i, j);
      assert b in Firsts(init);
      IndexOfStart(s, |s| - 1, b);
    } else {
      assert b == last && b !in init;
      assert forall k :: 0 <= k < |s| - 1 ==> s[k] == init[k];
      IndexOfIs(s, b, |s| - 1);
    }
  }

  // ----- Expanding a query

  predicate IsChildOf(c: Category, root: string) {
    !c.IsParent() && !c.IsCustom() && c.Parent() == root
  }

  /** The first advertised parent with an id. */
  function AdvertisedParent(cats: seq<Category>, id: int): (p: Option<Category>)
    ensures p.Some? ==> p.value in cats && p.value.id == id && p.value.IsParent()
    ensures p.None? ==> forall i :: 0 <= i < |cats| ==> cats[i].id != id || !cats[i].IsParent()
  {
    if cats == [] then None
    else if cats[0].id == id && cats[0].IsParent() then Some(cats[0])
    else AdvertisedParent(cats[1..], id)
  }

  function ChildIds(cats: seq<Category>, root: string): seq<int> {
    if cats == [] then [] else
    var last := cats[|cats| - 1];
    ChildIds(cats[..|cats| - 1], root) + (if IsChildOf(last, root) then [last.id] else [])
  }

  /** An id, and after it the children of the advertised parent it is the id of. */
  function Family(cats: seq<Category>, id: int): seq<int> {
    [id] + (if id >= CUSTOM_CATEGORY_OFFSET then [] else
            match AdvertisedParent(cats, id)
            case None => []
            case Some(p) => ChildIds(cats, p.name))
  }

  function Families(cats: seq<Category>, query: seq<int>): seq<int> {
    if query == [] then [] else Families(cats, query[..|query| - 1]) + Family(cats, query[|query| - 1])
  }

  method AdvertisedParentOf(cats: seq<Category>, id: int) returns (p: Option<Category>)
    ensures p == AdvertisedParent(cats, id)
  {
    for i := 0 to |cats|
      invariant AdvertisedParent(cats, id) == AdvertisedParent(cats[i..], id)
    {
      if cats[i].id == id && cats[i].IsParent() {
        return Some(cats[i]);
      }
      assert cats[i..][1..] == cats[i + 1..];
    }
    return None;
  }

  /** Adds an id unless it was seen. */
  method Add(ghost all: seq<int>, seen: set<int>, out: seq<int>, id: int) returns (seen': set<int>, out': seq<int>)
    requires out == Firsts(all) && seen == Elements(all)
    ensures out' == Firsts(all + [id]) && seen' == Elements(all + [id])
  {
    FirstsLast(all, id);
    ElementsLast(all, id);
    if id in seen {
      return seen, out;
    }
    return seen + {id}, out + [id];
  }

  function Elements(s: seq<int>): set<int> {
    set e | e in s
  }

  lemma ElementsLast(s: seq<int>, e: int)
    ensures Elements(s + [e]) == Elements(s) + {e}
  {
  }

  method ExpandQueryCategories(cats: seq<Category>, query: seq<int>) returns (out: seq<int>)
    ensures out == Firsts(Families(cats, query))
  {
    var seen: set<int> := {};
    out := [];
    for i := 0 to |query|
      invariant out == Firsts(Families(cats, query[..i])) && seen == Elements(Families(cats, query[..i]))
    {
      assert query[..i + 1][..i] == query[..i];
      seen, out := ExpandOne(cats, query[i], Families(cats, query[..i]), seen, out);
    }
    assert query[..|query|] == query;
  }

  method ExpandOne(cats: seq<Category>, id: int, ghost before: seq<int>, seen: set<int>, out: seq<int>)
    returns (seen': set<int>, out': seq<int>)
    requires out == Firsts(before) && seen == Elements(before)
    ensures out' == Firsts(before + Family(cats, id)) && seen' == Elements(before + Family(cats, id))
  {
    seen', out' := Add(before, seen, out, id);
    ghost var all := before + [id];
    if id < CUSTOM_CATEGORY_OFFSET {
      var parent := AdvertisedParentOf(cats, id);
      if parent.Some? {
        for k := 0 to |cats|
          invariant all == before + [id] + ChildIds(cats[..k], parent.value.name)
          invariant out' == Firsts(all) && seen' == Elements(all)
        {
          assert cats[..k + 1][..k] == cats[..k];
          if !cats[k].IsParent() && !cats[k].IsCustom() && cats[k].Parent() == parent.value.name {
            seen', out' := Add(all, seen', out', cats[k].id);
            all := all + [cats[k].id];
          }
        }
        assert cats[..|cats|] == cats;
        Reassociate(before, [id], ChildIds(cats, parent.value.name));
      }
    }
    assert all == before + Family(cats, id);
  }

  // ----- Looking tracker ids up

  predicate IsBlank(s: string) {
    Text.TrimSpace(s) == ""
  }

  predicate IsWanted(e: Entry, want: set<int>) {
    !IsBlank(e.trackerCategory) && e.newznabId in want
  }

  function TrackersOf(entries: seq<Entry>, want: set<int>): seq<string> {
    if entries == [] then [] else
    var last := entries[|entries| - 1];
    TrackersOf(entries[..|entries| - 1], want) + (if IsWanted(last, want) then [last.trackerCategory] else [])
  }

  method TrackersForNewznab(entries: seq<Entry>, ids: seq<int>) returns (out: seq<string>)
    ensures out == Firsts(TrackersOf(entries, Elements(ids)))
  {
    out := [];
    if ids == [] {
      NothingWanted(entries);
      assert Elements(ids) == {};
      return;
    }
    var want: set<int> := {};
    for k := 0 to |ids|
      invariant want == Elements(ids[..k])
    {
      assert ids[..k + 1] == ids[..k] + [ids[k]];
      want := want + {ids[k]};
    }
    assert ids[..|ids|] == ids;
    var seen: set<string> := {};
    for k := 0 to |entries|
      invariant out == Firsts(TrackersOf(entries[..k], want)) && forall t :: t in seen <==> t in out
    {
      var e := entries[k];
      assert entries[..k + 1][..k] == entries[..k];
      FirstsLast(TrackersOf(entries[..k], want), e.trackerCategory);
      if IsBlank(e.trackerCategory) || e.newznabId !in want || e.trackerCategory in seen {
        assert TrackersOf(entries[..k], want) + [] == TrackersOf(entries[..k], want);
        continue;
      }
      seen := seen + {e.trackerCategory};
      out := out + [e.trackerCategory];
    }
    assert entries[..|entries|] == entries;
  }

  lemma {:induction false} NothingWanted(entries: seq<Entry>)
    ensures TrackersOf(entries, {}) == []
  {
    if entries != [] {
      NothingWanted(entries[..|entries| - 1]);
    }
  }

  /** The tracker ids a query drives. */
  function Trackers(caps: Capabilities, query: seq<int>): seq<string> {
    Firsts(TrackersOf(caps.entries, Elements(Firsts(Families(caps.categories, query)))))
  }

  method MapTorznabCapsToTrackers(caps: Capabilities, query: seq<int>) returns (out: seq<string>)
    ensures out == Trackers(caps, query)
  {
    if query == [] {
      NothingWanted(caps.entries);
      assert Elements(Firsts(Families(caps.categories, query))) == {};
      return [];
    }
    var expanded := ExpandQueryCategories(caps.categories, query);
    out := TrackersForNewznab(caps.entries, expanded);
  }

  // ----- What is returned

  /** An id is queried, or it is an advertised child of an advertised parent that is queried. */
  ghost predicate Queried(cats: seq<Category>, query: seq<int>, id: int) {
    id in query ||
    exists p, c :: p in cats && c in cats && p.id in query && p.id < CUSTOM_CATEGORY_OFFSET && p.IsParent()
                   && IsChildOf(c, p.name) && c.id == id
  }

  lemma {:induction false} ChildIdsIff(cats: seq<Category>, root: string, id: int)
    ensures id in ChildIds(cats, root) <==> exists c :: c in cats && IsChildOf(c, root) && c.id == id
  {
    if cats != [] {
      var init, last := cats[..|cats| - 1], cats[|cats| - 1];
      ChildIdsIff(init, root, id);
      assert cats == init + [last];
    }
  }

  lemma {:induction false} FamiliesHold(cats: seq<Category>, query: seq<int>, k: nat, id: int)
    requires k < |query| && id in Family(cats, query[k])
    ensures id in Families(cats, query)
  {
    if k < |query| - 1 {
      FamiliesHold(cats, query[..|query| - 1], k, id);
    }
  }

  lemma {:induction false} FamiliesFrom(cats: seq<Category>, query: seq<int>, id: int) returns (k: nat)
    requires id in Families(cats, query)
    ensures k < |query| && id in Family(cats, query[k])
  {
    k := |query| - 1;
    if id !in Family(cats, query[k]) {
      k := FamiliesFrom(cats, query[..k], id);
    }
  }

  predicate OneIdEach(cats: seq<Category>) {
    forall i, j :: 0 <= i < j < |cats| ==> cats[i].id != cats[j].id
  }

  lemma SameCategory(cats: seq<Category>, a: Category, b: Category)
    requires OneIdEach(cats) && a in cats && b in cats && a.id == b.id
    ensures a == b
  {
  }

  /** An id is that of a child of the parent with another. */
  ghost predicate IsChildOfId(cats: seq<Category>, q: int, id: int) {
    exists p, c :: p in cats && c in cats && p.id == q && q < CUSTOM_CATEGORY_OFFSET && p.IsParent()
                   && IsChildOf(c, p.name) && c.id == id
  }

  /** One queried id stands for itself and the children of the parent it is. */
  lemma FamilyIff(cats: seq<Category>, q: int, id: int)
    requires OneIdEach(cats)
    ensures id in Family(cats, q) <==> (id == q || IsChildOfId(cats, q, id))
  {
    var parent := AdvertisedParent(cats, q);
    if parent.Some? {
      ChildIdsIff(cats, parent.value.name, id);
    }
    if IsChildOfId(cats, q, id) {
      var p, c :| p in cats && c in cats && p.id == q && q < CUSTOM_CATEGORY_OFFSET && p.IsParent()
                  && IsChildOf(c, p.name) && c.id == id;
      assert parent.Some?;
      SameCategory(cats, p, parent.value);
    }
  }

  /** What a query is expanded to. */
  lemma ExpandedIff(cats: seq<Category>, query: seq<int>, id: int)
    requires OneIdEach(cats)
    ensures id in Families(cats, query) <==> Queried(cats, query, id)
  {
    if id in Families(cats, query) {
      var k := FamiliesFrom(cats, query, id);
      FamilyIff(cats, query[k], id);
    }
    if Queried(cats, query, id) {
      QueriedIsExpanded(cats, query, id);
    }
  }

  lemma QueriedIsExpanded(cats: seq<Category>, query: seq<int>, id: int)
    requires OneIdEach(cats) && Queried(cats, query, id)
    ensures id in Families(cats, query)
  {
    var q := id;
    if id !in query {
      var p, c :| p in cats && c in cats && p.id in query && p.id < CUSTOM_CATEGORY_OFFSET && p.IsParent()
                  && IsChildOf(c, p.name) && c.id == id;
      q := p.id;
    }
    var k :| 0 <= k < |query| && query[k] == q;
    FamilyIff(cats, q, id);
    FamiliesHold(cats, query, k, id);
  }

  lemma {:induction false} TrackersOfIff(entries: seq<Entry>, want: set<int>, t: string)
    ensures t in TrackersOf(entries, want) <==> exists e :: e in entries && IsWanted(e, want) && e.trackerCategory == t
  {
    if entries != [] {
      var init, last := entries[..|entries| - 1], entries[|entries| - 1];
      TrackersOfIff(init, want, t);
      assert entries == init + [last];
    }
  }

  /** A tracker id is returned exactly when an entry that is not blank maps it to a queried id. */
  lemma ReturnedIff(caps: Capabilities, query: seq<int>, t: string)
    requires OneIdEach(caps.categories)
    ensures t in Trackers(caps, query) <==>
      exists e :: e in caps.entries && !IsBlank(e.trackerCategory) && e.trackerCategory == t
                  && Queried(caps.categories, query, e.newznabId)
  {
    var want := Elements(Firsts(Families(caps.categories, query)));
    TrackersOfIff(caps.entries, want, t);
    forall e | e in caps.entries
      ensures e.newznabId in want <==> Queried(caps.categories, query, e.newznabId)
    {
      ExpandedIff(caps.categories, query, e.newznabId);
    }
  }

  /** Nothing is returned twice, and tracker ids come in the order of their first wanted entries. */
  lemma ReturnedInEntryOrder(caps: Capabilities, query: seq<int>, i: nat, j: nat)
    requires i < j < |Trackers(caps, query)|
    ensures var wanted := TrackersOf(caps.entries, Elements(Firsts(Families(caps.categories, query))));
      && Trackers(caps, query)[i] != Trackers(caps, query)[j]
      && IndexOf(wanted, Trackers(caps, query)[i]) < IndexOf(wanted, Trackers(caps, query)[j])
  {
    var wanted := TrackersOf(caps.entries, Elements(Firsts(Families(caps.categories, query))));
    FirstsDistinct(wanted);
    FirstsInOrder(wanted, i, j);
  }

  /** Asking for more returns no less, whatever the order and repetition of the query. */
  lemma Monotone(caps: Capabilities, query: seq<int>, more: seq<int>, t: string)
    requires OneIdEach(caps.categories) && (forall id :: id in query ==> id in more)
    requires t in Trackers(caps, query)
    ensures t in Trackers(caps, more)
  {
    ReturnedIff(caps, query, t);
    ReturnedIff(caps, more, t);
    var e :| e in caps.entries && !IsBlank(e.trackerCategory) && e.trackerCategory == t
             && Queried(caps.categories, query, e.newznabId);
    assert Queried(caps.categories, more, e.newznabId);
  }

  // ----- What is queried, told by the advertised set

  lemma ListingHasOneIdEach(list: seq<Category>, adv: map<int, Category>)
    requires IsListing(list, adv)
    ensures OneIdEach(list)
  {
    forall i, j | 0 <= i < j < |list|
      ensures list[i].id != list[j].id
    {
      assert IdLess(list[i], list[j]);
    }
  }

  /** An id is that of an advertised standard subcategory, and another that of its advertised root. */
  predicate InFamily(adv: map<int, Category>, root: int, id: int) {
    && root in adv && id in adv && root < CUSTOM_CATEGORY_OFFSET
    && adv[root].IsParent() && IsChildOf(adv[id], adv[root].name)
  }

  /** A query holds an id, or the root of its family. */
  predicate Reaches(adv: map<int, Category>, query: seq<int>, id: int) {
    id in query || exists i :: 0 <= i < |query| && InFamily(adv, query[i], id)
  }

  /** Every advertised set: what is queried is told by the set, however it is listed. */
  lemma QueriedIff(list: seq<Category>, adv: map<int, Category>, query: seq<int>, id: int)
    requires IsListing(list, adv) && FiledById(adv)
    ensures Queried(list, query, id) <==> Reaches(adv, query, id)
  {
    if Queried(list, query, id) && id !in query {
      var p, c :| p in list && c in list && p.id in query && p.id < CUSTOM_CATEGORY_OFFSET && p.IsParent()
                  && IsChildOf(c, p.name) && c.id == id;
      assert IsAdvertised(adv, p) && IsAdvertised(adv, c);
      var i :| 0 <= i < |query| && query[i] == p.id;
      assert InFamily(adv, query[i], id);
    }
    if Reaches(adv, query, id) && id !in query {
      var i :| 0 <= i < |query| && InFamily(adv, query[i], id);
      assert IsAdvertised(adv, adv[query[i]]) && IsAdvertised(adv, adv[id]);
    }
  }

  // ----- The lookup from tracker to standard ids

  /** `same` stands for the case-insensitive comparison of the original. */
  predicate IsFor(e: Entry, t: string, same: (string, string) -> bool) {
    !IsBlank(e.trackerCategory) && same(e.trackerCategory, t)
  }

  function NewznabOf(entries: seq<Entry>, t: string, same: (string, string) -> bool): seq<int> {
    if entries == [] then [] else
    var last := entries[|entries| - 1];
    NewznabOf(entries[..|entries| - 1], t, same) + (if IsFor(last, t, same) then [last.newznabId] else [])
  }

  lemma {:induction false} NewznabOfIff(entries: seq<Entry>, t: string, same: (string, string) -> bool, id: int)
    ensures id in NewznabOf(entries, t, same) <==> exists e :: e in entries && IsFor(e, t, same) && e.newznabId == id
  {
    if entries != [] {
      var init, last := entries[..|entries| - 1], entries[|entries| - 1];
      NewznabOfIff(init, t, same, id);
      assert entries == init + [last];
    }
  }

  /** What a tracker id maps to, in entry order; a blank one maps to nothing. */
  function NewznabFor(entries: seq<Entry>, t: string, same: (string, string) -> bool): seq<int> {
    if IsBlank(t) then [] else NewznabOf(entries, t, same)
  }

  method MapTrackerCatToNewznab(entries: seq<Entry>, t: string, same: (string, string) -> bool) returns (out: seq<int>)
    ensures out == NewznabFor(entries, t, same)
  {
    out := [];
    if IsBlank(t) {
      return;
    }
    for k := 0 to |entries|
      invariant out == NewznabOf(entries[..k], t, same)
    {
      assert entries[..k + 1][..k] == entries[..k];
      if !IsBlank(entries[k].trackerCategory) && same(entries[k].trackerCategory, t) {
        out := out + [entries[k].newznabId];
      }
    }
    assert entries[..|entries|] == entries;
  }

  /** An id found for a tracker id finds, queried alone, that tracker id up to case. */
  lemma ForwardThenBack(caps: Capabilities, t: string, same: (string, string) -> bool, id: int)
    requires OneIdEach(caps.categories) && id in NewznabFor(caps.entries, t, same)
    ensures exists t' :: t' in Trackers(caps, [id]) && same(t', t)
  {
    NewznabOfIff(caps.entries, t, same, id);
    var e :| e in caps.entries && IsFor(e, t, same) && e.newznabId == id;
    ReturnedIff(caps, [id], e.trackerCategory);
    assert Queried(caps.categories, [id], e.newznabId);
  }

  /** A tracker id a query returns is found to map to an id the query covers. */
  lemma BackThenForward(caps: Capabilities, query: seq<int>, t: string, same: (string, string) -> bool)
    requires OneIdEach(caps.categories) && same(t, t) && t in Trackers(caps, query)
    ensures exists id :: id in NewznabFor(caps.entries, t, same) && Queried(caps.categories, query, id)
  {
    ReturnedIff(caps, query, t);
    var e :| e in caps.entries && !IsBlank(e.trackerCategory) && e.trackerCategory == t
             && Queried(caps.categories, query, e.newznabId);
    NewznabOfIff(caps.entries, t, same, e.newznabId);
    assert IsFor(e, t, same);
  }

  // ----- In entry order

  lemma BlankIff(s: string)
    ensures IsBlank(s) <==> Text.AllSpace(s)
  {
    if Text.AllSpace(s) {
      Text.TrimLeftNothing(s);
    } else {
      var i :| 0 <= i < |s| && !Text.IsSpace(s[i]);
      SomethingIsLeft(s, i);
    }
  }

  lemma {:induction false} SomethingIsLeft(s: string, i: nat)
    requires i < |s| && !Text.IsSpace(s[i])
    ensures Text.TrimSpace(s) != ""
  {
    if Text.IsSpace(s[0]) {
      SomethingIsLeft(s[1..], i - 1);
    } else {
      FirstIsLeft(s);
    }
  }

  lemma {:induction false} FirstIsLeft(s: string)
    requires s != "" && !Text.IsSpace(s[0])
    ensures Text.TrimRight(s) != ""
  {
    if |s| > 1 && Text.IsSpace(s[|s| - 1]) {
      FirstIsLeft(s[..|s| - 1]);
    }
  }

  /** What a query drives are the tracker ids of the wanted entries, each at its first place among them. */
  lemma {:induction false} WantedInOrder(entries: seq<Entry>, want: set<int>)
    ensures TrackersOf(entries, want)
         == Each(Kept(entries, e => IsWanted(e, want)), (e: Entry) => e.trackerCategory)
  {
    if entries == [] {
      assert Each(Kept(entries, e => IsWanted(e, want)), (e: Entry) => e.trackerCategory) == [];
    } else {
      var init, last := entries[..|entries| - 1], entries[|entries| - 1];
      WantedInOrder(init, want);
      assert entries == init + [last];
      KeptLast(init, last, e => IsWanted(e, want));
      EachMaybe(Kept(init, e => IsWanted(e, want)), last, (e: Entry) => e.trackerCategory);
    }
  }

  lemma EachMaybe<A, B>(s: seq<A>, x: A, f: A -> B)
    ensures Each(s + [x], f) == Each(s, f) + [f(x)]
  {
    assert (s + [x])[..|s|] == s;
  }

  /** What a tracker id maps to are the ids of its entries, in order and as often as they stand. */
  lemma {:induction false} FoundInOrder(entries: seq<Entry>, t: string, same: (string, string) -> bool)
    ensures NewznabOf(entries, t, same)
         == Each(Kept(entries, e => IsFor(e, t, same)), (e: Entry) => e.newznabId)
  {
    if entries == [] {
      assert Each(Kept(entries, e => IsFor(e, t, same)), (e: Entry) => e.newznabId) == [];
    } else {
      var init, last := entries[..|entries| - 1], entries[|entries| - 1];
      FoundInOrder(init, t, same);
      assert entries == init + [last];
      KeptLast(init, last, e => IsFor(e, t, same));
      EachMaybe(Kept(init, e => IsFor(e, t, same)), last, (e: Entry) => e.newznabId);
    }
  }
}
