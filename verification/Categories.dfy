/**
 The standard category table, written family by family, and the category tree that the names of
 its rows spell.
 */
module Categories {
  import opened Wrappers
  import opened Lists

  const CUSTOM_CATEGORY_OFFSET := 100000

  datatype Category = Category(id: int, name: string) {
    predicate IsCustom() {
      id >= CUSTOM_CATEGORY_OFFSET
    }

    predicate IsParent() {
      Lacks(name, '/')
    }

    /** The family root's name; a parent's own name. */
    function Parent(): string {
      name[..IndexOf(name, '/')]
    }
  }

  /** One family of the table: its root, and the ids and the rest of the names of its subcategories. */
  datatype Family = Family(id: int, root: string, subs: seq<(int, string)>)

  const CONSOLE := Family(1000, "Console", [
    (1010, "NDS"), (1020, "PSP"), (1030, "Wii"), (1040, "XBox"), (1050, "XBox 360"), (1060, "Wiiware"),
    (1070, "XBox 360 DLC"), (1080, "PS3"), (1090, "Other"), (1110, "3DS"), (1120, "PS Vita"), (1130, "WiiU"),
    (1140, "XBox One"), (1180, "PS4")])

  const MOVIES := Family(2000, "Movies", [
    (2010, "Foreign"), (2020, "Other"), (2030, "SD"), (2040, "HD"), (2045, "UHD"), (2050, "BluRay"),
    (2060, "3D"), (2070, "DVD"), (2080, "WEB-DL")])

  const AUDIO := Family(3000, "Audio", [
    (3010, "MP3"), (3020, "Video"), (3030, "Audiobook"), (3040, "Lossless"), (3050, "Other"), (3060, "Foreign")])

  const PC := Family(4000, "PC", [
    (4010, "0day"), (4020, "ISO"), (4030, "Mac"), (4040, "Mobile-Other"), (4050, "Games"), (4060, "Mobile-iOS"),
    (4070, "Mobile-Android")])

  const TV := Family(5000, "TV", [
    (5010, "WEB-DL"), (5020, "Foreign"), (5030, "SD"), (5040, "HD"), (5045, "UHD"), (5050, "Other"),
    (5060, "Sport"), (5070, "Anime"), (5080, "Documentary")])

  const XXX := Family(6000, "XXX", [
    (6010, "DVD"), (6020, "WMV"), (6030, "XviD"), (6040, "x264"), (6045, "UHD"), (6050, "Pack"),
    (6060, "ImageSet"), (6070, "Other"), (6080, "SD"), (6090, "WEB-DL")])

  const BOOKS := Family(7000, "Books", [
    (7010, "Mags"), (7020, "EBook"), (7030, "Comics"), (7040, "Technical"), (7050, "Other"), (7060, "Foreign")])

  const OTHER := Family(8000, "Other", [
    (8010, "Misc"), (8020, "Hashed")])

  const FAMILIES: seq<Family> := [CONSOLE, MOVIES, AUDIO, PC, TV, XXX, BOOKS, OTHER]

  function SubRows(root: string, subs: seq<(int, string)>): seq<Category> {
    if subs == [] then []
    else SubRows(root, subs[..|subs| - 1]) + [Category(subs[|subs| - 1].0, root + ['/'] + subs[|subs| - 1].1)]
  }

  function FamilyRows(f: Family): seq<Category> {
    [Category(f.id, f.root)] + SubRows(f.root, f.subs)
  }

  /** The table the families make, in id order. */
  function Rows(families: seq<Family>): seq<Category> {
    if families == [] then [] else Rows(families[..|families| - 1]) + FamilyRows(families[|families| - 1])
  }

  function StandardCategories(): seq<Category> {
    Rows(FAMILIES)
  }

  /** The row with a name: the last one, as the name index is filled row by row. */
  function ByName(table: seq<Category>, name: string): (c: Option<Category>)
    ensures c.Some? ==> c.value in table && c.value.name == name
    ensures c.None? ==> forall i :: 0 <= i < |table| ==> table[i].name != name
  {
    if table == [] then None
    else if table[|table| - 1].name == name then Some(table[|table| - 1])
    else ByName(table[..|table| - 1], name)
  }

  // ----- What the rest relies on

  predicate FourDigitIds(table: seq<Category>) {
    forall i :: 0 <= i < |table| ==> 1000 <= table[i].id < 10000
  }

  predicate Ascending(table: seq<Category>) {
    forall i, j :: 0 <= i < j < |table| ==> table[i].id < table[j].id
  }

  /** A family root is a row, for every row. */
  predicate RootsAreRows(table: seq<Category>) {
    forall i :: 0 <= i < |table| ==> ByName(table, table[i].Parent()).Some?
  }

  predicate GoodTable(table: seq<Category>) {
    FourDigitIds(table) && Ascending(table) && RootsAreRows(table)
  }

  lemma ParentHasNoSlash(c: Category)
    ensures Lacks(c.Parent(), '/')
  {
  }

  lemma OneRowPerId(table: seq<Category>, a: Category, b: Category)
    requires Ascending(table) && a in table && b in table && a.id == b.id
    ensures a == b
  {
  }

  lemma RootRow(table: seq<Category>, c: Category)
    requires RootsAreRows(table) && c in table
    ensures ByName(table, c.Parent()).Some? && ByName(table, c.Parent()).value.IsParent()
  {
    ParentHasNoSlash(c);
  }

  lemma SubParent(root: string, rest: string, id: int)
    requires Lacks(root, '/')
    ensures Category(id, root + ['/'] + rest).Parent() == root
  {
    var name := root + ['/'] + rest;
    IndexOfIs(name, '/', |root|);
  }

  lemma RootParent(c: Category)
    requires c.IsParent()
    ensures c.Parent() == c.name
  {
    IndexOfIs(c.name, '/', |c.name|);
  }

  // ----- The standard table

  /** A family whose ids ascend from its root's, below a bound. */
  predicate GoodFamily(f: Family, below: int) {
    && Lacks(f.root, '/')
    && f.id < below
    && (forall i :: 0 <= i < |f.subs| ==> f.id < f.subs[i].0 < below)
    && forall i, j :: 0 <= i < j < |f.subs| ==> f.subs[i].0 < f.subs[j].0
  }

  predicate Climbs(families: seq<Family>, below: int) {
    families == [] ||
    (var last := families[|families| - 1];
     1000 <= last.id && GoodFamily(last, below) && Climbs(families[..|families| - 1], last.id))
  }

  lemma {:induction false} SubRowAt(root: string, subs: seq<(int, string)>, i: nat)
    requires i < |subs|
    ensures |SubRows(root, subs)| == |subs|
    ensures SubRows(root, subs)[i] == Category(subs[i].0, root + ['/'] + subs[i].1)
  {
    if |subs| > 1 {
      SubRowAt(root, subs[..|subs| - 1], if i < |subs| - 1 then i else 0);
    }
  }

  lemma FamilyRowAt(f: Family, below: int, i: nat)
    requires GoodFamily(f, below) && i <= |f.subs|
    ensures |FamilyRows(f)| == |f.subs| + 1
    ensures FamilyRows(f)[i].id == (if i == 0 then f.id else f.subs[i - 1].0)
    ensures FamilyRows(f)[i].Parent() == f.root
  {
    if f.subs != [] {
      SubRowAt(f.root, f.subs, if i == 0 then 0 else i - 1);
    }
    if i == 0 {
      RootParent(Category(f.id, f.root));
    } else {
      SubParent(f.root, f.subs[i - 1].1, f.subs[i - 1].0);
    }
  }

  /** The ids of a table lie in a range, and its rows' roots are rows. */
  predicate Within(table: seq<Category>, low: int, below: int) {
    forall i :: 0 <= i < |table| ==> low <= table[i].id < below
  }

  predicate HasRow(table: seq<Category>, name: string) {
    exists i :: 0 <= i < |table| && table[i].name == name
  }

  predicate Rooted(table: seq<Category>) {
    forall i :: 0 <= i < |table| ==> HasRow(table, table[i].Parent())
  }

  lemma FamilyIsGood(f: Family, below: int)
    requires GoodFamily(f, below)
    ensures var rows := FamilyRows(f); Ascending(rows) && Within(rows, f.id, below) && Rooted(rows)
  {
    var rows := FamilyRows(f);
    FamilyRowAt(f, below, 0);
    forall i | 0 <= i < |rows|
      ensures f.id <= rows[i].id < below && HasRow(rows, rows[i].Parent())
    {
      FamilyRowAt(f, below, i);
      assert rows[0].name == f.root;
    }
    forall i, j | 0 <= i < j < |rows|
      ensures rows[i].id < rows[j].id
    {
      FamilyRowAt(f, below, i);
      FamilyRowAt(f, below, j);
    }
  }

  lemma HasRowConcat(a: seq<Category>, b: seq<Category>, name: string)
    requires HasRow(a, name) || HasRow(b, name)
    ensures HasRow(a + b, name)
  {
    if HasRow(a, name) {
      var k :| 0 <= k < |a| && a[k].name == name;
      assert (a + b)[k].name == name;
    } else {
      var k :| 0 <= k < |b| && b[k].name == name;
      assert (a + b)[|a| + k].name == name;
    }
  }

  lemma JoinRooted(a: seq<Category>, b: seq<Category>)
    requires Rooted(a) && Rooted(b)
    ensures Rooted(a + b)
  {
    var all := a + b;
    forall i | 0 <= i < |all|
      ensures HasRow(all, all[i].Parent())
    {
      if i < |a| {
        assert all[i] == a[i];
        HasRowConcat(a, b, a[i].Parent());
      } else {
        assert all[i] == b[i - |a|];
        HasRowConcat(a, b, b[i - |a|].Parent());
      }
    }
  }

  lemma JoinTables(a: seq<Category>, b: seq<Category>, mid: int, below: int)
    requires Ascending(a) && Within(a, 1000, mid) && Ascending(b) && Within(b, mid, below) && 1000 <= mid <= below
    ensures Ascending(a + b) && Within(a + b, 1000, below)
  {
  }

  lemma {:induction false} ClimbingRows(families: seq<Family>, below: int)
    requires Climbs(families, below)
    ensures var rows := Rows(families); Ascending(rows) && Within(rows, 1000, below) && Rooted(rows)
  {
    if families != [] {
      var init, last := families[..|families| - 1], families[|families| - 1];
      ClimbingRows(init, last.id);
      FamilyIsGood(last, below);
      JoinTables(Rows(init), FamilyRows(last), last.id, below);
      JoinRooted(Rows(init), FamilyRows(last));
    }
  }

  lemma ClimbingIsGood(families: seq<Family>)
    requires Climbs(families, 10000)
    ensures GoodTable(Rows(families))
  {
    ClimbingRows(families, 10000);
    var table := Rows(families);
    forall i | 0 <= i < |table|
      ensures ByName(table, table[i].Parent()).Some?
    {
      assert HasRow(table, table[i].Parent());
    }
  }

  lemma {:induction false} ClimbingPair(subs: seq<(int, string)>, i: nat, j: nat)
    requires i < j < |subs| && forall k :: 0 <= k < |subs| - 1 ==> subs[k].0 < subs[k + 1].0
    ensures subs[i].0 < subs[j].0
  {
    if i + 1 < j {
      ClimbingPair(subs, i, j - 1);
    }
  }

  /** The same, told by neighbours. */
  predicate StepsUp(f: Family, below: int) {
    && Lacks(f.root, '/') && f.id < below
    && (f.subs == [] || (f.id < f.subs[0].0 && f.subs[|f.subs| - 1].0 < below))
    && forall i :: 0 <= i < |f.subs| - 1 ==> f.subs[i].0 < f.subs[i + 1].0
  }

  lemma StepsUpIsGood(f: Family, below: int)
    requires StepsUp(f, below)
    ensures GoodFamily(f, below)
  {
    forall i, j | 0 <= i < j < |f.subs|
      ensures f.subs[i].0 < f.subs[j].0
    {
      ClimbingPair(f.subs, i, j);
    }
  }

  lemma ClimbsOn(init: seq<Family>, last: Family, below: int)
    requires 1000 <= last.id && GoodFamily(last, below) && Climbs(init, last.id)
    ensures Climbs(init + [last], below)
  {
    assert (init + [last])[..|init|] == init;
  }

  lemma ConsoleIsGood()
    ensures GoodFamily(CONSOLE, 2000) && CONSOLE.id == 1000
  {
    StepsUpIsGood(CONSOLE, 2000);
  }

  lemma MoviesIsGood()
    ensures GoodFamily(MOVIES, 3000) && MOVIES.id == 2000
  {
    StepsUpIsGood(MOVIES, 3000);
  }

  lemma AudioIsGood()
    ensures GoodFamily(AUDIO, 4000) && AUDIO.id == 3000
  {
    StepsUpIsGood(AUDIO, 4000);
  }

  lemma PCIsGood()
    ensures GoodFamily(PC, 5000) && PC.id == 4000
  {
    StepsUpIsGood(PC, 5000);
  }

  lemma TVIsGood()
    ensures GoodFamily(TV, 6000) && TV.id == 5000
  {
    StepsUpIsGood(TV, 6000);
  }

  lemma XxxIsGood()
    ensures GoodFamily(XXX, 7000) && XXX.id == 6000
  {
    StepsUpIsGood(XXX, 7000);
  }

  lemma BooksIsGood()
    ensures GoodFamily(BOOKS, 8000) && BOOKS.id == 7000
  {
    StepsUpIsGood(BOOKS, 8000);
  }

  lemma OtherIsGood()
    ensures GoodFamily(OTHER, 10000) && OTHER.id == 8000
  {
    StepsUpIsGood(OTHER, 10000);
  }

  /** The standard table has four-digit ascending ids, and holds the root of each of its rows. */
  lemma StandardIsGood()
    ensures GoodTable(StandardCategories())
  {
    ConsoleIsGood();
    MoviesIsGood();
    AudioIsGood();
    PCIsGood();
    TVIsGood();
    XxxIsGood();
    BooksIsGood();
    OtherIsGood();
    EightClimb(CONSOLE, MOVIES, AUDIO, PC, TV, XXX, BOOKS, OTHER);
    ClimbingIsGood(FAMILIES);
  }

  lemma EightClimb(a: Family, b: Family, c: Family, d: Family, e: Family, f: Family, g: Family, h: Family)
    requires 1000 <= a.id && GoodFamily(a, b.id) && GoodFamily(b, c.id) && GoodFamily(c, d.id) && GoodFamily(d, e.id)
    requires GoodFamily(e, f.id) && GoodFamily(f, g.id) && GoodFamily(g, h.id) && GoodFamily(h, 10000)
    ensures Climbs([a, b, c, d, e, f, g, h], 10000)
  {
    FamiliesClimb([a, b, c, d, e, f, g, h]);
  }

  lemma FamiliesClimb(f: seq<Family>)
    requires |f| == 8 && (forall k :: 0 <= k < 7 ==> 1000 <= f[k].id && GoodFamily(f[k], f[k + 1].id))
    requires 1000 <= f[7].id && GoodFamily(f[7], 10000)
    ensures Climbs(f, 10000)
  {
    var k := 0;
    while k < 7
      invariant 0 <= k <= 7 && Climbs(f[..k], f[k].id)
    {
      assert f[..k + 1] == f[..k] + [f[k]];
      ClimbsOn(f[..k], f[k], f[k + 1].id);
      k := k + 1;
    }
    ClimbsOn(f[..7], f[7], 10000);
    assert f == f[..7] + [f[7]];
  }

  // ----- Looking up the rows of the last family

  lemma ByNameLast(rows: seq<Category>, c: Category, name: string)
    ensures ByName(rows + [c], name) == if c.name == name then Some(c) else ByName(rows, name)
  {
    assert (rows + [c])[..|rows|] == rows;
  }

  lemma LastThreeFound(rows: seq<Category>, a: Category, b: Category, c: Category, name: string)
    requires a.name != b.name && a.name != c.name && b.name != c.name
    ensures name == a.name ==> ByName(rows + [a] + [b] + [c], name) == Some(a)
    ensures name == b.name ==> ByName(rows + [a] + [b] + [c], name) == Some(b)
    ensures name == c.name ==> ByName(rows + [a] + [b] + [c], name) == Some(c)
  {
    ByNameLast(rows + [a] + [b], c, name);
    ByNameLast(rows + [a], b, name);
    ByNameLast(rows, a, name);
  }

  lemma LastFamilyRows(init: seq<Family>, id: int, root: string, x: (int, string), y: (int, string))
    ensures Rows(init + [Family(id, root, [x, y])])
         == Rows(init) + [Category(id, root)] + [Category(x.0, root + ['/'] + x.1)]
          + [Category(y.0, root + ['/'] + y.1)]
  {
    assert (init + [Family(id, root, [x, y])])[..|init|] == init;
    assert [x, y][..1] == [x] && [x][..0] == [];
    assert SubRows(root, []) == [];
    assert SubRows(root, [x]) == [Category(x.0, root + ['/'] + x.1)];
  }

  lemma OtherNames()
    ensures "Other" + ['/'] + "Misc" == "Other/Misc" && "Other" + ['/'] + "Hashed" == "Other/Hashed"
    ensures "Other" != "Other/Misc" && "Other" != "Other/Hashed" && "Other/Misc" != "Other/Hashed"
  {
    assert |"Other"| == 5 && |"Other/Misc"| == 10 && |"Other/Hashed"| == 12;
  }

  lemma OtherIsFound()
    ensures ByName(StandardCategories(), "Other") == Some(Category(8000, "Other"))
    ensures ByName(StandardCategories(), "Other/Misc") == Some(Category(8010, "Other/Misc"))
    ensures ByName(StandardCategories(), "Other/Hashed") == Some(Category(8020, "Other/Hashed"))
  {
    var init := [CONSOLE, MOVIES, AUDIO, PC, TV, XXX, BOOKS];
    assert FAMILIES == init + [OTHER];
    LastFamilyRows(init, 8000, "Other", (8010, "Misc"), (8020, "Hashed"));
    OtherNames();
    var a, b, c := Category(8000, "Other"), Category(8010, "Other/Misc"), Category(8020, "Other/Hashed");
    LastThreeFound(Rows(init), a, b, c, a.name);
    LastThreeFound(Rows(init), a, b, c, b.name);
    LastThreeFound(Rows(init), a, b, c, c.name);
  }
}
