/** JSON pseudo-selectors. */
module JsonSelector {
  // A selector is a path followed by `:op(key)` conditions, whose keys may be selectors again.

  import opened Wrappers
  import opened Lists
  import opened Text
  import opened JsonPath

  datatype Filter = Filter(op: string, key: string)

  datatype Selector = Selector(path: string, filters: seq<Filter>)

  // ----- Parsing

  /** A ')' that ends a key: followed by the next condition or by nothing. */
  predicate Closes(s: string, i: nat)
    requires i < |s|
  {
    s[i] == ')' && (i + 1 == |s| || s[i + 1] == ':')
  }

  /** The first closing parenthesis from an index on, or the length when there is none. */
  function ClosingFrom(s: string, from: nat): (i: nat)
    requires from <= |s|
    ensures from <= i <= |s|
    ensures forall k :: from <= k < i ==> !Closes(s, k)
    ensures i < |s| ==> Closes(s, i)
    decreases |s| - from
  {
    if from == |s| || Closes(s, from) then from else ClosingFrom(s, from + 1)
  }

  method ClosingParen(s: string, from: nat) returns (r: Option<nat>)
    requires from <= |s|
    ensures r == if ClosingFrom(s, from) < |s| then Some(ClosingFrom(s, from)) else None
  {
    var i := from;
    while i < |s|
      invariant from <= i <= |s|
      invariant ClosingFrom(s, from) == ClosingFrom(s, i)
    {
      if s[i] == ')' && (i + 1 == |s| || s[i + 1] == ':') {
        return Some(i);
      }
      i := i + 1;
    }
    r := None;
  }

  /** The condition a text starts with, and its length; none when it starts with no well-formed one. */
  function FirstFilter(s: string): (r: Option<(Filter, nat)>)
    ensures r.Some? ==> |r.value.0.key| < r.value.1 <= |s|
  {
    if s == "" || s[0] != ':' then None else
    var open := IndexOf(s, '(');
    if open == |s| then None else
    var end := ClosingFrom(s, open + 1);
    if end == |s| then None else Some((Filter(s[1..open], s[open + 1..end]), end + 1))
  }

  /** The conditions a text starts with; the first malformed one ends them. */
  function Filters(s: string): seq<Filter>
    decreases |s|
  {
    match FirstFilter(s)
    case None => []
    case Some((f, n)) => [f] + Filters(s[n..])
  }

  function Parsed(sel: string): Selector {
    var colon := IndexOf(sel, ':');
    Selector(sel[..colon], Filters(sel[colon..]))
  }

  method ReadFilter(s: string) returns (r: Option<(Filter, nat)>)
    requires |s| > 0 && s[0] == ':'
    ensures r == FirstFilter(s)
  {
    var open := IndexOf(s, '(');
    if open == |s| {
      return None;
    }
    var end := ClosingParen(s, open + 1);
    if end.None? {
      return None;
    }
    r := Some((Filter(s[1..open], s[open + 1..end.value]), end.value + 1));
  }

  method ParseJsonSelector(sel: string) returns (path: string, filters: seq<Filter>)
    ensures Selector(path, filters) == Parsed(sel)
  {
    var colon := IndexOf(sel, ':');
    path := sel[..colon];
    if colon == |sel| {
      return path, [];
    }
    filters := ReadFilters(sel[colon..]);
  }

  method ReadFilters(s: string) returns (filters: seq<Filter>)
    ensures filters == Filters(s)
  {
    filters := [];
    var rest := s;
    while |rest| > 0 && rest[0] == ':'
      invariant Filters(s) == filters + Filters(rest)
      decreases |rest|
    {
      var next := ReadFilter(rest);
      if next.None? {
        break;
      }
      var (f, n) := next.value;
      TakeFilter(filters, rest);
      filters := filters + [f];
      rest := rest[n..];
    }
    assert Filters(rest) == [];
  }

  lemma TakeFilter(done: seq<Filter>, s: string)
    requires FirstFilter(s).Some?
    ensures var (f, n) := FirstFilter(s).value; done + Filters(s) == done + [f] + Filters(s[n..])
  {
  }

  /** Nested keys are strictly shorter than the selector they come from. */
  lemma {:induction false} FilterKeysAreShorter(s: string)
    ensures forall i :: 0 <= i < |Filters(s)| ==> |Filters(s)[i].key| < |s|
    decreases |s|
  {
    if FirstFilter(s).Some? {
      FilterKeysAreShorter(s[FirstFilter(s).value.1..]);
    }
  }

  // ----- Printing

  function PrintedFilter(f: Filter): string {
    ":" + f.op + "(" + f.key + ")"
  }

  function Printed(filters: seq<Filter>): string {
    if filters == [] then "" else PrintedFilter(filters[0]) + Printed(filters[1..])
  }

  /** Conditions that survive printing: the operator opens no parenthesis and the key closes none early. */
  predicate Clean(f: Filter) {
    Lacks(f.op, '(') && forall i :: 0 <= i < |f.key| - 1 ==> !(f.key[i] == ')' && f.key[i + 1] == ':')
  }

  predicate AllClean(filters: seq<Filter>) {
    forall i :: 0 <= i < |filters| ==> Clean(filters[i])
  }

  /** The printed parse is a prefix of the selector: nothing is invented or moved. */
  lemma PrintedParseIsPrefix(sel: string)
    ensures Parsed(sel).path + Printed(Parsed(sel).filters) <= sel
  {
    var colon := IndexOf(sel, ':');
    PrintedFiltersArePrefix(sel[colon..]);
    assert sel == sel[..colon] + sel[colon..];
  }

  /** A condition read is the condition printed there. */
  lemma FirstFilterIsPrinted(s: string)
    requires FirstFilter(s).Some?
    ensures var (f, n) := FirstFilter(s).value; s[..n] == PrintedFilter(f)
  {
  }

  lemma {:induction false} PrintedFiltersArePrefix(s: string)
    ensures Printed(Filters(s)) <= s
    decreases |s|
  {
    if FirstFilter(s).Some? {
      var (f, n) := FirstFilter(s).value;
      PrintedFiltersArePrefix(s[n..]);
      FirstFilterIsPrinted(s);
      PrintedCons(f, Filters(s[n..]));
      PrefixOfTail(s, n, Printed(Filters(s[n..])));
    }
  }

  lemma PrefixOfTail(s: string, n: nat, t: string)
    requires n <= |s| && t <= s[n..]
    ensures s[..n] + t <= s
  {
  }

  lemma PrintedCons(f: Filter, filters: seq<Filter>)
    ensures Printed([f] + filters) == PrintedFilter(f) + Printed(filters)
  {
    assert ([f] + filters)[1..] == filters;
  }

  /** A clean condition in front of more conditions, or of nothing, is read back. */
  lemma CleanFilterIsFirst(f: Filter, rest: string, s: string)
    requires Clean(f) && (rest == "" || rest[0] == ':') && s == PrintedFilter(f) + rest
    ensures FirstFilter(s) == Some((f, |PrintedFilter(f)|)) && s[|PrintedFilter(f)|..] == rest
  {
    PrintedSlices(f, rest);
    OpensAfterOp(f, rest);
    ClosesAfterKey(f, rest);
  }

  lemma PrintedSlices(f: Filter, rest: string)
    ensures var s := PrintedFilter(f) + rest;
      && s[0] == ':' && |s| == 3 + |f.op| + |f.key| + |rest|
      && s[1..1 + |f.op|] == f.op
      && s[2 + |f.op|..2 + |f.op| + |f.key|] == f.key
      && s[3 + |f.op| + |f.key|..] == rest
  {
  }

  lemma OpensAfterOp(f: Filter, rest: string)
    requires Lacks(f.op, '(')
    ensures IndexOf(PrintedFilter(f) + rest, '(') == 1 + |f.op|
  {
    var s := PrintedFilter(f) + rest;
    assert s[..1 + |f.op|] == ":" + f.op;
    IndexOfIs(s, '(', 1 + |f.op|);
  }

  lemma ClosesAfterKey(f: Filter, rest: string)
    requires Clean(f) && (rest == "" || rest[0] == ':')
    ensures ClosingFrom(PrintedFilter(f) + rest, 2 + |f.op|) == 2 + |f.op| + |f.key|
  {
    var s := PrintedFilter(f) + rest;
    var from, end := 2 + |f.op|, 2 + |f.op| + |f.key|;
    assert s[end] == ')' && s[end + 1..] == rest;
    assert forall i :: 0 <= i < |f.key| ==> s[from + i] == f.key[i];
    forall k | from <= k < end ensures !Closes(s, k) {
      assert s[k] == f.key[k - from];
      assert k + 1 < end ==> s[k + 1] == f.key[k + 1 - from];
    }
    assert Closes(s, end);
  }

  lemma {:induction false} CleanFiltersParse(filters: seq<Filter>)
    requires AllClean(filters)
    ensures Filters(Printed(filters)) == filters
  {
    if filters != [] {
      CleanFiltersParse(filters[1..]);
      PrintedStart(filters[1..]);
      CleanFilterIsFirst(filters[0], Printed(filters[1..]), Printed(filters));
    }
  }

  lemma PrintedStart(filters: seq<Filter>)
    ensures Printed(filters) == "" <==> filters == []
    ensures filters != [] ==> Printed(filters)[0] == ':'
  {
  }

  /** A condition that is read from somewhere is clean. */
  lemma FirstFilterIsClean(s: string)
    requires FirstFilter(s).Some?
    ensures Clean(FirstFilter(s).value.0)
  {
    var open := IndexOf(s, '(');
    var f := FirstFilter(s).value.0;
    forall i | 0 <= i < |f.key| - 1 ensures !(f.key[i] == ')' && f.key[i + 1] == ':') {
      assert f.key[i] == s[open + 1 + i] && f.key[i + 1] == s[open + 2 + i];
      assert !Closes(s, open + 1 + i);
    }
  }

  /** Only clean conditions are read back as they are. */
  lemma {:induction false} ParsedIsClean(s: string)
    ensures AllClean(Filters(s))
    decreases |s|
  {
    if FirstFilter(s).Some? {
      FirstFilterIsClean(s);
      ParsedIsClean(s[FirstFilter(s).value.1..]);
    }
  }

  /** Printing and parsing round-trip exactly for a path without ':' and clean conditions. */
  lemma RoundTripIff(sel: Selector)
    ensures Parsed(sel.path + Printed(sel.filters)) == sel <==> Lacks(sel.path, ':') && AllClean(sel.filters)
  {
    var s := sel.path + Printed(sel.filters);
    PrintedStart(sel.filters);
    if Lacks(sel.path, ':') {
      assert s[..|sel.path|] == sel.path;
      IndexOfIs(s, ':', |sel.path|);
      assert s[|sel.path|..] == Printed(sel.filters);
      if AllClean(sel.filters) {
        CleanFiltersParse(sel.filters);
      }
      ParsedIsClean(Printed(sel.filters));
    }
  }

  // ----- Evaluation

  /** A JSON value as a template sees it: arrays join their elements with commas. */
  function Canonical(v: Json): string
    decreases v, 0
  {
    match v
    case Null => ""
    case Bool(b) => if b then "True" else "False"
    case Number(text) => text
    case Str(s) => s
    case Arr(items) => Joined(items)
    case Obj(_) => ""
  }

  function Joined(items: seq<Json>): string
    decreases items, 0
  {
    if items == [] then ""
    else if |items| == 1 then Canonical(items[0])
    else Canonical(items[0]) + "," + Joined(items[1..])
  }

  predicate Contains(s: string, sub: string) {
    sub <= s || (s != "" && Contains(s[1..], sub))
  }

  predicate HasFilters(sel: string) {
    Parsed(sel).filters != []
  }

  /** Whether a value passes every condition. */
  predicate Accepts(v: Json, filters: seq<Filter>, bound: nat)
    requires forall i :: 0 <= i < |filters| ==> |filters[i].key| < bound
    decreases bound, 0, |filters|
  {
    filters == [] || (ApplyFilter(v, filters[0]) && Accepts(v, filters[1..], bound))
  }

  /** The path of a selector that matches a value; none when the path is absent or a condition fails. */
  function FieldSelector(node: Json, sel: string): Option<string>
    decreases |sel|, 1
  {
    var p := Parsed(sel);
    FilterKeysAreShorter(sel[IndexOf(sel, ':')..]);
    var parent := if p.path == "" then Some(node) else Resolved(node, p.path);
    if parent.Some? && Accepts(parent.value, p.filters, |sel|) then Some(p.path) else None
  }

  /** One condition; an unknown operator never fails. */
  predicate ApplyFilter(parent: Json, f: Filter)
    decreases |f.key|, 3
  {
    if f.op == "has" then KeyPresent(parent, f.key)
    else if f.op == "not" then !KeyPresent(parent, f.key)
    else if f.op == "contains" then Contains(Canonical(parent), f.key)
    else true
  }

  predicate KeyPresent(parent: Json, key: string)
    decreases |key|, 2
  {
    if HasFilters(key) then FieldSelector(parent, key).Some? else Resolved(parent, key).Some?
  }

  /** Passing a list of conditions is passing each of them. */
  lemma {:induction false} AcceptsIsAll(v: Json, filters: seq<Filter>, bound: nat)
    requires forall i :: 0 <= i < |filters| ==> |filters[i].key| < bound
    ensures Accepts(v, filters, bound) <==> PassesAll(v, filters)
  {
    if filters != [] {
      AcceptsIsAll(v, filters[1..], bound);
      assert forall i :: 1 <= i < |filters| ==> filters[i] == filters[1..][i - 1];
      assert forall i :: 0 <= i < |filters| - 1 ==> filters[1..][i] == filters[i + 1];
    }
  }

  predicate PassesAll(v: Json, filters: seq<Filter>) {
    forall i :: 0 <= i < |filters| ==> ApplyFilter(v, filters[i])
  }

  /**
   A printed selector matches exactly when its path resolves and every condition holds there, however
   deeply keys nest.
   */
  lemma PrintedSelectorMeans(node: Json, sel: Selector)
    requires Lacks(sel.path, ':') && AllClean(sel.filters)
    ensures FieldSelector(node, sel.path + Printed(sel.filters))
         == match (if sel.path == "" then Some(node) else Resolved(node, sel.path))
            case None => None
            case Some(parent) => if PassesAll(parent, sel.filters) then Some(sel.path) else None
  {
    RoundTripIff(sel);
    FieldSelectorOf(node, sel.path + Printed(sel.filters), sel);
  }

  lemma FieldSelectorOf(node: Json, s: string, sel: Selector)
    requires Parsed(s) == sel
    ensures FieldSelector(node, s)
         == match (if sel.path == "" then Some(node) else Resolved(node, sel.path))
            case None => None
            case Some(parent) => if PassesAll(parent, sel.filters) then Some(sel.path) else None
  {
    FilterKeysAreShorter(s[IndexOf(s, ':')..]);
    var parent := if sel.path == "" then Some(node) else Resolved(node, sel.path);
    if parent.Some? {
      AcceptsIsAll(parent.value, sel.filters, |s|);
    }
  }

  /** A key that is itself a selector is evaluated below the value, condition by condition. */
  lemma NestedKeyMeans(parent: Json, sel: Selector)
    requires Lacks(sel.path, ':') && AllClean(sel.filters) && sel.filters != []
    ensures KeyPresent(parent, sel.path + Printed(sel.filters))
       <==> var at := if sel.path == "" then Some(parent) else Resolved(parent, sel.path);
            at.Some? && PassesAll(at.value, sel.filters)
  {
    RoundTripIff(sel);
    PrintedSelectorMeans(parent, sel);
  }

  // ----- Rows

  function RowsPath(selector: string): string {
    var s := TrimSpace(selector);
    TrimDots(TrimDollar(s[..IndexOf(s, ':')]))
  }

  function RowsFilters(selector: string): string {
    var s := TrimSpace(selector);
    s[IndexOf(s, ':')..]
  }

  function Matching(rows: seq<Json>, remainder: string): seq<Json> {
    Kept(rows, v => FieldSelector(v, remainder).Some?)
  }

  /** The rows a selector stands for; none when its path is absent or not an array. */
  function Rows(root: Json, selector: string): Option<seq<Json>> {
    var path := RowsPath(selector);
    var target := if path == "" then Some(root) else Resolved(root, path);
    if target.None? || !target.value.Arr? then None else
    var remainder := RowsFilters(selector);
    if remainder == "" then Some(target.value.items) else Some(Matching(target.value.items, remainder))
  }

  method ResolveRowsArray(root: Json, selector: string) returns (r: Option<seq<Json>>)
    ensures r == Rows(root, selector)
  {
    var target := root;
    var path := RowsPath(selector);
    if path != "" {
      var v := ResolvePath(root, path);
      if v.None? {
        return None;
      }
      target := v.value;
    }
    if !target.Arr? {
      return None;
    }
    var arr := target.items;
    var remainder := RowsFilters(selector);
    if remainder == "" {
      return Some(arr);
    }
    var filtered := KeepMatching(arr, remainder);
    r := Some(filtered);
  }

  method KeepMatching(arr: seq<Json>, remainder: string) returns (filtered: seq<Json>)
    ensures filtered == Matching(arr, remainder)
  {
    filtered := [];
    for i := 0 to |arr|
      invariant filtered == Matching(arr[..i], remainder)
    {
      MatchingMore(arr, i, remainder);
      var matched := FieldSelector(arr[i], remainder);
      if matched.Some? {
        filtered := filtered + [arr[i]];
      }
    }
    assert arr[..|arr|] == arr;
  }

  lemma MatchingMore(arr: seq<Json>, i: nat, remainder: string)
    requires i < |arr|
    ensures Matching(arr[..i + 1], remainder)
         == Matching(arr[..i], remainder) + (if FieldSelector(arr[i], remainder).Some? then [arr[i]] else [])
  {
    assert arr[..i + 1] == arr[..i] + [arr[i]];
    KeptLast(arr[..i], arr[i], v => FieldSelector(v, remainder).Some?);
  }

  /** The values that pass every condition, in order. */
  function Passing(rows: seq<Json>, filters: seq<Filter>): seq<Json> {
    Kept(rows, v => PassesAll(v, filters))
  }

  lemma MatchingIsPassing(rows: seq<Json>, filters: seq<Filter>)
    requires AllClean(filters)
    ensures Matching(rows, Printed(filters)) == Passing(rows, filters)
  {
    forall v ensures FieldSelector(v, Printed(filters)).Some? == PassesAll(v, filters) {
      PrintedSelectorMeans(v, Selector("", filters));
      assert "" + Printed(filters) == Printed(filters);
    }
    KeptAlike(rows, v => FieldSelector(v, Printed(filters)).Some?, v => PassesAll(v, filters));
  }

  lemma PassesBoth(v: Json, first: seq<Filter>, second: seq<Filter>)
    ensures PassesAll(v, first + second) == (PassesAll(v, first) && PassesAll(v, second))
  {
    var both := first + second;
    assert forall i :: 0 <= i < |first| ==> both[i] == first[i];
    assert forall i :: 0 <= i < |second| ==> both[|first| + i] == second[i];
  }

  lemma PassingTwice(rows: seq<Json>, first: seq<Filter>, second: seq<Filter>)
    ensures Passing(rows, first + second) == Passing(Passing(rows, first), second)
  {
    forall v ensures PassesAll(v, first + second) == (PassesAll(v, first) && PassesAll(v, second)) {
      PassesBoth(v, first, second);
    }
    KeptTwice(rows, v => PassesAll(v, first), v => PassesAll(v, second), v => PassesAll(v, first + second));
  }

  lemma PassingNothing(rows: seq<Json>)
    ensures Passing(rows, []) == rows
  {
    KeptAll(rows, v => PassesAll(v, []));
  }

  /** A rows selector splits into its path and its printed conditions. */
  lemma RowsParts(p: string, filters: seq<Filter>)
    requires Lacks(p, ':') && filters != []
    ensures RowsPath(p + Printed(filters)) == TrimDots(TrimDollar(TrimLeft(p)))
    ensures RowsFilters(p + Printed(filters)) == Printed(filters)
  {
    TrimKeepsOut(p, ':');
    TrimRowsSelector(p, filters);
    PrintedStart(filters);
    CutAtColon(TrimLeft(p), Printed(filters));
  }

  lemma BareParts(p: string)
    requires Lacks(p, ':')
    ensures RowsPath(p) == TrimDots(TrimDollar(TrimSpace(p))) && RowsFilters(p) == ""
  {
    TrimKeepsOut(p, ':');
    TrimRightCuts(TrimLeft(p));
    var s := TrimSpace(p);
    assert forall k :: 0 <= k < |s| ==> s[k] == TrimLeft(p)[k];
    IndexOfIs(s, ':', |s|);
    assert s[..|s|] == s;
  }

  lemma CutAtColon(left: string, right: string)
    requires Lacks(left, ':') && (right == "" || right[0] == ':')
    ensures IndexOf(left + right, ':') == |left|
    ensures (left + right)[..|left|] == left && (left + right)[|left|..] == right
  {
    IndexOfIs(left + right, ':', |left|);
  }

  lemma TrimRowsSelector(p: string, filters: seq<Filter>)
    requires filters != []
    ensures TrimSpace(p + Printed(filters)) == TrimLeft(p) + Printed(filters)
  {
    var tail := Printed(filters);
    PrintedStart(filters);
    PrintedEnd(filters);
    TrimLeftStops(p, tail);
    TrimRightNothing(TrimLeft(p) + tail);
  }

  lemma TrimRightNothing(s: string)
    requires NoTrailingSpace(s)
    ensures TrimRight(s) == s
  {
  }

  lemma {:induction false} PrintedEnd(filters: seq<Filter>)
    requires filters != []
    ensures Printed(filters) != "" && Printed(filters)[|Printed(filters)| - 1] == ')'
  {
    if |filters| > 1 {
      PrintedEnd(filters[1..]);
    }
  }

  /** The rows for `p` with two lists of conditions are the rows with the first, filtered in order by the second. */
  lemma RowsFilterInTurn(root: Json, p: string, first: seq<Filter>, second: seq<Filter>)
    requires Lacks(p, ':') && AllClean(first) && AllClean(second)
    ensures Rows(root, p + Printed(first + second))
         == match Rows(root, p + Printed(first))
            case None => None
            case Some(rows) => Some(Passing(rows, second))
  {
    RowsArePassing(root, p, first);
    RowsArePassing(root, p, first + second);
    var rows := BareRows(root, p);
    if rows.Some? {
      PassingTwice(rows.value, first, second);
    }
  }

  /** The array a path stands for by itself. */
  function BareRows(root: Json, p: string): Option<seq<Json>> {
    var target := Resolved(root, TrimDots(TrimDollar(TrimSpace(p))));
    if target.Some? && target.value.Arr? then Some(target.value.items) else None
  }

  lemma EmptyPath(root: Json)
    ensures Resolved(root, "") == Some(root)
  {
    assert Split("", '.') == [""];
    assert SegmentTokens("") == [];
    assert [""][1..] == [];
    assert SegmentsTokens([]) == [];
    assert SegmentsTokens([""]) == [];
  }

  lemma {:induction false} TrimDotsSpaces(s: string, ws: string)
    requires AllSpace(ws)
    ensures TrimDots(s + ws) == TrimDots(s) + ws
  {
    if s == [] {
      assert s + ws == ws;
    } else {
      assert (s + ws)[1..] == s[1..] + ws;
      if s[0] == '.' {
        TrimDotsSpaces(s[1..], ws);
      }
    }
  }

  lemma TrimDollarSpaces(s: string, ws: string)
    requires AllSpace(ws) && (s == [] ==> ws == [])
    ensures TrimDollar(s + ws) == TrimDollar(s) + ws
  {
    if s == [] {
      assert s + ws == s;
    } else if s[0] == '$' {
      assert (s + ws)[1..] == s[1..] + ws;
    }
  }

  lemma NothingButSpace(s: string)
    requires AllSpace(s) && NoLeadingSpace(s)
    ensures s == []
  {
  }

  /** White space that a path is left with before its conditions makes no difference to where it leads. */
  lemma SpacesLeadNowhere(root: Json, p: string)
    ensures Resolved(root, TrimDots(TrimDollar(TrimLeft(p)))) == Resolved(root, TrimDots(TrimDollar(TrimSpace(p))))
  {
    var left, core := TrimLeft(p), TrimSpace(p);
    TrimRightCuts(left);
    var ws := left[|core|..];
    assert left == core + ws;
    TrimLeftStartsClean(p);
    if core == [] {
      assert ws == left;
      NothingButSpace(ws);
    }
    TrimDollarSpaces(core, ws);
    TrimDotsSpaces(TrimDollar(core), ws);
    TrimSpaces(TrimDots(TrimDollar(core)), ws);
  }

  lemma {:induction false} TrimLeftStartsClean(p: string)
    ensures NoLeadingSpace(TrimLeft(p))
  {
    if p != [] && IsSpace(p[0]) {
      TrimLeftStartsClean(p[1..]);
    }
  }

  /** The rows for a path and conditions are the rows of the path that pass them all, in order. */
  lemma RowsArePassing(root: Json, p: string, filters: seq<Filter>)
    requires Lacks(p, ':') && AllClean(filters)
    ensures Rows(root, p + Printed(filters))
         == match BareRows(root, p)
            case None => None
            case Some(rows) => Some(Passing(rows, filters))
  {
    if filters == [] {
      assert p + Printed(filters) == p;
      BareRowsAreRows(root, p);
    } else {
      FilteredRows(root, p, filters);
    }
  }

  lemma BareRowsAreRows(root: Json, p: string)
    requires Lacks(p, ':')
    ensures Rows(root, p) == match BareRows(root, p) case None => None case Some(rows) => Some(Passing(rows, []))
  {
    var rows := BareRows(root, p);
    EmptyPath(root);
    BareParts(p);
    if rows.Some? {
      PassingNothing(rows.value);
    }
  }

  lemma FilteredRows(root: Json, p: string, filters: seq<Filter>)
    requires Lacks(p, ':') && AllClean(filters) && filters != []
    ensures Rows(root, p + Printed(filters))
         == match BareRows(root, p)
            case None => None
            case Some(rows) => Some(Passing(rows, filters))
  {
    var rows := BareRows(root, p);
    EmptyPath(root);
    RowsParts(p, filters);
    SpacesLeadNowhere(root, p);
    PrintedEnd(filters);
    if rows.Some? {
      MatchingIsPassing(rows.value, filters);
    }
  }

  // ----- What each operation means

  /** A text stands in another at an index. */
  predicate StandsAt(s: string, t: string, i: int) {
    0 <= i <= |s| - |t| && s[i..i + |t|] == t
  }

  predicate Occurs(s: string, t: string) {
    exists i :: 0 <= i <= |s| - |t| && StandsAt(s, t, i)
  }

  lemma StandsLater(s: string, t: string, i: int)
    requires s != "" && i > 0
    ensures StandsAt(s, t, i) <==> StandsAt(s[1..], t, i - 1)
  {
    if 0 <= i <= |s| - |t| {
      assert s[1..][i - 1..i - 1 + |t|] == s[i..i + |t|];
    }
  }

  lemma StandsFirst(s: string, t: string)
    ensures StandsAt(s, t, 0) <==> t <= s
  {
  }

  lemma {:induction false} ContainsIff(s: string, t: string)
    ensures Contains(s, t) <==> Occurs(s, t)
  {
    StandsFirst(s, t);
    if s != "" {
      ContainsIff(s[1..], t);
      if Occurs(s[1..], t) {
        var i :| 0 <= i <= |s[1..]| - |t| && StandsAt(s[1..], t, i);
        StandsLater(s, t, i + 1);
      }
      if Occurs(s, t) && !StandsAt(s, t, 0) {
        var i :| 0 <= i <= |s| - |t| && StandsAt(s, t, i);
        StandsLater(s, t, i);
      }
    }
  }

  /** A key without conditions of its own. */
  predicate PlainKey(k: string) {
    Lacks(k, ':')
  }

  lemma PlainKeyPresent(v: Json, k: string)
    requires PlainKey(k)
    ensures KeyPresent(v, k) <==> Resolved(v, k).Some?
  {
    IndexOfIs(k, ':', |k|);
    assert k[|k|..] == "";
  }

  /** The rows a single condition leaves. */
  lemma RowsOfOne(root: Json, p: string, f: Filter, keep: Json -> bool)
    requires Lacks(p, ':') && Clean(f) && forall v :: keep(v) == ApplyFilter(v, f)
    ensures Rows(root, p + PrintedFilter(f))
         == match BareRows(root, p)
            case None => None
            case Some(rows) => Some(Kept(rows, keep))
  {
    RowsArePassing(root, p, [f]);
    PrintedOne(f);
    if BareRows(root, p).Some? {
      KeptAlike(BareRows(root, p).value, v => PassesAll(v, [f]), keep);
    }
  }

  lemma PrintedOne(f: Filter)
    ensures Printed([f]) == PrintedFilter(f)
  {
    assert [f][1..] == [];
    assert Printed([]) == "";
  }

  /** `has` keeps, in order, exactly the rows in which the key leads somewhere. */
  lemma HasKeeps(root: Json, p: string, k: string)
    requires Lacks(p, ':') && PlainKey(k)
    ensures Rows(root, p + (":has(" + k + ")"))
         == match BareRows(root, p)
            case None => None
            case Some(rows) => Some(Kept(rows, v => Resolved(v, k).Some?))
  {
    var f := Filter("has", k);
    assert PrintedFilter(f) == ":has(" + k + ")";
    forall v
      ensures Resolved(v, k).Some? == ApplyFilter(v, f)
    {
      PlainKeyPresent(v, k);
    }
    RowsOfOne(root, p, f, v => Resolved(v, k).Some?);
  }

  /** `not` keeps exactly the others. */
  lemma NotKeeps(root: Json, p: string, k: string)
    requires Lacks(p, ':') && PlainKey(k)
    ensures Rows(root, p + (":not(" + k + ")"))
         == match BareRows(root, p)
            case None => None
            case Some(rows) => Some(Kept(rows, v => Resolved(v, k).None?))
  {
    var f := Filter("not", k);
    assert PrintedFilter(f) == ":not(" + k + ")";
    NotHas();
    forall v
      ensures Resolved(v, k).None? == ApplyFilter(v, f)
    {
      PlainKeyPresent(v, k);
    }
    RowsOfOne(root, p, f, v => Resolved(v, k).None?);
  }

  lemma NotHas()
    ensures "not" != "has" && "contains" != "has" && "contains" != "not"
  {
    assert "not"[0] != "has"[0] && |"contains"| == 8;
  }

  /** `contains` keeps exactly the rows whose text holds the key's text somewhere. */
  lemma ContainsKeeps(root: Json, p: string, t: string)
    requires Lacks(p, ':') && Clean(Filter("contains", t))
    ensures Rows(root, p + (":contains(" + t + ")"))
         == match BareRows(root, p)
            case None => None
            case Some(rows) => Some(Kept(rows, v => Occurs(Canonical(v), t)))
  {
    var f := Filter("contains", t);
    assert PrintedFilter(f) == ":contains(" + t + ")";
    NotHas();
    forall v
      ensures Occurs(Canonical(v), t) == ApplyFilter(v, f)
    {
      ContainsIff(Canonical(v), t);
    }
    RowsOfOne(root, p, f, v => Occurs(Canonical(v), t));
  }

  /** Any other operation keeps all rows. */
  lemma UnknownKeeps(root: Json, p: string, f: Filter)
    requires Lacks(p, ':') && Clean(f) && f.op != "has" && f.op != "not" && f.op != "contains"
    ensures Rows(root, p + PrintedFilter(f)) == BareRows(root, p)
  {
    RowsOfOne(root, p, f, v => true);
    if BareRows(root, p).Some? {
      KeptAll(BareRows(root, p).value, v => true);
    }
  }

  /** The value a nested selector's path leads to passes its conditions. */
  predicate LeadsToPassing(v: Json, sel: Selector) {
    var at := if sel.path == "" then Some(v) else Resolved(v, sel.path);
    at.Some? && PassesAll(at.value, sel.filters)
  }

  /** With a selector for a key, `has` and `not` go by the value its path leads to and its conditions there. */
  lemma NestedKeeps(root: Json, p: string, sel: Selector)
    requires Lacks(p, ':') && Lacks(sel.path, ':') && AllClean(sel.filters) && sel.filters != []
    requires Clean(Filter("has", sel.path + Printed(sel.filters)))
    ensures var key := sel.path + Printed(sel.filters); var rows := BareRows(root, p);
      && Rows(root, p + (":has(" + key + ")"))
         == (if rows.None? then None else Some(Kept(rows.value, v => LeadsToPassing(v, sel))))
      && Rows(root, p + (":not(" + key + ")"))
         == (if rows.None? then None else Some(Kept(rows.value, v => !LeadsToPassing(v, sel))))
  {
    var key := sel.path + Printed(sel.filters);
    var f, g := Filter("has", key), Filter("not", key);
    assert PrintedFilter(f) == ":has(" + key + ")" && PrintedFilter(g) == ":not(" + key + ")";
    NotHas();
    forall v
      ensures LeadsToPassing(v, sel) == ApplyFilter(v, f) && !LeadsToPassing(v, sel) == ApplyFilter(v, g)
    {
      NestedKeyMeans(v, sel);
    }
    RowsOfOne(root, p, f, v => LeadsToPassing(v, sel));
    RowsOfOne(root, p, g, v => !LeadsToPassing(v, sel));
  }

  /** The text of a scalar, and of items joined by commas. */
  lemma CanonicalIs(s: string, b: bool, x: seq<Json>, y: seq<Json>)
    ensures Canonical(Str(s)) == s && Canonical(Number(s)) == s && Canonical(Null) == ""
    ensures Canonical(Bool(b)) == if b then "True" else "False"
    ensures x != [] && y != [] ==> Canonical(Arr(x + y)) == Canonical(Arr(x)) + "," + Canonical(Arr(y))
  {
    if x != [] && y != [] {
      JoinedConcat(x, y);
    }
  }

  lemma {:induction false} JoinedConcat(x: seq<Json>, y: seq<Json>)
    requires x != [] && y != []
    ensures Joined(x + y) == Joined(x) + "," + Joined(y)
  {
    assert (x + y)[1..] == x[1..] + y;
    if |x| == 1 {
      assert x[1..] + y == y;
    } else {
      JoinedConcat(x[1..], y);
      assert Canonical(x[0]) + "," + (Joined(x[1..]) + "," + Joined(y))
          == Canonical(x[0]) + "," + Joined(x[1..]) + "," + Joined(y);
    }
  }

  /** The rows of a bare path are the items of the array it leads to. */
  lemma BareRowsAre(root: Json, p: string)
    requires NoLeadingSpace(p) && NoTrailingSpace(p)
    requires var q := TrimDots(TrimDollar(p)); NoLeadingSpace(q) && (q == "" || q[0] != '$')
    ensures BareRows(root, p) == match Resolved(root, p)
                                 case Some(v) => if v.Arr? then Some(v.items) else None
                                 case None => None
  {
    assert TrimLeft(p) == p && TrimRight(p) == p;
    var q := TrimDots(TrimDollar(p));
    TrimDotsEnd(TrimDollar(p));
    TrimmedPath(q);
    DotsAddNothing(q);
  }

  lemma TrimmedPath(q: string)
    requires NoLeadingSpace(q) && NoTrailingSpace(q) && (q == "" || q[0] != '$')
    ensures TrimDollar(TrimSpace(q)) == q
  {
    assert TrimLeft(q) == q && TrimRight(q) == q;
  }

  lemma {:induction false} TrimDotsEnd(s: string)
    ensures NoTrailingSpace(s) ==> NoTrailingSpace(TrimDots(s))
  {
    if s != "" && s[0] == '.' {
      TrimDotsEnd(s[1..]);
    }
  }
}
