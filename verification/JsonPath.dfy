/** Paths into a decoded JSON value, and what they lead to. */
module JsonPath {
  import opened Wrappers
  import opened Lists
  import opened Numbers
  import opened Text

  /** A decoded JSON value; numbers keep their text. */
  datatype Json =
    | Null
    | Bool(b: bool)
    | Number(text: string)
    | Str(s: string)
    | Arr(items: seq<Json>)
    | Obj(fields: map<string, Json>)

  datatype PathToken = Key(key: string) | Index(index: int)

  // ----- Tokens

  function ClassifySegment(s: string): PathToken {
    match Atoi(s)
    case Some(n) => Index(n)
    case None => Key(s)
  }

  /** The texts between matched brackets from the start on; the first text that is not in brackets ends them. */
  function Subscripts(s: string): seq<string>
    decreases |s|
  {
    if s == [] || s[0] != '[' then [] else
    var end := IndexOf(s, ']');
    if end == |s| then [] else [s[1..end]] + Subscripts(s[end + 1..])
  }

  method SplitBrackets(seg: string) returns (name: string, subscripts: seq<string>)
    ensures name == seg[..IndexOf(seg, '[')] && subscripts == Subscripts(seg[IndexOf(seg, '[')..])
  {
    var open := IndexOf(seg, '[');
    if open == |seg| {
      assert seg[..open] == seg;
      return seg, [];
    }
    name := seg[..open];
    var rest := seg[open..];
    subscripts := [];
    ghost var want := Subscripts(rest);
    assert subscripts + want == want;
    while |rest| > 0 && rest[0] == '['
      invariant want == subscripts + Subscripts(rest)
      decreases |rest|
    {
      var end := IndexOf(rest, ']');
      if end == |rest| {
        return;
      }
      assert subscripts + ([rest[1..end]] + Subscripts(rest[end + 1..]))
          == subscripts + [rest[1..end]] + Subscripts(rest[end + 1..]);
      subscripts := subscripts + [rest[1..end]];
      rest := rest[end + 1..];
    }
  }

  function Classified(names: seq<string>): seq<PathToken> {
    if names == [] then [] else [ClassifySegment(names[0])] + Classified(names[1..])
  }

  /** One dot-delimited segment: its name, unless empty, then its subscripts. */
  function SegmentTokens(seg: string): seq<PathToken> {
    var open := IndexOf(seg, '[');
    (if open == 0 then [] else [ClassifySegment(seg[..open])]) + Classified(Subscripts(seg[open..]))
  }

  function SegmentsTokens(segs: seq<string>): seq<PathToken> {
    if segs == [] then [] else
    (if segs[0] == "" then [] else SegmentTokens(segs[0])) + SegmentsTokens(segs[1..])
  }

  lemma {:induction false} SegmentsConcat(a: seq<string>, b: seq<string>)
    ensures SegmentsTokens(a + b) == SegmentsTokens(a) + SegmentsTokens(b)
  {
    if a == [] {
      assert a + b == b;
    } else {
      assert (a + b)[1..] == a[1..] + b;
      SegmentsConcat(a[1..], b);
    }
  }

  lemma {:induction false} ClassifiedLast(names: seq<string>, name: string)
    ensures Classified(names + [name]) == Classified(names) + [ClassifySegment(name)]
  {
    if names != [] {
      assert (names + [name])[1..] == names[1..] + [name];
      ClassifiedLast(names[1..], name);
    }
  }

  method TokenizePath(p: string) returns (toks: seq<PathToken>)
    ensures toks == SegmentsTokens(Split(p, '.'))
  {
    toks := [];
    var segs := Split(p, '.');
    for i := 0 to |segs|
      invariant toks == SegmentsTokens(segs[..i])
    {
      assert segs[..i + 1] == segs[..i] + [segs[i]];
      SegmentsConcat(segs[..i], [segs[i]]);
      if segs[i] == "" {
        continue;
      }
      toks := AppendSegmentTokens(toks, segs[i]);
    }
    assert segs[..|segs|] == segs;
  }

  method AppendSegmentTokens(toks: seq<PathToken>, seg: string) returns (out: seq<PathToken>)
    ensures out == toks + SegmentTokens(seg)
  {
    var name, brackets := SplitBrackets(seg);
    var head: seq<PathToken> := if name == "" then [] else [ClassifySegment(name)];
    var tail := ClassifyAll(brackets);
    out := toks + (head + tail);
  }

  method ClassifyAll(names: seq<string>) returns (out: seq<PathToken>)
    ensures out == Classified(names)
  {
    out := [];
    for i := 0 to |names|
      invariant out == Classified(names[..i])
    {
      assert names[..i + 1] == names[..i] + [names[i]];
      ClassifiedLast(names[..i], names[i]);
      out := out + [ClassifySegment(names[i])];
    }
    assert names[..|names|] == names;
  }

  // ----- Resolution

  function TrimDollar(s: string): string {
    if s != [] && s[0] == '$' then s[1..] else s
  }

  function TrimDots(s: string): string {
    if s != [] && s[0] == '.' then TrimDots(s[1..]) else s
  }

  /** The steps a path stands for. */
  function PathTokens(path: string): seq<PathToken> {
    SegmentsTokens(Split(TrimDots(TrimDollar(TrimSpace(path))), '.'))
  }

  function Descend(cur: Json, tok: PathToken): Option<Json> {
    match tok
    case Index(i) => if cur.Arr? && 0 <= i < |cur.items| then Some(cur.items[i]) else None
    case Key(k) => if cur.Obj? && k in cur.fields then Some(cur.fields[k]) else None
  }

  function Walk(root: Json, toks: seq<PathToken>): Option<Json> {
    if toks == [] then Some(root) else
    match Descend(root, toks[0])
    case None => None
    case Some(next) => Walk(next, toks[1..])
  }

  function Resolved(root: Json, path: string): Option<Json> {
    Walk(root, PathTokens(path))
  }

  method ResolvePath(root: Json, path: string) returns (r: Option<Json>)
    ensures r == Resolved(root, path)
  {
    var toks := TokenizePath(TrimDots(TrimDollar(TrimSpace(path))));
    if |toks| == 0 {
      return Some(root);
    }
    var cur := root;
    assert toks[0..] == toks;
    for i := 0 to |toks|
      invariant Walk(cur, toks[i..]) == Resolved(root, path)
    {
      assert toks[i..][0] == toks[i] && toks[i..][1..] == toks[i + 1..];
      var next := Descend(cur, toks[i]);
      if next.None? {
        return None;
      }
      cur := next.value;
    }
    r := Some(cur);
  }

  lemma {:induction false} WalkConcat(root: Json, a: seq<PathToken>, b: seq<PathToken>)
    ensures Walk(root, a + b) == match Walk(root, a) case None => None case Some(v) => Walk(v, b)
  {
    if a == [] {
      assert a + b == b;
    } else {
      assert (a + b)[1..] == a[1..] + b;
      if Descend(root, a[0]).Some? {
        WalkConcat(Descend(root, a[0]).value, a[1..], b);
      }
    }
  }

  // ----- Paths compose

  /** Leading dots only add empty segments. */
  lemma {:induction false} DotsAddNothing(s: string)
    ensures SegmentsTokens(Split(TrimDots(s), '.')) == SegmentsTokens(Split(s, '.'))
  {
    if s != [] && s[0] == '.' {
      DotsAddNothing(s[1..]);
      IndexOfIs(s, '.', 0);
      var rest := Split(s[1..], '.');
      assert Split(s, '.') == [s[..0]] + rest && s[..0] == "";
      assert ([""] + rest)[1..] == rest;
    }
  }

  lemma TokensWithoutTrim(s: string)
    requires s == [] || s[0] != '$'
    ensures SegmentsTokens(Split(TrimDots(TrimDollar(s)), '.')) == SegmentsTokens(Split(s, '.'))
  {
    DotsAddNothing(s);
  }

  /** The steps of `p.q` are those of `p`, then those of `q`. */
  lemma TokensOfJoined(p: string, q: string)
    requires NoTrailingSpace(p) && NoLeadingSpace(q) && (q == [] || q[0] != '$')
    ensures PathTokens(p + "." + q) == PathTokens(p) + PathTokens(q)
  {
    TrimJoined(p, q);
    TrimKeepsHead(q);
    TokensWithoutTrim(TrimRight(q));
    JoinedSegments(TrimLeft(p), TrimRight(q));
  }

  lemma JoinedSegments(a: string, b: string)
    ensures SegmentsTokens(Split(TrimDots(TrimDollar(a + "." + b)), '.'))
         == SegmentsTokens(Split(TrimDots(TrimDollar(a)), '.')) + SegmentsTokens(Split(b, '.'))
  {
    DollarJoined(a, b);
    DotsAddNothing(TrimDollar(a) + "." + b);
    DotsAddNothing(TrimDollar(a));
    SplitJoined(TrimDollar(a), '.', b);
    SegmentsConcat(Split(TrimDollar(a), '.'), Split(b, '.'));
  }

  lemma DollarJoined(a: string, b: string)
    ensures TrimDollar(a + "." + b) == TrimDollar(a) + "." + b
  {
    if a != [] && a[0] == '$' {
      assert (a + "." + b)[1..] == a[1..] + "." + b;
    }
  }

  lemma TrimKeepsHead(q: string)
    requires NoLeadingSpace(q)
    ensures TrimLeft(q) == q
    ensures TrimRight(q) == [] || TrimRight(q)[0] == q[0]
    ensures TrimRight(q) <= q
  {
  }

  lemma TrimJoined(p: string, q: string)
    requires NoTrailingSpace(p) && NoLeadingSpace(q)
    ensures TrimSpace(p) == TrimLeft(p) && TrimSpace(q) == TrimRight(q)
    ensures TrimSpace(p + "." + q) == TrimLeft(p) + "." + TrimRight(q)
  {
    TrimKeepsHead(q);
    TrimLeftEnd(p);
    TrimMiddle(p, ".", q);
  }

  lemma TrimMiddle(left: string, mid: string, right: string)
    requires mid != "" && NoLeadingSpace(mid) && NoTrailingSpace(mid)
    ensures TrimSpace(left + mid + right) == TrimLeft(left) + mid + TrimRight(right)
  {
    assert left + (mid + right) == left + mid + right;
    TrimLeftStops(left, mid + right);
    var kept := TrimLeft(left);
    assert kept + (mid + right) == (kept + mid) + right;
    TrimRightStops(kept + mid, right);
  }

  lemma TrimLeftEnd(p: string)
    requires NoTrailingSpace(p)
    ensures NoTrailingSpace(TrimLeft(p)) && TrimRight(TrimLeft(p)) == TrimLeft(p)
  {
  }

  /** Resolving `p.q` is resolving `p` and then `q` in the result; it fails when either does. */
  lemma PathsCompose(root: Json, p: string, q: string)
    requires NoTrailingSpace(p) && NoLeadingSpace(q) && (q == [] || q[0] != '$')
    ensures Resolved(root, p + "." + q) == match Resolved(root, p) case None => None case Some(v) => Resolved(v, q)
  {
    TokensOfJoined(p, q);
    WalkConcat(root, PathTokens(p), PathTokens(q));
  }

  function Subscript(sub: string): string {
    ['['] + sub + [']']
  }

  function Segment(sub: string): string {
    ['.'] + sub
  }

  /** The steps of a name, unless empty, followed by one more. */
  function NameThen(a: string, sub: string): seq<PathToken> {
    (if a == "" then [] else [ClassifySegment(a)]) + [ClassifySegment(sub)]
  }

  /** A subscript and a dotted segment are the same step, on every value. */
  lemma SubscriptIsSegment(root: Json, name: string, sub: string)
    requires Lacks(name, '.') && Lacks(name, '[')
    requires sub != "" && Lacks(sub, '.') && Lacks(sub, '[') && Lacks(sub, ']') && NoTrailingSpace(sub)
    ensures Resolved(root, name + Subscript(sub)) == Resolved(root, name + Segment(sub))
  {
    SubscriptedPath(name, sub);
    DottedPath(name, sub);
  }

  lemma SubscriptedPath(name: string, sub: string)
    requires Lacks(name, '.') && Lacks(name, '[') && sub != "" && Lacks(sub, '.') && Lacks(sub, ']')
    ensures PathTokens(name + Subscript(sub)) == NameThen(TrimDollar(TrimLeft(name)), sub)
  {
    TrimKeepsOut(name, '.');
    TrimKeepsOut(name, '[');
    PathHead(name, Subscript(sub));
    SubscriptTokens(TrimDollar(TrimLeft(name)), sub);
  }

  lemma DottedPath(name: string, sub: string)
    requires Lacks(name, '.')
    requires Lacks(name, '[') && sub != "" && Lacks(sub, '.') && Lacks(sub, '[') && NoTrailingSpace(sub)
    ensures PathTokens(name + Segment(sub)) == NameThen(TrimDollar(TrimLeft(name)), sub)
  {
    TrimKeepsOut(name, '.');
    TrimKeepsOut(name, '[');
    PathHead(name, Segment(sub));
    DottedTokens(TrimDollar(TrimLeft(name)), sub);
  }

  lemma {:induction false} TrimKeepsOut(s: string, c: char)
    requires Lacks(s, c)
    ensures Lacks(TrimLeft(s), c) && Lacks(TrimDollar(TrimLeft(s)), c)
  {
    if s != [] && IsSpace(s[0]) {
      TrimKeepsOut(s[1..], c);
    }
  }

  /** Trimming at the start of a path stops before a tail that is no space and no root mark. */
  lemma PathHead(name: string, tail: string)
    requires tail != "" && !IsSpace(tail[0]) && tail[0] != '$' && NoTrailingSpace(tail)
    ensures PathTokens(name + tail) == SegmentsTokens(Split(TrimDollar(TrimLeft(name)) + tail, '.'))
  {
    TrimHead(name, tail);
    DollarHead(TrimLeft(name), tail);
    DotsAddNothing(TrimDollar(TrimLeft(name)) + tail);
  }

  lemma TrimHead(name: string, tail: string)
    requires tail != "" && !IsSpace(tail[0]) && NoTrailingSpace(tail)
    ensures TrimSpace(name + tail) == TrimLeft(name) + tail
  {
    TrimMiddle(name, tail, "");
    assert name + tail + "" == name + tail;
    assert TrimLeft(name) + tail + TrimRight("") == TrimLeft(name) + tail;
  }

  lemma DollarHead(kept: string, tail: string)
    requires tail != "" && tail[0] != '$'
    ensures TrimDollar(kept + tail) == TrimDollar(kept) + tail
  {
  }

  lemma SubscriptTokens(a: string, sub: string)
    requires Lacks(a, '.') && Lacks(a, '[') && sub != "" && Lacks(sub, '.') && Lacks(sub, ']')
    ensures SegmentsTokens(Split(a + Subscript(sub), '.')) == NameThen(a, sub)
  {
    SubscriptLacksDot(a, sub);
    OneSegmentPath(a + Subscript(sub));
    SegmentWithSubscript(a, sub);
  }

  lemma SubscriptLacksDot(a: string, sub: string)
    requires Lacks(a, '.') && Lacks(sub, '.')
    ensures Lacks(a + Subscript(sub), '.') && a + Subscript(sub) != ""
  {
  }

  lemma OneSegmentPath(seg: string)
    requires Lacks(seg, '.') && seg != ""
    ensures SegmentsTokens(Split(seg, '.')) == SegmentTokens(seg)
  {
    SplitWithout(seg, '.');
    OneSegment(seg);
  }

  lemma DottedTokens(a: string, sub: string)
    requires Lacks(a, '.') && Lacks(a, '[') && sub != "" && Lacks(sub, '.') && Lacks(sub, '[')
    ensures SegmentsTokens(Split(a + Segment(sub), '.')) == NameThen(a, sub)
  {
    SplitDotted(a, sub);
    SegmentsConcat([a], [sub]);
    PlainSegments(a);
    PlainSegments(sub);
  }

  lemma SplitDotted(a: string, sub: string)
    requires Lacks(a, '.') && Lacks(sub, '.')
    ensures Split(a + Segment(sub), '.') == [a] + [sub]
  {
    SplitTwo(a, '.', sub, a + Segment(sub));
  }

  lemma SplitTwo(a: string, sep: char, b: string, whole: string)
    requires Lacks(a, sep) && Lacks(b, sep) && whole == a + ([sep] + b)
    ensures Split(whole, sep) == [a] + [b]
  {
    assert a + ([sep] + b) == a + [sep] + b;
    SplitJoined(a, sep, b);
    SplitWithout(a, sep);
    SplitWithout(b, sep);
  }

  lemma PlainSegments(s: string)
    requires Lacks(s, '[')
    ensures SegmentsTokens([s]) == if s == "" then [] else [ClassifySegment(s)]
  {
    OneSegment(s);
    if s != "" {
      PlainSegment(s);
    }
  }

  lemma OneSegment(seg: string)
    ensures SegmentsTokens([seg]) == if seg == "" then [] else SegmentTokens(seg)
  {
    assert SegmentsTokens([]) == [];
  }

  lemma PlainSegment(s: string)
    requires s != "" && Lacks(s, '[')
    ensures SegmentTokens(s) == [ClassifySegment(s)]
  {
    IndexOfIs(s, '[', |s|);
    assert s[..|s|] == s && s[|s|..] == [];
  }

  lemma SegmentWithSubscript(name: string, sub: string)
    requires Lacks(name, '[') && Lacks(sub, ']')
    ensures SegmentTokens(name + Subscript(sub))
         == NameThen(name, sub)
  {
    var seg := name + Subscript(sub);
    assert seg[..|name|] == name;
    IndexOfIs(seg, '[', |name|);
    var rest := seg[|name|..];
    assert rest == Subscript(sub) && rest[..|sub| + 1] == ['['] + sub;
    IndexOfIs(rest, ']', |sub| + 1);
    assert rest[1..|sub| + 1] == sub && rest[|sub| + 2..] == [];
    assert Subscripts(rest) == [sub];
    assert Classified([sub]) == [ClassifySegment(sub)];
  }

  // ----- Where a single step leads

  /** A path of one segment as it stands. */
  predicate IsSegmentText(k: string) {
    k != "" && Lacks(k, '.') && Lacks(k, '[') && k[0] != '$' && !IsSpace(k[0]) && !IsSpace(k[|k| - 1])
  }

  lemma SegmentPath(k: string)
    requires IsSegmentText(k)
    ensures PathTokens(k) == [ClassifySegment(k)]
  {
    assert TrimLeft(k) == k && TrimRight(k) == k;
    assert TrimDots(TrimDollar(k)) == k;
    OneSegmentPath(k);
    PlainSegment(k);
  }

  lemma OneStep(v: Json, path: string, tok: PathToken)
    requires PathTokens(path) == [tok]
    ensures Resolved(v, path) == Descend(v, tok)
  {
    var none: seq<PathToken> := [tok][1..];
    assert none == [];
    if Descend(v, tok).Some? {
      assert Walk(Descend(v, tok).value, none) == Descend(v, tok);
    }
  }

  /** A name that is no number leads to the field of an object, and nowhere else. */
  lemma NameLeads(v: Json, k: string)
    requires IsSegmentText(k) && Atoi(k).None?
    ensures Resolved(v, k) == match v
                              case Obj(fields) => if k in fields then Some(fields[k]) else None
                              case _ => None
  {
    SegmentPath(k);
    OneStep(v, k, Key(k));
  }

  lemma NumberText(n: int)
    ensures IsSegmentText(Itoa(n)) && Lacks(Itoa(n), ']')
  {
    forall i | 0 <= i < |Itoa(n)|
      ensures IsDigit(Itoa(n)[i]) || Itoa(n)[i] == '-'
    {
      ItoaShape(n, i);
    }
  }

  /** A number, as a segment or as a subscript, leads to the item of an array that it counts from the start. */
  lemma NumberLeads(v: Json, n: int)
    requires -MAX_INT - 1 <= n <= MAX_INT
    ensures Resolved(v, Itoa(n)) == match v
                                    case Arr(items) => if 0 <= n < |items| then Some(items[n]) else None
                                    case _ => None
    ensures Resolved(v, "[" + Itoa(n) + "]") == Resolved(v, Itoa(n))
  {
    NumberText(n);
    AtoiOfItoa(n);
    SegmentPath(Itoa(n));
    OneStep(v, Itoa(n), Index(n));
    SubscriptedPath("", Itoa(n));
    assert "" + Subscript(Itoa(n)) == "[" + Itoa(n) + "]";
    OneStep(v, "[" + Itoa(n) + "]", Index(n));
  }

  /** A field's item: the name, then the number. */
  lemma ItemLeads(v: Json, k: string, n: int)
    requires IsSegmentText(k) && Atoi(k).None? && -MAX_INT - 1 <= n <= MAX_INT
    ensures Resolved(v, k + "[" + Itoa(n) + "]")
         == if v.Obj? && k in v.fields && v.fields[k].Arr? && 0 <= n < |v.fields[k].items|
            then Some(v.fields[k].items[n]) else None
  {
    NumberText(n);
    NameThenStep(v, k, Itoa(n));
    NameLeads(v, k);
    if v.Obj? && k in v.fields {
      NumberLeads(v.fields[k], n);
    }
  }

  /** A name and a subscript: the name, and then the subscript's step from where it leads. */
  lemma NameThenStep(v: Json, k: string, sub: string)
    requires IsSegmentText(k) && IsSegmentText(sub) && Lacks(sub, ']')
    ensures Resolved(v, k + "[" + sub + "]")
         == match Resolved(v, k) case None => None case Some(w) => Resolved(w, sub)
  {
    SubscriptIsSegment(v, k, sub);
    Spelt(k, sub);
    PathsCompose(v, k, sub);
  }

  lemma Spelt(k: string, sub: string)
    ensures k + Subscript(sub) == k + "[" + sub + "]" && k + Segment(sub) == k + "." + sub
  {
  }

  /** The root mark, alone or in front, makes no difference. */
  lemma RootLeads(v: Json, k: string)
    requires IsSegmentText(k)
    ensures Resolved(v, "") == Some(v) && Resolved(v, "$") == Some(v) && Resolved(v, "$." + k) == Resolved(v, k)
  {
    NoSegments();
    FromRoot(v, "$", k, "$." + k);
  }

  lemma FromRoot(v: Json, root: string, k: string, path: string)
    requires IsSegmentText(k) && NoTrailingSpace(root) && PathTokens(root) == [] && path == root + "." + k
    ensures Resolved(v, path) == Resolved(v, k)
  {
    PathsCompose(v, root, k);
  }

  lemma NoSegments()
    ensures PathTokens("") == [] && PathTokens("$") == []
  {
    var none: string := "";
    assert "$"[1..] == none;
    assert Split(none, '.') == [none];
    assert [none][1..] == [];
    assert SegmentsTokens([none]) == [];
  }

  // ----- Any number of subscripts

  function Bracketed(subs: seq<string>): string {
    if subs == [] then "" else Subscript(subs[0]) + Bracketed(subs[1..])
  }

  predicate AllClose(subs: seq<string>) {
    forall i :: 0 <= i < |subs| ==> Lacks(subs[i], ']')
  }

  lemma {:induction false} BracketsRead(subs: seq<string>)
    requires AllClose(subs)
    ensures Subscripts(Bracketed(subs)) == subs
  {
    if subs != [] {
      var sub, rest := subs[0], Bracketed(subs[1..]);
      var s := Subscript(sub) + rest;
      assert s[..|sub| + 1] == ['['] + sub;
      IndexOfIs(s, ']', |sub| + 1);
      assert s[1..|sub| + 1] == sub && s[|sub| + 2..] == rest;
      BracketsRead(subs[1..]);
      assert [sub] + subs[1..] == subs;
    }
  }

  lemma BracketsStart(subs: seq<string>)
    ensures subs != [] ==> Bracketed(subs) != "" && Bracketed(subs)[0] == '['
  {
  }

  /** The steps of a segment: its name and then every subscript in turn. */
  lemma SegmentReads(name: string, subs: seq<string>)
    requires name != "" && Lacks(name, '[') && AllClose(subs)
    ensures SegmentTokens(name + Bracketed(subs)) == [ClassifySegment(name)] + Classified(subs)
  {
    var seg := name + Bracketed(subs);
    BracketsStart(subs);
    IndexOfIs(seg, '[', |name|);
    assert seg[..|name|] == name && seg[|name|..] == Bracketed(subs);
    BracketsRead(subs);
  }
}
