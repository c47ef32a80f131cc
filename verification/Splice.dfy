/** The two replace loops. */
module Splice {
  // RE2 reports matches by byte offsets, regexp2 by rune offsets; each loop walks its own list of
  // matches and splices the expanded replacement between the pieces it keeps. The engines themselves are
  // not modelled: any ordered list of matches that do not overlap is taken as given.

  import opened Wrappers
  import opened Lists
  import opened Utf8
  import opened Replacement

  /** An RE2 match: start and end of every group as byte offsets, negative when it did not capture. */
  type Loc = seq<int>

  /** A regexp2 group; `Absent` is a number that no group has. */
  datatype RuneGroup = Absent | RuneGroup(name: Bytes, index: nat, length: nat, captures: nat)

  /** A regexp2 match, in rune offsets; `groups[0]` is the whole match. */
  datatype RuneMatch = RuneMatch(index: nat, length: nat, groups: seq<RuneGroup>)

  datatype ReplaceError = MatchTimeout

  // ----- Views

  /** The value of the highest-numbered capturing group other than the whole match. */
  function LastCapture(captures: seq<Option<Bytes>>): Bytes {
    if |captures| <= 1 then []
    else match captures[|captures| - 1]
         case Some(text) => text
         case None => LastCapture(captures[..|captures| - 1])
  }

  /** That is: the text of the one group after which no other captured. */
  lemma {:induction false} LastCaptureIs(captures: seq<Option<Bytes>>, g: nat)
    requires 1 <= g < |captures| && captures[g].Some? && forall h :: g < h < |captures| ==> captures[h].None?
    ensures LastCapture(captures) == captures[g].value
  {
    if g < |captures| - 1 {
      LastCaptureIs(captures[..|captures| - 1], g);
    }
  }

  /** A group that did not capture is shown as empty. */
  function Texts(captures: seq<Option<Bytes>>): seq<Bytes> {
    seq(|captures|, g requires 0 <= g < |captures| => captures[g].GetOr([]))
  }

  function View(input: Bytes, left: Bytes, whole: Bytes, right: Bytes, captures: seq<Option<Bytes>>,
                names: seq<Bytes>): MatchView {
    MatchView(input, whole, left, right, Texts(captures), names, LastCapture(captures))
  }

  function GroupStart(loc: Loc, g: nat): int
    requires 2 * g + 1 < |loc|
  {
    loc[2 * g]
  }

  function GroupEnd(loc: Loc, g: nat): int
    requires 2 * g + 1 < |loc|
  {
    loc[2 * g + 1]
  }

  predicate Captured(loc: Loc, g: nat)
    requires 2 * g + 1 < |loc|
  {
    GroupStart(loc, g) >= 0 && GroupEnd(loc, g) >= 0
  }

  /** One location in a text of n bytes, for a pattern with the given number of groups. */
  ghost predicate ValidLoc(loc: Loc, n: nat, groups: nat) {
    && groups >= 1 && |loc| == 2 * groups
    && 0 <= loc[0] <= loc[1] <= n
    && forall g :: 0 <= g < groups && Captured(loc, g) ==> GroupStart(loc, g) <= GroupEnd(loc, g) <= n
  }

  /** Where the text not yet written starts before match `i`: at the end of the match before it. */
  function ByteTail(locs: seq<Loc>, i: nat): int
    requires i <= |locs| && forall k :: 0 <= k < |locs| ==> |locs[k]| >= 2
  {
    if i == 0 then 0 else locs[i - 1][1]
  }

  /** Ordered and not overlapping. */
  ghost predicate ValidLocs(locs: seq<Loc>, n: nat, groups: nat) {
    && (forall i :: 0 <= i < |locs| ==> ValidLoc(locs[i], n, groups))
    && (forall i :: 0 <= i < |locs| ==> ByteTail(locs, i) <= locs[i][0])
  }

  function ByteCapture(input: Bytes, loc: Loc, n: nat, g: nat): Option<Bytes>
    requires ValidLoc(loc, |input|, n) && g < n
  {
    if Captured(loc, g) then Some(input[GroupStart(loc, g)..GroupEnd(loc, g)]) else None
  }

  function ByteCaptures(input: Bytes, loc: Loc, n: nat): seq<Option<Bytes>>
    requires ValidLoc(loc, |input|, n)
  {
    seq(n, g requires 0 <= g < n => ByteCapture(input, loc, n, g))
  }

  function ByteView(input: Bytes, loc: Loc, names: seq<Bytes>): MatchView
    requires ValidLoc(loc, |input|, |names|)
  {
    View(input, input[..loc[0]], input[loc[0]..loc[1]], input[loc[1]..], ByteCaptures(input, loc, |names|), names)
  }

  method Re2MatchView(input: Bytes, loc: Loc, names: seq<Bytes>) returns (m: MatchView)
    requires ValidLoc(loc, |input|, |names|)
    ensures m == ByteView(input, loc, names)
  {
    var groups, last := ByteGroups(input, loc, |loc| / 2);
    m := MatchView(input, input[loc[0]..loc[1]], input[..loc[0]], input[loc[1]..], groups, names, last);
  }

  method ByteGroups(input: Bytes, loc: Loc, n: nat) returns (groups: seq<Bytes>, last: Bytes)
    requires ValidLoc(loc, |input|, n)
    ensures groups == Texts(ByteCaptures(input, loc, n)) && last == LastCapture(ByteCaptures(input, loc, n))
  {
    groups, last := [], [];
    ghost var captures := ByteCaptures(input, loc, n);
    for g := 0 to n
      invariant groups == Texts(captures[..g])
      invariant last == LastCapture(captures[..g])
    {
      assert captures[..g + 1][..g] == captures[..g];
      if Captured(loc, g) {
        var text := input[GroupStart(loc, g)..GroupEnd(loc, g)];
        groups := groups + [text];
        if g > 0 {
          last := text;
        }
      } else {
        groups := groups + [[]];
      }
    }
    assert captures[..n] == captures;
  }

  // ----- The byte loop

  /** What match `i` contributes: the text kept before it and its expansion. */
  function BytePiece(input: Bytes, locs: seq<Loc>, names: seq<Bytes>, repl: Bytes, i: nat): Bytes
    requires i < |locs| && ValidLocs(locs, |input|, |names|)
  {
    input[ByteTail(locs, i)..locs[i][0]] + Expanded(repl, ByteView(input, locs[i], names))
  }

  function BytePieces(input: Bytes, locs: seq<Loc>, names: seq<Bytes>, repl: Bytes): seq<Bytes>
    requires ValidLocs(locs, |input|, |names|)
  {
    seq(|locs|, i requires 0 <= i < |locs| => BytePiece(input, locs, names, repl, i))
  }

  /** The text with each match replaced by its expansion. */
  function SplicedBytes(input: Bytes, locs: seq<Loc>, names: seq<Bytes>, repl: Bytes): Bytes
    requires ValidLocs(locs, |input|, |names|)
  {
    Flat(BytePieces(input, locs, names, repl)) + input[ByteTail(locs, |locs|)..]
  }

  method ReplaceRE2(input: Bytes, locs: seq<Loc>, names: seq<Bytes>, repl: Bytes) returns (b: Bytes)
    requires ValidLocs(locs, |input|, |names|)
    ensures b == SplicedBytes(input, locs, names, repl)
  {
    if locs == [] {
      NoMatches(input, names, repl);
      return input;
    }
    var prev;
    b, prev := WriteBytePieces(input, locs, names, repl);
    b := b + input[prev..];
  }

  lemma NoMatches(input: Bytes, names: seq<Bytes>, repl: Bytes)
    ensures SplicedBytes(input, [], names, repl) == input
  {
  }

  /** Writes every match's expansion, each after the text before it, and says where the unwritten tail starts. */
  method WriteBytePieces(input: Bytes, locs: seq<Loc>, names: seq<Bytes>, repl: Bytes) returns (b: Bytes, prev: int)
    requires ValidLocs(locs, |input|, |names|)
    ensures b == Flat(BytePieces(input, locs, names, repl)) && prev == ByteTail(locs, |locs|)
  {
    b := [];
    prev := 0;
    ghost var pieces := BytePieces(input, locs, names, repl);
    for i := 0 to |locs|
      invariant prev == ByteTail(locs, i)
      invariant b == Flat(pieces[..i])
    {
      var piece := WriteBytePiece(input, locs, names, repl, i, prev);
      OnePieceMore(b, piece, pieces, i);
      b := b + piece;
      prev := locs[i][1];
    }
    assert pieces[..|locs|] == pieces;
  }

  method WriteBytePiece(input: Bytes, locs: seq<Loc>, names: seq<Bytes>, repl: Bytes, i: nat, prev: nat)
    returns (b: Bytes)
    requires i < |locs| && ValidLocs(locs, |input|, |names|) && prev == ByteTail(locs, i)
    ensures b == BytePieces(input, locs, names, repl)[i]
  {
    b := input[prev..locs[i][0]];
    var view := Re2MatchView(input, locs[i], names);
    var text := ExpandDotNetReplacement(repl, view);
    b := b + text;
  }

  // ----- The rune loop

  ghost predicate ValidMatch(m: RuneMatch, n: nat) {
    && m.index + m.length <= n
    && |m.groups| >= 1
    && forall g :: 0 <= g < |m.groups| && m.groups[g].RuneGroup? ==>
         m.groups[g].index + m.groups[g].length <= n && (m.groups[g].captures == 0 ==> m.groups[g].length == 0)
  }

  function RuneTail(ms: seq<RuneMatch>, i: nat): nat
    requires i <= |ms|
  {
    if i == 0 then 0 else ms[i - 1].index + ms[i - 1].length
  }

  ghost predicate ValidMatches(ms: seq<RuneMatch>, n: nat) {
    && (forall i :: 0 <= i < |ms| ==> ValidMatch(ms[i], n))
    && (forall i :: 0 <= i < |ms| ==> RuneTail(ms, i) <= ms[i].index)
  }

  function GroupText(runes: seq<Scalar>, g: RuneGroup): Bytes
    requires g.RuneGroup? ==> g.index + g.length <= |runes|
  {
    match g
    case Absent => []
    case RuneGroup(_, index, length, _) => EncodeAll(runes[index..index + length])
  }

  function RuneCapture(runes: seq<Scalar>, m: RuneMatch, g: nat): Option<Bytes>
    requires ValidMatch(m, |runes|) && g < |m.groups|
  {
    if m.groups[g].RuneGroup? && m.groups[g].captures > 0 then Some(GroupText(runes, m.groups[g])) else None
  }

  function RuneCaptures(runes: seq<Scalar>, m: RuneMatch): seq<Option<Bytes>>
    requires ValidMatch(m, |runes|)
  {
    seq(|m.groups|, g requires 0 <= g < |m.groups| => RuneCapture(runes, m, g))
  }

  function NameOf(g: RuneGroup): Bytes {
    if g.Absent? then [] else g.name
  }

  function GroupNames(groups: seq<RuneGroup>): seq<Bytes> {
    seq(|groups|, g requires 0 <= g < |groups| => NameOf(groups[g]))
  }

  function RuneView(input: Bytes, runes: seq<Scalar>, m: RuneMatch): MatchView
    requires ValidMatch(m, |runes|)
  {
    var end := m.index + m.length;
    View(input, EncodeAll(runes[..m.index]), EncodeAll(runes[m.index..end]), EncodeAll(runes[end..]),
         RuneCaptures(runes, m), GroupNames(m.groups))
  }

  method Regexp2MatchView(input: Bytes, runes: seq<Scalar>, m: RuneMatch) returns (v: MatchView)
    requires ValidMatch(m, |runes|)
    ensures v == RuneView(input, runes, m)
  {
    var groups, names, last := RuneGroups(runes, m);
    var start, end := m.index, m.index + m.length;
    v := MatchView(input, EncodeAll(runes[start..end]), EncodeAll(runes[..start]), EncodeAll(runes[end..]), groups,
                   names, last);
  }

  lemma LastCaptureMore(captures: seq<Option<Bytes>>, n: nat)
    requires n < |captures|
    ensures LastCapture(captures[..n + 1])
         == if n > 0 && captures[n].Some? then captures[n].value else LastCapture(captures[..n])
  {
    assert captures[..n + 1][..n] == captures[..n];
  }

  method RuneGroups(runes: seq<Scalar>, m: RuneMatch) returns (groups: seq<Bytes>, names: seq<Bytes>, last: Bytes)
    requires ValidMatch(m, |runes|)
    ensures groups == Texts(RuneCaptures(runes, m)) && names == GroupNames(m.groups)
    ensures last == LastCapture(RuneCaptures(runes, m))
  {
    groups, names, last := [], [], [];
    ghost var captures := RuneCaptures(runes, m);
    for n := 0 to |m.groups|
      invariant groups == Texts(captures[..n]) && names == GroupNames(m.groups[..n])
      invariant last == LastCapture(captures[..n])
    {
      LastCaptureMore(captures, n);
      TextsMore(captures, n);
      GroupNamesMore(m.groups, n);
      var text, name, captured := GroupOf(runes, m, n);
      groups := groups + [text];
      names := names + [name];
      if n > 0 && captured {
        last := text;
      }
    }
    assert captures[..|m.groups|] == captures && m.groups[..|m.groups|] == m.groups;
  }

  lemma TextsMore(captures: seq<Option<Bytes>>, n: nat)
    requires n < |captures|
    ensures Texts(captures[..n + 1]) == Texts(captures[..n]) + [captures[n].GetOr([])]
  {
  }

  lemma GroupNamesMore(groups: seq<RuneGroup>, n: nat)
    requires n < |groups|
    ensures GroupNames(groups[..n + 1]) == GroupNames(groups[..n]) + [NameOf(groups[n])]
  {
  }

  /** One group's text, its name, and whether it captured. */
  method GroupOf(runes: seq<Scalar>, m: RuneMatch, n: nat) returns (text: Bytes, name: Bytes, captured: bool)
    requires ValidMatch(m, |runes|) && n < |m.groups|
    ensures text == RuneCaptures(runes, m)[n].GetOr([]) && name == NameOf(m.groups[n])
    ensures captured == RuneCaptures(runes, m)[n].Some?
  {
    var g := m.groups[n];
    if g.Absent? {
      return [], [], false;
    }
    EmptyGroupText(runes, m, n);
    return GroupText(runes, g), g.name, g.captures > 0;
  }

  lemma EmptyGroupText(runes: seq<Scalar>, m: RuneMatch, n: nat)
    requires ValidMatch(m, |runes|) && n < |m.groups| && m.groups[n].RuneGroup?
    ensures m.groups[n].captures == 0 ==> GroupText(runes, m.groups[n]) == []
  {
  }

  function RunePiece(input: Bytes, runes: seq<Scalar>, ms: seq<RuneMatch>, repl: Bytes, i: nat): Bytes
    requires i < |ms| && ValidMatches(ms, |runes|)
  {
    EncodeAll(runes[RuneTail(ms, i)..ms[i].index]) + Expanded(repl, RuneView(input, runes, ms[i]))
  }

  function RunePieces(input: Bytes, runes: seq<Scalar>, ms: seq<RuneMatch>, repl: Bytes): seq<Bytes>
    requires ValidMatches(ms, |runes|)
  {
    seq(|ms|, i requires 0 <= i < |ms| => RunePiece(input, runes, ms, repl, i))
  }

  function SplicedRunes(input: Bytes, runes: seq<Scalar>, ms: seq<RuneMatch>, repl: Bytes): Bytes
    requires ValidMatches(ms, |runes|)
  {
    Flat(RunePieces(input, runes, ms, repl)) + EncodeAll(runes[RuneTail(ms, |ms|)..])
  }

  /** `timeout` says that the engine gave up looking for the match after the last one listed. */
  method ReplaceRegexp2(input: Bytes, runes: seq<Scalar>, ms: seq<RuneMatch>, timeout: bool, repl: Bytes)
    returns (r: Result<Bytes, ReplaceError>)
    requires ValidMatches(ms, |runes|)
    ensures r == if timeout then Failure(MatchTimeout)
                 else if ms == [] then Success(input)
                 else Success(SplicedRunes(input, runes, ms, repl))
  {
    if ms == [] {
      return if timeout then Failure(MatchTimeout) else Success(input);
    }
    var b: Bytes := [];
    var prev := 0;
    ghost var pieces := RunePieces(input, runes, ms, repl);
    for i := 0 to |ms|
      invariant prev == RuneTail(ms, i)
      invariant b == Flat(pieces[..i])
    {
      var piece := WriteRunePiece(input, runes, ms, repl, i, prev);
      OnePieceMore(b, piece, pieces, i);
      b := b + piece;
      prev := ms[i].index + ms[i].length;
    }
    if timeout {
      return Failure(MatchTimeout); // the search for one more match
    }
    assert pieces[..|ms|] == pieces;
    b := b + EncodeAll(runes[prev..]);
    r := Success(b);
  }

  method WriteRunePiece(input: Bytes, runes: seq<Scalar>, ms: seq<RuneMatch>, repl: Bytes, i: nat, prev: nat)
    returns (b: Bytes)
    requires i < |ms| && ValidMatches(ms, |runes|) && prev == RuneTail(ms, i)
    ensures b == RunePieces(input, runes, ms, repl)[i]
  {
    b := EncodeAll(runes[prev..ms[i].index]);
    var view := Regexp2MatchView(input, runes, ms[i]);
    var text := ExpandDotNetReplacement(repl, view);
    b := b + text;
  }

  // ----- The two agree

  /** Cutting the text at the offsets of two runes is encoding what lies between them. */
  ghost predicate CutsAt(input: Bytes, runes: seq<Scalar>, off: seq<nat>, a: nat, b: nat)
    requires |off| == |runes| + 1 && a <= b <= |runes|
  {
    off[a] <= off[b] <= |input| && input[off[a]..off[b]] == EncodeAll(runes[a..b])
  }

  /** `off[k]` is the byte offset of rune `k`. */
  ghost predicate IsOffsetTable(input: Bytes, runes: seq<Scalar>, off: seq<nat>) {
    && |off| == |runes| + 1 && off[0] == 0 && off[|runes|] == |input|
    && forall a: nat, b: nat :: a <= b <= |runes| ==> CutsAt(input, runes, off, a, b)
  }

  function Offsets(runes: seq<Scalar>): seq<nat> {
    seq(|runes| + 1, k requires 0 <= k <= |runes| => |EncodeAll(runes[..k])|)
  }

  lemma CutConcat(x: Bytes, y: Bytes, z: Bytes)
    ensures var s := x + y + z; s[|x|..|x| + |y|] == y
  {
  }

  lemma EncodingCut(whole: seq<Scalar>, left: seq<Scalar>, right: seq<Scalar>)
    requires whole == left + right
    ensures EncodeAll(whole) == EncodeAll(left) + EncodeAll(right)
  {
    EncodeAllConcat(left, right);
  }

  lemma SlicesConcat(runes: seq<Scalar>, a: nat, b: nat)
    requires a <= b <= |runes|
    ensures runes[..b] == runes[..a] + runes[a..b] && runes == runes[..b] + runes[b..]
  {
  }

  lemma CutIsEncodedCut(runes: seq<Scalar>, a: nat, b: nat)
    requires a <= b <= |runes|
    ensures var x, y := EncodeAll(runes[..a]), EncodeAll(runes[..b]);
      |x| <= |y| <= |EncodeAll(runes)| && EncodeAll(runes)[|x|..|y|] == EncodeAll(runes[a..b])
  {
    SlicesConcat(runes, a, b);
    EncodingCut(runes[..b], runes[..a], runes[a..b]);
    EncodingCut(runes, runes[..b], runes[b..]);
    CutConcat(EncodeAll(runes[..a]), EncodeAll(runes[a..b]), EncodeAll(runes[b..]));
  }

  lemma OffsetsAreTable(runes: seq<Scalar>)
    ensures IsOffsetTable(EncodeAll(runes), runes, Offsets(runes))
  {
    var off := Offsets(runes);
    assert runes[..|runes|] == runes && runes[..0] == [];
    assert off[0] == 0 && off[|runes|] == |EncodeAll(runes)|;
    forall a: nat, b: nat | a <= b <= |runes| ensures CutsAt(EncodeAll(runes), runes, off, a, b) {
      OffsetsCut(runes, off, a, b);
    }
  }

  lemma OffsetsCut(runes: seq<Scalar>, off: seq<nat>, a: nat, b: nat)
    requires a <= b <= |runes| == |off| - 1
    requires off[a] == |EncodeAll(runes[..a])| && off[b] == |EncodeAll(runes[..b])|
    ensures CutsAt(EncodeAll(runes), runes, off, a, b)
  {
    CutIsEncodedCut(runes, a, b);
  }

  /** A byte match and a rune match of the same text that report the same thing. */
  ghost predicate SameMatch(off: seq<nat>, loc: Loc, m: RuneMatch)
    requires |off| > 0 && ValidMatch(m, |off| - 1)
  {
    && |loc| == 2 * |m.groups|
    && loc[0] == off[m.index] && loc[1] == off[m.index + m.length]
    && forall g :: 0 <= g < |m.groups| ==> SameGroup(off, loc, m, g)
  }

  ghost predicate SameGroup(off: seq<nat>, loc: Loc, m: RuneMatch, g: nat)
    requires |off| > 0 && ValidMatch(m, |off| - 1) && |loc| == 2 * |m.groups| && g < |m.groups|
  {
    && (Captured(loc, g) <==> m.groups[g].RuneGroup? && m.groups[g].captures > 0)
    && (Captured(loc, g) ==>
          && GroupStart(loc, g) == off[m.groups[g].index]
          && GroupEnd(loc, g) == off[m.groups[g].index + m.groups[g].length])
  }

  /** The second engine gives unnamed groups their numbers for names; names written in the pattern are no numbers. */
  ghost predicate Renumbered(names: seq<Bytes>, names': seq<Bytes>) {
    && |names| == |names'| <= SATURATED
    && forall g :: 0 <= g < |names| ==>
         && !AllDigits(names[g])
         && (names'[g] == names[g] || (names[g] == [] && names'[g] == Decimal(g)))
  }

  /**
   The engines name the groups alike, or as they do when an unnamed group is "" for one and its
   number for the other.
   */
  ghost predicate SameNames(names: seq<Bytes>, names': seq<Bytes>) {
    names == names' || Renumbered(names, names')
  }

  ghost predicate SameMatches(off: seq<nat>, locs: seq<Loc>, names: seq<Bytes>, ms: seq<RuneMatch>) {
    && |off| > 0 && |locs| == |ms|
    && forall i :: 0 <= i < |ms| ==>
         ValidMatch(ms[i], |off| - 1) && SameMatch(off, locs[i], ms[i]) && SameNames(names, GroupNames(ms[i].groups))
  }

  /** References resolve alike under both naming conventions. */
  lemma SameNamesResolveAlike(m: MatchView, m': MatchView, name: Bytes)
    requires m' == m.(names := m'.names) && SameNames(m.names, m'.names) && |m.names| == |m.groups|
    ensures GroupByName(m, name) == GroupByName(m', name)
  {
    if m.names != m'.names {
      RenumberedResolveAlike(m, m', name);
    }
  }

  lemma RenumberedResolveAlike(m: MatchView, m': MatchView, name: Bytes)
    requires m' == m.(names := m'.names) && Renumbered(m.names, m'.names) && |m.names| == |m.groups|
    ensures GroupByName(m, name) == GroupByName(m', name)
  {
    NameIndexFinds(m.names, name);
    NameIndexFinds(m'.names, name);
    if AllDigits(name) {
      NumberResolvesAsIndex(m', name);
      assert NameIndex(m.names, name) == None;
    } else {
      forall g | 0 <= g < |m.names| ensures m.names[g] == name <==> m'.names[g] == name || (name == [] == m.names[g]) {
        DecimalInverse(g);
      }
      if i :| 0 <= i < |m.names| && m.names[i] == name && name != [] {
        var j := NameIndex(m.names, name).value;
        assert forall k :: 0 <= k < j ==> m.names[k] in m.names[..j];
        assert name !in m'.names[..j];
        NameIndexIsFirst(m'.names, name, j);
      } else {
        assert name != [] ==> name !in m'.names;
      }
    }
  }

  /** A number written as a name names, if anything, the group with that number. */
  lemma NumberResolvesAsIndex(m: MatchView, name: Bytes)
    requires AllDigits(name) && |m.names| == |m.groups| <= SATURATED
    requires forall g :: 0 <= g < |m.names| && m.names[g] == name ==> m.names[g] == Decimal(g)
    ensures GroupByName(m, name) == Group(m, Saturating(name))
  {
    NameIndexFinds(m.names, name);
    match NameIndex(m.names, name)
    case Some(i) => DecimalInverse(i);
    case None =>
  }

  lemma SameCapture(input: Bytes, runes: seq<Scalar>, off: seq<nat>, loc: Loc, m: RuneMatch, g: nat)
    requires IsOffsetTable(input, runes, off) && ValidMatch(m, |runes|) && SameMatch(off, loc, m) && g < |m.groups|
    requires Captured(loc, g)
    ensures GroupStart(loc, g) <= GroupEnd(loc, g) <= |input|
    ensures input[GroupStart(loc, g)..GroupEnd(loc, g)] == GroupText(runes, m.groups[g])
  {
    assert SameGroup(off, loc, m, g);
    assert CutsAt(input, runes, off, m.groups[g].index, m.groups[g].index + m.groups[g].length);
  }

  lemma SameLoc(input: Bytes, runes: seq<Scalar>, off: seq<nat>, loc: Loc, m: RuneMatch)
    requires IsOffsetTable(input, runes, off) && ValidMatch(m, |runes|) && SameMatch(off, loc, m)
    ensures ValidLoc(loc, |input|, |m.groups|)
  {
    assert CutsAt(input, runes, off, m.index, m.index + m.length);
    forall g | 0 <= g < |m.groups| && Captured(loc, g) ensures GroupStart(loc, g) <= GroupEnd(loc, g) <= |input| {
      SameCapture(input, runes, off, loc, m, g);
    }
  }

  lemma SameCaptures(input: Bytes, runes: seq<Scalar>, off: seq<nat>, loc: Loc, m: RuneMatch)
    requires IsOffsetTable(input, runes, off) && ValidMatch(m, |runes|) && SameMatch(off, loc, m)
    requires ValidLoc(loc, |input|, |m.groups|)
    ensures ByteCaptures(input, loc, |m.groups|) == RuneCaptures(runes, m)
  {
    forall g | 0 <= g < |m.groups| ensures ByteCapture(input, loc, |m.groups|, g) == RuneCapture(runes, m, g) {
      assert SameGroup(off, loc, m, g);
      if Captured(loc, g) {
        SameCapture(input, runes, off, loc, m, g);
      }
    }
  }

  /** The two views of a match differ in how groups are named, and in nothing else. */
  lemma SameViews(input: Bytes, runes: seq<Scalar>, off: seq<nat>, loc: Loc, names: seq<Bytes>, m: RuneMatch)
    requires IsOffsetTable(input, runes, off) && ValidMatch(m, |runes|) && SameMatch(off, loc, m)
    requires |names| == |m.groups| && ValidLoc(loc, |input|, |names|)
    ensures RuneView(input, runes, m) == ByteView(input, loc, names).(names := GroupNames(m.groups))
  {
    SameCaptures(input, runes, off, loc, m);
    HeadsAgree(input, runes, off, m.index);
    assert CutsAt(input, runes, off, m.index, m.index + m.length);
    TailsAgree(input, runes, off, m.index + m.length);
  }

  lemma HeadsAgree(input: Bytes, runes: seq<Scalar>, off: seq<nat>, k: nat)
    requires IsOffsetTable(input, runes, off) && k <= |runes|
    ensures off[k] <= |input| && input[..off[k]] == EncodeAll(runes[..k])
  {
    assert CutsAt(input, runes, off, 0, k);
    assert runes[0..k] == runes[..k];
  }

  lemma TailsAgree(input: Bytes, runes: seq<Scalar>, off: seq<nat>, k: nat)
    requires IsOffsetTable(input, runes, off) && k <= |runes|
    ensures off[k] <= |input| && input[off[k]..] == EncodeAll(runes[k..])
  {
    assert CutsAt(input, runes, off, k, |runes|);
    assert runes[k..|runes|] == runes[k..];
  }

  lemma SameExpansion(repl: Bytes, v: MatchView, v': MatchView)
    requires v' == v.(names := v'.names) && SameNames(v.names, v'.names) && |v.names| == |v.groups|
    ensures Expanded(repl, v) == Expanded(repl, v')
  {
    forall name ensures GroupByName(v, name) == GroupByName(v', name) {
      SameNamesResolveAlike(v, v', name);
    }
    ExpansionDependsOnLookups(repl, v, v');
  }

  lemma SameMatchSameExpansion(input: Bytes, runes: seq<Scalar>, off: seq<nat>, loc: Loc, names: seq<Bytes>,
                               m: RuneMatch, repl: Bytes)
    requires IsOffsetTable(input, runes, off) && ValidMatch(m, |runes|) && SameMatch(off, loc, m)
    requires SameNames(names, GroupNames(m.groups)) && ValidLoc(loc, |input|, |names|)
    ensures Expanded(repl, ByteView(input, loc, names)) == Expanded(repl, RuneView(input, runes, m))
  {
    SameViews(input, runes, off, loc, names, m);
    SameExpansion(repl, ByteView(input, loc, names), RuneView(input, runes, m));
  }

  /** Ordered rune matches have ordered byte offsets. */
  lemma SameMatchesAreValid(input: Bytes, runes: seq<Scalar>, off: seq<nat>, locs: seq<Loc>, names: seq<Bytes>,
                            ms: seq<RuneMatch>)
    requires IsOffsetTable(input, runes, off) && ValidMatches(ms, |runes|) && SameMatches(off, locs, names, ms)
    ensures ValidLocs(locs, |input|, |names|)
    ensures forall i :: 0 <= i <= |ms| ==> ByteTail(locs, i) == off[RuneTail(ms, i)]
  {
    forall i | 0 <= i < |ms| ensures ValidLoc(locs[i], |input|, |names|) {
      SameLoc(input, runes, off, locs[i], ms[i]);
    }
    forall i | 0 <= i <= |ms| ensures ByteTail(locs, i) == off[RuneTail(ms, i)] {
      assert i > 0 ==> SameMatch(off, locs[i - 1], ms[i - 1]);
    }
    forall i | 0 <= i < |ms| ensures ByteTail(locs, i) <= locs[i][0] {
      assert SameMatch(off, locs[i], ms[i]);
      assert CutsAt(input, runes, off, RuneTail(ms, i), ms[i].index);
    }
  }

  lemma PiecesAgree(input: Bytes, runes: seq<Scalar>, off: seq<nat>, locs: seq<Loc>, names: seq<Bytes>,
                    ms: seq<RuneMatch>, repl: Bytes, i: nat)
    requires IsOffsetTable(input, runes, off) && ValidMatches(ms, |runes|) && SameMatches(off, locs, names, ms)
    requires i < |ms| && ValidLocs(locs, |input|, |names|)
    ensures BytePiece(input, locs, names, repl, i) == RunePiece(input, runes, ms, repl, i)
  {
    SameMatchesAreValid(input, runes, off, locs, names, ms);
    assert SameMatch(off, locs[i], ms[i]);
    var tail := RuneTail(ms, i);
    assert CutsAt(input, runes, off, tail, ms[i].index);
    SameMatchSameExpansion(input, runes, off, locs[i], names, ms[i], repl);
  }

  /**
   On well-formed text the byte loop and the rune loop produce the same text, for every list of
   matches that the two engines report alike.
   */
  lemma SplicesAgree(runes: seq<Scalar>, locs: seq<Loc>, names: seq<Bytes>, ms: seq<RuneMatch>, repl: Bytes)
    requires ValidMatches(ms, |runes|) && SameMatches(Offsets(runes), locs, names, ms)
    ensures ValidLocs(locs, |EncodeAll(runes)|, |names|)
    ensures SplicedBytes(EncodeAll(runes), locs, names, repl) == SplicedRunes(EncodeAll(runes), runes, ms, repl)
  {
    OffsetsAreTable(runes);
    SplicesAgreeAt(EncodeAll(runes), runes, Offsets(runes), locs, names, ms, repl);
  }

  lemma SplicesAgreeAt(input: Bytes, runes: seq<Scalar>, off: seq<nat>, locs: seq<Loc>, names: seq<Bytes>,
                       ms: seq<RuneMatch>, repl: Bytes)
    requires IsOffsetTable(input, runes, off) && ValidMatches(ms, |runes|) && SameMatches(off, locs, names, ms)
    ensures ValidLocs(locs, |input|, |names|)
    ensures SplicedBytes(input, locs, names, repl) == SplicedRunes(input, runes, ms, repl)
  {
    SameMatchesAreValid(input, runes, off, locs, names, ms);
    PieceListsAgree(input, runes, off, locs, names, ms, repl);
    TailsAgree(input, runes, off, RuneTail(ms, |ms|));
  }

  lemma PieceListsAgree(input: Bytes, runes: seq<Scalar>, off: seq<nat>, locs: seq<Loc>, names: seq<Bytes>,
                        ms: seq<RuneMatch>, repl: Bytes)
    requires IsOffsetTable(input, runes, off) && ValidMatches(ms, |runes|) && SameMatches(off, locs, names, ms)
    requires ValidLocs(locs, |input|, |names|)
    ensures BytePieces(input, locs, names, repl) == RunePieces(input, runes, ms, repl)
  {
    forall i | 0 <= i < |ms| ensures BytePiece(input, locs, names, repl, i) == RunePiece(input, runes, ms, repl, i) {
      PiecesAgree(input, runes, off, locs, names, ms, repl, i);
    }
  }

  // ----- The identity replacements

  const WHOLE_MATCH: Bytes := [DOLLAR, AMPERSAND]
  const GROUP_ZERO: Bytes := [DOLLAR, ZERO]
  const BRACED_ZERO: Bytes := [DOLLAR, LEFT_BRACE, ZERO, RIGHT_BRACE]

  /** The group that `${0}` refers to: the first one named "0", and the whole match when none is. */
  function ZeroGroup(names: seq<Bytes>): (g: nat)
    requires names != []
    ensures g < |names| && (names[g] == [ZERO] || (g == 0 && [ZERO] !in names))
  {
    NameIndexFinds(names, [ZERO]);
    NameIndex(names, [ZERO]).GetOr(0)
  }

  /** If a group is named "0", the whole match is. */
  predicate ZeroIsWhole(names: seq<Bytes>)
    requires names != []
  {
    [ZERO] in names ==> names[0] == [ZERO]
  }

  lemma ZeroGroupIff(names: seq<Bytes>)
    requires names != []
    ensures ZeroGroup(names) == 0 <==> ZeroIsWhole(names)
  {
    if [ZERO] in names && names[0] == [ZERO] {
      assert [ZERO] !in names[..0];
      NameIndexIsFirst(names, [ZERO], 0);
    }
  }

  lemma OneToken(repl: Bytes, m: MatchView)
    requires repl != [] && |Source(NextToken(repl))| == |repl|
    ensures Expanded(repl, m) == Render(NextToken(repl), m)
  {
    assert repl[|repl|..] == [];
  }

  lemma ZeroIsZero()
    ensures AllDigits([ZERO]) && Saturating([ZERO]) == 0
  {
    var digits: Bytes := [ZERO];
    assert DecimalValue(digits[..0]) == 0;
  }

  lemma WholeMatchStands(m: MatchView)
    ensures Expanded(WHOLE_MATCH, m) == m.whole
  {
    assert NextToken(WHOLE_MATCH) == Special(AMPERSAND);
    OneToken(WHOLE_MATCH, m);
  }

  lemma GroupZeroStands(m: MatchView)
    requires m.groups != []
    ensures Expanded(GROUP_ZERO, m) == m.groups[0]
  {
    var digits: Bytes := [ZERO];
    assert GROUP_ZERO[1..] == digits && digits[..1] == digits;
    assert DigitRun(digits) == 1;
    assert NextToken(GROUP_ZERO) == Numbered(digits);
    ZeroIsZero();
    OneToken(GROUP_ZERO, m);
  }

  lemma BracedZeroStands(m: MatchView)
    requires m.groups != [] && |m.names| == |m.groups|
    ensures Expanded(BRACED_ZERO, m) == m.groups[ZeroGroup(m.names)]
  {
    var digits: Bytes := [ZERO];
    assert CloseBrace(BRACED_ZERO[2..]) == 1;
    assert BRACED_ZERO[2..][..1] == digits;
    assert NextToken(BRACED_ZERO) == Braced(digits);
    ZeroIsZero();
    OneToken(BRACED_ZERO, m);
  }

  /** `$&` and `$0` stand for the match itself, and `${0}` for the first group named "0", else for the match. */
  lemma IdentityReplacements(m: MatchView)
    requires m.groups != [] && m.groups[0] == m.whole && |m.names| == |m.groups|
    ensures Expanded(WHOLE_MATCH, m) == m.whole && Expanded(GROUP_ZERO, m) == m.whole
    ensures Expanded(BRACED_ZERO, m) == m.groups[ZeroGroup(m.names)]
  {
    WholeMatchStands(m);
    GroupZeroStands(m);
    BracedZeroStands(m);
  }

  /** A replacement that stands for each match itself. */
  lemma IdentityAt(input: Bytes, loc: Loc, names: seq<Bytes>, repl: Bytes)
    requires ValidLoc(loc, |input|, |names|) && repl in {WHOLE_MATCH, GROUP_ZERO, BRACED_ZERO}
    requires repl == BRACED_ZERO ==> ZeroIsWhole(names)
    ensures Expanded(repl, ByteView(input, loc, names)) == input[loc[0]..loc[1]]
  {
    assert Captured(loc, 0);
    IdentityReplacements(ByteView(input, loc, names));
    ZeroGroupIff(names);
  }

  /** Group `g` of a byte match: what it captured, or nothing. */
  lemma GroupOnMatch(input: Bytes, loc: Loc, names: seq<Bytes>, g: nat)
    requires ValidLoc(loc, |input|, |names|) && g < |names|
    ensures ByteView(input, loc, names).groups[g]
         == if Captured(loc, g) then input[loc[2 * g]..loc[2 * g + 1]] else []
  {
  }

  /** A numbered reference, for a byte match: the text its group captured, nothing when it did not take part. */
  lemma NumberedOnMatch(input: Bytes, loc: Loc, names: seq<Bytes>, n: nat)
    requires ValidLoc(loc, |input|, |names|) && n < |names| <= 0x10_0000
    ensures Expanded([DOLLAR] + Decimal(n) + [], ByteView(input, loc, names))
         == if Captured(loc, n) then input[loc[2 * n]..loc[2 * n + 1]] else []
  {
    GroupNumberStands(n, [], ByteView(input, loc, names));
    GroupOnMatch(input, loc, names, n);
  }

  /** The last-group reference, for a byte match: the text of the group after which no other took part. */
  lemma LastGroupOnMatch(input: Bytes, loc: Loc, names: seq<Bytes>, g: nat)
    requires ValidLoc(loc, |input|, |names|)
    requires g < |names| && (g == 0 || Captured(loc, g)) && forall h :: g < h < |names| ==> !Captured(loc, h)
    ensures Expanded([36, 43] + [], ByteView(input, loc, names))
         == if g == 0 then [] else input[loc[2 * g]..loc[2 * g + 1]]
  {
    LastGroupIs(input, loc, names, g);
    LastGroupStands(ByteView(input, loc, names));
  }

  lemma LastGroupStands(m: MatchView)
    ensures Expanded([36, 43] + [], m) == m.lastCaptured
  {
    SpecialStep(43, [], m);
    assert m.lastCaptured + [] == m.lastCaptured;
  }

  lemma LastGroupIs(input: Bytes, loc: Loc, names: seq<Bytes>, g: nat)
    requires ValidLoc(loc, |input|, |names|)
    requires g < |names| && (g == 0 || Captured(loc, g)) && forall h :: g < h < |names| ==> !Captured(loc, h)
    ensures ByteView(input, loc, names).lastCaptured == if g == 0 then [] else input[loc[2 * g]..loc[2 * g + 1]]
  {
    var captures := ByteCaptures(input, loc, |names|);
    if g == 0 {
      NoLastCapture(captures);
    } else {
      LastCaptureIs(captures, g);
    }
  }

  lemma {:induction false} NoLastCapture(captures: seq<Option<Bytes>>)
    requires forall h :: 1 <= h < |captures| ==> captures[h].None?
    ensures LastCapture(captures) == []
  {
    if |captures| > 1 {
      NoLastCapture(captures[..|captures| - 1]);
    }
  }

  lemma ThreeSpecials(m: MatchView)
    ensures Expanded([DOLLAR, BACKTICK] + ([DOLLAR, AMPERSAND] + ([DOLLAR, QUOTE] + [])), m)
         == m.left + (m.whole + (m.right + []))
  {
    SpecialStep(QUOTE, [], m);
    SpecialStep(AMPERSAND, [DOLLAR, QUOTE] + [], m);
    SpecialStep(BACKTICK, [DOLLAR, AMPERSAND] + ([DOLLAR, QUOTE] + []), m);
  }

  lemma ThreeSlices(s: Bytes, a: int, b: int)
    requires 0 <= a <= b <= |s|
    ensures s[..a] + (s[a..b] + (s[b..] + [])) == s
  {
  }

  /** The text before the match, the match and the text after it make up the input, as does `$_`. */
  lemma SurroundingsReassemble(input: Bytes, loc: Loc, names: seq<Bytes>)
    requires ValidLoc(loc, |input|, |names|)
    ensures var m := ByteView(input, loc, names);
      && Expanded([DOLLAR, BACKTICK] + ([DOLLAR, AMPERSAND] + ([DOLLAR, QUOTE] + [])), m) == input
      && Expanded([DOLLAR, UNDERSCORE] + [], m) == input
  {
    var m := ByteView(input, loc, names);
    ThreeSpecials(m);
    ThreeSlices(input, loc[0], loc[1]);
    SpecialStep(UNDERSCORE, [], m);
    assert m.input + [] == input;
  }

  lemma KeptSplice(input: Bytes, locs: seq<Loc>, names: seq<Bytes>, repl: Bytes)
    requires ValidLocs(locs, |input|, |names|)
    requires forall k :: 0 <= k < |locs| ==>
      Expanded(repl, ByteView(input, locs[k], names)) == input[locs[k][0]..locs[k][1]]
    ensures SplicedBytes(input, locs, names, repl) == input
  {
    forall k | 0 <= k < |locs|
      ensures IsSlice(BytePiece(input, locs, names, repl, k), input, ByteTail(locs, k), ByteTail(locs, k + 1))
    {
      TwoSlices(input, ByteTail(locs, k), locs[k][0], locs[k][1]);
    }
    CutsJoin(input, BytePieces(input, locs, names, repl), locs);
    PrefixAndRest(input, ByteTail(locs, |locs|));
  }

  /** Replacing every match by `$&` or `$0` gives the text back. */
  lemma IdentitySplice(input: Bytes, locs: seq<Loc>, names: seq<Bytes>, repl: Bytes)
    requires ValidLocs(locs, |input|, |names|) && repl in {WHOLE_MATCH, GROUP_ZERO}
    ensures SplicedBytes(input, locs, names, repl) == input
  {
    forall k | 0 <= k < |locs|
      ensures Expanded(repl, ByteView(input, locs[k], names)) == input[locs[k][0]..locs[k][1]]
    {
      IdentityAt(input, locs[k], names, repl);
    }
    KeptSplice(input, locs, names, repl);
  }

  lemma BracedZeroKeeps(input: Bytes, locs: seq<Loc>, names: seq<Bytes>)
    requires names != [] && ZeroIsWhole(names) && ValidLocs(locs, |input|, |names|)
    ensures SplicedBytes(input, locs, names, BRACED_ZERO) == input
  {
    forall k | 0 <= k < |locs|
      ensures Expanded(BRACED_ZERO, ByteView(input, locs[k], names)) == input[locs[k][0]..locs[k][1]]
    {
      IdentityAt(input, locs[k], names, BRACED_ZERO);
    }
    KeptSplice(input, locs, names, BRACED_ZERO);
  }

  /** One match of a whole text. */
  lemma WholeTextSplice(input: Bytes, loc: Loc, names: seq<Bytes>, repl: Bytes)
    requires ValidLoc(loc, |input|, |names|) && loc[0] == 0 && loc[1] == |input|
    ensures ValidLocs([loc], |input|, |names|)
    ensures SplicedBytes(input, [loc], names, repl) == Expanded(repl, ByteView(input, loc, names))
  {
    var piece := BytePiece(input, [loc], names, repl, 0);
    assert BytePieces(input, [loc], names, repl) == [piece];
    FlatOne(piece);
    OnlyMiddle(input, Expanded(repl, ByteView(input, loc, names)));
  }

  lemma FlatOne(piece: Bytes)
    ensures Flat([piece]) == piece
  {
    assert [piece][..0] == [];
  }

  lemma OnlyMiddle(s: Bytes, t: Bytes)
    ensures s[0..0] + t + s[|s|..] == t
  {
  }

  /** A match of a whole text of `n` bytes in which no group took part. */
  function Lonely(n: nat, groups: nat): Loc
    requires groups >= 1
  {
    var others: seq<int> := seq(2 * groups - 2, i => -1);
    [0, n as int] + others
  }

  lemma LonelyIsValid(n: nat, groups: nat)
    requires groups >= 1
    ensures ValidLoc(Lonely(n, groups), n, groups)
    ensures forall g :: 1 <= g < groups ==> !Captured(Lonely(n, groups), g)
  {
  }

  /** Where a numbered group is the first named "0", `${0}` can lose a match: a text of one byte comes out empty. */
  lemma BracedZeroLoses(names: seq<Bytes>)
    requires names != [] && !ZeroIsWhole(names)
    ensures ValidLocs([Lonely(1, |names|)], 1, |names|)
    ensures SplicedBytes([97], [Lonely(1, |names|)], names, BRACED_ZERO) == []
  {
    var input: Bytes := [97];
    var loc := Lonely(1, |names|);
    LonelyIsValid(1, |names|);
    WholeTextSplice(input, loc, names, BRACED_ZERO);
    ZeroGroupIff(names);
    IdentityReplacements(ByteView(input, loc, names));
  }

  /** Replacing every match by `${0}` gives every text back exactly when no numbered group is the first named "0". */
  lemma BracedZeroSpliceIff(names: seq<Bytes>)
    requires names != []
    ensures (forall input: Bytes, locs :: ValidLocs(locs, |input|, |names|) ==>
              SplicedBytes(input, locs, names, BRACED_ZERO) == input)
       <==> ZeroIsWhole(names)
  {
    if ZeroIsWhole(names) {
      forall input: Bytes, locs | ValidLocs(locs, |input|, |names|)
        ensures SplicedBytes(input, locs, names, BRACED_ZERO) == input
      {
        BracedZeroKeeps(input, locs, names);
      }
    } else {
      BracedZeroLoses(names);
      var input: Bytes := [97];
      assert SplicedBytes(input, [Lonely(1, |names|)], names, BRACED_ZERO) != input;
    }
  }

  /** The pattern `(?P<0>a)b` on "ab": what comes out is the group, not the match. */
  lemma NamedZeroIsTaken()
    ensures ValidLocs([[0, 2, 0, 1]], 2, 2)
    ensures SplicedBytes([97, 98], [[0, 2, 0, 1]], [[], [ZERO]], BRACED_ZERO) == [97]
  {
    var input: Bytes := [97, 98];
    var names: seq<Bytes> := [[], [ZERO]];
    var loc: Loc := [0, 2, 0, 1];
    WholeTextSplice(input, loc, names, BRACED_ZERO);
    ZeroGroupIff(names);
    IdentityReplacements(ByteView(input, loc, names));
    assert ByteCapture(input, loc, 2, 1) == Some(input[0..1]);
  }

  lemma CutsJoin(input: Bytes, pieces: seq<Bytes>, locs: seq<Loc>)
    requires |pieces| == |locs| && forall k :: 0 <= k < |locs| ==> |locs[k]| >= 2
    requires forall k :: 0 <= k < |locs| ==> IsSlice(pieces[k], input, ByteTail(locs, k), ByteTail(locs, k + 1))
    ensures 0 <= ByteTail(locs, |locs|) <= |input| && Flat(pieces) == input[..ByteTail(locs, |locs|)]
  {
    var cuts := seq(|locs| + 1, i requires 0 <= i <= |locs| => ByteTail(locs, i));
    SlicesJoin(input, pieces, cuts, |locs|);
    assert pieces[..|locs|] == pieces;
  }

  predicate IsSlice(piece: Bytes, s: Bytes, lo: int, hi: int) {
    0 <= lo <= hi <= |s| && piece == s[lo..hi]
  }

  /** Consecutive slices of a text, joined, are the text up to the last cut. */
  lemma {:induction false} SlicesJoin(input: Bytes, pieces: seq<Bytes>, cuts: seq<int>, i: nat)
    requires |cuts| == |pieces| + 1 && cuts[0] == 0 && i <= |pieces|
    requires forall k :: 0 <= k < |pieces| ==> IsSlice(pieces[k], input, cuts[k], cuts[k + 1])
    ensures 0 <= cuts[i] <= |input|
    ensures Flat(pieces[..i]) == input[..cuts[i]]
  {
    if i > 0 {
      SlicesJoin(input, pieces, cuts, i - 1);
      JoinedNext(pieces, i - 1);
      PrefixAndSlice(input, cuts[i - 1], cuts[i]);
    }
  }

  lemma OnePieceMore(b: Bytes, piece: Bytes, pieces: seq<Bytes>, i: nat)
    requires i < |pieces| && b == Flat(pieces[..i]) && piece == pieces[i]
    ensures b + piece == Flat(pieces[..i + 1])
  {
    JoinedNext(pieces, i);
  }

  lemma JoinedNext(pieces: seq<Bytes>, i: nat)
    requires i < |pieces|
    ensures Flat(pieces[..i + 1]) == Flat(pieces[..i]) + pieces[i]
  {
    assert pieces[..i + 1][..i] == pieces[..i];
  }

  lemma PrefixAndSlice(s: Bytes, a: int, b: int)
    requires 0 <= a <= b <= |s|
    ensures s[..a] + s[a..b] == s[..b]
  {
  }

  lemma PrefixAndRest(s: Bytes, a: int)
    requires 0 <= a <= |s|
    ensures s[..a] + s[a..] == s
  {
  }

  lemma TwoSlices(s: Bytes, a: int, b: int, c: int)
    requires 0 <= a <= b <= c <= |s|
    ensures s[a..b] + s[b..c] == s[a..c]
  {
  }
}
