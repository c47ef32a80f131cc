/** .NET custom date layouts, translated to Go's. */
module DateLayout {
  // A .NET custom date layout becomes a Go reference layout, one greedy token at a time. Every .NET
  // token in the table is a run of one letter, so it is written here as that letter and the length of
  // the run, in the table's own order.

  import opened Wrappers

  /** A table row: the .NET token `count` times `letter`, and its Go reference form. */
  datatype NetToken = NetToken(letter: char, count: nat, goRef: string)

  const NET_TOKENS: seq<NetToken> := [
    NetToken('y', 4, "2006"), NetToken('y', 3, "2006"), NetToken('y', 2, "06"), NetToken('y', 1, "06"),
    NetToken('M', 4, "January"), NetToken('M', 3, "Jan"), NetToken('M', 2, "01"), NetToken('M', 1, "1"),
    NetToken('d', 4, "Monday"), NetToken('d', 3, "Mon"), NetToken('d', 2, "02"), NetToken('d', 1, "2"),
    NetToken('H', 2, "15"), NetToken('H', 1, "15"),
    NetToken('h', 2, "03"), NetToken('h', 1, "3"),
    NetToken('m', 2, "04"), NetToken('m', 1, "4"),
    NetToken('s', 2, "05"), NetToken('s', 1, "5"),
    NetToken('t', 2, "PM"), NetToken('t', 1, "PM"),
    NetToken('f', 7, ".0000000"), NetToken('f', 6, ".000000"), NetToken('f', 5, ".00000"), NetToken('f', 4, ".0000"),
    NetToken('f', 3, ".000"), NetToken('f', 2, ".00"), NetToken('f', 1, ".0"),
    NetToken('F', 7, ".9999999"), NetToken('F', 6, ".999999"), NetToken('F', 5, ".99999"), NetToken('F', 4, ".9999"),
    NetToken('F', 3, ".999"), NetToken('F', 2, ".99"), NetToken('F', 1, ".9"),
    NetToken('z', 3, "-07:00"), NetToken('z', 2, "-07"),
    NetToken('K', 1, "Z07:00")]

  const FORMAT_LETTERS := "yMdHhmstfFzK"
  const UNSUPPORTED_LETTERS := "gQ"

  predicate IsFormatLetter(c: char) { c in FORMAT_LETTERS }

  predicate IsUnsupported(c: char) { c in UNSUPPORTED_LETTERS }

  /** How often a text repeats a character at the start. */
  function Run(s: string, c: char): (n: nat)
    ensures n <= |s| && forall i :: 0 <= i < n ==> s[i] == c
    ensures n < |s| ==> s[n] != c
  {
    if s == "" || s[0] != c then 0 else 1 + Run(s[1..], c)
  }

  /** The .NET token is a prefix of the text. */
  predicate Prefixes(t: NetToken, s: string) {
    t.count <= Run(s, t.letter)
  }

  // ----- The table

  /** The longest and shortest runs of a letter that the table knows. */
  function Longest(c: char): nat {
    if c in "yMd" then 4 else if c in "fF" then 7 else if c == 'z' then 3 else if c == 'K' then 1 else 2
  }

  function Shortest(c: char): nat {
    if c == 'z' then 2 else 1
  }

  /** Every row has a format letter and a run between the shortest and the longest. */
  predicate RowOk(t: NetToken) {
    IsFormatLetter(t.letter) && Shortest(t.letter) <= t.count <= Longest(t.letter)
  }

  /** Where the rows of a letter start. */
  function Block(c: char): nat {
    if c == 'y' then 0 else if c == 'M' then 4 else if c == 'd' then 8 else if c == 'H' then 12
    else if c == 'h' then 14 else if c == 'm' then 16 else if c == 's' then 18 else if c == 't' then 20
    else if c == 'f' then 22 else if c == 'F' then 29 else if c == 'z' then 36 else 38
  }

  /** Row `i` is a row of its letter, and the rows of a letter count down from the longest run. */
  predicate RowInPlace(table: seq<NetToken>, i: nat)
    requires i < |table|
  {
    RowOk(table[i]) && i == Block(table[i].letter) + (Longest(table[i].letter) - table[i].count)
  }

  /** Every run of a format letter between the shortest and the longest has its row. */
  predicate RowPresent(table: seq<NetToken>, c: char, n: nat) {
    IsFormatLetter(c) && Shortest(c) <= n <= Longest(c) ==>
      var i := Block(c) + (Longest(c) - n); i < |table| && table[i].letter == c && table[i].count == n
  }

  /** What the translator needs to know of its table. */
  ghost predicate GoodTable(table: seq<NetToken>) {
    && (forall i: nat :: i < |table| ==> RowInPlace(table, i))
    && (forall c, n: nat :: RowPresent(table, c, n))
  }

  lemma YearMonthRows(i: nat)
    requires i < 8
    ensures RowInPlace(NET_TOKENS, i)
  {
  }

  lemma DayHourRows(i: nat)
    requires 8 <= i < 14
    ensures RowInPlace(NET_TOKENS, i)
  {
  }

  lemma MinuteSecondRows(i: nat)
    requires 14 <= i < 20
    ensures RowInPlace(NET_TOKENS, i)
  {
  }

  lemma HalfRows(i: nat)
    requires 20 <= i < 26
    ensures RowInPlace(NET_TOKENS, i)
  {
  }

  lemma FractionRows(i: nat)
    requires 26 <= i < 33
    ensures RowInPlace(NET_TOKENS, i)
  {
  }

  lemma ZoneRows(i: nat)
    requires 33 <= i < |NET_TOKENS|
    ensures RowInPlace(NET_TOKENS, i)
  {
  }

  /** The letter of the rows at an index. */
  function LetterAt(i: nat): char {
    if i < 4 then 'y' else if i < 8 then 'M' else if i < 12 then 'd' else if i < 14 then 'H'
    else if i < 16 then 'h' else if i < 18 then 'm' else if i < 20 then 's' else if i < 22 then 't'
    else if i < 29 then 'f' else if i < 36 then 'F' else if i < 38 then 'z' else 'K'
  }

  lemma InItsBlock(c: char, n: nat)
    requires IsFormatLetter(c) && Shortest(c) <= n <= Longest(c)
    ensures Block(c) + (Longest(c) - n) < 39 && LetterAt(Block(c) + (Longest(c) - n)) == c
  {
  }

  /** Rows in their places leave no gap. */
  lemma NoGap(table: seq<NetToken>, c: char, n: nat)
    requires |table| == 39 && forall i: nat :: i < |table| ==> RowInPlace(table, i)
    ensures RowPresent(table, c, n)
  {
    if IsFormatLetter(c) && Shortest(c) <= n <= Longest(c) {
      InItsBlock(c, n);
      var i := Block(c) + (Longest(c) - n);
      assert RowInPlace(table, i);
      InItsBlock(table[i].letter, table[i].count);
    }
  }

  lemma NetTokensAreGood()
    ensures GoodTable(NET_TOKENS)
  {
    RowsAreInPlace();
    forall c, n: nat
      ensures RowPresent(NET_TOKENS, c, n)
    {
      NoGap(NET_TOKENS, c, n);
    }
  }

  lemma RowsAreInPlace()
    ensures |NET_TOKENS| == 39 && forall i: nat :: i < |NET_TOKENS| ==> RowInPlace(NET_TOKENS, i)
  {
    forall i: nat | i < |NET_TOKENS|
      ensures RowInPlace(NET_TOKENS, i)
    {
      if i < 8 {
        YearMonthRows(i);
      } else if i < 14 {
        DayHourRows(i);
      } else if i < 20 {
        MinuteSecondRows(i);
      } else if i < 26 {
        HalfRows(i);
      } else if i < 33 {
        FractionRows(i);
      } else {
        ZoneRows(i);
      }
    }
  }

  // ----- Matching

  /** The first row from `i` on that prefixes the text. */
  function MatchFrom(table: seq<NetToken>, s: string, i: nat): Option<NetToken>
    requires i <= |table|
    decreases |table| - i
  {
    if i == |table| then None
    else if Prefixes(table[i], s) then Some(table[i])
    else MatchFrom(table, s, i + 1)
  }

  function Match(table: seq<NetToken>, s: string): Option<NetToken> {
    MatchFrom(table, s, 0)
  }

  method MatchToken(table: seq<NetToken>, s: string) returns (r: Option<NetToken>)
    ensures r == Match(table, s)
  {
    for i := 0 to |table|
      invariant Match(table, s) == MatchFrom(table, s, i)
    {
      if Prefixes(table[i], s) {
        return Some(table[i]);
      }
    }
    r := None;
  }

  /** Row `j` is the first from `i` on that prefixes the text. */
  predicate FirstAt(table: seq<NetToken>, s: string, i: nat, j: nat) {
    i <= j < |table| && Prefixes(table[j], s) && forall k :: i <= k < j ==> !Prefixes(table[k], s)
  }

  lemma {:induction false} MatchFromFinds(table: seq<NetToken>, s: string, i: nat) returns (j: nat)
    requires i <= |table|
    ensures MatchFrom(table, s, i).None? ==> forall k :: i <= k < |table| ==> !Prefixes(table[k], s)
    ensures MatchFrom(table, s, i).Some? ==> FirstAt(table, s, i, j) && table[j] == MatchFrom(table, s, i).value
    decreases |table| - i
  {
    if i < |table| && !Prefixes(table[i], s) {
      j := MatchFromFinds(table, s, i + 1);
    } else {
      j := i;
    }
  }

  /** A row can only prefix a text that starts with its letter. */
  lemma PrefixHasLetter(t: NetToken, s: string)
    requires RowOk(t) && Prefixes(t, s)
    ensures s != "" && s[0] == t.letter
  {
  }

  /** The matched token is a row, prefixes the text, and is the longest row that does. */
  lemma MatchIsLongest(table: seq<NetToken>, s: string)
    requires GoodTable(table) && Match(table, s).Some?
    ensures var t := Match(table, s).value;
      t in table && RowOk(t) && Prefixes(t, s) && forall u :: u in table && Prefixes(u, s) ==> u.count <= t.count
  {
    var j := MatchFromFinds(table, s, 0);
    var t := table[j];
    assert RowInPlace(table, j);
    PrefixHasLetter(t, s);
    forall u | u in table && Prefixes(u, s) ensures u.count <= t.count {
      var k :| 0 <= k < |table| && table[k] == u;
      assert RowInPlace(table, k);
      PrefixHasLetter(u, s);
    }
  }

  /** How much of a run the match takes: as much as a row can. */
  function Taken(c: char, run: nat): nat {
    if run < Longest(c) then run else Longest(c)
  }

  /** A text that starts with a format letter is matched exactly when it does not start with a lone z. */
  lemma MatchTakes(table: seq<NetToken>, s: string)
    requires GoodTable(table) && s != "" && IsFormatLetter(s[0])
    ensures Match(table, s).Some? <==> Shortest(s[0]) <= Run(s, s[0])
    ensures Match(table, s).Some? ==>
      Match(table, s).value.letter == s[0] && Match(table, s).value.count == Taken(s[0], Run(s, s[0]))
  {
    var j := MatchFromFinds(table, s, 0);
    if Shortest(s[0]) <= Run(s, s[0]) {
      RowIsFound(table, s);
    }
    if Match(table, s).Some? {
      assert RowInPlace(table, j);
      PrefixHasLetter(table[j], s);
      MatchIsLongest(table, s);
    }
  }

  /** Some row takes as much of the run as a row can. */
  lemma RowIsFound(table: seq<NetToken>, s: string)
    requires GoodTable(table) && s != "" && IsFormatLetter(s[0]) && Shortest(s[0]) <= Run(s, s[0])
    ensures exists u :: u in table && Prefixes(u, s) && u.count == Taken(s[0], Run(s, s[0]))
  {
    var n := Taken(s[0], Run(s, s[0]));
    assert RowPresent(table, s[0], n);
    var i := Block(s[0]) + (Longest(s[0]) - n);
    assert table[i] in table;
  }

  // ----- Translation

  datatype Piece = Literal(c: char) | Token(t: NetToken)

  function Repeat(c: char, n: nat): string {
    if n == 0 then "" else [c] + Repeat(c, n - 1)
  }

  function Source(p: Piece): string {
    match p
    case Literal(c) => [c]
    case Token(t) => Repeat(t.letter, t.count)
  }

  function Output(p: Piece): string {
    match p
    case Literal(c) => [c]
    case Token(t) => t.goRef
  }

  function Length(p: Piece): nat {
    if p.Literal? then 1 else p.t.count
  }

  /** The first piece of a layout: a literal character or the first matching token; none when neither is allowed. */
  function FirstPiece(table: seq<NetToken>, s: string): Option<Piece>
    requires s != ""
  {
    if IsUnsupported(s[0]) then None
    else if !IsFormatLetter(s[0]) then Some(Literal(s[0]))
    else match Match(table, s)
         case None => None
         case Some(t) => Some(Token(t))
  }

  lemma FirstPieceFits(table: seq<NetToken>, s: string)
    requires GoodTable(table) && s != "" && FirstPiece(table, s).Some?
    ensures 1 <= Length(FirstPiece(table, s).value) <= |s|
  {
    if IsFormatLetter(s[0]) {
      MatchTakes(table, s);
    }
  }

  /** The pieces a layout is made of; none when some of it cannot be translated. */
  ghost function Pieces(table: seq<NetToken>, s: string): Option<seq<Piece>>
    requires GoodTable(table)
    decreases |s|
  {
    if s == "" then Some([]) else
    match FirstPiece(table, s)
    case None => None
    case Some(p) =>
      FirstPieceFits(table, s);
      match Pieces(table, s[Length(p)..])
      case None => None
      case Some(rest) => Some([p] + rest)
  }

  function Sources(ps: seq<Piece>): string {
    if ps == [] then "" else Source(ps[0]) + Sources(ps[1..])
  }

  function Outputs(ps: seq<Piece>): string {
    if ps == [] then "" else Output(ps[0]) + Outputs(ps[1..])
  }

  ghost function Translated(table: seq<NetToken>, s: string): Option<string>
    requires GoodTable(table)
  {
    match Pieces(table, s)
    case None => None
    case Some(ps) => Some(Outputs(ps))
  }

  /** The same, one piece at a time. */
  lemma TranslatedStep(table: seq<NetToken>, s: string)
    requires GoodTable(table) && s != ""
    ensures FirstPiece(table, s).None? ==> Translated(table, s) == None
    ensures FirstPiece(table, s).Some? ==> var p := FirstPiece(table, s).value;
      && 1 <= Length(p) <= |s|
      && Translated(table, s) == Prepended(Output(p), Translated(table, s[Length(p)..]))
  {
    if FirstPiece(table, s).Some? {
      FirstPieceFits(table, s);
      var p := FirstPiece(table, s).value;
      var rest := Pieces(table, s[Length(p)..]);
      if rest.Some? {
        assert ([p] + rest.value)[1..] == rest.value;
      }
    }
  }

  function Prepended(a: string, r: Option<string>): Option<string> {
    match r
    case None => None
    case Some(b) => Some(a + b)
  }

  lemma PrependedTwice(a: string, b: string, r: Option<string>)
    ensures Prepended(a, Prepended(b, r)) == Prepended(a + b, r)
    ensures Prepended("", r) == r
  {
    if r.Some? {
      assert a + (b + r.value) == a + b + r.value;
      assert "" + r.value == r.value;
    }
  }

  lemma {:induction false} RepeatIsRun(s: string, c: char, n: nat)
    requires n <= Run(s, c)
    ensures Repeat(c, n) == s[..n]
  {
    if n > 0 {
      RepeatIsRun(s[1..], c, n - 1);
      assert s[..n] == [s[0]] + s[1..][..n - 1];
    }
  }

  lemma FirstPieceSource(table: seq<NetToken>, s: string)
    requires GoodTable(table) && s != "" && FirstPiece(table, s).Some?
    ensures var p := FirstPiece(table, s).value; 1 <= Length(p) <= |s| && Source(p) == s[..Length(p)]
  {
    FirstPieceFits(table, s);
    var p := FirstPiece(table, s).value;
    if p.Token? {
      MatchTakes(table, s);
      RepeatIsRun(s, s[0], p.t.count);
    }
  }

  /** The pieces tile the layout: their own texts concatenate to it. */
  lemma {:induction false} PiecesTile(table: seq<NetToken>, s: string)
    requires GoodTable(table) && Pieces(table, s).Some?
    ensures Sources(Pieces(table, s).value) == s
    decreases |s|
  {
    if s != "" {
      FirstPieceSource(table, s);
      var p := FirstPiece(table, s).value;
      var n := Length(p);
      PiecesTile(table, s[n..]);
      SourcesCons(p, Pieces(table, s[n..]).value);
      TakeAndDrop(s, n);
    }
  }

  lemma SourcesCons(p: Piece, ps: seq<Piece>)
    ensures Sources([p] + ps) == Source(p) + Sources(ps)
  {
    assert ([p] + ps)[1..] == ps;
  }

  lemma TakeAndDrop(s: string, n: nat)
    requires n <= |s|
    ensures s[..n] + s[n..] == s
  {
  }

  // ----- The loop

  /** What is written followed by what the rest translates to: the loop below keeps it. */
  ghost function Outlook(table: seq<NetToken>, s: string, i: nat, written: string): Option<string>
    requires GoodTable(table) && i <= |s|
  {
    Prepended(written, Translated(table, s[i..]))
  }

  lemma OutlookEnds(table: seq<NetToken>, s: string, written: string)
    requires GoodTable(table)
    ensures Outlook(table, s, 0, "") == Translated(table, s) && Outlook(table, s, |s|, written) == Some(written)
  {
    assert s[0..] == s && s[|s|..] == "";
    PrependedTwice("", "", Translated(table, s));
    assert Translated(table, "") == Some("") && written + "" == written;
  }

  lemma OutlookStep(table: seq<NetToken>, s: string, i: nat, written: string)
    requires GoodTable(table) && i < |s|
    ensures FirstPiece(table, s[i..]).None? ==> Outlook(table, s, i, written) == None
    ensures FirstPiece(table, s[i..]).Some? ==> var p := FirstPiece(table, s[i..]).value;
      && 1 <= Length(p) <= |s| - i
      && Outlook(table, s, i + Length(p), written + Output(p)) == Outlook(table, s, i, written)
  {
    TranslatedStep(table, s[i..]);
    if FirstPiece(table, s[i..]).Some? {
      var p := FirstPiece(table, s[i..]).value;
      assert s[i..][Length(p)..] == s[i + Length(p)..];
      PrependedTwice(written, Output(p), Translated(table, s[i + Length(p)..]));
    }
  }

  method TranslateLayout(netLayout: string) returns (r: Option<string>)
    ensures GoodTable(NET_TOKENS) && r == Translated(NET_TOKENS, netLayout)
  {
    NetTokensAreGood();
    r := TranslateWith(NET_TOKENS, netLayout);
  }

  method TranslateWith(table: seq<NetToken>, netLayout: string) returns (r: Option<string>)
    requires GoodTable(table)
    ensures r == Translated(table, netLayout)
  {
    var b := "";
    var i := 0;
    OutlookEnds(table, netLayout, b);
    while i < |netLayout|
      invariant 0 <= i <= |netLayout|
      invariant Outlook(table, netLayout, i, b) == Translated(table, netLayout)
    {
      var more;
      more, i := WritePieceAt(table, netLayout, i, b);
      if more.None? {
        return None;
      }
      b := more.value;
    }
    OutlookEnds(table, netLayout, b);
    r := Some(b);
  }

  /** Writes the piece at an index, and moves past it. */
  method WritePieceAt(table: seq<NetToken>, s: string, i: nat, written: string) returns (r: Option<string>, j: nat)
    requires GoodTable(table) && i < |s|
    ensures i < j <= |s|
    ensures match r
            case None => Outlook(table, s, i, written) == None
            case Some(more) => Outlook(table, s, j, more) == Outlook(table, s, i, written)
  {
    var piece := ReadPiece(table, s[i..]);
    OutlookStep(table, s, i, written);
    if piece.None? {
      return None, |s|;
    }
    return Some(written + Output(piece.value)), i + Length(piece.value);
  }

  /** One turn of the loop: a literal character, the matching token, or a failure. */
  method ReadPiece(table: seq<NetToken>, s: string) returns (r: Option<Piece>)
    requires s != ""
    ensures r == FirstPiece(table, s)
  {
    var c := s[0];
    if IsUnsupported(c) {
      return None;
    }
    if !IsFormatLetter(c) {
      return Some(Literal(c));
    }
    var tok := MatchToken(table, s);
    if tok.None? {
      return None;
    }
    r := Some(Token(tok.value));
  }

  // ----- When translation fails

  /** Some maximal run of z has a length that is 1 modulo 3. */
  predicate HasLoneZ(s: string)
    decreases |s|
  {
    s != "" &&
    if s[0] == 'z' then Run(s, 'z') % 3 == 1 || HasLoneZ(s[Run(s, 'z')..]) else HasLoneZ(s[1..])
  }

  predicate HasUnsupported(s: string) {
    exists i :: 0 <= i < |s| && (s[i] == 'g' || s[i] == 'Q')
  }

  /** `s[i..j]` is a maximal run of z. */
  predicate MaximalZRun(s: string, i: nat, j: nat) {
    && i < j <= |s| && (forall k :: i <= k < j ==> s[k] == 'z')
    && (i > 0 ==> s[i - 1] != 'z') && (j < |s| ==> s[j] != 'z')
  }

  /** What the recursive test tests. */
  lemma {:induction false} LoneZMeans(s: string)
    ensures HasLoneZ(s) <==> exists i: nat, j: nat :: MaximalZRun(s, i, j) && (j - i) % 3 == 1
    decreases |s|
  {
    if s != "" {
      var n := if s[0] == 'z' then Run(s, 'z') else 1;
      LoneZMeans(s[n..]);
      RunsMoveOut(s, n);
      RunsMoveIn(s, n);
      if s[0] == 'z' {
        assert MaximalZRun(s, 0, n);
      }
    }
  }

  /** The runs after a first run, or after a first other character, are runs of the whole. */
  lemma RunsMoveOut(s: string, n: nat)
    requires s != "" && n == if s[0] == 'z' then Run(s, 'z') else 1
    ensures forall i: nat, j: nat :: MaximalZRun(s[n..], i, j) ==> MaximalZRun(s, i + n, j + n)
  {
    forall i: nat, j: nat | MaximalZRun(s[n..], i, j) ensures MaximalZRun(s, i + n, j + n) {
      assert forall k :: i + n <= k < j + n ==> s[k] == s[n..][k - n];
    }
  }

  /** And a run of the whole is the first one or one after it. */
  lemma RunsMoveIn(s: string, n: nat)
    requires s != "" && n == if s[0] == 'z' then Run(s, 'z') else 1
    ensures forall i: nat, j: nat :: MaximalZRun(s, i, j) ==>
      if i >= n then MaximalZRun(s[n..], i - n, j - n) else s[0] == 'z' && i == 0 && j == n
  {
    forall i: nat, j: nat | MaximalZRun(s, i, j)
      ensures if i >= n then MaximalZRun(s[n..], i - n, j - n) else s[0] == 'z' && i == 0 && j == n {
      if i >= n {
        assert forall k :: i - n <= k < j - n ==> s[n..][k] == s[k + n];
      }
    }
  }

  lemma UnsupportedShift(s: string, k: nat)
    requires k <= |s| && forall i :: 0 <= i < k ==> !IsUnsupported(s[i])
    ensures HasUnsupported(s) <==> HasUnsupported(s[k..])
  {
    if HasUnsupported(s) {
      var i :| 0 <= i < |s| && IsUnsupported(s[i]);
      assert s[k..][i - k] == s[i];
    }
    if HasUnsupported(s[k..]) {
      var i :| 0 <= i < |s[k..]| && IsUnsupported(s[k..][i]);
      assert s[k + i] == s[k..][i];
    }
  }

  lemma {:induction false} LoneZSkipsOthers(s: string, k: nat)
    requires k <= |s| && forall i :: 0 <= i < k ==> s[i] != 'z'
    ensures HasLoneZ(s) <==> HasLoneZ(s[k..])
  {
    if k > 0 {
      LoneZSkipsOthers(s[1..], k - 1);
      assert s[1..][k - 1..] == s[k..];
    } else {
      assert s[0..] == s;
    }
  }

  /** Two or three z's can be taken from a run without changing its length modulo 3 for the worse. */
  lemma LoneZAfterToken(s: string)
    requires s != "" && s[0] == 'z' && Run(s, 'z') >= 2
    ensures HasLoneZ(s) <==> HasLoneZ(s[Taken('z', Run(s, 'z'))..])
  {
    var n := Run(s, 'z');
    LoneZOfRun(s);
    if n > 3 {
      var rest := s[3..];
      RunIs(rest, 'z', n - 3);
      LoneZOfRun(rest);
      assert rest[n - 3..] == s[n..];
      ThreeLess(n);
    }
  }

  lemma LoneZOfRun(s: string)
    requires s != "" && s[0] == 'z'
    ensures HasLoneZ(s) <==> Run(s, 'z') % 3 == 1 || HasLoneZ(s[Run(s, 'z')..])
  {
  }

  lemma ThreeLess(n: nat)
    requires n > 3
    ensures (n - 3) % 3 == n % 3
  {
  }

  lemma {:induction false} RunIs(s: string, c: char, n: nat)
    requires n <= |s| && (forall i :: 0 <= i < n ==> s[i] == c) && (n < |s| ==> s[n] != c)
    ensures Run(s, c) == n
  {
  }

  /** Translation fails exactly on a g or Q, or on a maximal run of z whose length is 1 modulo 3. */
  lemma {:induction false} FailsIff(table: seq<NetToken>, s: string)
    requires GoodTable(table)
    ensures Translated(table, s) == None <==> HasUnsupported(s) || HasLoneZ(s)
    decreases |s|
  {
    if s != "" {
      TranslatedStep(table, s);
      if IsUnsupported(s[0]) {
        assert HasUnsupported(s);
      } else if IsFormatLetter(s[0]) {
        FailsAtToken(table, s);
        if Match(table, s).Some? {
          FailsIff(table, s[Match(table, s).value.count..]);
        }
      } else {
        FailsIff(table, s[1..]);
        UnsupportedShift(s, 1);
      }
    }
  }

  lemma FailsAtToken(table: seq<NetToken>, s: string)
    requires GoodTable(table) && s != "" && IsFormatLetter(s[0])
    ensures Match(table, s).None? ==> HasLoneZ(s)
    ensures Match(table, s).Some? ==> var k := Match(table, s).value.count;
      k <= |s| && (HasUnsupported(s) <==> HasUnsupported(s[k..])) && (HasLoneZ(s) <==> HasLoneZ(s[k..]))
  {
    MatchTakes(table, s);
    if Match(table, s).Some? {
      var k := Match(table, s).value.count;
      UnsupportedShift(s, k);
      if s[0] == 'z' {
        LoneZAfterToken(s);
      } else {
        LoneZSkipsOthers(s, k);
      }
    }
  }

  // ----- Translation distributes

  lemma {:induction false} MatchByRuns(table: seq<NetToken>, s: string, s': string, i: nat)
    requires i <= |table| && GoodTable(table) && forall c :: IsFormatLetter(c) ==> Run(s, c) == Run(s', c)
    ensures MatchFrom(table, s, i) == MatchFrom(table, s', i)
    decreases |table| - i
  {
    if i < |table| {
      assert RowInPlace(table, i);
      MatchByRuns(table, s, s', i + 1);
    }
  }

  /** The boundary of two layouts splits no run of a format letter. */
  predicate Separate(a: string, b: string) {
    a == "" || b == "" || a[|a| - 1] != b[0] || !IsFormatLetter(b[0])
  }

  lemma RunBeforeBoundary(a: string, b: string, c: char)
    requires a != "" && Separate(a, b) && IsFormatLetter(c)
    ensures Run(a + b, c) == Run(a, c)
  {
    RunIs(a + b, c, Run(a, c));
  }

  lemma FirstPieceBeforeBoundary(table: seq<NetToken>, a: string, b: string)
    requires GoodTable(table) && a != "" && Separate(a, b)
    ensures FirstPiece(table, a + b) == FirstPiece(table, a)
  {
    forall c | IsFormatLetter(c) ensures Run(a + b, c) == Run(a, c) {
      RunBeforeBoundary(a, b, c);
    }
    MatchByRuns(table, a + b, a, 0);
  }

  function Both(r: Option<string>, r': Option<string>): Option<string> {
    match r
    case None => None
    case Some(a) => Prepended(a, r')
  }

  /** A layout cut anywhere but inside a run translates part by part, and fails when either part does. */
  lemma {:induction false} TranslationDistributes(table: seq<NetToken>, a: string, b: string)
    requires GoodTable(table) && Separate(a, b)
    ensures Translated(table, a + b) == Both(Translated(table, a), Translated(table, b))
    decreases |a|
  {
    if a == "" {
      assert a + b == b;
      OutlookEnds(table, b, "");
      assert Translated(table, "") == Some("");
    } else {
      FirstPieceBeforeBoundary(table, a, b);
      TranslatedStep(table, a + b);
      TranslatedStep(table, a);
      if FirstPiece(table, a).Some? {
        var p := FirstPiece(table, a).value;
        var rest := a[Length(p)..];
        assert (a + b)[Length(p)..] == rest + b;
        TranslationDistributes(table, rest, b);
        BothPrepended(Output(p), Translated(table, rest), Translated(table, b));
      }
    }
  }

  lemma BothPrepended(a: string, r: Option<string>, r': Option<string>)
    ensures Both(Prepended(a, r), r') == Prepended(a, Both(r, r'))
  {
    if r.Some? {
      PrependedTwice(a, r.value, r');
    }
  }

  /** In particular around a separator that is no format letter. */
  lemma TranslationAroundSeparator(table: seq<NetToken>, a: string, sep: char, b: string)
    requires GoodTable(table) && !IsFormatLetter(sep) && !IsUnsupported(sep)
    ensures Translated(table, a + ([sep] + b)) == Both(Translated(table, a), Prepended([sep], Translated(table, b)))
  {
    LiteralFirst(table, sep, b);
    TranslationDistributes(table, a, [sep] + b);
  }

  lemma LiteralFirst(table: seq<NetToken>, sep: char, b: string)
    requires GoodTable(table) && !IsFormatLetter(sep) && !IsUnsupported(sep)
    ensures Translated(table, [sep] + b) == Prepended([sep], Translated(table, b))
  {
    TranslatedStep(table, [sep] + b);
    assert ([sep] + b)[1..] == b;
  }

  // ----- What one row translates to

  lemma {:induction false} RunOfRepeat(c: char, n: nat)
    ensures |Repeat(c, n)| == n && Run(Repeat(c, n), c) == n
  {
    if n > 0 {
      RunOfRepeat(c, n - 1);
    }
  }

  lemma OneRowPerRun(table: seq<NetToken>, t: NetToken, u: NetToken)
    requires GoodTable(table) && t in table && u in table && t.letter == u.letter && t.count == u.count
    ensures t == u
  {
    var i :| 0 <= i < |table| && table[i] == t;
    var j :| 0 <= j < |table| && table[j] == u;
    assert RowInPlace(table, i) && RowInPlace(table, j);
  }

  /** A row's own run translates to its Go reference. */
  lemma RowTranslates(table: seq<NetToken>, t: NetToken)
    requires GoodTable(table) && t in table
    ensures Translated(table, Repeat(t.letter, t.count)) == Some(t.goRef)
  {
    var i :| 0 <= i < |table| && table[i] == t;
    assert RowInPlace(table, i);
    var s := Repeat(t.letter, t.count);
    RunOfRepeat(t.letter, t.count);
    assert s != "" && s[0] == t.letter;
    MatchTakes(table, s);
    MatchIsLongest(table, s);
    OneRowPerRun(table, t, Match(table, s).value);
    TokenAlone(table, s, t);
  }

  lemma TokenAlone(table: seq<NetToken>, s: string, t: NetToken)
    requires GoodTable(table) && s != "" && FirstPiece(table, s) == Some(Token(t)) && |s| == t.count
    ensures Translated(table, s) == Some(t.goRef)
  {
    TranslatedStep(table, s);
    assert s[t.count..] == "";
    assert Translated(table, "") == Some("");
    assert t.goRef + "" == t.goRef;
  }
}
