/** .NET replacements. */
module Replacement {
  // A replacement string is a sequence of tokens, each rendered from what is known of one match.

  import opened Wrappers
  import opened Lists
  import opened Utf8

  const DOLLAR: Byte := 36
  const AMPERSAND: Byte := 38
  const QUOTE: Byte := 39
  const PLUS: Byte := 43
  const ZERO: Byte := 48
  const NINE: Byte := 57
  const UNDERSCORE: Byte := 95
  const BACKTICK: Byte := 96
  const LEFT_BRACE: Byte := 123
  const RIGHT_BRACE: Byte := 125

  /** Digit runs stop growing here. */
  const SATURATED := 0x10_0000

  /** What the expander knows of one match; `names` is aligned with `groups`. */
  datatype MatchView = MatchView(
    input: Bytes, whole: Bytes, left: Bytes, right: Bytes,
    groups: seq<Bytes>, names: seq<Bytes>, lastCaptured: Bytes)

  datatype Token =
    | Text(b: Byte)          // any byte but '$'
    | Dollar                 // $$
    | Lone                   // a '$' that starts no token
    | Special(c: Byte)       // $& $` $' $_ $+
    | Numbered(digits: Bytes)
    | Braced(name: Bytes)
    | Unclosed               // ${ without a closing brace

  predicate IsDigit(b: Byte) {
    ZERO <= b <= NINE
  }

  predicate AllDigits(s: Bytes) {
    s != [] && forall i :: 0 <= i < |s| ==> IsDigit(s[i])
  }

  predicate IsSpecial(b: Byte) {
    b in {AMPERSAND, BACKTICK, QUOTE, UNDERSCORE, PLUS}
  }

  // ----- Groups

  function DigitValue(b: Byte): nat
    requires IsDigit(b)
  {
    (b - ZERO) as nat
  }

  /** The number a digit run denotes. */
  function DecimalValue(s: Bytes): nat
    requires forall i :: 0 <= i < |s| ==> IsDigit(s[i])
  {
    if s == [] then 0 else 10 * DecimalValue(s[..|s| - 1]) + DigitValue(s[|s| - 1])
  }

  /** The number the code reads, which stops at a bound. */
  function Saturating(s: Bytes): nat
    requires forall i :: 0 <= i < |s| ==> IsDigit(s[i])
  {
    if DecimalValue(s) > SATURATED then SATURATED else DecimalValue(s)
  }

  lemma {:induction false} DecimalGrows(s: Bytes, i: nat)
    requires i <= |s| && forall i :: 0 <= i < |s| ==> IsDigit(s[i])
    ensures DecimalValue(s[..i]) <= DecimalValue(s)
  {
    if i == |s| {
      assert s[..i] == s;
    } else {
      DecimalGrows(s[..|s| - 1], i);
      assert s[..|s| - 1][..i] == s[..i];
    }
  }

  method AtoiDigits(s: Bytes) returns (n: nat)
    requires forall i :: 0 <= i < |s| ==> IsDigit(s[i])
    ensures n == Saturating(s)
  {
    n := 0;
    for k := 0 to |s|
      invariant n == DecimalValue(s[..k]) <= SATURATED
    {
      assert s[..k + 1][..k] == s[..k];
      n := n * 10 + DigitValue(s[k]);
      if n > SATURATED {
        DecimalGrows(s, k + 1);
        return SATURATED;
      }
    }
    assert s[..|s|] == s;
  }

  function Group(m: MatchView, n: nat): Option<Bytes> {
    if n < |m.groups| then Some(m.groups[n]) else None
  }

  /** The first group that carries the name; unnamed groups have an empty one. */
  function NameIndex(names: seq<Bytes>, name: Bytes): Option<nat> {
    if names == [] then None
    else if names[0] != [] && names[0] == name then Some(0)
    else match NameIndex(names[1..], name)
         case None => None
         case Some(i) => Some(i + 1)
  }

  /** A braced reference names a group or, when no group has the name, numbers one. */
  function GroupByName(m: MatchView, name: Bytes): Option<Bytes> {
    match NameIndex(m.names, name)
    case Some(i) => Group(m, i)
    case None => if AllDigits(name) then Group(m, Saturating(name)) else None
  }

  lemma {:induction false} NameIndexFinds(names: seq<Bytes>, name: Bytes)
    ensures match NameIndex(names, name)
            case Some(i) => i < |names| && name != [] && names[i] == name && name !in names[..i]
            case None => name == [] || name !in names
  {
    if names != [] {
      NameIndexFinds(names[1..], name);
      assert names == [names[0]] + names[1..];
      match NameIndex(names[1..], name)
      case Some(i) =>
        assert names[..i + 1] == [names[0]] + names[1..][..i];
      case None =>
    }
  }

  /** A lookup finds the first group of the name: only that index can be the answer. */
  lemma NameIndexIsFirst(names: seq<Bytes>, name: Bytes, i: nat)
    requires name != [] && i < |names| && names[i] == name && name !in names[..i]
    ensures NameIndex(names, name) == Some(i)
  {
    NameIndexFinds(names, name);
    assert NameIndex(names, name).Some?;
    var j := NameIndex(names, name).value;
    assert forall k :: 0 <= k < i ==> names[k] in names[..i];
    assert forall k :: 0 <= k < j ==> names[k] in names[..j];
  }

  method FindGroupByName(m: MatchView, name: Bytes) returns (r: Option<Bytes>)
    requires |m.names| == |m.groups|
    ensures r == GroupByName(m, name)
  {
    for i := 0 to |m.names|
      invariant name != [] ==> name !in m.names[..i]
    {
      if m.names[i] != [] && m.names[i] == name {
        NameIndexIsFirst(m.names, name, i);
        return Some(m.groups[i]);
      }
    }
    assert m.names[..|m.names|] == m.names;
    NameIndexFinds(m.names, name);
    if AllDigits(name) {
      var n := AtoiDigits(name);
      return Group(m, n);
    }
    r := None;
  }

  /** Digit runs resolve by their true value, for every run, exactly when there are at most 2^20 groups. */
  lemma SaturationIsHarmlessIff(m: MatchView)
    ensures (forall s :: AllDigits(s) ==> Group(m, Saturating(s)) == Group(m, DecimalValue(s)))
       <==> |m.groups| <= 0x10_0000
  {
    if |m.groups| > SATURATED {
      var n := |m.groups|;
      DecimalInverse(n);
      assert Group(m, Saturating(Decimal(n))) != Group(m, DecimalValue(Decimal(n)));
    }
  }

  /** The decimal digits of a number. */
  function Decimal(n: nat): Bytes {
    var digit := ZERO + (n % 10) as Byte;
    if n < 10 then [digit] else Decimal(n / 10) + [digit]
  }

  lemma {:induction false} DecimalInverse(n: nat)
    ensures AllDigits(Decimal(n)) && DecimalValue(Decimal(n)) == n
  {
    if n >= 10 {
      DecimalInverse(n / 10);
      var s := Decimal(n);
      assert s[..|s| - 1] == Decimal(n / 10);
    } else {
      assert DecimalValue(Decimal(n)[..0]) == 0;
    }
  }

  // ----- Tokens

  /** The length of the run of digits a string starts with. */
  function DigitRun(s: Bytes): (n: nat)
    ensures n <= |s|
    ensures forall i :: 0 <= i < n ==> IsDigit(s[i])
    ensures n < |s| ==> !IsDigit(s[n])
  {
    if s == [] || !IsDigit(s[0]) then 0 else 1 + DigitRun(s[1..])
  }

  /** The index of the first closing brace, or the length when there is none. */
  function CloseBrace(s: Bytes): (n: nat)
    ensures n <= |s| && RIGHT_BRACE !in s[..n]
    ensures n < |s| ==> s[n] == RIGHT_BRACE
  {
    if s == [] || s[0] == RIGHT_BRACE then 0 else 1 + CloseBrace(s[1..])
  }

  /** The text a token is written as. */
  function Source(tok: Token): Bytes {
    match tok
    case Text(b) => [b]
    case Dollar => [DOLLAR, DOLLAR]
    case Lone => [DOLLAR]
    case Special(c) => [DOLLAR, c]
    case Numbered(digits) => [DOLLAR] + digits
    case Braced(name) => [DOLLAR, LEFT_BRACE] + name + [RIGHT_BRACE]
    case Unclosed => [DOLLAR, LEFT_BRACE]
  }

  /** The first token of a non-empty replacement: it is written there, so every step advances. */
  function NextToken(s: Bytes): (tok: Token)
    requires s != []
    ensures 1 <= |Source(tok)| <= |s|
    ensures tok.Numbered? ==> AllDigits(tok.digits)
  {
    if s[0] != DOLLAR then Text(s[0])
    else if |s| == 1 then Lone
    else if s[1] == DOLLAR then Dollar
    else if IsSpecial(s[1]) then Special(s[1])
    else if s[1] == LEFT_BRACE then BracedToken(s[2..])
    else if IsDigit(s[1]) then Numbered(s[1..][..DigitRun(s[1..])])
    else Lone
  }

  /** The token of an opening brace, by what follows it. */
  function BracedToken(s: Bytes): (tok: Token)
    ensures 1 <= |Source(tok)| <= |s| + 2 && !tok.Numbered?
  {
    var n := CloseBrace(s);
    if n == |s| then Unclosed else Braced(s[..n])
  }

  /** The first token is written at the start of the text. */
  lemma NextTokenIsThere(s: Bytes)
    requires s != []
    ensures s == Source(NextToken(s)) + s[|Source(NextToken(s))|..]
  {
    var tok := NextToken(s);
    if tok.Numbered? {
      NumberedIsThere(s);
    } else if tok.Braced? {
      BracedIsThere(s);
    }
  }

  /** A numbered token takes all the digits there are. */
  lemma NumberedIsThere(s: Bytes)
    requires s != [] && NextToken(s).Numbered?
    ensures var tok := NextToken(s);
      && s == Source(tok) + s[|Source(tok)|..]
      && (|Source(tok)| < |s| ==> !IsDigit(s[|Source(tok)|]))
  {
    var run := DigitRun(s[1..]);
    assert s == [DOLLAR] + s[1..1 + run] + s[1 + run..];
    assert 1 + run < |s| ==> s[1..][run] == s[1 + run];
  }

  /** A braced token closes at the first brace. */
  lemma BracedIsThere(s: Bytes)
    requires s != [] && NextToken(s).Braced?
    ensures var tok := NextToken(s); s == Source(tok) + s[|Source(tok)|..] && RIGHT_BRACE !in tok.name
  {
    var n := CloseBrace(s[2..]);
    assert s[2..][..n] == s[2..2 + n] && s[2..][n] == s[2 + n];
    assert s == [DOLLAR, LEFT_BRACE] + s[2..2 + n] + [RIGHT_BRACE] + s[3 + n..];
  }

  function Tokens(s: Bytes): seq<Token> {
    if s == [] then [] else [NextToken(s)] + Tokens(s[|Source(NextToken(s))|..])
  }

  function Written(toks: seq<Token>): Bytes {
    if toks == [] then [] else Source(toks[0]) + Written(toks[1..])
  }

  /** Tokenizing loses nothing: the tokens' texts concatenate to the replacement. */
  lemma {:induction false} TokensAreLossless(s: Bytes)
    ensures Written(Tokens(s)) == s
  {
    if s != [] {
      var n := |Source(NextToken(s))|;
      TokensAreLossless(s[n..]);
      assert Tokens(s)[1..] == Tokens(s[n..]);
      NextTokenIsThere(s);
    }
  }

  // ----- Rendering

  function SpecialText(c: Byte, m: MatchView): Bytes {
    if c == AMPERSAND then m.whole
    else if c == BACKTICK then m.left
    else if c == QUOTE then m.right
    else if c == UNDERSCORE then m.input
    else if c == PLUS then m.lastCaptured
    else []
  }

  /** A reference that resolves is its group's text; one that does not is its own text. */
  function Render(tok: Token, m: MatchView): Bytes
    requires tok.Numbered? ==> AllDigits(tok.digits)
  {
    match tok
    case Text(b) => [b]
    case Dollar => [DOLLAR]
    case Lone => [DOLLAR]
    case Special(c) => SpecialText(c, m)
    case Numbered(digits) => Group(m, Saturating(digits)).GetOr(Source(tok))
    case Braced(name) => GroupByName(m, name).GetOr(Source(tok))
    case Unclosed => Source(tok)
  }

  /** The replacement rendered for one match, token by token. */
  function Expanded(s: Bytes, m: MatchView): Bytes {
    if s == [] then [] else
    var tok := NextToken(s);
    Render(tok, m) + Expanded(s[|Source(tok)|..], m)
  }

  /** A special reference is two bytes, and the rest is expanded after it. */
  lemma SpecialStep(c: Byte, rest: Bytes, m: MatchView)
    requires IsSpecial(c) && c != DOLLAR
    ensures Expanded([DOLLAR, c] + rest, m) == SpecialText(c, m) + Expanded(rest, m)
  {
    var s := [DOLLAR, c] + rest;
    assert NextToken(s) == Special(c);
    assert s[2..] == rest;
  }

  // ----- What each kind of reference expands to

  /** No digit follows. */
  predicate NoDigit(tail: Bytes) {
    tail == [] || !IsDigit(tail[0])
  }

  lemma {:induction false} RunOfDigits(digits: Bytes, tail: Bytes)
    requires AllDigits(digits) || digits == []
    requires NoDigit(tail)
    ensures DigitRun(digits + tail) == |digits|
  {
    if digits == [] {
      assert digits + tail == tail;
    } else {
      assert (digits + tail)[1..] == digits[1..] + tail;
      RunOfDigits(digits[1..], tail);
    }
  }

  lemma ExpandedFirst(tok: Token, tail: Bytes, m: MatchView)
    requires Source(tok) != [] && NextToken(Source(tok) + tail) == tok
    ensures tok.Numbered? ==> AllDigits(tok.digits)
    ensures Expanded(Source(tok) + tail, m) == Render(tok, m) + Expanded(tail, m)
  {
    assert (Source(tok) + tail)[|Source(tok)|..] == tail;
  }

  /**
   A dollar sign and a maximal run of digits, in a match with at most 2^20 groups: the group of that
   number, and the reference as written when there is none.
   */
  lemma NumberedStands(digits: Bytes, tail: Bytes, m: MatchView)
    requires AllDigits(digits) && NoDigit(tail) && |m.groups| <= 0x10_0000
    ensures var n := DecimalValue(digits);
      Expanded([DOLLAR] + digits + tail, m)
      == (if n < |m.groups| then m.groups[n] else [DOLLAR] + digits) + Expanded(tail, m)
  {
    NumberedToken(digits, tail);
    ExpandedFirst(Numbered(digits), tail, m);
  }

  lemma NumberedToken(digits: Bytes, tail: Bytes)
    requires AllDigits(digits) && NoDigit(tail)
    ensures NextToken([DOLLAR] + digits + tail) == Numbered(digits)
  {
    var s := [DOLLAR] + digits + tail;
    assert s[1..] == digits + tail && s[1] == digits[0];
    RunOfDigits(digits, tail);
    assert (digits + tail)[..|digits|] == digits;
  }

  /** In particular for a number written in decimal. */
  lemma GroupNumberStands(n: nat, tail: Bytes, m: MatchView)
    requires NoDigit(tail) && |m.groups| <= 0x10_0000
    ensures Expanded([DOLLAR] + Decimal(n) + tail, m)
         == (if n < |m.groups| then m.groups[n] else [DOLLAR] + Decimal(n)) + Expanded(tail, m)
  {
    DecimalInverse(n);
    NumberedStands(Decimal(n), tail, m);
  }

  lemma BracedReads(name: Bytes, tail: Bytes)
    requires RIGHT_BRACE !in name
    ensures NextToken([DOLLAR, LEFT_BRACE] + name + [RIGHT_BRACE] + tail) == Braced(name)
  {
    var s := [DOLLAR, LEFT_BRACE] + name + [RIGHT_BRACE] + tail;
    var rest := name + [RIGHT_BRACE] + tail;
    assert s[2..] == rest;
    BraceCloses(name, [RIGHT_BRACE] + tail);
    assert name + ([RIGHT_BRACE] + tail) == rest && rest[..|name|] == name;
  }

  lemma {:induction false} BraceCloses(name: Bytes, tail: Bytes)
    requires RIGHT_BRACE !in name && (tail == [] || tail[0] == RIGHT_BRACE)
    ensures CloseBrace(name + tail) == |name|
  {
    if name == [] {
      assert name + tail == tail;
    } else {
      assert name[0] in name;
      assert (name + tail)[1..] == name[1..] + tail;
      BraceCloses(name[1..], tail);
    }
  }

  /**
   A name in braces: the first group of that name; else, for a run of digits, the group of that number;
   else the reference as written.
   */
  lemma BracedStands(name: Bytes, tail: Bytes, m: MatchView, g: nat)
    requires RIGHT_BRACE !in name && |m.names| == |m.groups| <= 0x10_0000
    ensures var source := [DOLLAR, LEFT_BRACE] + name + [RIGHT_BRACE];
      var text := Expanded(source + tail, m);
      && (name != [] && g < |m.names| && m.names[g] == name && name !in m.names[..g] ==>
            text == m.groups[g] + Expanded(tail, m))
      && (name !in m.names && AllDigits(name) && DecimalValue(name) == g < |m.groups| ==>
            text == m.groups[g] + Expanded(tail, m))
      && (name == [] || (name !in m.names && !(AllDigits(name) && DecimalValue(name) < |m.groups|)) ==>
            text == source + Expanded(tail, m))
  {
    BracedReads(name, tail);
    ExpandedFirst(Braced(name), tail, m);
    NameIndexFinds(m.names, name);
    if name != [] && g < |m.names| && m.names[g] == name && name !in m.names[..g] {
      NameIndexIsFirst(m.names, name, g);
    }
  }

  /** An opening brace that is not closed stands for itself. */
  lemma UnclosedStands(tail: Bytes, m: MatchView)
    requires RIGHT_BRACE !in tail
    ensures Expanded([DOLLAR, LEFT_BRACE] + tail, m) == [DOLLAR, LEFT_BRACE] + Expanded(tail, m)
  {
    var s := [DOLLAR, LEFT_BRACE] + tail;
    assert s[2..] == tail;
    BraceCloses(tail, []);
    assert tail + [] == tail;
    assert NextToken(s) == Unclosed;
    ExpandedFirst(Unclosed, tail, m);
  }

  /** The special references. */
  lemma SpecialsStand(tail: Bytes, m: MatchView)
    ensures Expanded([36, 38] + tail, m) == m.whole + Expanded(tail, m)
    ensures Expanded([36, 96] + tail, m) == m.left + Expanded(tail, m)
    ensures Expanded([36, 39] + tail, m) == m.right + Expanded(tail, m)
    ensures Expanded([36, 95] + tail, m) == m.input + Expanded(tail, m)
    ensures Expanded([36, 43] + tail, m) == m.lastCaptured + Expanded(tail, m)
  {
    SpecialStep(38, tail, m);
    SpecialStep(96, tail, m);
    SpecialStep(39, tail, m);
    SpecialStep(95, tail, m);
    SpecialStep(43, tail, m);
  }

  /** Two dollar signs stand for one; one before nothing, or before what starts no reference, for itself. */
  lemma DollarStands(tail: Bytes, m: MatchView)
    ensures Expanded([36, 36] + tail, m) == [36] + Expanded(tail, m)
    ensures tail == [] || !(tail[0] in {36, 38, 39, 43, 95, 96, 123} || 48 <= tail[0] <= 57) ==>
      Expanded([36] + tail, m) == [36] + Expanded(tail, m)
  {
    var two := [36, 36] + tail;
    assert two[1] == 36 && NextToken(two) == Dollar;
    ExpandedFirst(Dollar, tail, m);
    if tail == [] || !(tail[0] in {36, 38, 39, 43, 95, 96, 123} || 48 <= tail[0] <= 57) {
      LoneToken(tail);
      ExpandedFirst(Lone, tail, m);
    }
  }

  lemma LoneToken(tail: Bytes)
    requires tail == [] || !(tail[0] in {36, 38, 39, 43, 95, 96, 123} || 48 <= tail[0] <= 57)
    ensures NextToken([DOLLAR] + tail) == Lone
  {
    var s := [DOLLAR] + tail;
    assert tail != [] ==> s[1] == tail[0];
  }

  /** Any other byte stands for itself. */
  lemma TextStands(b: Byte, tail: Bytes, m: MatchView)
    requires b != 36
    ensures Expanded([b] + tail, m) == [b] + Expanded(tail, m)
  {
    ExpandedFirst(Text(b), tail, m);
  }

  lemma {:induction false} NoDollarIsLiteral(s: Bytes, m: MatchView)
    requires DOLLAR !in s
    ensures Expanded(s, m) == s
  {
    if s != [] {
      NoDollarIsLiteral(s[1..], m);
    }
  }

  /** What is written plus what the rest of the replacement will add: the loop below keeps it. */
  function Outlook(repl: Bytes, m: MatchView, i: nat, written: Bytes): Bytes
    requires i <= |repl|
  {
    written + Expanded(repl[i..], m)
  }

  method ExpandDotNetReplacement(repl: Bytes, m: MatchView) returns (b: Bytes)
    requires |m.names| == |m.groups|
    ensures b == Expanded(repl, m)
  {
    if DOLLAR !in repl {
      NoDollarIsLiteral(repl, m);
      return repl;
    }
    b := [];
    var i := 0;
    while i < |repl|
      invariant 0 <= i <= |repl|
      invariant Outlook(repl, m, i, b) == Outlook(repl, m, 0, [])
    {
      b, i := WriteNext(repl, m, i, b);
    }
    OutlookEnds(repl, m, b);
  }

  lemma OutlookEnds(repl: Bytes, m: MatchView, b: Bytes)
    ensures Outlook(repl, m, 0, []) == Expanded(repl, m) && Outlook(repl, m, |repl|, b) == b
  {
    assert repl[0..] == repl && repl[|repl|..] == [];
  }

  /** One turn of the loop: a byte is copied, or a token written. */
  method WriteNext(repl: Bytes, m: MatchView, i: nat, b: Bytes) returns (b': Bytes, j: nat)
    requires i < |repl| && |m.names| == |m.groups|
    ensures i < j <= |repl| && Outlook(repl, m, j, b') == Outlook(repl, m, i, b)
  {
    if repl[i] != DOLLAR {
      OutlookText(repl, m, i, b);
      return b + [repl[i]], i + 1;
    }
    b', j := WriteTokenAt(repl, m, i, b);
  }

  method WriteTokenAt(repl: Bytes, m: MatchView, i: nat, b: Bytes) returns (b': Bytes, j: nat)
    requires i < |repl| && repl[i] == DOLLAR && |m.names| == |m.groups|
    ensures i < j <= |repl| && Outlook(repl, m, j, b') == Outlook(repl, m, i, b)
  {
    var text;
    text, j := WriteReplacementToken(repl, i, m);
    OutlookStep(repl, m, i, b, NextToken(repl[i..]), j);
    b' := b + text;
  }

  lemma OutlookText(repl: Bytes, m: MatchView, i: nat, written: Bytes)
    requires i < |repl| && repl[i] != DOLLAR
    ensures Outlook(repl, m, i + 1, written + [repl[i]]) == Outlook(repl, m, i, written)
  {
    assert NextToken(repl[i..]) == Text(repl[i]);
    OutlookStep(repl, m, i, written, Text(repl[i]), i + 1);
  }

  /** The token at an index moves its rendering from what is left to what is written. */
  lemma OutlookStep(repl: Bytes, m: MatchView, i: nat, written: Bytes, tok: Token, j: int)
    requires i < |repl| && tok == NextToken(repl[i..]) && j == i + |Source(tok)|
    ensures i < j <= |repl| && Outlook(repl, m, j, written + Render(tok, m)) == Outlook(repl, m, i, written)
  {
    ExpandedStep(repl[i..], m);
    assert repl[i..][|Source(tok)|..] == repl[j..];
    Reassociate(written, Render(tok, m), Expanded(repl[j..], m));
  }

  lemma ExpandedStep(s: Bytes, m: MatchView)
    requires s != []
    ensures Expanded(s, m) == Render(NextToken(s), m) + Expanded(s[|Source(NextToken(s))|..], m)
  {
  }

  /** What the token at `repl[i]`, a '$', writes, and the index past it. */
  method WriteReplacementToken(repl: Bytes, i: nat, m: MatchView) returns (text: Bytes, j: nat)
    requires i < |repl| && repl[i] == DOLLAR && |m.names| == |m.groups|
    ensures text == Render(NextToken(repl[i..]), m)
    ensures j == i + |Source(NextToken(repl[i..]))|
  {
    if i + 1 >= |repl| {
      return [DOLLAR], i + 1;
    }
    var c := repl[i + 1];
    if c == DOLLAR {
      return [DOLLAR], i + 2;
    }
    if IsSpecial(c) {
      return SpecialText(c, m), i + 2;
    }
    if c == LEFT_BRACE {
      text, j := WriteBracedGroup(repl, i, m);
      return;
    }
    if IsDigit(c) {
      text, j := WriteNumberedGroup(repl, i, m);
      return;
    }
    return [DOLLAR], i + 1;
  }

  method WriteBracedGroup(repl: Bytes, i: nat, m: MatchView) returns (text: Bytes, j: nat)
    requires i + 1 < |repl| && repl[i] == DOLLAR && repl[i + 1] == LEFT_BRACE && |m.names| == |m.groups|
    ensures text == Render(NextToken(repl[i..]), m)
    ensures j == i + |Source(NextToken(repl[i..]))|
  {
    var rel := CloseBrace(repl[i + 2..]);
    BraceAt(repl, i);
    if i + 2 + rel == |repl| {
      return [DOLLAR, LEFT_BRACE], i + 2;
    }
    var name := repl[i + 2..i + 2 + rel];
    var end := i + 2 + rel + 1;
    var val := FindGroupByName(m, name);
    if val.Some? {
      return val.value, end;
    }
    assert repl[i..end] == [DOLLAR, LEFT_BRACE] + name + [RIGHT_BRACE];
    return repl[i..end], end;
  }

  /** A "${" is a braced token up to the first closing brace, or unclosed. */
  lemma BraceAt(repl: Bytes, i: nat)
    requires i + 1 < |repl| && repl[i] == DOLLAR && repl[i + 1] == LEFT_BRACE
    ensures var rel := CloseBrace(repl[i + 2..]);
      NextToken(repl[i..]) == if i + 2 + rel == |repl| then Unclosed else Braced(repl[i + 2..i + 2 + rel])
  {
    var rest := repl[i..];
    assert rest[1] == repl[i + 1];
    assert rest[2..] == repl[i + 2..];
    assert rest[2..2 + CloseBrace(rest[2..])] == repl[i + 2..i + 2 + CloseBrace(rest[2..])];
  }

  /** Consumes the maximal digit run; a number that names no group stays as it is written. */
  method WriteNumberedGroup(repl: Bytes, i: nat, m: MatchView) returns (text: Bytes, j: nat)
    requires i + 1 < |repl| && repl[i] == DOLLAR && IsDigit(repl[i + 1])
    ensures text == Render(NextToken(repl[i..]), m)
    ensures j == i + |Source(NextToken(repl[i..]))|
  {
    j := i + 1;
    while j < |repl| && IsDigit(repl[j])
      invariant i + 1 <= j <= |repl|
      invariant forall k :: i + 1 <= k < j ==> IsDigit(repl[k])
    {
      j := j + 1;
    }
    NumberedAt(repl, i, j);
    var digits := repl[i + 1..j];
    var n := AtoiDigits(digits);
    var val := Group(m, n);
    if val.Some? {
      return val.value, j;
    }
    assert repl[i..j] == [DOLLAR] + digits;
    return repl[i..j], j;
  }

  /** A '$' and a maximal run of digits are one numbered token. */
  lemma NumberedAt(repl: Bytes, i: nat, j: nat)
    requires i + 1 < j <= |repl| && repl[i] == DOLLAR
    requires forall k :: i + 1 <= k < j ==> IsDigit(repl[k])
    requires j < |repl| ==> !IsDigit(repl[j])
    ensures NextToken(repl[i..]) == Numbered(repl[i + 1..j])
  {
    var tail := repl[i..][1..];
    assert forall k :: 0 <= k < j - i - 1 ==> tail[k] == repl[i + 1 + k];
    assert j < |repl| ==> tail[j - i - 1] == repl[j];
    assert DigitRun(tail) == j - i - 1;
    assert repl[i..][1] == repl[i + 1];
    assert repl[i..][1..j - i] == repl[i + 1..j];
  }

  // ----- Quoting

  /** A text with every '$' doubled. */
  function Doubled(text: Bytes): Bytes {
    if text == [] then [] else
    (if text[0] == DOLLAR then [DOLLAR, DOLLAR] else [text[0]]) + Doubled(text[1..])
  }

  /** Doubling quotes: the expansion is the text itself, for every match. */
  lemma {:induction false} DoubledExpandsToText(text: Bytes, m: MatchView)
    ensures Expanded(Doubled(text), m) == text
  {
    if text != [] {
      var s, rest := Doubled(text), Doubled(text[1..]);
      DoubledExpandsToText(text[1..], m);
      var tok := NextToken(s);
      assert tok == if text[0] == DOLLAR then Dollar else Text(text[0]);
      assert s[|Source(tok)|..] == rest;
    }
  }

  // ----- What the expansion depends on

  /** Views that agree on everything but names, and whose names resolve alike, expand alike. */
  lemma {:induction false} ExpansionDependsOnLookups(s: Bytes, m: MatchView, m': MatchView)
    requires m' == m.(names := m'.names)
    requires forall name :: GroupByName(m, name) == GroupByName(m', name)
    ensures Expanded(s, m) == Expanded(s, m')
  {
    if s != [] {
      var tok := NextToken(s);
      ExpansionDependsOnLookups(s[|Source(tok)|..], m, m');
      assert tok.Braced? ==> GroupByName(m, tok.name) == GroupByName(m', tok.name);
    }
  }
}
