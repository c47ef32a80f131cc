/** Rewriting the YAML escape of a slash, read as tokens. */
module SlashEscapes {
  // The YAML escape `\/` becomes a plain slash. The code counts the run of backslashes before a slash.
  // Its meaning is stated on tokens: a text read left to right is a list of plain characters and of
  // backslash pairs.

  datatype Token =
    | Plain(c: char)   // any character but a backslash
    | Pair(c: char)    // a backslash and the character it escapes
    | Dangling         // a backslash with nothing after it

  const BACKSLASH := '\\'
  const SLASH := '/'

  predicate Pending(toks: seq<Token>) {
    toks != [] && toks[|toks| - 1].Dangling?
  }

  /** Reading one more character: it completes a pending backslash or starts a token. */
  function Read(toks: seq<Token>, c: char): seq<Token> {
    if Pending(toks) then toks[..|toks| - 1] + [Pair(c)]
    else toks + [if c == BACKSLASH then Dangling else Plain(c)]
  }

  function Tokens(s: string): seq<Token> {
    if s == "" then [] else Read(Tokens(s[..|s| - 1]), s[|s| - 1])
  }

  function Source(tok: Token): string {
    match tok
    case Plain(c) => [c]
    case Pair(c) => [BACKSLASH, c]
    case Dangling => [BACKSLASH]
  }

  function Written(toks: seq<Token>): string {
    if toks == [] then "" else Written(toks[..|toks| - 1]) + Source(toks[|toks| - 1])
  }

  /** An escaped slash is a plain slash; everything else is left as it is. */
  function Unescape(tok: Token): Token {
    if tok == Pair(SLASH) then Plain(SLASH) else tok
  }

  function UnescapeAll(toks: seq<Token>): seq<Token> {
    seq(|toks|, i requires 0 <= i < |toks| => Unescape(toks[i]))
  }

  function Rewritten(s: string): string {
    Written(UnescapeAll(Tokens(s)))
  }

  // ----- Tokens and texts

  lemma WrittenLast(toks: seq<Token>, tok: Token)
    ensures Written(toks + [tok]) == Written(toks) + Source(tok)
  {
    assert (toks + [tok])[..|toks|] == toks;
  }

  lemma UnescapeLast(toks: seq<Token>, tok: Token)
    ensures UnescapeAll(toks + [tok]) == UnescapeAll(toks) + [Unescape(tok)]
  {
  }

  lemma TokensLast(s: string, c: char)
    ensures Tokens(s + [c]) == Read(Tokens(s), c)
  {
    assert (s + [c])[..|s|] == s;
  }

  /** A list of tokens that some text is read as: plain ones are no backslash and only the last can dangle. */
  ghost predicate Readable(toks: seq<Token>) {
    forall i :: 0 <= i < |toks| ==>
      (toks[i].Plain? ==> toks[i].c != BACKSLASH) && (toks[i].Dangling? ==> i == |toks| - 1)
  }

  lemma {:induction false} TokensAreReadable(s: string)
    ensures Readable(Tokens(s))
  {
    if s != "" {
      TokensAreReadable(s[..|s| - 1]);
    }
  }

  /** A character read is a character more in the text. */
  lemma WrittenRead(toks: seq<Token>, c: char)
    ensures Written(Read(toks, c)) == Written(toks) + [c]
  {
    if Pending(toks) {
      WrittenPair(toks[..|toks| - 1], c);
    } else {
      WrittenLast(toks, if c == BACKSLASH then Dangling else Plain(c));
    }
  }

  lemma WrittenPair(before: seq<Token>, c: char)
    ensures Written(before + [Pair(c)]) == Written(before) + [BACKSLASH] + [c]
  {
    WrittenLast(before, Pair(c));
    assert Written(before) + [BACKSLASH] + [c] == Written(before) + [BACKSLASH, c];
  }

  lemma InitAndLast(s: string)
    requires s != ""
    ensures s[..|s| - 1] + [s[|s| - 1]] == s
  {
  }

  /** Reading loses nothing. */
  lemma {:induction false} WrittenTokens(s: string)
    ensures Written(Tokens(s)) == s
  {
    if s != "" {
      WrittenTokens(s[..|s| - 1]);
      WrittenRead(Tokens(s[..|s| - 1]), s[|s| - 1]);
      InitAndLast(s);
    }
  }

  /** A token that may follow is read after the text of the tokens before it. */
  lemma ReadOneBack(init: seq<Token>, tok: Token)
    requires Tokens(Written(init)) == init && !Pending(init) && (tok.Plain? ==> tok.c != BACKSLASH)
    ensures Tokens(Written(init + [tok])) == init + [tok]
  {
    WrittenLast(init, tok);
    match tok
    case Plain(c) => TokensLast(Written(init), c);
    case Dangling => TokensLast(Written(init), BACKSLASH);
    case Pair(c) =>
      WrittenPair(init, c);
      TokensLast(Written(init), BACKSLASH);
      TokensLast(Written(init) + [BACKSLASH], c);
      ReadDangling(init, c);
  }

  lemma ReadDangling(init: seq<Token>, c: char)
    ensures Read(init + [Dangling], c) == init + [Pair(c)]
  {
    assert (init + [Dangling])[..|init|] == init;
  }

  /** Writing tokens down and reading them again gives them back. */
  lemma {:induction false} ReadBack(toks: seq<Token>)
    requires Readable(toks)
    ensures Tokens(Written(toks)) == toks
  {
    if toks != [] {
      var init := toks[..|toks| - 1];
      ReadBack(init);
      assert init != [] ==> init[|init| - 1] == toks[|init| - 1];
      assert toks == init + [toks[|init|]];
      ReadOneBack(init, toks[|init|]);
    }
  }

  // ----- The rewrite

  /** The tokens of the output are the tokens of the input with each escaped slash made plain. */
  lemma RewriteActsOnTokens(s: string)
    ensures Tokens(Rewritten(s)) == UnescapeAll(Tokens(s))
  {
    TokensAreReadable(s);
    ReadBack(UnescapeAll(Tokens(s)));
  }

  /** No escaped slash remains, and rewriting again changes nothing. */
  lemma RewriteIsComplete(s: string)
    ensures forall i :: 0 <= i < |Tokens(Rewritten(s))| ==> Tokens(Rewritten(s))[i] != Pair(SLASH)
    ensures Rewritten(Rewritten(s)) == Rewritten(s)
  {
    RewriteActsOnTokens(s);
    var toks := UnescapeAll(Tokens(s));
    assert UnescapeAll(toks) == toks;
  }

  lemma UnescapeChanges(toks: seq<Token>)
    ensures UnescapeAll(toks) == toks <==> Pair(SLASH) !in toks
  {
    if Pair(SLASH) in toks {
      var i :| 0 <= i < |toks| && toks[i] == Pair(SLASH);
      assert UnescapeAll(toks)[i] != toks[i];
    }
  }

  /** A text is left alone exactly when it holds no escaped slash. */
  lemma UnchangedIff(s: string)
    ensures Rewritten(s) == s <==> Pair(SLASH) !in Tokens(s)
  {
    RewriteActsOnTokens(s);
    WrittenTokens(s);
    UnescapeChanges(Tokens(s));
  }

  // ----- The loop

  /** How many backslashes a text ends with. */
  function TrailingRun(s: string): nat {
    if s == "" || s[|s| - 1] != BACKSLASH then 0 else 1 + TrailingRun(s[..|s| - 1])
  }

  lemma PendingLast(toks: seq<Token>, c: char)
    ensures Pending(Read(toks, c)) <==> c == BACKSLASH && !Pending(toks)
  {
  }

  lemma OddPlusOne(n: nat)
    ensures (1 + n) % 2 == 1 <==> !(n % 2 == 1)
  {
  }

  /** An odd run of backslashes is what leaves one pending. */
  lemma {:induction false} OddRunIsPending(s: string)
    ensures TrailingRun(s) % 2 == 1 <==> Pending(Tokens(s))
  {
    if s != "" {
      var init, c := s[..|s| - 1], s[|s| - 1];
      OddRunIsPending(init);
      PendingLast(Tokens(init), c);
      OddPlusOne(TrailingRun(init));
      assert Tokens(s) == Read(Tokens(init), c);
      assert TrailingRun(s) == if c == BACKSLASH then 1 + TrailingRun(init) else 0;
    }
  }

  lemma RewrittenPending(before: seq<Token>, c: char)
    ensures var out := Written(UnescapeAll(before + [Dangling]));
      && out != ""
      && Written(UnescapeAll(before + [Pair(c)])) == (if c == SLASH then out[..|out| - 1] else out) + [c]
  {
    var kept := UnescapeAll(before);
    UnescapeLast(before, Dangling);
    UnescapeLast(before, Pair(c));
    WrittenLast(kept, Dangling);
    if c == SLASH {
      WrittenLast(kept, Plain(SLASH));
    } else {
      WrittenPair(kept, c);
    }
  }

  lemma RewrittenPlain(toks: seq<Token>, c: char)
    requires !Pending(toks)
    ensures Written(UnescapeAll(Read(toks, c))) == Written(UnescapeAll(toks)) + [c]
  {
    var tok := if c == BACKSLASH then Dangling else Plain(c);
    UnescapeLast(toks, tok);
    WrittenLast(UnescapeAll(toks), tok);
  }

  /** What one more character does to the output. */
  lemma RewrittenLast(s: string, c: char)
    ensures !Pending(Tokens(s)) ==> Rewritten(s + [c]) == Rewritten(s) + [c]
    ensures Pending(Tokens(s)) ==>
      && Rewritten(s) != ""
      && Rewritten(s + [c]) == (if c == SLASH then Rewritten(s)[..|Rewritten(s)| - 1] else Rewritten(s)) + [c]
  {
    TokensLast(s, c);
    var toks := Tokens(s);
    if Pending(toks) {
      var before := toks[..|toks| - 1];
      assert toks == before + [Dangling];
      RewrittenPending(before, c);
    } else {
      RewrittenPlain(toks, c);
    }
  }

  method RewriteSlashEscapes(data: string) returns (out: string)
    ensures out == Rewritten(data)
  {
    out := "";
    var backslashRun := 0;
    for i := 0 to |data|
      invariant out == Rewritten(data[..i])
      invariant backslashRun == TrailingRun(data[..i])
    {
      var c := data[i];
      assert data[..i + 1] == data[..i] + [c] && data[..i + 1][..i] == data[..i];
      RewrittenLast(data[..i], c);
      OddRunIsPending(data[..i]);
      if c == BACKSLASH {
        backslashRun := backslashRun + 1;
        out := out + [c];
        continue;
      }
      if c == SLASH && backslashRun % 2 == 1 {
        out := out[..|out| - 1];
      }
      out := out + [c];
      backslashRun := 0;
    }
    assert data[..|data|] == data;
  }

  // ----- What it does to a text

  lemma {:induction false} TokensConcat(a: string, b: string)
    requires !Pending(Tokens(a))
    ensures Tokens(a + b) == Tokens(a) + Tokens(b)
  {
    if b == "" {
      assert a + b == a;
    } else {
      var init, c := b[..|b| - 1], b[|b| - 1];
      TokensConcat(a, init);
      assert a + b == a + init + [c] && b == init + [c];
      TokensLast(a + init, c);
      TokensLast(init, c);
      ReadConcat(Tokens(a), Tokens(init), c);
    }
  }

  lemma ReadConcat(a: seq<Token>, b: seq<Token>, c: char)
    requires !Pending(a)
    ensures Read(a + b, c) == a + Read(b, c)
  {
    if b == [] {
      assert a + b == a;
    } else if Pending(b) {
      assert (a + b)[..|a + b| - 1] == a + b[..|b| - 1];
    }
  }

  lemma {:induction false} WrittenConcat(a: seq<Token>, b: seq<Token>)
    ensures Written(a + b) == Written(a) + Written(b)
  {
    if b == [] {
      assert a + b == a;
    } else {
      assert (a + b)[..|a + b| - 1] == a + b[..|b| - 1];
      WrittenConcat(a, b[..|b| - 1]);
    }
  }

  /** A text cut where no backslash is open is rewritten part by part. */
  lemma RewrittenConcat(a: string, b: string)
    requires TrailingRun(a) % 2 == 0
    ensures Rewritten(a + b) == Rewritten(a) + Rewritten(b)
  {
    OddRunIsPending(a);
    TokensConcat(a, b);
    assert UnescapeAll(Tokens(a) + Tokens(b)) == UnescapeAll(Tokens(a)) + UnescapeAll(Tokens(b));
    WrittenConcat(UnescapeAll(Tokens(a)), UnescapeAll(Tokens(b)));
  }

  lemma RewrittenPair(d: char)
    ensures Rewritten(['\\', d]) == if d == '/' then "/" else ['\\', d]
  {
    var s: string := ['\\', d];
    OneCharacter('\\');
    assert s[..1] == ['\\'];
    assert Tokens(s) == [Pair(d)];
    assert UnescapeAll([Pair(d)]) == [Unescape(Pair(d))];
    WrittenLast([], Unescape(Pair(d)));
    assert [] + [Unescape(Pair(d))] == [Unescape(Pair(d))];
  }

  lemma OneCharacter(c: char)
    ensures Tokens([c]) == [if c == BACKSLASH then Dangling else Plain(c)] && Rewritten([c]) == [c]
  {
    assert [c][..0] == "";
    var tok := if c == BACKSLASH then Dangling else Plain(c);
    assert [] + [tok] == [tok];
    assert UnescapeAll([tok]) == [tok];
    WrittenLast([], tok);
  }

  /** Where no backslash is open, an escaped slash becomes a slash, and any other pair stays. */
  lemma PairInPlace(a: string, d: char, b: string)
    requires TrailingRun(a) % 2 == 0
    ensures Rewritten(a + ['\\', d] + b) == Rewritten(a) + (if d == '/' then "/" else ['\\', d]) + Rewritten(b)
  {
    RewrittenPair(d);
    RewrittenConcat(a, ['\\', d]);
    PairCloses(a, d);
    RewrittenConcat(a + ['\\', d], b);
  }

  /** And so does any character that is no backslash, a slash without one included. */
  lemma CharacterInPlace(a: string, c: char, b: string)
    requires TrailingRun(a) % 2 == 0 && c != '\\'
    ensures Rewritten(a + [c] + b) == Rewritten(a) + [c] + Rewritten(b)
  {
    OneCharacter(c);
    RewrittenConcat(a, [c]);
    CharacterCloses(a, c);
    RewrittenConcat(a + [c], b);
  }

  lemma CharacterCloses(a: string, c: char)
    requires c != '\\'
    ensures TrailingRun(a + [c]) == 0
  {
  }

  lemma PairCloses(a: string, d: char)
    requires TrailingRun(a) % 2 == 0
    ensures TrailingRun(a + ['\\', d]) % 2 == 0
  {
    var s := a + ['\\', d];
    assert s[..|s| - 1] == a + ['\\'];
    assert (a + ['\\'])[..|a|] == a;
  }
}
