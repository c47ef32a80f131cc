/**
 Trimming strings, as Go's `strings` package does on well-formed text, and what trimming leaves and
 cuts off.
 */
module Text {

  /** Unicode white space. */
  predicate IsSpace(c: char) {
    || '\t' <= c <= '\r' || c == ' ' || c == '\U{85}' || c == '\U{A0}' || c == '\U{1680}'
    || '\U{2000}' <= c <= '\U{200A}' || c == '\U{2028}' || c == '\U{2029}'
    || c == '\U{202F}' || c == '\U{205F}' || c == '\U{3000}'
  }

  function TrimLeft(s: string): string {
    if s != [] && IsSpace(s[0]) then TrimLeft(s[1..]) else s
  }

  function TrimRight(s: string): string {
    if s != [] && IsSpace(s[|s| - 1]) then TrimRight(s[..|s| - 1]) else s
  }

  function TrimSpace(s: string): string {
    TrimRight(TrimLeft(s))
  }

  predicate NoLeadingSpace(s: string) {
    s == [] || !IsSpace(s[0])
  }

  predicate NoTrailingSpace(s: string) {
    s == [] || !IsSpace(s[|s| - 1])
  }

  /** Trimming stops at a character that is not a space. */
  lemma {:induction false} TrimLeftStops(s: string, rest: string)
    requires rest != [] && NoLeadingSpace(rest)
    ensures TrimLeft(s + rest) == TrimLeft(s) + rest
  {
    if s == [] {
      assert s + rest == rest;
    } else {
      assert (s + rest)[1..] == s[1..] + rest;
      if IsSpace(s[0]) {
        TrimLeftStops(s[1..], rest);
      }
    }
  }

  lemma {:induction false} TrimRightStops(s: string, rest: string)
    requires s != [] && NoTrailingSpace(s)
    ensures TrimRight(s + rest) == s + TrimRight(rest)
  {
    if rest == [] {
      assert s + rest == s;
    } else {
      assert (s + rest)[..|s + rest| - 1] == s + rest[..|rest| - 1];
      if IsSpace(rest[|rest| - 1]) {
        TrimRightStops(s, rest[..|rest| - 1]);
      }
    }
  }

  predicate AllSpace(s: string) {
    forall i :: 0 <= i < |s| ==> IsSpace(s[i])
  }

  /** What trimming on the right cuts off. */
  lemma {:induction false} TrimRightCuts(s: string)
    ensures TrimRight(s) <= s && NoTrailingSpace(TrimRight(s)) && AllSpace(s[|TrimRight(s)|..])
  {
    if s != [] && IsSpace(s[|s| - 1]) {
      TrimRightCuts(s[..|s| - 1]);
    }
  }

  lemma {:induction false} TrimRightSpaces(s: string, ws: string)
    requires AllSpace(ws)
    ensures TrimRight(s + ws) == TrimRight(s)
  {
    if ws == [] {
      assert s + ws == s;
    } else {
      assert (s + ws)[..|s + ws| - 1] == s + ws[..|ws| - 1];
      TrimRightSpaces(s, ws[..|ws| - 1]);
    }
  }

  lemma {:induction false} TrimLeftSpaces(s: string, ws: string)
    requires AllSpace(ws)
    ensures TrimLeft(s + ws) == if TrimLeft(s) == [] then [] else TrimLeft(s) + ws
  {
    if s == [] {
      assert s + ws == ws;
      TrimLeftNothing(ws);
    } else {
      assert (s + ws)[1..] == s[1..] + ws;
      if IsSpace(s[0]) {
        TrimLeftSpaces(s[1..], ws);
      }
    }
  }

  lemma {:induction false} TrimLeftNothing(ws: string)
    requires AllSpace(ws)
    ensures TrimLeft(ws) == []
  {
    if ws != [] {
      TrimLeftNothing(ws[1..]);
    }
  }

  /** Trailing white space makes no difference to trimming. */
  lemma TrimSpaces(s: string, ws: string)
    requires AllSpace(ws)
    ensures TrimSpace(s + ws) == TrimSpace(s)
  {
    TrimLeftSpaces(s, ws);
    TrimRightSpaces(TrimLeft(s), ws);
  }
}
