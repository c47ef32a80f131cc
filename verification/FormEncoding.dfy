/** Percent-encoding, and pairs in the order they are given. */
module FormEncoding {
  // Percent-encoding as section 2.1 of RFC 3986 writes it, with a space as '+' (section 17.13.4 of HTML
  // 4.01), and pairs in the order they are given.

  import opened Wrappers
  import opened Lists
  import opened Utf8

  const SPACE: Byte := 32
  const PERCENT: Byte := 37
  const AMPERSAND: Byte := 38
  const PLUS: Byte := 43
  const EQUALS: Byte := 61

  datatype Pair = Pair(key: Bytes, value: Bytes)

  // ----- One byte

  predicate IsAlphanumeric(b: Byte) {
    48 <= b <= 57 || 65 <= b <= 90 || 97 <= b <= 122
  }

  /** The bytes written as they are: letters, digits, '-', '.', '_' and '~'. */
  predicate IsUnreserved(b: Byte) {
    IsAlphanumeric(b) || b == 45 || b == 46 || b == 95 || b == 126
  }

  /** An upper-case hexadecimal digit. */
  function HexDigit(n: nat): Byte
    requires n < 16
  {
    if n < 10 then (48 + n) as Byte else (55 + n) as Byte
  }

  /** The value of a hexadecimal digit of either case. */
  function HexValue(b: Byte): Option<nat> {
    if 48 <= b <= 57 then Some((b - 48) as nat)
    else if 65 <= b <= 70 then Some((b - 55) as nat)
    else if 97 <= b <= 102 then Some((b - 87) as nat)
    else None
  }

  function Percent(b: Byte): Bytes {
    [PERCENT, HexDigit(b as int / 16), HexDigit(b as int % 16)]
  }

  function EscapeByte(b: Byte): Bytes {
    if IsUnreserved(b) then [b] else if b == SPACE then [PLUS] else Percent(b)
  }

  lemma HexInverse(n: nat)
    requires n < 16
    ensures HexValue(HexDigit(n)) == Some(n) && IsAlphanumeric(HexDigit(n))
  {
  }

  // ----- One text

  function Escape(s: Bytes): Bytes {
    if s == [] then [] else EscapeByte(s[0]) + Escape(s[1..])
  }

  /** The first byte an encoded text stands for, and what follows it; none for a malformed escape. */
  function UnescapeFirst(s: Bytes): Option<(Byte, Bytes)>
    requires s != []
  {
    if s[0] == PLUS then Some((SPACE, s[1..]))
    else if s[0] != PERCENT then Some((s[0], s[1..]))
    else if |s| < 3 || HexValue(s[1]).None? || HexValue(s[2]).None? then None
    else Some(((16 * HexValue(s[1]).value + HexValue(s[2]).value) as Byte, s[3..]))
  }

  function Unescape(s: Bytes): Option<Bytes>
    decreases |s|
  {
    if s == [] then Some([]) else
    match UnescapeFirst(s)
    case None => None
    case Some((b, rest)) =>
      match Unescape(rest)
      case None => None
      case Some(bs) => Some([b] + bs)
  }

  lemma PercentInverse(b: Byte, rest: Bytes)
    ensures UnescapeFirst(Percent(b) + rest) == Some((b, rest))
  {
    HexInverse(b as int / 16);
    HexInverse(b as int % 16);
    assert 16 * (b as int / 16) + b as int % 16 == b as int;
    assert (Percent(b) + rest)[3..] == rest;
  }

  lemma EscapeByteInverse(b: Byte, rest: Bytes)
    ensures UnescapeFirst(EscapeByte(b) + rest) == Some((b, rest))
  {
    if IsUnreserved(b) || b == SPACE {
      assert (EscapeByte(b) + rest)[1..] == rest;
    } else {
      PercentInverse(b, rest);
    }
  }

  /** Unescaping undoes escaping, for every byte string. */
  lemma {:induction false} EscapeInverse(s: Bytes)
    ensures Unescape(Escape(s)) == Some(s)
  {
    if s != [] {
      EscapeByteInverse(s[0], Escape(s[1..]));
      EscapeInverse(s[1..]);
      assert s == [s[0]] + s[1..];
    }
  }

  predicate IsEncoded(b: Byte) {
    IsUnreserved(b) || b == PERCENT || b == PLUS
  }

  /** An escaped text holds nothing but unreserved bytes, percent signs and plus signs. */
  lemma {:induction false} EscapeAlphabet(s: Bytes)
    ensures forall i :: 0 <= i < |Escape(s)| ==> IsEncoded(Escape(s)[i])
  {
    if s != [] {
      EscapeAlphabet(s[1..]);
      EscapeByteAlphabet(s[0]);
    }
  }

  lemma EscapeByteAlphabet(b: Byte)
    ensures forall i :: 0 <= i < |EscapeByte(b)| ==> IsEncoded(EscapeByte(b)[i])
  {
    HexInverse(b as int / 16);
    HexInverse(b as int % 16);
  }

  lemma EscapeLacks(s: Bytes, b: Byte)
    requires !IsEncoded(b)
    ensures Lacks(Escape(s), b)
  {
    EscapeAlphabet(s);
  }

  // ----- Path escaping

  /** Go's `ReplaceAll(s, "+", "%20")`. */
  function PlusToPercent(s: Bytes): Bytes {
    if s == [] then [] else (if s[0] == PLUS then Percent(SPACE) else [s[0]]) + PlusToPercent(s[1..])
  }

  function PathEscape(s: Bytes): Bytes {
    PlusToPercent(Escape(s))
  }

  function PathEscapeByte(b: Byte): Bytes {
    if IsUnreserved(b) then [b] else Percent(b)
  }

  lemma {:induction false} PlusToPercentConcat(a: Bytes, b: Bytes)
    ensures PlusToPercent(a + b) == PlusToPercent(a) + PlusToPercent(b)
  {
    if a == [] {
      assert a + b == b;
    } else {
      assert (a + b)[1..] == a[1..] + b;
      PlusToPercentConcat(a[1..], b);
    }
  }

  lemma {:induction false} NoPlusIsKept(s: Bytes)
    requires Lacks(s, PLUS)
    ensures PlusToPercent(s) == s
  {
    if s != [] {
      NoPlusIsKept(s[1..]);
    }
  }

  /** Each byte is written unreserved or as a percent escape. */
  lemma PathEscapeStep(s: Bytes)
    requires s != []
    ensures PathEscape(s) == PathEscapeByte(s[0]) + PathEscape(s[1..])
  {
    PlusToPercentConcat(EscapeByte(s[0]), Escape(s[1..]));
    if s[0] == SPACE && !IsUnreserved(s[0]) {
      assert EscapeByte(s[0])[1..] == [];
    } else {
      HexInverse(s[0] as int / 16);
      HexInverse(s[0] as int % 16);
      NoPlusIsKept(EscapeByte(s[0]));
    }
  }

  /** Path escaping emits no plus sign, and unescaping undoes it. */
  lemma {:induction false} PathEscapeInverse(s: Bytes)
    ensures Unescape(PathEscape(s)) == Some(s) && Lacks(PathEscape(s), PLUS)
  {
    if s != [] {
      PathEscapeInverse(s[1..]);
      PathEscapeStep(s);
      PathByteInverse(s[0], PathEscape(s[1..]));
      assert s == [s[0]] + s[1..];
    }
  }

  lemma PathByteInverse(b: Byte, rest: Bytes)
    ensures UnescapeFirst(PathEscapeByte(b) + rest) == Some((b, rest)) && Lacks(PathEscapeByte(b), PLUS)
  {
    if IsUnreserved(b) {
      assert (PathEscapeByte(b) + rest)[1..] == rest;
    } else {
      HexInverse(b as int / 16);
      HexInverse(b as int % 16);
      PercentInverse(b, rest);
    }
  }

  // ----- Pairs

  function EncodePair(p: Pair): Bytes {
    Escape(p.key) + [EQUALS] + Escape(p.value)
  }

  /** Pairs joined by '&', in order. */
  function Encoded(pairs: seq<Pair>): Bytes {
    if pairs == [] then []
    else if |pairs| == 1 then EncodePair(pairs[0])
    else Encoded(pairs[..|pairs| - 1]) + [AMPERSAND] + EncodePair(pairs[|pairs| - 1])
  }

  lemma {:induction false} EncodedIsEmptyIff(pairs: seq<Pair>)
    ensures Encoded(pairs) == [] <==> pairs == []
  {
  }

  method EncodeOrdered(pairs: seq<Pair>) returns (b: Bytes)
    ensures b == Encoded(pairs)
  {
    b := [];
    for i := 0 to |pairs|
      invariant b == Encoded(pairs[..i])
    {
      assert pairs[..i + 1][..i] == pairs[..i];
      EncodedIsEmptyIff(pairs[..i]);
      var p := pairs[i];
      if |b| > 0 {
        b := b + [AMPERSAND] + EncodePair(p);
      } else {
        b := EncodePair(p);
      }
    }
    assert pairs[..|pairs|] == pairs;
  }

  /** The part before the first '=', and the part after it. */
  function Cut(s: Bytes): (Bytes, Bytes) {
    var i := IndexOf(s, EQUALS);
    if i == |s| then (s, []) else (s[..i], s[i + 1..])
  }

  function ParsePair(s: Bytes): Option<Pair> {
    var (k, v) := Cut(s);
    if Unescape(k).None? || Unescape(v).None? then None else Some(Pair(Unescape(k).value, Unescape(v).value))
  }

  function ParsePairs(parts: seq<Bytes>): Option<seq<Pair>> {
    if parts == [] then Some([]) else
    match (ParsePair(parts[0]), ParsePairs(parts[1..]))
    case (Some(p), Some(ps)) => Some([p] + ps)
    case _ => None
  }

  /** Splitting a query at every '&' and unescaping both sides of each pair. */
  function ParseForm(s: Bytes): Option<seq<Pair>> {
    if s == [] then Some([]) else ParsePairs(Split(s, AMPERSAND))
  }

  lemma CutAtEquals(a: Bytes, b: Bytes)
    requires Lacks(a, EQUALS)
    ensures Cut(a + [EQUALS] + b) == (a, b)
  {
    var s := a + [EQUALS] + b;
    IndexOfIs(s, EQUALS, |a|);
    assert s[..|a|] == a && s[|a| + 1..] == b;
  }

  lemma ParseEncodedPair(p: Pair)
    ensures ParsePair(EncodePair(p)) == Some(p) && Lacks(EncodePair(p), AMPERSAND)
  {
    EscapeLacks(p.key, EQUALS);
    CutAtEquals(Escape(p.key), Escape(p.value));
    EscapeInverse(p.key);
    EscapeInverse(p.value);
    EscapeLacks(p.key, AMPERSAND);
    EscapeLacks(p.value, AMPERSAND);
  }

  lemma {:induction false} ParsePairsConcat(a: seq<Bytes>, b: seq<Bytes>)
    requires ParsePairs(a).Some? && ParsePairs(b).Some?
    ensures ParsePairs(a + b) == Some(ParsePairs(a).value + ParsePairs(b).value)
  {
    if a == [] {
      assert a + b == b;
      assert [] + ParsePairs(b).value == ParsePairs(b).value;
    } else {
      assert (a + b)[1..] == a[1..] + b && (a + b)[0] == a[0];
      ParsePairsConcat(a[1..], b);
      Reassociate([ParsePair(a[0]).value], ParsePairs(a[1..]).value, ParsePairs(b).value);
    }
  }

  lemma ParseSingleton(part: Bytes)
    requires ParsePair(part).Some?
    ensures ParsePairs([part]) == Some([ParsePair(part).value])
  {
    assert [part][1..] == [];
    assert ParsePairs([]) == Some([]);
    assert [ParsePair(part).value] + [] == [ParsePair(part).value];
  }

  lemma ParseOnePair(p: Pair)
    ensures ParsePairs(Split(EncodePair(p), AMPERSAND)) == Some([p])
  {
    ParseEncodedPair(p);
    SplitWithout(EncodePair(p), AMPERSAND);
    ParseSingleton(EncodePair(p));
  }

  /** Parsing gives back the pairs, in the order given, for all keys and values. */
  lemma {:induction false} FormRoundTrip(pairs: seq<Pair>)
    ensures ParseForm(Encoded(pairs)) == Some(pairs)
  {
    EncodedIsEmptyIff(pairs);
    if pairs != [] {
      ParseEncoded(pairs);
    }
  }

  /** Two queries that parse, joined by '&', parse to the pairs of both. */
  lemma ParseJoined(a: Bytes, b: Bytes, as': seq<Pair>, bs: seq<Pair>)
    requires ParsePairs(Split(a, AMPERSAND)) == Some(as') && ParsePairs(Split(b, AMPERSAND)) == Some(bs)
    ensures ParsePairs(Split(a + [AMPERSAND] + b, AMPERSAND)) == Some(as' + bs)
  {
    SplitJoined(a, AMPERSAND, b);
    ParsePairsConcat(Split(a, AMPERSAND), Split(b, AMPERSAND));
  }

  lemma EncodedLast(pairs: seq<Pair>, last: Pair)
    requires pairs != []
    ensures Encoded(pairs + [last]) == Encoded(pairs) + [AMPERSAND] + EncodePair(last)
  {
    var all := pairs + [last];
    assert all[..|all| - 1] == pairs;
  }

  lemma {:induction false} ParseEncoded(pairs: seq<Pair>)
    requires pairs != []
    ensures ParsePairs(Split(Encoded(pairs), AMPERSAND)) == Some(pairs)
  {
    var init, last := pairs[..|pairs| - 1], pairs[|pairs| - 1];
    assert pairs == init + [last];
    ParseOnePair(last);
    if init == [] {
      assert pairs == [last];
    } else {
      ParseEncoded(init);
      EncodedLast(init, last);
      ParseJoined(Encoded(init), EncodePair(last), init, [last]);
    }
  }

  // ----- Appending to a query

  /** A parsed URL, of which only the query is updated. */
  class Url {
    var rawQuery: Bytes

    constructor (rawQuery: Bytes)
      ensures this.rawQuery == rawQuery
    {
      this.rawQuery := rawQuery;
    }

    /** Keeps the query as it is and adds the pairs after it. */
    method AppendQuery(pairs: seq<Pair>)
      modifies this
      ensures rawQuery == WithPairs(old(rawQuery), pairs)
    {
      var appended := EncodeOrdered(pairs);
      EncodedIsEmptyIff(pairs);
      if appended == [] {
        return;
      }
      if rawQuery == [] {
        rawQuery := appended;
      } else {
        rawQuery := rawQuery + [AMPERSAND] + appended;
      }
    }
  }

  function WithPairs(query: Bytes, pairs: seq<Pair>): Bytes {
    if pairs == [] then query else if query == [] then Encoded(pairs) else query + [AMPERSAND] + Encoded(pairs)
  }

  /** The query's own text stays verbatim in front, and it parses to its own pairs followed by the new ones. */
  lemma AppendedQueryParses(query: Bytes, pairs: seq<Pair>)
    requires ParseForm(query).Some?
    ensures query <= WithPairs(query, pairs)
    ensures ParseForm(WithPairs(query, pairs)) == Some(ParseForm(query).value + pairs)
  {
    FormRoundTrip(pairs);
    if query != [] && pairs != [] {
      ParseEncoded(pairs);
      ParseJoined(query, Encoded(pairs), ParseForm(query).value, pairs);
    } else if pairs == [] {
      assert ParseForm(query).value + [] == ParseForm(query).value;
    } else {
      assert [] + pairs == pairs;
    }
  }

  // ----- How it is written

  predicate IsUpperHex(b: Byte) {
    48 <= b <= 57 || 65 <= b <= 70
  }

  function UpperHexValue(b: Byte): int
    requires IsUpperHex(b)
  {
    if b <= 57 then b as int - 48 else b as int - 55
  }

  /**
   A byte is written as itself if it is a letter, a digit or one of `-`, `.`, `_` and `~`, as a plus sign
   if it is a space, and else as a percent sign and its two upper-case hexadecimal digits.
   */
  predicate IsWritten(b: Byte, w: Bytes) {
    if 48 <= b <= 57 || 65 <= b <= 90 || 97 <= b <= 122 || b in {45, 46, 95, 126} then w == [b]
    else if b == 32 then w == [43]
    else
      && |w| == 3 && w[0] == 37 && IsUpperHex(w[1]) && IsUpperHex(w[2])
      && 16 * UpperHexValue(w[1]) + UpperHexValue(w[2]) == b as int
  }

  lemma HexIsUpper(n: nat)
    requires n < 16
    ensures IsUpperHex(HexDigit(n)) && UpperHexValue(HexDigit(n)) == n
  {
  }

  lemma EscapedByte(b: Byte)
    ensures IsWritten(b, EscapeByte(b))
  {
    HexIsUpper(b as int / 16);
    HexIsUpper(b as int % 16);
    assert 16 * (b as int / 16) + b as int % 16 == b as int;
  }

  /** A text is written byte by byte. */
  lemma {:induction false} EscapedBytes(a: Bytes, b: Byte, c: Bytes)
    ensures exists w :: IsWritten(b, w) && Escape(a + [b] + c) == Escape(a) + w + Escape(c)
  {
    EscapeConcat(a + [b], c);
    EscapeConcat(a, [b]);
    EscapeOne(b);
    EscapedByte(b);
  }

  lemma EscapeOne(b: Byte)
    ensures Escape([b]) == EscapeByte(b)
  {
    assert [b][1..] == [];
    assert EscapeByte(b) + [] == EscapeByte(b);
  }

  lemma {:induction false} EscapeConcat(a: Bytes, b: Bytes)
    ensures Escape(a + b) == Escape(a) + Escape(b)
  {
    if a == [] {
      assert a + b == b;
    } else {
      assert (a + b)[1..] == a[1..] + b;
      EscapeConcat(a[1..], b);
      Reassociate(EscapeByte(a[0]), Escape(a[1..]), Escape(b));
    }
  }

  /** One pair is its key, an equals sign and its value; more are joined by ampersands. */
  lemma {:induction false} EncodedIs(a: seq<Pair>, p: Pair, b: seq<Pair>)
    ensures Encoded([]) == [] && Encoded([p]) == Escape(p.key) + [61] + Escape(p.value)
    ensures a != [] && b != [] ==> Encoded(a + b) == Encoded(a) + [38] + Encoded(b)
  {
    if a != [] && b != [] {
      var init, last := b[..|b| - 1], b[|b| - 1];
      assert b == init + [last];
      if init == [] {
        assert b == [last];
        EncodedLast(a, last);
      } else {
        EncodedIs(a, p, init);
        EncodedLast(a + init, last);
        EncodedLast(init, last);
        assert a + b == (a + init) + [last];
        Regroup(Encoded(a), [38], Encoded(init), [AMPERSAND], EncodePair(last));
      }
    }
  }

  lemma Regroup(a: Bytes, b: Bytes, c: Bytes, d: Bytes, e: Bytes)
    ensures a + b + c + d + e == a + b + (c + d + e)
  {
  }

  /** Path escaping is the same, with the space as %20. */
  lemma PathEscapedByte(b: Byte, s: Bytes)
    ensures exists w :: PathEscape([b] + s) == w + PathEscape(s)
                         && if b == 32 then w == [37, 50, 48] else IsWritten(b, w)
  {
    assert ([b] + s)[1..] == s;
    PathEscapeStep([b] + s);
    EscapedByte(b);
    var w := PathEscapeByte(b);
    assert b == 32 ==> w == [37, 50, 48];
    assert PathEscape([b] + s) == w + PathEscape(s);
  }
}
