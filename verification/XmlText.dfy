/** Sanitizing XML text. */
module XmlText {
  // Malformed bytes are stripped, and so is Jackett's set of characters: control characters, the
  // byte-order mark and two non-characters. The set is wider than what section 2.2 of XML 1.0 rules
  // out, which allows U+007F to U+009F and U+FEFF. A genuine U+FFFD is kept.

  import opened Lists
  import opened Utf8

  predicate IsInvalidXmlChar(r: Scalar) {
    || r <= 0x08
    || r == 0x0B || r == 0x0C
    || 0x0E <= r <= 0x1F
    || 0x7F <= r <= 0x9F
    || r == 0xFEFF || r == 0xFFFE || r == 0xFFFF
  }

  predicate StripRune(step: Step) {
    step.Malformed() || IsInvalidXmlChar(step.r)
  }

  /** The scalars outside the stripped set, in order. */
  function Allowed(rs: seq<Scalar>): seq<Scalar> {
    if rs == [] then [] else (if IsInvalidXmlChar(rs[0]) then [] else [rs[0]]) + Allowed(rs[1..])
  }

  /** What sanitizing means: the decodable scalars without the stripped ones, encoded again. */
  function Sanitized(s: Bytes): Bytes {
    EncodeAll(Allowed(Scalars(s)))
  }

  /** Whether decoding the string meets something to strip. */
  predicate HasInvalid(s: Bytes) {
    s != [] &&
    (DecodedIsEncoding(s);
     var step := DecodeRune(s);
     StripRune(step) || HasInvalid(s[step.size..]))
  }

  method HasInvalidXmlChar(s: Bytes) returns (found: bool)
    ensures found == HasInvalid(s)
  {
    var i := 0;
    while i < |s|
      invariant 0 <= i <= |s|
      invariant HasInvalid(s) == HasInvalid(s[i..])
    {
      DecodedIsEncoding(s[i..]);
      var step := DecodeRune(s[i..]);
      if StripRune(step) {
        return true;
      }
      assert s[i..][step.size..] == s[i + step.size..];
      i := i + step.size;
    }
    found := false;
  }

  /** What is written plus what the rest of the text will add: the loop below keeps it. */
  function Outlook(s: Bytes, i: nat, written: Bytes): Bytes
    requires i <= |s|
  {
    written + Sanitized(s[i..])
  }

  method SanitizeXmlText(s: Bytes) returns (r: Bytes)
    ensures r == Sanitized(s)
  {
    var dirty := HasInvalidXmlChar(s);
    if s == [] || !dirty {
      CleanIsUnchanged(s);
      return s;
    }
    r := StripLoop(s);
  }

  method StripLoop(s: Bytes) returns (b: Bytes)
    ensures b == Sanitized(s)
  {
    b := [];
    var i := 0;
    while i < |s|
      invariant 0 <= i <= |s|
      invariant Outlook(s, i, b) == Outlook(s, 0, [])
    {
      b, i := CopyOrSkip(s, i, b);
    }
    OutlookEnds(s, b);
  }

  lemma OutlookEnds(s: Bytes, b: Bytes)
    ensures Outlook(s, 0, []) == Sanitized(s) && Outlook(s, |s|, b) == b
  {
    assert s[0..] == s && s[|s|..] == [];
    assert Sanitized([]) == [];
  }

  /** One turn of the loop: the bytes of the rune at `i` are copied, or skipped. */
  method CopyOrSkip(s: Bytes, i: nat, b: Bytes) returns (b': Bytes, j: nat)
    requires i < |s|
    ensures i < j <= |s| && Outlook(s, j, b') == Outlook(s, i, b)
  {
    var step := DecodeRune(s[i..]);
    if StripRune(step) {
      b', j := b, i + step.size;
      OutlookSkips(s, i, j, b);
    } else {
      j := i + step.size;
      OutlookCopies(s, i, j, b);
      b' := b + s[i..j];
    }
  }

  lemma OutlookSkips(s: Bytes, i: nat, j: int, written: Bytes)
    requires i < |s| && StripRune(DecodeRune(s[i..])) && j == i + DecodeRune(s[i..]).size
    ensures i < j <= |s| && Outlook(s, j, written) == Outlook(s, i, written)
  {
    SanitizedStepAt(s, i);
  }

  lemma OutlookCopies(s: Bytes, i: nat, j: int, written: Bytes)
    requires i < |s| && !StripRune(DecodeRune(s[i..])) && j == i + DecodeRune(s[i..]).size
    ensures i < j <= |s| && Outlook(s, j, written + s[i..j]) == Outlook(s, i, written)
  {
    SanitizedStepAt(s, i);
    PieceMoves(s, i, j, written);
  }

  lemma PieceMoves(s: Bytes, i: nat, j: int, written: Bytes)
    requires i < j <= |s| && Sanitized(s[i..]) == s[i..j] + Sanitized(s[j..])
    ensures Outlook(s, j, written + s[i..j]) == Outlook(s, i, written)
  {
    Reassociate(written, s[i..j], Sanitized(s[j..]));
  }

  lemma SanitizedStepAt(s: Bytes, i: nat)
    requires i < |s|
    ensures var step := DecodeRune(s[i..]);
      && 1 <= step.size <= |s| - i
      && Sanitized(s[i..])
         == if StripRune(step) then Sanitized(s[i + step.size..])
            else s[i..i + step.size] + Sanitized(s[i + step.size..])
  {
    var rest := s[i..];
    SanitizedStep(rest);
    assert rest[DecodeRune(rest).size..] == s[i + DecodeRune(rest).size..];
    assert rest[..DecodeRune(rest).size] == s[i..i + DecodeRune(rest).size];
  }

  /** One decoding step contributes its own bytes or nothing. */
  lemma SanitizedStep(s: Bytes)
    requires s != []
    ensures var step := DecodeRune(s);
      && 1 <= step.size <= |s|
      && Sanitized(s)
         == if StripRune(step) then Sanitized(s[step.size..]) else s[..step.size] + Sanitized(s[step.size..])
  {
    DecodedIsEncoding(s);
    var step := DecodeRune(s);
    var rest := Scalars(s[step.size..]);
    if step.Malformed() {
      assert Scalars(s) == rest;
    } else {
      assert Scalars(s) == [step.r] + rest;
      AllowedCons(step.r, rest);
    }
  }

  lemma AllowedCons(r: Scalar, rest: seq<Scalar>)
    ensures EncodeAll(Allowed([r] + rest))
         == if IsInvalidXmlChar(r) then EncodeAll(Allowed(rest)) else Encode(r) + EncodeAll(Allowed(rest))
  {
    assert ([r] + rest)[1..] == rest;
    if IsInvalidXmlChar(r) {
      assert Allowed([r] + rest) == Allowed(rest);
    } else {
      assert Allowed([r] + rest) == [r] + Allowed(rest);
      assert ([r] + Allowed(rest))[1..] == Allowed(rest);
    }
  }

  /** Nothing to strip means nothing changes, so returning the input early is right. */
  lemma {:induction false} CleanIsUnchanged(s: Bytes)
    ensures !HasInvalid(s) ==> Sanitized(s) == s
  {
    if s != [] && !HasInvalid(s) {
      SanitizedStep(s);
      var step := DecodeRune(s);
      CleanIsUnchanged(s[step.size..]);
      assert s == s[..step.size] + s[step.size..];
    }
  }

  lemma {:induction false} AllowedMembers(rs: seq<Scalar>)
    ensures forall r :: r in Allowed(rs) <==> r in rs && !IsInvalidXmlChar(r)
  {
    if rs != [] {
      AllowedMembers(rs[1..]);
      assert rs == [rs[0]] + rs[1..];
    }
  }

  /** The output is well-formed UTF-8, and decodes to exactly the input's allowed scalars, in order. */
  lemma SanitizedDecodes(s: Bytes)
    ensures Valid(Sanitized(s))
    ensures Scalars(Sanitized(s)) == Allowed(Scalars(s))
    ensures forall r :: r in Scalars(Sanitized(s)) <==> r in Scalars(s) && !IsInvalidXmlChar(r)
  {
    EncodedDecodes(Allowed(Scalars(s)));
    AllowedMembers(Scalars(s));
  }

  /** The strings sanitizing leaves alone are exactly the well-formed ones without a stripped scalar. */
  lemma FixedPoints(s: Bytes)
    ensures Sanitized(s) == s <==> Valid(s) && forall r :: r in Scalars(s) ==> !IsInvalidXmlChar(r)
    ensures Sanitized(Sanitized(s)) == Sanitized(s)
  {
    SanitizedDecodes(s);
    SanitizedDecodes(Sanitized(s));
    AllowedMembers(Scalars(s));
    AllAllowed(Allowed(Scalars(s)));
    ValidIsEncoded(s);
    if Valid(s) && forall r :: r in Scalars(s) ==> !IsInvalidXmlChar(r) {
      AllAllowed(Scalars(s));
    }
  }

  lemma {:induction false} AllAllowed(rs: seq<Scalar>)
    requires forall r :: r in rs ==> !IsInvalidXmlChar(r)
    ensures Allowed(rs) == rs
  {
    if rs != [] {
      AllAllowed(rs[1..]);
    }
  }

  /** The fast path is taken exactly for the fixed points. */
  lemma {:induction false} FastPathIsExact(s: Bytes)
    ensures !HasInvalid(s) <==> Sanitized(s) == s
  {
    CleanIsUnchanged(s);
    if HasInvalid(s) {
      Shrinks(s);
    }
  }

  lemma {:induction false} Shrinks(s: Bytes)
    ensures |Sanitized(s)| <= |s|
    ensures HasInvalid(s) ==> |Sanitized(s)| < |s|
  {
    if s != [] {
      SanitizedStep(s);
      Shrinks(s[DecodeRune(s).size..]);
    }
  }

  // ----- What XML allows

  /** The characters of section 2.2 of XML 1.0. */
  predicate IsXmlChar(r: int) {
    r == 0x9 || r == 0xA || r == 0xD || 0x20 <= r <= 0xD7FF || 0xE000 <= r <= 0xFFFD || 0x10000 <= r <= 0x10FFFF
  }

  /** Those that are stripped all the same: the delete character, the C1 controls and the byte-order mark. */
  predicate IsDiscouraged(r: int) {
    0x7F <= r <= 0x9F || r == 0xFEFF
  }

  lemma StrippedIff(r: Scalar)
    ensures IsInvalidXmlChar(r) <==> !IsXmlChar(r as int) || IsDiscouraged(r as int)
  {
  }

  predicate Stays(r: Scalar) {
    IsXmlChar(r as int) && !IsDiscouraged(r as int)
  }

  lemma {:induction false} AllowedAre(rs: seq<Scalar>)
    ensures Allowed(rs) == Kept(rs, Stays)
  {
    if rs != [] {
      StrippedIff(rs[0]);
      AllowedAre(rs[1..]);
    }
  }

  /**
   The output decodes to the legal characters of the input that are not discouraged, in order, tab, line
   feed and carriage return among them: it holds no character that XML rules out, and loses none else.
   */
  lemma SanitizedIsLegal(s: Bytes)
    ensures Valid(Sanitized(s))
    ensures Scalars(Sanitized(s)) == Kept(Scalars(s), Stays)
    ensures forall i :: 0 <= i < |Scalars(Sanitized(s))| ==> IsXmlChar(Scalars(Sanitized(s))[i] as int)
  {
    SanitizedDecodes(s);
    AllowedAre(Scalars(s));
    KeptMeets(Scalars(s), Stays);
  }

  lemma {:induction false} KeptMeets(rs: seq<Scalar>, keep: Scalar -> bool)
    ensures forall i :: 0 <= i < |Kept(rs, keep)| ==> keep(Kept(rs, keep)[i])
  {
    if rs != [] {
      KeptMeets(rs[1..], keep);
    }
  }
}
