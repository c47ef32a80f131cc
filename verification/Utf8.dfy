/**
 Bytes, and UTF-8 as section 4 of RFC 3629 defines it: the encoding of scalar values, and a
 decoder that reports one malformed byte at a time the way Go's `utf8.DecodeRuneInString` does.
 */
module Utf8 {
  import Text

  newtype Byte = b: int | 0 <= b < 256

  /** A Go string. */
  type Bytes = seq<Byte>

  /** A Unicode scalar value: any code point that is not a surrogate. */
  type Scalar = r: int | 0 <= r < 0xD800 || 0xE000 <= r <= 0x10FFFF witness 0

  const RUNE_ERROR: Scalar := 0xFFFD

  /** A decoding step: the scalar read and how many bytes it took.  A malformed byte is (RUNE_ERROR, 1). */
  datatype Step = Step(r: Scalar, size: nat) {
    predicate Malformed() { r == RUNE_ERROR && size == 1 }
  }

  function Encode(r: Scalar): (s: Bytes)
    ensures 1 <= |s| <= 4
  {
    if r < 0x80 then [r as Byte]
    else if r < 0x800 then [(0xC0 + r / 0x40) as Byte, Tail(r)]
    else if r < 0x10000 then [(0xE0 + r / 0x1000) as Byte, Tail(r / 0x40), Tail(r)]
    else [(0xF0 + r / 0x40000) as Byte, Tail(r / 0x1000), Tail(r / 0x40), Tail(r)]
  }

  /** The continuation byte for the low six bits of a number. */
  function Tail(n: nat): Byte {
    (0x80 + n % 0x40) as Byte
  }

  predicate IsTail(b: Byte) {
    0x80 <= b <= 0xBF
  }

  /** The six bits a continuation byte carries. */
  function Bits(b: Byte): (n: nat)
    requires IsTail(b)
    ensures n < 0x40
  {
    b as int - 0x80
  }

  /**
   The bytes a second byte may take after a lead byte, ruling out overlong forms, surrogates and
   values past U+10FFFF.
   */
  predicate SecondOk(lead: Byte, b: Byte) {
    if lead == 0xE0 then 0xA0 <= b <= 0xBF
    else if lead == 0xED then 0x80 <= b <= 0x9F
    else if lead == 0xF0 then 0x90 <= b <= 0xBF
    else if lead == 0xF4 then 0x80 <= b <= 0x8F
    else IsTail(b)
  }

  /** The first scalar of a non-empty string. */
  function DecodeRune(s: Bytes): Step
    requires s != []
  {
    var bad := Step(RUNE_ERROR, 1);
    var lead := s[0];
    if lead < 0x80 then Step(lead as int, 1)
    else if lead < 0xC2 || lead > 0xF4 then bad
    else if lead < 0xE0 then
      if |s| < 2 || !SecondOk(lead, s[1]) then bad
      else Step((lead as int - 0xC0) * 0x40 + Bits(s[1]), 2)
    else if lead < 0xF0 then
      if |s| < 3 || !SecondOk(lead, s[1]) || !IsTail(s[2]) then bad
      else Step((lead as int - 0xE0) * 0x1000 + Bits(s[1]) * 0x40 + Bits(s[2]), 3)
    else
      if |s| < 4 || !SecondOk(lead, s[1]) || !IsTail(s[2]) || !IsTail(s[3]) then bad
      else Step((lead as int - 0xF0) * 0x40000 + Bits(s[1]) * 0x1000 + Bits(s[2]) * 0x40 + Bits(s[3]), 4)
  }

  /** A number is its low six bits and the rest. */
  lemma SixBits(n: nat)
    ensures n == n / 0x40 * 0x40 + n % 0x40 && Bits(Tail(n)) == n % 0x40 && IsTail(Tail(n))
  {
  }

  lemma Regroup(hi: nat, lo: nat)
    requires lo < 0x40
    ensures (hi * 0x40 + lo) / 0x40 == hi && (hi * 0x40 + lo) % 0x40 == lo
  {
  }

  lemma TailOfBits(b: Byte)
    requires IsTail(b)
    ensures Tail(Bits(b)) == b
  {
  }

  /** Decoding undoes encoding, whatever follows. */
  lemma DecodeEncoded(r: Scalar, rest: Bytes)
    ensures DecodeRune(Encode(r) + rest) == Step(r, |Encode(r)|)
  {
    SixBits(r);
    if r >= 0x800 {
      SixBits(r / 0x40);
      assert r / 0x40 / 0x40 == r / 0x1000;
    }
    if r >= 0x10000 {
      SixBits(r / 0x1000);
      assert r / 0x1000 / 0x40 == r / 0x40000;
    }
  }

  /** A step that is not malformed consumed exactly the encoding of its scalar. */
  lemma DecodedIsEncoding(s: Bytes)
    requires s != []
    ensures var step := DecodeRune(s);
      && 1 <= step.size <= |s|
      && (step.Malformed() || s[..step.size] == Encode(step.r))
  {
    var step := DecodeRune(s);
    if step.size == 2 {
      Regroup(s[0] as int - 0xC0, Bits(s[1]));
      TailOfBits(s[1]);
    } else if step.size == 3 {
      ThreeBytes(s);
    } else if step.size == 4 {
      FourBytes(s);
    }
  }

  /** Four groups of six bits, the first of any size, read back from the number they make. */
  lemma FourParts(a: nat, b: nat, c: nat, d: nat)
    requires b < 0x40 && c < 0x40 && d < 0x40
    ensures var r := a * 0x40000 + b * 0x1000 + c * 0x40 + d;
      r / 0x40000 == a && r / 0x1000 % 0x40 == b && r / 0x40 % 0x40 == c && r % 0x40 == d
  {
    var hi := (a * 0x40 + b) * 0x40 + c;
    assert a * 0x40000 + b * 0x1000 + c * 0x40 + d == hi * 0x40 + d;
    Regroup(hi, d);
    Regroup(a * 0x40 + b, c);
    Regroup(a, b);
    assert hi / 0x40 / 0x40 == a && hi / 0x40 == a * 0x40 + b;
  }

  lemma ThreeBytes(s: Bytes)
    requires s != [] && DecodeRune(s).size == 3
    ensures 3 <= |s| && s[..3] == Encode(DecodeRune(s).r)
  {
    FourParts(0, s[0] as int - 0xE0, Bits(s[1]), Bits(s[2]));
    TailOfBits(s[1]);
    TailOfBits(s[2]);
  }

  lemma FourBytes(s: Bytes)
    requires s != [] && DecodeRune(s).size == 4
    ensures 4 <= |s| && s[..4] == Encode(DecodeRune(s).r)
  {
    FourParts(s[0] as int - 0xF0, Bits(s[1]), Bits(s[2]), Bits(s[3]));
    TailOfBits(s[1]);
    TailOfBits(s[2]);
    TailOfBits(s[3]);
  }

  // ----- Whole strings

  function EncodeAll(rs: seq<Scalar>): Bytes {
    if rs == [] then [] else Encode(rs[0]) + EncodeAll(rs[1..])
  }

  /** The scalars that decode, in order; malformed bytes are skipped. */
  function Scalars(s: Bytes): seq<Scalar> {
    if s == [] then [] else
    DecodedIsEncoding(s);
    var step := DecodeRune(s);
    (if step.Malformed() then [] else [step.r]) + Scalars(s[step.size..])
  }

  /** No byte is malformed. */
  predicate Valid(s: Bytes) {
    s == [] ||
    (DecodedIsEncoding(s);
     var step := DecodeRune(s);
     !step.Malformed() && Valid(s[step.size..]))
  }

  /** Nothing is left after trimming Unicode white space; a malformed byte is not white space. */
  predicate Blank(s: Bytes) {
    Valid(s) && forall i :: 0 <= i < |Scalars(s)| ==> Text.IsSpace(Scalars(s)[i] as char)
  }

  lemma {:induction false} EncodedDecodes(rs: seq<Scalar>)
    ensures Scalars(EncodeAll(rs)) == rs && Valid(EncodeAll(rs))
  {
    if rs != [] {
      var rest := EncodeAll(rs[1..]);
      DecodeEncoded(rs[0], rest);
      assert (Encode(rs[0]) + rest)[|Encode(rs[0])|..] == rest;
      EncodedDecodes(rs[1..]);
    }
  }

  /** A valid string is the encoding of its scalars. */
  lemma {:induction false} ValidIsEncoding(s: Bytes)
    requires Valid(s)
    ensures s == EncodeAll(Scalars(s))
  {
    if s != [] {
      DecodedIsEncoding(s);
      var step := DecodeRune(s);
      var rest := s[step.size..];
      ValidIsEncoding(rest);
      assert s == s[..step.size] + rest;
      assert Scalars(s) == [step.r] + Scalars(rest);
      assert Scalars(s)[1..] == Scalars(rest);
    }
  }

  /** The valid strings are exactly the encodings. */
  lemma ValidIsEncoded(s: Bytes)
    ensures Valid(s) <==> s == EncodeAll(Scalars(s))
  {
    EncodedDecodes(Scalars(s));
    if Valid(s) {
      ValidIsEncoding(s);
    }
  }

  lemma {:induction false} EncodeAllConcat(a: seq<Scalar>, b: seq<Scalar>)
    ensures EncodeAll(a + b) == EncodeAll(a) + EncodeAll(b)
  {
    if a == [] {
      assert a + b == b;
    } else {
      assert (a + b)[1..] == a[1..] + b;
      EncodeAllConcat(a[1..], b);
    }
  }

  // ----- How a scalar is encoded

  /** The four forms of section 3 of RFC 3629, by the range of the scalar and the bits of each byte. */
  lemma EncodedForms(r: Scalar)
    ensures var e := Encode(r);
      if r <= 0x7F then e == [r as Byte]
      else if r <= 0x7FF then
        && |e| == 2 && 0xC2 <= e[0] <= 0xDF && 0x80 <= e[1] <= 0xBF
        && r == (e[0] as int - 0xC0) * 64 + (e[1] as int - 0x80)
      else if r <= 0xFFFF then
        && |e| == 3 && 0xE0 <= e[0] <= 0xEF && 0x80 <= e[1] <= 0xBF && 0x80 <= e[2] <= 0xBF
        && r == (e[0] as int - 0xE0) * 4096 + (e[1] as int - 0x80) * 64 + (e[2] as int - 0x80)
      else
        && |e| == 4 && 0xF0 <= e[0] <= 0xF4 && 0x80 <= e[1] <= 0xBF && 0x80 <= e[2] <= 0xBF && 0x80 <= e[3] <= 0xBF
        && r == (e[0] as int - 0xF0) * 262144 + (e[1] as int - 0x80) * 4096 + (e[2] as int - 0x80) * 64
                + (e[3] as int - 0x80)
  {
    SixBits(r);
    if r >= 0x800 {
      SixBits(r / 0x40);
      assert r / 0x40 / 0x40 == r / 0x1000;
    }
    if r >= 0x10000 {
      SixBits(r / 0x1000);
      assert r / 0x1000 / 0x40 == r / 0x40000;
    }
  }
}
