/** Decimal numbers, as Go's `strconv` reads and writes them. */
module Numbers {
  import opened Wrappers

  const MAX_INT := 0x7FFF_FFFF_FFFF_FFFF

  predicate IsDigit(c: char) {
    '0' <= c <= '9'
  }

  function DigitValue(c: char): nat
    requires IsDigit(c)
  {
    c as int - '0' as int
  }

  function Magnitude(s: string): nat
    requires forall i :: 0 <= i < |s| ==> IsDigit(s[i])
  {
    if s == [] then 0 else 10 * Magnitude(s[..|s| - 1]) + DigitValue(s[|s| - 1])
  }

  /** Go's `strconv.Atoi`: an optional sign and decimal digits, within 64 bits. */
  function Atoi(s: string): Option<int> {
    var signed := s != [] && (s[0] == '+' || s[0] == '-');
    var digits := if signed then s[1..] else s;
    if digits == [] || exists i :: 0 <= i < |digits| && !IsDigit(digits[i]) then None else
    var magnitude: int := Magnitude(digits);
    var n := if signed && s[0] == '-' then -magnitude else magnitude;
    if -MAX_INT - 1 <= n <= MAX_INT then Some(n) else None
  }

  function Digit(n: nat): char
    requires n < 10
  {
    '0' + n as char
  }

  function Digits(n: nat): (s: string)
    ensures s != []
  {
    if n < 10 then [Digit(n)] else Digits(n / 10) + [Digit(n % 10)]
  }

  /** Go's `strconv.Itoa`. */
  function Itoa(n: int): string {
    if n < 0 then ['-'] + Digits(-n) else Digits(n)
  }

  lemma {:induction false} DigitsRead(n: nat)
    ensures forall i :: 0 <= i < |Digits(n)| ==> IsDigit(Digits(n)[i])
    ensures Magnitude(Digits(n)) == n
  {
    if n < 10 {
      assert Magnitude(Digits(n)[..0]) == 0;
    } else {
      DigitsRead(n / 10);
      assert Digits(n)[..|Digits(n)| - 1] == Digits(n / 10);
    }
  }

  /** A 64-bit number that is written is read back. */
  lemma AtoiOfItoa(n: int)
    requires -0x8000_0000_0000_0000 <= n < 0x8000_0000_0000_0000
    ensures Atoi(Itoa(n)) == Some(n)
  {
    if n < 0 {
      DigitsRead(-n);
      assert Itoa(n)[1..] == Digits(-n);
    } else {
      DigitsRead(n);
    }
  }

  /** Its text is digits, after a minus sign when it is negative. */
  lemma ItoaShape(n: int, i: nat)
    requires i < |Itoa(n)|
    ensures IsDigit(Itoa(n)[i]) || (i == 0 && Itoa(n)[i] == '-')
  {
    if n < 0 {
      DigitsRead(-n);
      assert i > 0 ==> Itoa(n)[i] == Digits(-n)[i - 1];
    } else {
      DigitsRead(n);
    }
  }
}
