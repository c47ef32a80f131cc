/** Layout rows, on dates. */
module DateMeaning {
  // What a .NET custom format specifier writes for a date, which texts a Go layout element reads as that
  // date's, and for which rows of the translation table and which dates the two agree. Both sides are
  // stated from the documentation of the two libraries, as far as the rows of the table go.

  import opened Wrappers
  import opened Numbers
  import opened DateLayout

  /** A date and time: `ticks` are ten-millionths of a second, `offset` is in minutes east of UTC. */
  datatype Moment = Moment(
    year: nat, month: nat, day: nat, weekday: nat, hour: nat, minute: nat, second: nat, ticks: nat, offset: int)

  predicate IsMoment(d: Moment) {
    && 1 <= d.year <= 9999 && 1 <= d.month <= 12 && 1 <= d.day <= 31 && d.weekday < 7
    && d.hour < 24 && d.minute < 60 && d.second < 60 && d.ticks < 10_000_000 && -840 <= d.offset <= 840
  }

  // ----- Fields as texts

  /** A number with zeros in front up to a width. */
  function Padded(n: nat, width: nat): string {
    Zeros(if |Digits(n)| < width then width - |Digits(n)| else 0) + Digits(n)
  }

  function Zeros(n: nat): string {
    if n == 0 then "" else Zeros(n - 1) + "0"
  }

  const MONTHS: seq<string> := [
    "January", "February", "March", "April", "May", "June", "July", "August", "September", "October", "November",
    "December"]

  const DAYS: seq<string> := ["Sunday", "Monday", "Tuesday", "Wednesday", "Thursday", "Friday", "Saturday"]

  function MonthName(d: Moment): string
    requires IsMoment(d)
  {
    MONTHS[d.month - 1]
  }

  function DayName(d: Moment): string
    requires IsMoment(d)
  {
    DAYS[d.weekday]
  }

  /** The first three letters of a name. */
  function Short(name: string): string {
    if |name| < 3 then name else name[..3]
  }

  /** The hour on a clock face. */
  function ClockHour(d: Moment): nat {
    (d.hour + 11) % 12 + 1
  }

  function HalfOfDay(d: Moment): string {
    if d.hour < 12 then "AM" else "PM"
  }

  /** The first `n` digits of the fraction of a second. */
  function Fraction(d: Moment, n: nat): string {
    FirstOf(Padded(d.ticks, 7), n)
  }

  function FirstOf(s: string, n: nat): string {
    if n < |s| then s[..n] else s
  }

  function WithoutZeros(s: string): string {
    if s != "" && s[|s| - 1] == '0' then WithoutZeros(s[..|s| - 1]) else s
  }

  function Sign(d: Moment): string {
    if d.offset < 0 then "-" else "+"
  }

  function OffsetHours(d: Moment): string {
    Sign(d) + Padded((if d.offset < 0 then -d.offset else d.offset) / 60, 2)
  }

  function OffsetText(d: Moment): string {
    OffsetHours(d) + ":" + Padded((if d.offset < 0 then -d.offset else d.offset) % 60, 2)
  }

  // ----- What .NET writes

  /** The text of a run of `count` times a format letter, as the invariant culture writes it. */
  function NetText(letter: char, count: nat, d: Moment): string
    requires IsMoment(d)
  {
    match letter
    case 'y' => if count == 1 then Digits(d.year % 100)
                else if count == 2 then Padded(d.year % 100, 2) else Padded(d.year, count)
    case 'M' => if count == 1 then Digits(d.month) else if count == 2 then Padded(d.month, 2)
                else if count == 3 then Short(MonthName(d)) else MonthName(d)
    case 'd' => if count == 1 then Digits(d.day) else if count == 2 then Padded(d.day, 2)
                else if count == 3 then Short(DayName(d)) else DayName(d)
    case 'H' => if count == 1 then Digits(d.hour) else Padded(d.hour, 2)
    case 'h' => if count == 1 then Digits(ClockHour(d)) else Padded(ClockHour(d), 2)
    case 'm' => if count == 1 then Digits(d.minute) else Padded(d.minute, 2)
    case 's' => if count == 1 then Digits(d.second) else Padded(d.second, 2)
    case 't' => if count == 1 then HalfOfDay(d)[..1] else HalfOfDay(d)
    case 'f' => Fraction(d, count)
    case 'F' => WithoutZeros(Fraction(d, count))
    case 'z' => if count == 2 then OffsetHours(d) else OffsetText(d)
    case _ => if d.offset == 0 then "Z" else OffsetText(d)
  }

  // ----- What Go reads

  /** The elements of a Go layout that the table uses. */
  datatype Element =
    | LongYear | ShortYear
    | LongMonth | ShortMonth | TwoDigitMonth | Month
    | LongDay | ShortDay | TwoDigitDay | Day
    | Hour | TwoDigitClock | Clock
    | TwoDigitMinute | Minute | TwoDigitSecond | Second
    | Half
    | Exactly(n: nat) | UpTo(n: nat)
    | Offset | HourOffset | ZuluOffset

  /** The element that a text of a Go layout is. */
  function ElementOf(ref: string): Option<Element> {
    if |ref| >= 2 && ref[0] == '.' then
      if ref[1] == '0' then Some(Exactly(|ref| - 1)) else if ref[1] == '9' then Some(UpTo(|ref| - 1)) else None
    else if |ref| == 1 then
      if ref == "1" then Some(Month) else if ref == "2" then Some(Day) else if ref == "3" then Some(Clock)
      else if ref == "4" then Some(Minute) else if ref == "5" then Some(Second) else None
    else if |ref| == 2 then
      if ref == "06" then Some(ShortYear) else if ref == "01" then Some(TwoDigitMonth)
      else if ref == "02" then Some(TwoDigitDay) else if ref == "15" then Some(Hour)
      else if ref == "03" then Some(TwoDigitClock) else if ref == "04" then Some(TwoDigitMinute)
      else if ref == "05" then Some(TwoDigitSecond) else if ref == "PM" then Some(Half) else None
    else if |ref| == 3 then
      if ref == "Jan" then Some(ShortMonth) else if ref == "Mon" then Some(ShortDay)
      else if ref == "-07" then Some(HourOffset) else None
    else if ref == "2006" then Some(LongYear)
    else if ref == "January" then Some(LongMonth)
    else if ref == "Monday" then Some(LongDay)
    else if ref == "-07:00" then Some(Offset)
    else if ref == "Z07:00" then Some(ZuluOffset)
    else None
  }

  /** A number of one or two digits, with or without a zero in front. */
  predicate IsNumber(s: string, n: nat) {
    s == Digits(n) || s == Padded(n, 2)
  }

  /** The element reads the text as the date's. */
  predicate Reads(e: Element, s: string, d: Moment)
    requires IsMoment(d)
  {
    match e
    case LongYear => s == Padded(d.year, 4)
    case ShortYear => s == Padded(d.year % 100, 2)
    case LongMonth => s == MonthName(d)
    case ShortMonth => s == Short(MonthName(d))
    case TwoDigitMonth => s == Padded(d.month, 2)
    case Month => IsNumber(s, d.month)
    case LongDay => s == DayName(d)
    case ShortDay => s == Short(DayName(d))
    case TwoDigitDay => s == Padded(d.day, 2)
    case Day => IsNumber(s, d.day)
    case Hour => IsNumber(s, d.hour)
    case TwoDigitClock => s == Padded(ClockHour(d), 2)
    case Clock => IsNumber(s, ClockHour(d))
    case TwoDigitMinute => s == Padded(d.minute, 2)
    case Minute => IsNumber(s, d.minute)
    case TwoDigitSecond => s == Padded(d.second, 2)
    case Second => IsNumber(s, d.second)
    case Half => s == HalfOfDay(d)
    case Exactly(n) => s == "." + Fraction(d, n)
    case UpTo(n) => var digits := WithoutZeros(Fraction(d, n)); s == if digits == "" then "" else "." + digits
    case Offset => s == OffsetText(d)
    case HourOffset => s == OffsetHours(d)
    case ZuluOffset => s == if d.offset == 0 then "Z" else OffsetText(d)
  }

  // ----- The table

  function ElementFor(letter: char, count: nat): Element {
    match letter
    case 'y' => if count <= 2 then ShortYear else LongYear
    case 'M' => if count == 1 then Month else if count == 2 then TwoDigitMonth
                else if count == 3 then ShortMonth else LongMonth
    case 'd' => if count == 1 then Day else if count == 2 then TwoDigitDay else if count == 3 then ShortDay else LongDay
    case 'H' => Hour
    case 'h' => if count == 1 then Clock else TwoDigitClock
    case 'm' => if count == 1 then Minute else TwoDigitMinute
    case 's' => if count == 1 then Second else TwoDigitSecond
    case 't' => Half
    case 'f' => Exactly(count)
    case 'F' => UpTo(count)
    case 'z' => if count == 2 then HourOffset else Offset
    case _ => ZuluOffset
  }

  predicate RowIs(t: NetToken) {
    ElementOf(t.goRef) == Some(ElementFor(t.letter, t.count))
  }

  lemma YearAndMonthRows(i: nat)
    requires i < 8
    ensures RowIs(NET_TOKENS[i])
  {
  }

  lemma DayAndHourRows(i: nat)
    requires 8 <= i < 14
    ensures RowIs(NET_TOKENS[i])
  {
  }

  lemma ClockRows(i: nat)
    requires 14 <= i < 22
    ensures RowIs(NET_TOKENS[i])
  {
  }

  lemma ExactFractionRows(i: nat)
    requires 22 <= i < 29
    ensures RowIs(NET_TOKENS[i])
  {
  }

  lemma FractionRows(i: nat)
    requires 29 <= i < 36
    ensures RowIs(NET_TOKENS[i])
  {
  }

  lemma OffsetRows(i: nat)
    requires 36 <= i < 39
    ensures RowIs(NET_TOKENS[i])
  {
  }

  lemma RowsAre(t: NetToken)
    requires t in NET_TOKENS
    ensures RowIs(t) && RowOk(t)
  {
    var i :| 0 <= i < |NET_TOKENS| && NET_TOKENS[i] == t;
    RowsAreInPlace();
    assert RowInPlace(NET_TOKENS, i);
    if i < 8 {
      YearAndMonthRows(i);
    } else if i < 14 {
      DayAndHourRows(i);
    } else if i < 22 {
      ClockRows(i);
    } else if i < 29 {
      ExactFractionRows(i);
    } else if i < 36 {
      FractionRows(i);
    } else {
      OffsetRows(i);
    }
  }

  // ----- Where the two agree

  /**
   The dates for which a row means the same on both sides. `yyy` needs a year of four digits, and `y` one
   that ends in two digits without a zero in front. A single `t` is never read. A fraction is not either,
   as the Go elements have a period that .NET's do not, unless there is nothing to write.
   */
  predicate Agrees(letter: char, count: nat, d: Moment) {
    if letter == 'y' && count == 3 then d.year >= 1000
    else if letter == 'y' && count == 1 then d.year % 100 >= 10
    else if letter == 't' then count == 2
    else if letter == 'F' then WithoutZeros(Fraction(d, count)) == ""
    else letter != 'f'
  }

  lemma DigitsWidth(n: nat)
    ensures n < 10 ==> |Digits(n)| == 1
    ensures 10 <= n < 100 ==> |Digits(n)| == 2
    ensures 100 <= n < 1000 ==> |Digits(n)| == 3
    ensures 1000 <= n < 10000 ==> |Digits(n)| == 4
  {
    if n >= 10 {
      assert n / 10 >= 10 <==> n >= 100;
      assert n / 10 / 10 >= 10 <==> n >= 1000;
      assert n / 10 / 10 / 10 >= 10 <==> n >= 10000;
    }
  }

  lemma {:induction false} ZerosWidth(n: nat)
    ensures |Zeros(n)| == n
  {
    if n > 0 {
      ZerosWidth(n - 1);
    }
  }

  lemma PaddedWidth(n: nat, width: nat)
    ensures |Padded(n, width)| == if |Digits(n)| < width then width else |Digits(n)|
    ensures |Digits(n)| >= width ==> Padded(n, width) == Digits(n)
  {
    ZerosWidth(if |Digits(n)| < width then width - |Digits(n)| else 0);
  }

  lemma YearsAgree(count: nat, d: Moment)
    requires IsMoment(d) && 1 <= count <= 4
    ensures Reads(ElementFor('y', count), NetText('y', count, d), d) <==> Agrees('y', count, d)
  {
    DigitsWidth(d.year);
    DigitsWidth(d.year % 100);
    PaddedWidth(d.year, 3);
    PaddedWidth(d.year, 4);
    PaddedWidth(d.year % 100, 2);
  }

  lemma FractionsAgree(letter: char, count: nat, d: Moment)
    requires IsMoment(d) && (letter == 'f' || letter == 'F') && count > 0
    ensures Reads(ElementFor(letter, count), NetText(letter, count, d), d) <==> Agrees(letter, count, d)
  {
    var digits := Fraction(d, count);
    assert |"." + digits| == 1 + |digits|;
    assert |"." + WithoutZeros(digits)| == 1 + |WithoutZeros(digits)|;
  }

  lemma DatesAgree(letter: char, count: nat, d: Moment)
    requires IsMoment(d) && RowOk(NetToken(letter, count, "")) && (letter == 'M' || letter == 'd')
    ensures Reads(ElementFor(letter, count), NetText(letter, count, d), d)
  {
  }

  lemma TimesAgree(letter: char, count: nat, d: Moment)
    requires IsMoment(d) && RowOk(NetToken(letter, count, ""))
    requires letter == 'H' || letter == 'h' || letter == 'm' || letter == 's'
    ensures Reads(ElementFor(letter, count), NetText(letter, count, d), d)
  {
  }

  lemma OffsetsAgree(letter: char, count: nat, d: Moment)
    requires IsMoment(d) && RowOk(NetToken(letter, count, "")) && (letter == 'z' || letter == 'K')
    ensures Reads(ElementFor(letter, count), NetText(letter, count, d), d)
  {
  }

  lemma HalvesAgree(count: nat, d: Moment)
    requires IsMoment(d) && 1 <= count <= 2
    ensures Reads(ElementFor('t', count), NetText('t', count, d), d) <==> count == 2
  {
    assert |HalfOfDay(d)[..1]| == 1 && |HalfOfDay(d)| == 2;
  }

  lemma OthersAgree(letter: char, count: nat, d: Moment)
    requires IsMoment(d) && RowOk(NetToken(letter, count, "")) && letter != 'y' && letter != 'f' && letter != 'F'
    ensures Reads(ElementFor(letter, count), NetText(letter, count, d), d) <==> Agrees(letter, count, d)
  {
    if letter == 'M' || letter == 'd' {
      DatesAgree(letter, count, d);
    } else if letter == 't' {
      HalvesAgree(count, d);
    } else if letter == 'z' || letter == 'K' {
      OffsetsAgree(letter, count, d);
    } else {
      TimesAgree(letter, count, d);
    }
  }

  /** Every row of the table, on every date: Go reads what .NET writes exactly there. */
  lemma RowAgreesIff(t: NetToken, d: Moment)
    requires t in NET_TOKENS && IsMoment(d)
    ensures ElementOf(t.goRef).Some?
    ensures Reads(ElementOf(t.goRef).value, NetText(t.letter, t.count, d), d) <==> Agrees(t.letter, t.count, d)
  {
    RowsAre(t);
    if t.letter == 'y' {
      YearsAgree(t.count, d);
    } else if t.letter == 'f' || t.letter == 'F' {
      FractionsAgree(t.letter, t.count, d);
    } else {
      OthersAgree(t.letter, t.count, d);
    }
  }

  // ----- Whole layouts

  /** The text .NET writes for a layout, piece by piece. */
  function NetTexts(ps: seq<Piece>, d: Moment): seq<string>
    requires IsMoment(d)
  {
    if ps == [] then [] else
    [match ps[0] case Literal(c) => [c] case Token(t) => NetText(t.letter, t.count, d)] + NetTexts(ps[1..], d)
  }

  /** Piece by piece, the translated layout reads the texts: literal characters as themselves. */
  predicate ReadsAll(ps: seq<Piece>, texts: seq<string>, d: Moment)
    requires IsMoment(d)
  {
    |ps| == |texts| && forall i :: 0 <= i < |ps| ==>
      match ps[i]
      case Literal(c) => texts[i] == [c]
      case Token(t) => ElementOf(t.goRef).Some? && Reads(ElementOf(t.goRef).value, texts[i], d)
  }

  predicate AllAgree(ps: seq<Piece>, d: Moment) {
    forall i :: 0 <= i < |ps| && ps[i].Token? ==> Agrees(ps[i].t.letter, ps[i].t.count, d)
  }

  lemma {:induction false} NetTextAt(ps: seq<Piece>, d: Moment, i: nat)
    requires IsMoment(d) && i < |ps|
    ensures |NetTexts(ps, d)| == |ps|
    ensures NetTexts(ps, d)[i] == match ps[i] case Literal(c) => [c] case Token(t) => NetText(t.letter, t.count, d)
  {
    if |ps| > 1 {
      NetTextAt(ps[1..], d, if i > 0 then i - 1 else 0);
    } else {
      assert NetTexts(ps[1..], d) == [];
    }
  }

  /**
   For every layout that translates and every date: its pieces are read as written exactly when all
   their rows agree.
   */
  lemma LayoutAgreesIff(layout: string, d: Moment)
    requires IsMoment(d) && GoodTable(NET_TOKENS) && Pieces(NET_TOKENS, layout).Some?
    ensures var ps := Pieces(NET_TOKENS, layout).value; ReadsAll(ps, NetTexts(ps, d), d) <==> AllAgree(ps, d)
  {
    var ps := Pieces(NET_TOKENS, layout).value;
    TokensAreRows(NET_TOKENS, layout);
    if ps == [] {
      assert NetTexts(ps, d) == [];
    }
    forall i | 0 <= i < |ps|
      ensures |NetTexts(ps, d)| == |ps|
      ensures NetTexts(ps, d)[i] == match ps[i] case Literal(c) => [c] case Token(t) => NetText(t.letter, t.count, d)
      ensures ps[i].Token? ==> ElementOf(ps[i].t.goRef).Some?
      ensures ps[i].Token? ==> (Reads(ElementOf(ps[i].t.goRef).value, NetText(ps[i].t.letter, ps[i].t.count, d), d)
                                <==> Agrees(ps[i].t.letter, ps[i].t.count, d))
    {
      NetTextAt(ps, d, i);
      if ps[i].Token? {
        RowAgreesIff(ps[i].t, d);
      }
    }
  }

  lemma {:induction false} TokensAreRows(table: seq<NetToken>, s: string)
    requires GoodTable(table) && Pieces(table, s).Some?
    ensures forall i :: 0 <= i < |Pieces(table, s).value| && Pieces(table, s).value[i].Token? ==>
      Pieces(table, s).value[i].t in table
    decreases |s|
  {
    if s != "" {
      var p := FirstPiece(table, s).value;
      FirstPieceFits(table, s);
      TokensAreRows(table, s[Length(p)..]);
      if p.Token? {
        MatchIsLongest(table, s);
      }
    }
  }
}
