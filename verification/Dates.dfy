/**
 Reading a timestamp back: the text of every instant of the years 0000 to 9999 is a well-formed
 RFC 3339 text in UTC, and the date and time that a reader finds in it are those of the instant
 in the Gregorian calendar.
 */
module Dates {
  import opened Timestamps

  /** The number that a decimal text names. */
  function Number(s: string): nat {
    if s == [] then 0
    else
      var last := s[|s| - 1];
      10 * Number(s[..|s| - 1]) + if '0' <= last <= '9' then last as nat - '0' as nat else 0
  }

  /** A date and a time of day, as a reader takes them from a text. */
  datatype Civil = Civil(year: nat, month: nat, day: nat, hour: nat, minute: nat, second: nat, nanos: nat)

  /** The fraction digits, filled up to nine. */
  function Padded(digits: string): string {
    if |digits| >= 9 then digits else digits + seq(9 - |digits|, _ => '0')
  }

  /** What stands between the dot and the closing Z, if anything. */
  function FractionDigits(text: string): string
    requires |text| >= 20
  {
    if |text| == 20 then "" else text[20..|text| - 1]
  }

  function ReadText(text: string): Civil
    requires |text| >= 20
  {
    Civil(Number(text[0..4]), Number(text[5..7]), Number(text[8..10]),
          Number(text[11..13]), Number(text[14..16]), Number(text[17..19]),
          Number(Padded(FractionDigits(text))))
  }

  predicate AllDigits(s: string) { forall i :: 0 <= i < |s| ==> '0' <= s[i] <= '9' }

  /** YYYY-MM-DDThh:mm:ss, then a fraction of one to nine digits without a closing zero, or none, then Z. */
  predicate WellFormed(text: string) {
    && 20 <= |text| <= 30 && |text| != 21 && text[|text| - 1] == 'Z'
    && text[4] == '-' && text[7] == '-' && text[10] == 'T' && text[13] == ':' && text[16] == ':'
    && AllDigits(text[0..4]) && AllDigits(text[5..7]) && AllDigits(text[8..10])
    && AllDigits(text[11..13]) && AllDigits(text[14..16]) && AllDigits(text[17..19])
    && (|text| > 20 ==> text[19] == '.' && AllDigits(FractionDigits(text)) && text[|text| - 2] != '0')
  }

  /** The last day of a month. */
  function LastDay(year: nat, month: nat): nat {
    if month == 4 || month == 6 || month == 9 || month == 11 then 30
    else if month != 2 then 31
    else if year % 400 == 0 || (year % 4 == 0 && year % 100 != 0) then 29 else 28
  }

  predicate GoodCivil(c: Civil) {
    && 1 <= c.month <= 12 && 1 <= c.day <= LastDay(c.year, c.month)
    && c.hour < 24 && c.minute < 60 && c.second < 60 && c.nanos < 1_000_000_000
  }

  /** Days since 0000-01-01, by counting years from the first of March; -1 / n rounds down. */
  function DaysBefore(year: nat, month: nat, day: nat): int {
    var y := if month <= 2 then year - 1 else year;
    var m := if month <= 2 then month + 9 else month - 3;
    365 * y + y / 4 - y / 100 + y / 400 + (153 * m + 2) / 5 + day + 59
  }

  function InstantOf(c: Civil): int {
    (((DaysBefore(c.year, c.month, c.day) * 24 + c.hour) * 60 + c.minute) * 60 + c.second) * 1_000_000_000 + c.nanos
  }

  // ---------- numbers ----------

  lemma {:induction false} NumberOfDigits(n: nat, w: nat)
    requires n < Pow10(w)
    ensures Number(Digits(n, w)) == n
  {
    if w > 0 {
      NumberOfDigits(n / 10, w - 1);
      var front := Digits(n / 10, w - 1);
      assert Digits(n, w)[..w - 1] == front;
      assert Digits(n, w)[w - 1] == Digit(n % 10);
    }
  }

  lemma TwoDigits(n: nat)
    requires n < 100
    ensures Number(Digits(n, 2)) == n && AllDigits(Digits(n, 2))
  {
    assert Pow10(2) == 100 by { assert Pow10(1) == 10; }
    NumberOfDigits(n, 2);
  }

  lemma FourDigits(n: nat)
    requires n < 10_000
    ensures Number(Digits(n, 4)) == n && AllDigits(Digits(n, 4))
  {
    NinePlaces();
    NumberOfDigits(n, 4);
  }

  // ---------- the calendar ----------

  lemma MonthLengths(year: nat, month: nat)
    requires 1 <= month <= 12
    ensures MonthStart(year, month + 1) == MonthStart(year, month) + LastDay(year, month)
  {
  }

  /** Months counted from March: the lengths 31, 30, 31, 30, 31 repeat. */
  lemma MonthsFromMarch(year: nat, month: nat)
    requires 1 <= month <= 12
    ensures MonthStart(year, month) == if month <= 2 then (153 * (month + 9) + 2) / 5 - 306
                                       else (153 * (month - 3) + 2) / 5 + 59 + if Leap(year) then 1 else 0
  {
    if month > 1 {
      MonthsFromMarch(year, month - 1);
    }
  }

  /** Rounding up, in terms of rounding down. */
  lemma Quarters(year: nat)
    ensures (year + 3) / 4 == (year - 1) / 4 + 1 == year / 4 + if year % 4 == 0 then 0 else 1
  {
  }

  lemma Hundreds(year: nat)
    ensures (year + 99) / 100 == (year - 1) / 100 + 1 == year / 100 + if year % 100 == 0 then 0 else 1
  {
  }

  lemma FourHundreds(year: nat)
    ensures (year + 399) / 400 == (year - 1) / 400 + 1 == year / 400 + if year % 400 == 0 then 0 else 1
  {
  }

  lemma LeapOnce(year: nat)
    ensures (if Leap(year) then 1 else 0)
         == (if year % 4 == 0 then 1 else 0) - (if year % 100 == 0 then 1 else 0) + if year % 400 == 0 then 1 else 0
  {
    assert year % 400 == 0 ==> year % 100 == 0;
    assert year % 100 == 0 ==> year % 4 == 0;
  }

  lemma YearsFromMarch(year: nat)
    ensures YearStart(year) == 365 * year + (year - 1) / 4 - (year - 1) / 100 + (year - 1) / 400 + 1
    ensures YearStart(year) + (if Leap(year) then 1 else 0) == 365 * year + year / 4 - year / 100 + year / 400 + 1
  {
    hide Leap;
    Quarters(year);
    Hundreds(year);
    FourHundreds(year);
    LeapOnce(year);
  }

  /** The year, month and day printed for day number `day` are its date. */
  lemma DateOfDay(day: nat)
    ensures DaysBefore(YearOf(day), MonthOf(day), DayOfMonth(day)) == day
    ensures 1 <= MonthOf(day) <= 12 && 1 <= DayOfMonth(day) <= LastDay(YearOf(day), MonthOf(day))
  {
    hide YearStart, MonthStart, YearFrom, MonthFrom, Leap, LastDay;
    var year, month := YearOf(day), MonthOf(day);
    YearsFromMarch(year);
    MonthsFromMarch(year, month);
    MonthLengths(year, month);
    assert DayOfYear(day) == day - YearStart(year);
  }

  // ---------- the fields of a text ----------

  lemma DayFields(day: nat)
    requires day < DAYS
    ensures var s := DayText(day);
            && s[4] == '-' && s[7] == '-' && AllDigits(s[0..4]) && AllDigits(s[5..7]) && AllDigits(s[8..10])
            && Number(s[0..4]) == YearOf(day) && Number(s[5..7]) == MonthOf(day) && Number(s[8..10]) == DayOfMonth(day)
  {
    hide YearOf, MonthOf, DayOfMonth, Digits, Number;
    YearBound(day);
    FourDigits(YearOf(day));
    TwoDigits(MonthOf(day));
    TwoDigits(DayOfMonth(day));
    var s := DayText(day);
    assert s[0..4] == Digits(YearOf(day), 4);
    assert s[5..7] == Digits(MonthOf(day), 2);
    assert s[8..10] == Digits(DayOfMonth(day), 2);
  }

  lemma ClockParts(second: nat)
    requires second < SECONDS_PER_DAY
    ensures var s := ClockText(second);
            && s[2] == ':' && s[5] == ':' && AllDigits(s[0..2]) && AllDigits(s[3..5]) && AllDigits(s[6..8])
            && Number(s[0..2]) < 24 && Number(s[3..5]) < 60 && Number(s[6..8]) < 60
            && second == 3600 * Number(s[0..2]) + 60 * Number(s[3..5]) + Number(s[6..8])
  {
    hide Digits, Number;
    ClockFields(second);
    TwoDigits(second / 3600);
    TwoDigits(second / 60 % 60);
    TwoDigits(second % 60);
    var s := ClockText(second);
    assert s[0..2] == Digits(second / 3600, 2);
    assert s[3..5] == Digits(second / 60 % 60, 2);
    assert s[6..8] == Digits(second % 60, 2);
  }

  /** The fraction, filled up to nine digits again, is the nanoseconds. */
  lemma FractionPart(nanos: nat)
    requires nanos < 1_000_000_000
    ensures Number(Padded(Fraction(nanos))) == nanos && AllDigits(Fraction(nanos)) && |Fraction(nanos)| <= 9
    ensures Fraction(nanos) != [] ==> Fraction(nanos)[|Fraction(nanos)| - 1] != '0'
  {
    hide Number;
    NinePlaces();
    NumberOfDigits(nanos, 9);
    assert Padded(Fraction(nanos)) == Digits(nanos, 9);
  }

  lemma SecondFields(second: nat)
    requires second < DAYS * SECONDS_PER_DAY
    ensures var s := SecondText(second);
            && s[4] == '-' && s[7] == '-' && s[10] == 'T' && s[13] == ':' && s[16] == ':'
            && AllDigits(s[0..4]) && AllDigits(s[5..7]) && AllDigits(s[8..10])
            && AllDigits(s[11..13]) && AllDigits(s[14..16]) && AllDigits(s[17..19])
            && var c := Civil(Number(s[0..4]), Number(s[5..7]), Number(s[8..10]),
                              Number(s[11..13]), Number(s[14..16]), Number(s[17..19]), 0);
               GoodCivil(c) && InstantOf(c) == second * 1_000_000_000
  {
    hide Number, DayText, ClockText, DaysBefore, LastDay, AllDigits;
    var day, rest := second / SECONDS_PER_DAY, second % SECONDS_PER_DAY;
    var s := SecondText(second);
    var d, c := DayText(day), ClockText(rest);
    DayFields(day);
    ClockParts(rest);
    DateOfDay(day);
    assert s[0..4] == d[0..4] && s[5..7] == d[5..7] && s[8..10] == d[8..10];
    assert s[11..13] == c[0..2] && s[14..16] == c[3..5] && s[17..19] == c[6..8];
  }

  /** The text of every instant is well formed, and the date and time in it are those of the instant. */
  lemma TextNamesInstant(t: nat)
    requires InRange(t)
    ensures WellFormed(Format(t)) && GoodCivil(ReadText(Format(t))) && InstantOf(ReadText(Format(t))) == t
  {
    hide Number, SecondText, Fraction, DaysBefore, LastDay, AllDigits, Padded;
    var s, nanos := SecondText(t / NANOS_PER_SECOND), t % NANOS_PER_SECOND;
    var text, f := Format(t), Fraction(t % NANOS_PER_SECOND);
    SecondFields(t / NANOS_PER_SECOND);
    FractionPart(nanos);
    assert text[0..4] == s[0..4] && text[5..7] == s[5..7] && text[8..10] == s[8..10];
    assert text[11..13] == s[11..13] && text[14..16] == s[14..16] && text[17..19] == s[17..19];
    if f == [] {
      assert text == s + "Z" && FractionDigits(text) == f;
    } else {
      assert text == s + ("." + f + "Z");
      assert FractionDigits(text) == f;
    }
  }

  /** In range are exactly the nanoseconds of the 3652425 days of the years 0000 to 9999. */
  lemma RangeOfYears(t: int)
    ensures InRange(t) <==> 0 <= t < 315_569_520_000_000_000_000
  {
    assert DAYS == 3_652_425;
  }
}
