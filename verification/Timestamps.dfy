/**
 The text timestamps of the cache.

 An instant is a number of nanoseconds since 0000-01-01T00:00:00Z in the proleptic Gregorian
 calendar. Format renders it as Go's RFC3339Nano does in UTC: fixed-width fields down to the
 second, then the fraction with its trailing zeros (and, for a whole second, its dot) trimmed.
 The cache compares these texts byte by byte, so the question is how text order and time
 order relate; section 5.1 of RFC 3339 promises agreement only for a fixed number of
 fraction digits.
 */
module Timestamps {
  const NANOS_PER_SECOND: nat := 1_000_000_000
  const SECONDS_PER_DAY: nat := 86400

  // ---------- byte order on text ----------

  predicate TextLess(a: string, b: string) {
    b != [] && (a == [] || a[0] < b[0] || (a[0] == b[0] && TextLess(a[1..], b[1..])))
  }

  lemma {:induction false} TextLessAfterPrefix(p: string, a: string, b: string)
    ensures TextLess(p + a, p + b) == TextLess(a, b)
  {
    if p == [] {
      assert p + a == a && p + b == b;
    } else {
      TextLessAfterPrefix(p[1..], a, b);
      assert (p + a)[1..] == p[1..] + a && (p + b)[1..] == p[1..] + b;
    }
  }

  lemma {:induction false} TextLessConcat(a: string, b: string, a': string, b': string)
    requires |a| == |b|
    ensures TextLess(a + a', b + b') <==> TextLess(a, b) || (a == b && TextLess(a', b'))
  {
    if a == [] {
      assert a + a' == a' && b + b' == b';
    } else {
      TextLessConcat(a[1..], b[1..], a', b');
      assert (a + a')[1..] == a[1..] + a' && (b + b')[1..] == b[1..] + b';
      assert a == [a[0]] + a[1..] && b == [b[0]] + b[1..];
    }
  }

  lemma TextLessAt(a: string, b: string, k: nat)
    requires k < |a| && k < |b| && a[..k] == b[..k] && a[k] != b[k]
    ensures TextLess(a, b) <==> a[k] < b[k]
  {
    assert a == a[..k] + a[k..] && b == a[..k] + b[k..];
    TextLessAfterPrefix(a[..k], a[k..], b[k..]);
  }

  lemma {:induction false} TextLessTotal(a: string, b: string)
    ensures (a == b && !TextLess(a, b) && !TextLess(b, a)) || (a != b && TextLess(a, b) != TextLess(b, a))
  {
    if a != [] && b != [] {
      TextLessTotal(a[1..], b[1..]);
      assert a == [a[0]] + a[1..] && b == [b[0]] + b[1..];
    }
  }

  /** Texts are compared at the first character where they differ; a text that ends there comes first. */
  lemma TextLessMeaning(a: string, b: string)
    ensures TextLess(a, b) <==>
            a < b || exists k :: 0 <= k < |a| && k < |b| && a[..k] == b[..k] && a[k] < b[k]
  {
    var k := FirstDifference(a, b);
    if k < |a| && k < |b| {
      TextLessAt(a, b, k);
    } else {
      TextLessEnds(a, b, k);
    }
    forall j | 0 <= j < |a| && j < |b| && a[..j] == b[..j] && a[j] < b[j]
      ensures TextLess(a, b)
    {
      TextLessAt(a, b, j);
    }
    if a < b {
      TextLessEnds(a, b, |a|);
    }
  }

  lemma TextLessEnds(a: string, b: string, k: nat)
    requires k <= |a| && k <= |b| && a[..k] == b[..k] && (k == |a| || k == |b|)
    ensures TextLess(a, b) <==> k == |a| < |b|
    ensures forall j :: 0 <= j < |a| && j < |b| ==> a[j] == b[j]
  {
    assert a == a[..k] + a[k..] && b == a[..k] + b[k..];
    TextLessAfterPrefix(a[..k], a[k..], b[k..]);
    forall j | 0 <= j < |a| && j < |b|
      ensures a[j] == b[j]
    {
      assert a[..k][j] == b[..k][j];
    }
  }

  // ---------- fixed-width decimals ----------

  function Pow10(w: nat): (p: nat)
    ensures p > 0
  {
    if w == 0 then 1 else 10 * Pow10(w - 1)
  }

  function Digit(d: nat): char
    requires d < 10
  {
    '0' + d as char
  }

  function Digits(n: nat, w: nat): (s: string)
    ensures |s| == w
    ensures forall i :: 0 <= i < w ==> '0' <= s[i] <= '9'
  {
    if w == 0 then "" else Digits(n / 10, w - 1) + [Digit(n % 10)]
  }

  lemma {:induction false} DigitsOrder(n: nat, m: nat, w: nat)
    requires n < Pow10(w) && m < Pow10(w)
    ensures TextLess(Digits(n, w), Digits(m, w)) <==> n < m
    ensures Digits(n, w) == Digits(m, w) <==> n == m
  {
    if w > 0 {
      var a, b := Digits(n / 10, w - 1), Digits(m / 10, w - 1);
      var x, y := [Digit(n % 10)], [Digit(m % 10)];
      DigitsOrder(n / 10, m / 10, w - 1);
      TextLessConcat(a, b, x, y);
      assert TextLess(x, y) <==> n % 10 < m % 10;
      assert Digits(n, w) == a + x && Digits(m, w) == b + y;
      if a + x == b + y {
        assert a == (a + x)[..w - 1] && b == (b + y)[..w - 1];
        assert x[0] == (a + x)[w - 1] == (b + y)[w - 1] == y[0];
      }
    }
  }

  // ---------- the trimmed fraction ----------

  function Trim(s: string): (t: string)
    ensures |t| <= |s| && t == s[..|t|]
    ensures forall i :: |t| <= i < |s| ==> s[i] == '0'
    ensures t != [] ==> t[|t| - 1] != '0'
  {
    if s != [] && s[|s| - 1] == '0' then Trim(s[..|s| - 1]) else s
  }

  /** The printed fraction digits of `nanos`; empty for a whole second. */
  function Fraction(nanos: nat): string {
    Trim(Digits(nanos, 9))
  }

  function FractionText(nanos: nat): string {
    (if Fraction(nanos) == [] then "" else "." + Fraction(nanos)) + "Z"
  }

  predicate ProperPrefix(a: string, b: string) { a < b }

  lemma FirstDifference(a: string, b: string) returns (k: nat)
    ensures k <= |a| && k <= |b| && a[..k] == b[..k]
    ensures k < |a| && k < |b| ==> a[k] != b[k]
    ensures k == |a| ==> a <= b
    ensures k == |b| ==> b <= a
  {
    k := 0;
    while k < |a| && k < |b| && a[k] == b[k]
      invariant k <= |a| && k <= |b| && a[..k] == b[..k]
    {
      k := k + 1;
    }
  }

  lemma TrimInjective(n: nat, m: nat)
    requires n < NANOS_PER_SECOND && m < NANOS_PER_SECOND
    ensures Fraction(n) == Fraction(m) <==> n == m
  {
    if Fraction(n) == Fraction(m) {
      assert Digits(n, 9) == Digits(m, 9);
      NinePlaces();
      DigitsOrder(n, m, 9);
    }
  }

  lemma NinePlaces()
    ensures Pow10(2) == 100 && Pow10(4) == 10_000 && Pow10(9) == NANOS_PER_SECOND
  {
    assert Pow10(3) == 1000;
    assert Pow10(5) == 100_000;
    assert Pow10(7) == 10_000_000;
  }

  lemma TerminatedOrder(f: string, g: string)
    requires f != g
    requires forall i :: 0 <= i < |f| ==> f[i] < 'Z'
    requires forall i :: 0 <= i < |g| ==> g[i] < 'Z'
    ensures TextLess(f + "Z", g + "Z") <==>
            !ProperPrefix(f, g) && (ProperPrefix(g, f) || TextLess(f, g))
  {
    var k := FirstDifference(f, g);
    if k < |f| && k < |g| {
      assert (f + "Z")[..k] == f[..k] && (g + "Z")[..k] == g[..k];
      TextLessAt(f, g, k);
      TextLessAt(f + "Z", g + "Z", k);
    } else if k == |f| {
      assert f == g[..k];
      assert f + "Z" == f + "Z" && g + "Z" == f + (g[k..] + "Z");
      TextLessAfterPrefix(f, "Z", g[k..] + "Z");
    } else {
      assert g == f[..k];
      assert f + "Z" == g + (f[k..] + "Z");
      TextLessAfterPrefix(g, f[k..] + "Z", "Z");
    }
  }

  lemma TrimmedOrder(d: string, e: string)
    requires |d| == |e|
    requires !(Trim(d) <= Trim(e)) && !(Trim(e) <= Trim(d))
    ensures TextLess(Trim(d), Trim(e)) <==> TextLess(d, e)
  {
    var f, g := Trim(d), Trim(e);
    var k := FirstDifference(f, g);
    assert d[..k] == f[..k] && e[..k] == g[..k] && d[k] == f[k] && e[k] == g[k];
    TextLessAt(d, e, k);
    TextLessAt(f, g, k);
  }

  /** Within one second: time order, except that a fraction sorts after its own extensions. */
  lemma FractionOrder(n: nat, m: nat)
    requires n < NANOS_PER_SECOND && m < NANOS_PER_SECOND
    ensures TextLess(FractionText(n), FractionText(m)) <==>
            if ProperPrefix(Fraction(n), Fraction(m)) then false
            else if ProperPrefix(Fraction(m), Fraction(n)) then true
            else n < m
  {
    var f, g := Fraction(n), Fraction(m);
    TrimInjective(n, m);
    if f == g {
      TextLessTotal(FractionText(n), FractionText(m));
    } else if f == [] || g == [] {
      assert FractionText(n)[0] == (if f == [] then 'Z' else '.');
      assert FractionText(m)[0] == (if g == [] then 'Z' else '.');
    } else {
      assert FractionText(n) == "." + (f + "Z") && FractionText(m) == "." + (g + "Z");
      TextLessAfterPrefix(".", f + "Z", g + "Z");
      TerminatedOrder(f, g);
      if !ProperPrefix(f, g) && !ProperPrefix(g, f) {
        TrimmedOrder(Digits(n, 9), Digits(m, 9));
        NinePlaces();
        DigitsOrder(n, m, 9);
      }
    }
  }

  // ---------- the calendar ----------

  predicate Leap(year: nat) { year % 4 == 0 && (year % 100 != 0 || year % 400 == 0) }

  /** Days from 0000-01-01 to the first day of `year`. */
  function YearStart(year: nat): nat {
    365 * year + (year + 3) / 4 - (year + 99) / 100 + (year + 399) / 400
  }

  lemma YearLength(year: nat)
    ensures YearStart(year + 1) == YearStart(year) + if Leap(year) then 366 else 365
  {
    assert (year + 4) / 4 == (year + 3) / 4 + if year % 4 == 0 then 1 else 0;
    assert (year + 100) / 100 == (year + 99) / 100 + if year % 100 == 0 then 1 else 0;
    assert (year + 400) / 400 == (year + 399) / 400 + if year % 400 == 0 then 1 else 0;
    assert year % 400 == 0 ==> year % 100 == 0;
    assert year % 100 == 0 ==> year % 4 == 0;
  }

  lemma {:induction false} YearStartMonotone(y: nat, z: nat)
    requires y <= z
    ensures YearStart(y) <= YearStart(z)
    decreases z - y
  {
    if y < z {
      YearLength(y);
      YearStartMonotone(y + 1, z);
    }
  }

  function MonthLength(year: nat, month: nat): nat
    requires 1 <= month <= 12
  {
    if month == 2 then (if Leap(year) then 29 else 28)
    else if month == 4 || month == 6 || month == 9 || month == 11 then 30 else 31
  }

  /** Days from the first of January of `year` to the first of `month`. */
  function MonthStart(year: nat, month: nat): nat
    requires 1 <= month <= 13
  {
    if month == 1 then 0 else MonthStart(year, month - 1) + MonthLength(year, month - 1)
  }

  lemma MonthsFillYear(year: nat)
    ensures MonthStart(year, 13) == if Leap(year) then 366 else 365
  {
    var leap := if Leap(year) then 1 else 0;
    assert MonthStart(year, 2) == 31;
    assert MonthStart(year, 3) == 59 + leap;
    assert MonthStart(year, 5) == 120 + leap;
    assert MonthStart(year, 7) == 181 + leap;
    assert MonthStart(year, 9) == 243 + leap;
    assert MonthStart(year, 11) == 304 + leap;
  }

  lemma {:induction false} MonthStartMonotone(year: nat, m: nat, n: nat)
    requires 1 <= m <= n <= 13
    ensures MonthStart(year, m) <= MonthStart(year, n)
  {
    if m < n {
      MonthStartMonotone(year, m, n - 1);
    }
  }

  function YearFrom(day: nat, year: nat): (y: nat)
    requires YearStart(year) <= day
    ensures YearStart(y) <= day < YearStart(y + 1)
    decreases day - YearStart(year)
  {
    YearLength(year);
    if day < YearStart(year + 1) then year else YearFrom(day, year + 1)
  }

  function YearOf(day: nat): nat { YearFrom(day, 0) }

  function DayOfYear(day: nat): nat { day - YearStart(YearOf(day)) }

  function MonthFrom(year: nat, dayOfYear: nat, month: nat): (m: nat)
    requires 1 <= month <= 12 && MonthStart(year, month) <= dayOfYear < MonthStart(year, 13)
    ensures 1 <= m <= 12 && MonthStart(year, m) <= dayOfYear < MonthStart(year, m + 1)
    decreases 12 - month
  {
    if dayOfYear < MonthStart(year, month + 1) then month else MonthFrom(year, dayOfYear, month + 1)
  }

  function MonthOf(day: nat): (m: nat)
    ensures 1 <= m <= 12
    ensures MonthStart(YearOf(day), m) <= DayOfYear(day) < MonthStart(YearOf(day), m + 1)
  {
    YearLength(YearOf(day));
    MonthsFillYear(YearOf(day));
    MonthFrom(YearOf(day), DayOfYear(day), 1)
  }

  function DayOfMonth(day: nat): (d: nat)
    ensures 1 <= d <= 31
  {
    DayOfYear(day) - MonthStart(YearOf(day), MonthOf(day)) + 1
  }

  // ---------- text of a day, of a second, of an instant ----------

  const DAYS: nat := YearStart(10_000)

  function MonthDayText(day: nat): (s: string)
    ensures |s| == 5
  {
    Digits(MonthOf(day), 2) + ("-" + Digits(DayOfMonth(day), 2))
  }

  function DayText(day: nat): (s: string)
    ensures |s| == 10
  {
    Digits(YearOf(day), 4) + ("-" + MonthDayText(day))
  }

  function MinuteText(second: nat): (s: string)
    ensures |s| == 5
  {
    Digits(second / 60 % 60, 2) + (":" + Digits(second % 60, 2))
  }

  function ClockText(second: nat): (s: string)
    ensures |s| == 8
  {
    Digits(second / 3600, 2) + (":" + MinuteText(second))
  }

  function SecondText(second: nat): (s: string)
    ensures |s| == 19
  {
    DayText(second / SECONDS_PER_DAY) + ("T" + ClockText(second % SECONDS_PER_DAY))
  }

  /** time.RFC3339Nano in UTC. */
  function Format(t: nat): string {
    SecondText(t / NANOS_PER_SECOND) + FractionText(t % NANOS_PER_SECOND)
  }

  /** The years 0000 to 9999, which have a four-digit text. */
  predicate InRange(t: int) { 0 <= t < DAYS * SECONDS_PER_DAY * NANOS_PER_SECOND }

  lemma FieldOrder(w: nat, sep: string, a: nat, l: string, x: nat, r: string)
    requires a < Pow10(w) && x < Pow10(w)
    ensures TextLess(Digits(a, w) + (sep + l), Digits(x, w) + (sep + r)) <==> a < x || (a == x && TextLess(l, r))
    ensures Digits(a, w) + (sep + l) == Digits(x, w) + (sep + r) <==> a == x && l == r
  {
    DigitsOrder(a, x, w);
    TextLessAfterPrefix(sep, l, r);
    TextLessConcat(Digits(a, w), Digits(x, w), sep + l, sep + r);
    var lhs, rhs := Digits(a, w) + (sep + l), Digits(x, w) + (sep + r);
    if lhs == rhs {
      assert Digits(a, w) == lhs[..w] && Digits(x, w) == rhs[..w];
      assert l == lhs[w + |sep|..] && r == rhs[w + |sep|..];
    }
  }

  lemma MonthDayOrder(d: nat, e: nat)
    ensures TextLess(MonthDayText(d), MonthDayText(e)) <==>
            MonthOf(d) < MonthOf(e) || (MonthOf(d) == MonthOf(e) && DayOfMonth(d) < DayOfMonth(e))
    ensures MonthDayText(d) == MonthDayText(e) <==> MonthOf(d) == MonthOf(e) && DayOfMonth(d) == DayOfMonth(e)
  {
    NinePlaces();
    DigitsOrder(DayOfMonth(d), DayOfMonth(e), 2);
    FieldOrder(2, "-", MonthOf(d), Digits(DayOfMonth(d), 2), MonthOf(e), Digits(DayOfMonth(e), 2));
  }

  lemma DayOrder(d: nat, e: nat)
    requires d < DAYS && e < DAYS
    ensures TextLess(DayText(d), DayText(e)) <==> d < e
    ensures DayText(d) == DayText(e) <==> d == e
  {
    YearBound(d);
    YearBound(e);
    NinePlaces();
    FieldOrder(4, "-", YearOf(d), MonthDayText(d), YearOf(e), MonthDayText(e));
    MonthDayOrder(d, e);
    if d <= e {
      DateOrder(d, e);
    } else {
      DateOrder(e, d);
    }
  }

  lemma YearBound(day: nat)
    requires day < DAYS
    ensures YearOf(day) < 10_000
  {
    if YearOf(day) >= 10_000 {
      YearStartMonotone(10_000, YearOf(day));
    }
  }

  /** Year, month and day of month, in that order of weight, follow the day count. */
  lemma DateOrder(d: nat, e: nat)
    requires d <= e
    ensures YearOf(d) <= YearOf(e)
    ensures YearOf(d) == YearOf(e) ==> MonthOf(d) <= MonthOf(e)
    ensures YearOf(d) == YearOf(e) && MonthOf(d) == MonthOf(e) ==> DayOfMonth(e) - DayOfMonth(d) == e - d
  {
    if YearOf(e) < YearOf(d) {
      YearStartMonotone(YearOf(e) + 1, YearOf(d));
    } else if YearOf(d) == YearOf(e) {
      MonthOrder(YearOf(d), DayOfYear(d), MonthOf(d), DayOfYear(e), MonthOf(e));
    }
  }

  lemma MonthOrder(year: nat, d: nat, m: nat, e: nat, n: nat)
    requires 1 <= m <= 12 && MonthStart(year, m) <= d < MonthStart(year, m + 1)
    requires 1 <= n <= 12 && MonthStart(year, n) <= e < MonthStart(year, n + 1)
    requires d <= e
    ensures m <= n
  {
    if n < m {
      MonthStartMonotone(year, n + 1, m);
    }
  }

  lemma MinuteOrder(s: nat, t: nat)
    ensures TextLess(MinuteText(s), MinuteText(t)) <==>
            s / 60 % 60 < t / 60 % 60 || (s / 60 % 60 == t / 60 % 60 && s % 60 < t % 60)
    ensures MinuteText(s) == MinuteText(t) <==> s / 60 % 60 == t / 60 % 60 && s % 60 == t % 60
  {
    NinePlaces();
    DigitsOrder(s % 60, t % 60, 2);
    FieldOrder(2, ":", s / 60 % 60, Digits(s % 60, 2), t / 60 % 60, Digits(t % 60, 2));
  }

  lemma ClockFields(s: nat)
    ensures s == 3600 * (s / 3600) + 60 * (s / 60 % 60) + s % 60
  {
    var q := s / 60;
    assert q / 60 == s / 3600;
    assert q == 60 * (q / 60) + q % 60;
  }

  lemma ClockOrder(s: nat, t: nat)
    requires s < SECONDS_PER_DAY && t < SECONDS_PER_DAY
    ensures TextLess(ClockText(s), ClockText(t)) <==> s < t
    ensures ClockText(s) == ClockText(t) <==> s == t
  {
    NinePlaces();
    var h, m, x := s / 3600, s / 60 % 60, s % 60;
    var h', m', x' := t / 3600, t / 60 % 60, t % 60;
    ClockFields(s);
    ClockFields(t);
    FieldOrder(2, ":", h, MinuteText(s), h', MinuteText(t));
    MinuteOrder(s, t);
  }

  lemma SecondOrder(s: nat, t: nat)
    requires s < DAYS * SECONDS_PER_DAY && t < DAYS * SECONDS_PER_DAY
    ensures TextLess(SecondText(s), SecondText(t)) <==> s < t
    ensures SecondText(s) == SecondText(t) <==> s == t
  {
    var d, e, x, y := s / SECONDS_PER_DAY, t / SECONDS_PER_DAY, s % SECONDS_PER_DAY, t % SECONDS_PER_DAY;
    DayOrder(d, e);
    ClockOrder(x, y);
    TextLessConcat(DayText(d), DayText(e), "T" + ClockText(x), "T" + ClockText(y));
    TextLessAfterPrefix("T", ClockText(x), ClockText(y));
    if SecondText(s) == SecondText(t) {
      assert DayText(d) == SecondText(s)[..10] && DayText(e) == SecondText(t)[..10];
      assert ClockText(x) == SecondText(s)[11..] && ClockText(y) == SecondText(t)[11..];
    }
  }

  // ---------- main results ----------

  function Second(t: nat): nat { t / NANOS_PER_SECOND }

  function PrintedFraction(t: nat): string { Fraction(t % NANOS_PER_SECOND) }

  /**
   Text order against time order, for every pair of instants: they agree when the whole
   seconds differ; within a second they agree unless one printed fraction (possibly empty)
   is a proper prefix of the other, and then they are reversed.
   */
  lemma TextOrder(t: nat, u: nat)
    requires InRange(t) && InRange(u)
    ensures TextLess(Format(t), Format(u)) <==>
            if Second(t) != Second(u) then t < u
            else if ProperPrefix(PrintedFraction(t), PrintedFraction(u)) then false
            else if ProperPrefix(PrintedFraction(u), PrintedFraction(t)) then true
            else t < u
  {
    SecondOrder(Second(t), Second(u));
    TextLessConcat(SecondText(Second(t)), SecondText(Second(u)),
                   FractionText(t % NANOS_PER_SECOND), FractionText(u % NANOS_PER_SECOND));
    FractionOrder(t % NANOS_PER_SECOND, u % NANOS_PER_SECOND);
  }

  lemma PaddedPrefixOrder(d: string, e: string)
    requires |d| == |e| && ProperPrefix(Trim(d), Trim(e))
    requires forall i :: 0 <= i < |e| ==> '0' <= e[i]
    ensures TextLess(d, e)
  {
    var f, g := Trim(d), Trim(e);
    var k := FirstDifference(d, e);
    var last := |g| - 1;
    assert d[last] == '0' < e[last];
    assert k <= last;
    assert forall i :: 0 <= i < |f| ==> d[i] == f[i] == g[i] == e[i];
    TextLessAt(d, e, k);
  }

  /**
   A printed fraction that properly extends another belongs to the later instant, so the prefix
   case is a true reversal.
   */
  lemma PrefixIsEarlier(t: nat, u: nat)
    requires Second(t) == Second(u) && ProperPrefix(PrintedFraction(t), PrintedFraction(u))
    ensures t < u
  {
    var n, m := t % NANOS_PER_SECOND, u % NANOS_PER_SECOND;
    PaddedPrefixOrder(Digits(n, 9), Digits(m, 9));
    NinePlaces();
    DigitsOrder(n, m, 9);
  }

  /** Formatting loses nothing: the text determines the instant. */
  lemma FormatInjective(t: nat, u: nat)
    requires InRange(t) && InRange(u)
    ensures Format(t) == Format(u) <==> t == u
  {
    if Format(t) == Format(u) {
      TextLessTotal(Format(t), Format(u));
      TextOrder(t, u);
      TextOrder(u, t);
    }
  }

  /** Comparing texts instead of instants is off by less than a second, in either direction. */
  lemma TextOrderError(t: nat, u: nat)
    requires InRange(t) && InRange(u)
    ensures Second(t) < Second(u) ==> TextLess(Format(t), Format(u))
    ensures Second(t) > Second(u) ==> !TextLess(Format(t), Format(u))
    ensures TextLess(Format(t), Format(u)) ==> t < u + NANOS_PER_SECOND
    ensures !TextLess(Format(t), Format(u)) ==> t > u - NANOS_PER_SECOND
  {
    TextOrder(t, u);
  }

  /** The reversal happens: half past a second sorts before the second itself. */
  lemma ReversalWitness()
    ensures InRange(0) && InRange(500_000_000)
    ensures TextLess(Format(500_000_000), Format(0))
  {
    TextOrder(500_000_000, 0);
    NinePlaces();
    DigitsOrder(0, 500_000_000, 9);
    TrimInjective(0, 500_000_000);
    ZeroFraction();
  }

  lemma ZeroFraction()
    ensures Fraction(0) == []
  {
    forall i | 0 <= i < 9
      ensures Digits(0, 9)[i] == '0'
    {
      ZeroDigits(9, i);
    }
  }

  lemma {:induction false} ZeroDigits(w: nat, i: nat)
    requires i < w
    ensures Digits(0, w)[i] == '0'
  {
    if i < w - 1 {
      ZeroDigits(w - 1, i);
    }
  }
}
