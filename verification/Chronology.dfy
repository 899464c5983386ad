/** The order of stored timestamps as text against their order in time. */
module Chronology {
  import opened Domain
  import opened Text
  import opened Timestamps

  // ---------------------------------------------------------------- instants

  /** Days from the start of year 0 to the start of a year. */
  function DaysBeforeYear(year: int): int {
    365 * year + (year + 3) / 4 - (year + 99) / 100 + (year + 399) / 400
  }

  function DaysBeforeMonth(year: int, month: int): int
    requires 1 <= month <= 12
    decreases month
  {
    if month == 1 then 0 else DaysBeforeMonth(year, month - 1) + DaysIn(year, month - 1)
  }

  function Day(c: Civil): int
    requires ValidDate(c)
  {
    DaysBeforeYear(c.year) + DaysBeforeMonth(c.year, c.month) + c.day - 1
  }

  function SecondOfDay(c: Civil): int {
    c.hour * 3600 + c.minute * 60 + c.second
  }

  /** Nanoseconds from 0001-01-01T00:00:00Z, which is day 366 of the count from year 0. */
  function Instant(c: Civil): Time
    requires ValidDate(c)
  {
    ((Day(c) - 366) * 86_400 + SecondOfDay(c)) * 1_000_000_000 + c.nano
  }

  /** The instant of a parsed time. */
  function InstantOf(stamp: Stamp): Time
    requires ValidCivil(stamp.civil)
  {
    Instant(stamp.civil) - stamp.offset * 60_000_000_000
  }

  predicate DateBefore(a: Civil, b: Civil) {
    a.year < b.year || (a.year == b.year && (a.month < b.month || (a.month == b.month && a.day < b.day)))
  }

  predicate SameDate(a: Civil, b: Civil) {
    a.year == b.year && a.month == b.month && a.day == b.day
  }

  predicate SecondBefore(a: Civil, b: Civil) {
    DateBefore(a, b) || (SameDate(a, b) && SecondOfDay(a) < SecondOfDay(b))
  }

  predicate SameSecond(a: Civil, b: Civil) {
    SameDate(a, b) && a.hour == b.hour && a.minute == b.minute && a.second == b.second
  }

  lemma FourthYears(year: int)
    ensures (year + 4) / 4 == (year + 3) / 4 + if year % 4 == 0 then 1 else 0
  {
  }

  lemma Centuries(year: int)
    ensures (year + 100) / 100 == (year + 99) / 100 + if year % 100 == 0 then 1 else 0
  {
  }

  lemma FourthCenturies(year: int)
    ensures (year + 400) / 400 == (year + 399) / 400 + if year % 400 == 0 then 1 else 0
  {
  }

  lemma CenturiesAreFourthYears(year: int)
    requires year % 100 == 0
    ensures year % 4 == 0
  {
    assert year == 4 * (25 * (year / 100));
  }

  lemma FourthCenturiesAreCenturies(year: int)
    requires year % 400 == 0
    ensures year % 100 == 0
  {
    assert year == 100 * (4 * (year / 400));
  }

  lemma YearLength(year: int)
    ensures DaysBeforeYear(year + 1) == DaysBeforeYear(year) + if Leap(year) then 366 else 365
  {
    FourthYears(year);
    Centuries(year);
    FourthCenturies(year);
    if year % 400 == 0 {
      FourthCenturiesAreCenturies(year);
    }
    if year % 100 == 0 {
      CenturiesAreFourthYears(year);
    }
  }

  lemma {:induction false} YearsGrow(a: int, b: int)
    requires a <= b
    ensures DaysBeforeYear(a) <= DaysBeforeYear(b)
    decreases b - a
  {
    if a < b {
      YearsGrow(a, b - 1);
      YearLength(b - 1);
    }
  }

  lemma {:induction false} MonthsGrow(year: int, a: int, b: int)
    requires 1 <= a <= b <= 12
    ensures DaysBeforeMonth(year, a) <= DaysBeforeMonth(year, b)
    ensures a < b ==> DaysBeforeMonth(year, a) + DaysIn(year, a) <= DaysBeforeMonth(year, b)
    decreases b
  {
    if a < b {
      MonthsGrow(year, a, b - 1);
    }
  }

  lemma WithinYear(year: int, month: int)
    requires 1 <= month <= 12
    ensures 0 <= DaysBeforeMonth(year, month)
    ensures DaysBeforeMonth(year, month) + DaysIn(year, month) <= if Leap(year) then 366 else 365
  {
    MonthsGrow(year, 1, month);
    MonthsGrow(year, month, 12);
    var d2 := DaysBeforeMonth(year, 2);
    var d5 := DaysBeforeMonth(year, 5);
    assert d5 == d2 + DaysIn(year, 2) + 31 + 30;
    var d8 := DaysBeforeMonth(year, 8);
    assert d8 == d5 + 31 + 30 + 31;
    assert DaysBeforeMonth(year, 11) == d8 + 31 + 30 + 31;
  }

  lemma DayWithinYear(c: Civil)
    requires ValidDate(c)
    ensures DaysBeforeYear(c.year) <= Day(c) < DaysBeforeYear(c.year + 1)
  {
    WithinYear(c.year, c.month);
    YearLength(c.year);
  }

  lemma LaterYear(a: Civil, b: Civil)
    requires ValidDate(a) && ValidDate(b) && a.year < b.year
    ensures Day(a) < Day(b)
  {
    DayWithinYear(a);
    DayWithinYear(b);
    YearsGrow(a.year + 1, b.year);
  }

  lemma LaterMonth(a: Civil, b: Civil)
    requires ValidDate(a) && ValidDate(b) && a.year == b.year && a.month < b.month
    ensures Day(a) < Day(b)
  {
    MonthsGrow(a.year, a.month, b.month);
  }

  lemma DaysOrder(a: Civil, b: Civil)
    requires ValidDate(a) && ValidDate(b) && DateBefore(a, b)
    ensures Day(a) < Day(b)
  {
    if a.year < b.year {
      LaterYear(a, b);
    } else if a.month < b.month {
      LaterMonth(a, b);
    }
  }

  /** Comparing instants is comparing the fields, most significant first. */
  lemma InstantOrder(a: Civil, b: Civil)
    requires ValidDate(a) && ValidDate(b)
    ensures Instant(a) < Instant(b) <==> SecondBefore(a, b) || (SameSecond(a, b) && a.nano < b.nano)
    ensures SecondBefore(a, b) || SecondBefore(b, a) || SameSecond(a, b)
  {
    if DateBefore(a, b) {
      DaysOrder(a, b);
    } else if DateBefore(b, a) {
      DaysOrder(b, a);
    } else {
      assert Day(a) == Day(b);
      if SecondOfDay(a) == SecondOfDay(b) {
        assert a.second == b.second && a.minute == b.minute && a.hour == b.hour;
      }
    }
  }

  /** Different fields are different instants. */
  lemma InstantNames(a: Civil, b: Civil)
    requires ValidDate(a) && ValidDate(b) && Instant(a) == Instant(b)
    ensures a == b
  {
    InstantOrder(a, b);
    InstantOrder(b, a);
  }

  // ---------------------------------------------------------------- comparing the texts

  lemma {:induction false} LexConcat(a: string, b: string, x: string, y: string)
    requires |a| == |b|
    ensures LexLess(a + x, b + y) <==> LexLess(a, b) || (a == b && LexLess(x, y))
  {
    if a == "" {
      assert a + x == x && b + y == y;
    } else {
      assert (a + x)[1..] == a[1..] + x && (b + y)[1..] == b[1..] + y;
      LexConcat(a[1..], b[1..], x, y);
      assert a == [a[0]] + a[1..] && b == [b[0]] + b[1..];
    }
  }

  lemma SameDigit(c: char, d: char)
    requires IsDigit(c) && IsDigit(d)
    ensures c < d <==> DigitValue(c) < DigitValue(d)
    ensures c == d <==> DigitValue(c) == DigitValue(d)
  {
  }

  lemma AtLeastOnce(k: int, p: int)
    requires k >= 1 && p > 0
    ensures k * p >= p
  {
  }

  lemma Distribute(d: int, k: int, p: int)
    ensures (d + k) * p == d * p + k * p
  {
  }

  lemma LeadingDigitDecides(d: int, e: int, p: int, x: int, y: int)
    requires 0 <= x < p && 0 <= y < p && d < e
    ensures d * p + x < e * p + y
  {
    Distribute(d, e - d, p);
    AtLeastOnce(e - d, p);
  }

  /** Fractions, as text before the closing Z, compare by value unless one starts with the other:
      then the longer one comes first. */
  lemma {:induction false} DigitsBeforeZ(p: string, q: string, width: nat)
    requires AllDigits(p) && AllDigits(q) && |p| <= width && |q| <= width
    ensures LexLess(p + "Z", q + "Z") <==> q < p || (Value(p, width) < Value(q, width) && !(p < q))
  {
    if p == "" || q == "" {
      assert p + "Z" == if p == "" then "Z" else [p[0]] + (p[1..] + "Z");
      assert q + "Z" == if q == "" then "Z" else [q[0]] + (q[1..] + "Z");
      assert LexLess("", "") == false;
    } else {
      assert (p + "Z")[1..] == p[1..] + "Z" && (q + "Z")[1..] == q[1..] + "Z";
      assert p == [p[0]] + p[1..] && q == [q[0]] + q[1..];
      SameDigit(p[0], q[0]);
      var d, e, unit := DigitValue(p[0]), DigitValue(q[0]), Pow10(width - 1);
      var x, y := Value(p[1..], width - 1), Value(q[1..], width - 1);
      if d < e {
        LeadingDigitDecides(d, e, unit, x, y);
      } else if e < d {
        LeadingDigitDecides(e, d, unit, y, x);
      } else {
        DigitsBeforeZ(p[1..], q[1..], width - 1);
        assert p[1..] < q[1..] <==> p < q;
        assert q[1..] < p[1..] <==> q < p;
      }
    }
  }

  lemma {:induction false} LexDigits(p: string, q: string, width: nat)
    requires AllDigits(p) && AllDigits(q) && |p| == |q| == width
    ensures LexLess(p, q) <==> Value(p, width) < Value(q, width)
    ensures p == q <==> Value(p, width) == Value(q, width)
  {
    if width > 0 {
      LexDigits(p[1..], q[1..], width - 1);
      assert p == [p[0]] + p[1..] && q == [q[0]] + q[1..];
      SameDigit(p[0], q[0]);
      var d, e, unit := DigitValue(p[0]), DigitValue(q[0]), Pow10(width - 1);
      var x, y := Value(p[1..], width - 1), Value(q[1..], width - 1);
      if d < e {
        LeadingDigitDecides(d, e, unit, x, y);
      } else if e < d {
        LeadingDigitDecides(e, d, unit, y, x);
      }
    }
  }

  lemma LexDate(a: Civil, b: Civil)
    requires ValidCivil(a) && ValidCivil(b)
    ensures LexLess(Date(a), Date(b)) <==> DateBefore(a, b)
    ensures Date(a) == Date(b) <==> SameDate(a, b)
  {
    LexDigits(Four(a.year), Four(b.year), 4);
    LexDigits(Two(a.month), Two(b.month), 2);
    LexDigits(Two(a.day), Two(b.day), 2);
    var x, y := Two(a.month) + "-" + Two(a.day), Two(b.month) + "-" + Two(b.day);
    assert Date(a) == (Four(a.year) + "-") + x && Date(b) == (Four(b.year) + "-") + y;
    LexConcat(Four(a.year) + "-", Four(b.year) + "-", x, y);
    LexConcat(Four(a.year), Four(b.year), "-", "-");
    LexConcat(Two(a.month) + "-", Two(b.month) + "-", Two(a.day), Two(b.day));
    LexConcat(Two(a.month), Two(b.month), "-", "-");
    LexTotal("-", "-");
    DateFields(a);
    DateFields(b);
  }

  lemma LexClock(a: Civil, b: Civil)
    requires ValidCivil(a) && ValidCivil(b)
    ensures LexLess(Clock(a), Clock(b)) <==> SecondOfDay(a) < SecondOfDay(b)
    ensures Clock(a) == Clock(b) <==> a.hour == b.hour && a.minute == b.minute && a.second == b.second
  {
    LexDigits(Two(a.hour), Two(b.hour), 2);
    LexDigits(Two(a.minute), Two(b.minute), 2);
    LexDigits(Two(a.second), Two(b.second), 2);
    var x, y := Two(a.minute) + ":" + Two(a.second), Two(b.minute) + ":" + Two(b.second);
    assert Clock(a) == (Two(a.hour) + ":") + x && Clock(b) == (Two(b.hour) + ":") + y;
    LexConcat(Two(a.hour) + ":", Two(b.hour) + ":", x, y);
    LexConcat(Two(a.hour), Two(b.hour), ":", ":");
    LexConcat(Two(a.minute) + ":", Two(b.minute) + ":", Two(a.second), Two(b.second));
    LexConcat(Two(a.minute), Two(b.minute), ":", ":");
    LexTotal(":", ":");
    ClockFields(a);
    ClockFields(b);
  }

  lemma FractionDigits(n: int) returns (p: string)
    requires 0 < n < 1_000_000_000
    ensures AllDigits(p) && |p| <= 9 && Value(p, 9) == n && Fraction(n) == "." + p
  {
    Powers();
    p := TrimZeros(Digits(n, 9));
    ValueOfDigits(n, 9);
    ValueIgnoresZeros(Digits(n, 9), 9);
    TrimmedNonzero(Digits(n, 9));
  }

  lemma PrefixAfterPoint(p: string, q: string)
    ensures "." + p < "." + q <==> p < q
  {
    assert ("." + p)[1..] == p && ("." + q)[1..] == q;
  }

  lemma LexFraction(m: int, n: int)
    requires 0 <= m < 1_000_000_000 && 0 <= n < 1_000_000_000
    ensures LexLess(Fraction(m) + "Z", Fraction(n) + "Z")
            <==> Fraction(n) < Fraction(m) || (m < n && !(Fraction(m) < Fraction(n)))
  {
    if m != 0 && n != 0 {
      var p := FractionDigits(m);
      var q := FractionDigits(n);
      DigitsBeforeZ(p, q, 9);
      LexConcat(".", ".", p + "Z", q + "Z");
      LexTotal(".", ".");
      assert "." + p + "Z" == "." + (p + "Z") && "." + q + "Z" == "." + (q + "Z");
      PrefixAfterPoint(p, q);
      PrefixAfterPoint(q, p);
    } else {
      LexTotal("Z", "Z");
    }
  }

  lemma LexSeconds(a: Civil, b: Civil)
    requires ValidCivil(a) && ValidCivil(b)
    ensures LexLess(Date(a) + "T" + Clock(a), Date(b) + "T" + Clock(b)) <==> SecondBefore(a, b)
    ensures Date(a) + "T" + Clock(a) == Date(b) + "T" + Clock(b) <==> SameSecond(a, b)
  {
    LexConcat(Date(a) + "T", Date(b) + "T", Clock(a), Clock(b));
    LexConcat(Date(a), Date(b), "T", "T");
    LexTotal("T", "T");
    LexDate(a, b);
    LexClock(a, b);
    var s, t := Date(a) + "T" + Clock(a), Date(b) + "T" + Clock(b);
    assert s[..10] == Date(a) && s[11..] == Clock(a) && t[..10] == Date(b) && t[11..] == Clock(b);
    assert (Date(a) + "T")[..10] == Date(a) && (Date(b) + "T")[..10] == Date(b);
  }

  /** When text order is time order, and when it is not. Stored timestamps compare as text the way
      they compare in time, except within one second when one fraction starts with the other: there
      the later time, whose fraction is the longer, sorts first. */
  lemma TextOrder(a: Civil, b: Civil)
    requires ValidCivil(a) && ValidCivil(b)
    ensures LexLess(Format(a), Format(b)) <==>
              if SameSecond(a, b) && Fraction(a.nano) < Fraction(b.nano) then false
              else if SameSecond(a, b) && Fraction(b.nano) < Fraction(a.nano) then true
              else Instant(a) < Instant(b)
  {
    var s, t := Date(a) + "T" + Clock(a), Date(b) + "T" + Clock(b);
    var x, y := Fraction(a.nano) + "Z", Fraction(b.nano) + "Z";
    assert Format(a) == s + x && Format(b) == t + y;
    LexConcat(s, t, x, y);
    LexSeconds(a, b);
    LexFraction(a.nano, b.nano);
    InstantOrder(a, b);
  }

  /** For a pair in time order, text order agrees exactly when the two do not share a second with the
      earlier fraction a proper beginning of the later one. */
  lemma SortableIff(a: Civil, b: Civil)
    requires ValidCivil(a) && ValidCivil(b) && Instant(a) < Instant(b)
    ensures LexLess(Format(a), Format(b)) <==> !(SameSecond(a, b) && Fraction(a.nano) < Fraction(b.nano))
  {
    TextOrder(a, b);
    if SameSecond(a, b) && Fraction(b.nano) < Fraction(a.nano) {
      InstantOrder(a, b);
      LongerIsLater(b.nano, a.nano);
    }
  }

  lemma {:induction false} PrefixValue(p: string, q: string, width: nat)
    requires AllDigits(p) && AllDigits(q) && p <= q && |q| <= width
    ensures Value(p, width) <= Value(q, width)
  {
    if p != "" {
      PrefixValue(p[1..], q[1..], width - 1);
    }
  }

  lemma LongerIsLater(m: int, n: int)
    requires 0 <= m < 1_000_000_000 && 0 <= n < 1_000_000_000 && Fraction(m) < Fraction(n)
    ensures m <= n
  {
    if m != 0 && n != 0 {
      var p := FractionDigits(m);
      var q := FractionDigits(n);
      PrefixAfterPoint(p, q);
      PrefixValue(p, q, 9);
    }
  }

  /** Half past a second sorts before the second itself. */
  lemma NotSortable() returns (a: Civil, b: Civil)
    ensures ValidCivil(a) && ValidCivil(b)
    ensures Instant(a) < Instant(b) && LexLess(Format(b), Format(a))
  {
    a := Civil(2024, 6, 1, 10, 0, 0, 0);
    b := a.(nano := 500_000_000);
    InstantOrder(a, b);
    TextOrder(b, a);
    Powers();
    assert Fraction(a.nano) == "";
  }
}
