/** Times as the tables keep them: any instant as its UTC text, and when that text can be read back. */
module Instants {
  import opened Domain
  import opened Timestamps
  import opened Chronology

  // ---------------------------------------------------------------- from an instant to its fields

  lemma {:induction false} YearsBack(year: int)
    requires year <= 0
    ensures DaysBeforeYear(year) <= 365 * year
    decreases -year
  {
    if year < 0 {
      YearsBack(year + 1);
      YearLength(year);
    }
  }

  /** The year of a day, counting up from a year that starts no later. */
  function YearFrom(day: int, year: int): (y: int)
    requires DaysBeforeYear(year) <= day
    ensures DaysBeforeYear(y) <= day < DaysBeforeYear(y + 1)
    decreases day - DaysBeforeYear(year)
  {
    YearLength(year);
    if day < DaysBeforeYear(year + 1) then year else YearFrom(day, year + 1)
  }

  function YearOf(day: int): (y: int)
    ensures DaysBeforeYear(y) <= day < DaysBeforeYear(y + 1)
  {
    if day >= 0 then YearFrom(day, 0)
    else
      YearsBack(day);
      YearFrom(day, day)
  }

  lemma DecemberEndsYear(year: int)
    ensures DaysBeforeMonth(year, 12) + 31 == if Leap(year) then 366 else 365
  {
    var d4 := DaysBeforeMonth(year, 4);
    assert d4 == DaysBeforeMonth(year, 2) + DaysIn(year, 2) + 31;
    var d8 := DaysBeforeMonth(year, 8);
    assert d8 == d4 + 30 + 31 + 30 + 31 by {
      assert DaysBeforeMonth(year, 6) == d4 + 30 + 31;
    }
    assert DaysBeforeMonth(year, 10) == d8 + 31 + 30;
  }

  /** The month of a day of the year, counting up from a month that starts no later. */
  function MonthFrom(year: int, day: int, month: int): (m: int)
    requires 1 <= month <= 12 && DaysBeforeMonth(year, month) <= day < if Leap(year) then 366 else 365
    ensures 1 <= m <= 12 && DaysBeforeMonth(year, m) <= day < DaysBeforeMonth(year, m) + DaysIn(year, m)
    decreases 12 - month
  {
    DecemberEndsYear(year);
    if day < DaysBeforeMonth(year, month) + DaysIn(year, month) then month else MonthFrom(year, day, month + 1)
  }

  function DateOf(day: int): (c: Civil)
    ensures ValidDate(c) && Day(c) == day && c.hour == c.minute == c.second == c.nano == 0
  {
    var year := YearOf(day);
    YearLength(year);
    var rest := day - DaysBeforeYear(year);
    var month := MonthFrom(year, rest, 1);
    Civil(year, month, rest - DaysBeforeMonth(year, month) + 1, 0, 0, 0, 0)
  }

  /** The fields of a second within its day. */
  lemma ClockOf(rest: int)
    requires 0 <= rest < 86_400
    ensures 0 <= rest / 3600 <= 23 && 0 <= rest % 3600 / 60 <= 59 && 0 <= rest % 60 <= 59
    ensures rest / 3600 * 3600 + rest % 3600 / 60 * 60 + rest % 60 == rest
  {
    assert rest % 3600 == rest % 3600 / 60 * 60 + rest % 3600 % 60;
    assert rest == 60 * (60 * (rest / 3600) + rest % 3600 / 60) + rest % 3600 % 60;
  }

  function At(date: Civil, rest: int, nano: int): (c: Civil)
    requires ValidDate(date) && 0 <= rest < 86_400 && 0 <= nano < 1_000_000_000
    ensures ValidDate(c) && Day(c) == Day(date) && SecondOfDay(c) == rest && c.nano == nano && c.year == date.year
  {
    ClockOf(rest);
    date.(hour := rest / 3600, minute := rest % 3600 / 60, second := rest % 60, nano := nano)
  }

  /** The UTC fields of an instant. */
  function CivilOf(t: Time): (c: Civil)
    ensures ValidDate(c) && Instant(c) == t
  {
    var seconds := t / 1_000_000_000;
    var c := At(DateOf(seconds / 86_400 + 366), seconds % 86_400, t % 1_000_000_000);
    assert Day(c) - 366 == seconds / 86_400;
    assert (Day(c) - 366) * 86_400 + SecondOfDay(c) == seconds;
    c
  }

  lemma YearBounds(c: Civil)
    requires ValidDate(c)
    ensures 0 <= c.year <= 9999 <==> 0 <= Day(c) < 3_652_425
  {
    DayWithinYear(c);
    assert DaysBeforeYear(0) == 0 && DaysBeforeYear(10_000) == 3_652_425;
    if c.year < 0 {
      YearsGrow(c.year + 1, 0);
    } else if c.year > 9999 {
      YearsGrow(10_000, c.year);
    } else {
      YearsGrow(0, c.year);
      YearsGrow(c.year + 1, 10_000);
    }
  }

  lemma DayBounds(day: int, second: int, nano: int)
    requires 0 <= second < 86_400 && 0 <= nano < 1_000_000_000
    ensures InYears(((day - 366) * 86_400 + second) * 1_000_000_000 + nano) <==> 0 <= day < 3_652_425
  {
  }

  /** Years of four digits are the instants between the two bounds. */
  lemma FourDigitYears(t: Time)
    ensures ValidCivil(CivilOf(t)) <==> InYears(t)
  {
    var c := CivilOf(t);
    YearBounds(c);
    DayBounds(Day(c), SecondOfDay(c), c.nano);
  }

  // ---------------------------------------------------------------- the text of an instant

  /** A number as digits, as many as it takes. */
  function Decimal(n: nat): (s: string)
    ensures s != "" && AllDigits(s)
    ensures (n >= 10 ==> |s| >= 2) && (n >= 100 ==> |s| >= 3) && (n >= 1000 ==> |s| >= 4) && (n >= 10_000 ==> |s| >= 5)
  {
    if n < 10 then [DigitChar(n)] else Decimal(n / 10) + [DigitChar(n % 10)]
  }

  function YearDigits(n: nat): (s: string)
    ensures |s| >= (if n <= 9999 then 4 else 5) && AllDigits(s)
  {
    if n <= 9999 then Four(n) else Decimal(n)
  }

  /** At least four digits, after a sign for the years before year 0. */
  function YearText(year: int): string {
    if year < 0 then "-" + YearDigits(-year) else YearDigits(year)
  }

  /** The text that is stored for an instant. */
  function FormatTime(t: Time): string {
    var c := CivilOf(t);
    YearText(c.year) + ("-" + Two(c.month) + "-" + Two(c.day) + "T" + Clock(c) + Fraction(c.nano) + "Z")
  }

  /** In years of four digits it is the text of the fields. */
  lemma FormatOfInstant(c: Civil)
    requires ValidCivil(c)
    ensures FormatTime(Instant(c)) == Format(c)
  {
    InstantNames(c, CivilOf(Instant(c)));
  }

  /** A stored time can be read back exactly when its UTC year has four digits, and then as the same
      instant. */
  lemma ReadBack(t: Time)
    ensures Parse(FormatTime(t)).Some? <==> InYears(t)
    ensures InYears(t) ==> InstantOf(Parse(FormatTime(t)).value) == t
  {
    FourDigitYears(t);
    var c := CivilOf(t);
    if InYears(t) {
      FormatOfInstant(c);
      ParseFormat(c);
    } else {
      var s := FormatTime(t);
      if c.year < 0 {
        assert s[0] == '-' && s[..4][0] == '-';
      } else {
        assert s[4] == YearText(c.year)[4];
      }
    }
  }

  /** A text the program stored. */
  ghost predicate Stored(text: string) {
    exists t :: text == FormatTime(t)
  }

  /** Formatting a parsed stored timestamp gives back the stored text. */
  lemma FormatParse(text: string)
    requires Stored(text) && Parse(text).Some?
    ensures FormatTime(InstantOf(Parse(text).value)) == text
  {
    var t :| text == FormatTime(t);
    ReadBack(t);
  }

  /** The instant of a time written in a zone of its own. */
  function InZone(c: Civil, ahead: bool, hours: int, minutes: int): Time
    requires ValidDate(c)
  {
    Instant(c) + (if ahead then -1 else 1) * (hours * 60 + minutes) * 60_000_000_000
  }

  function WrittenInZone(c: Civil, ahead: bool, hours: int, minutes: int): string
    requires ValidCivil(c) && 0 <= hours <= 23 && 0 <= minutes <= 59
  {
    Date(c) + "T" + Clock(c) + (Fraction(c.nano) + ZoneText(ahead, hours, minutes))
  }

  lemma WrittenParses(c: Civil, ahead: bool, hours: int, minutes: int)
    requires ValidCivil(c) && 0 <= hours <= 23 && 0 <= minutes <= 59
    ensures var written := Parse(WrittenInZone(c, ahead, hours, minutes));
            written.Some? && InstantOf(written.value) == InZone(c, ahead, hours, minutes)
  {
    ZoneRoundTrip(ahead, hours, minutes);
    ParseWritten(c, ZoneText(ahead, hours, minutes));
  }

  /** A time received in a zone of its own is stored as a text that can be read back exactly when its
      instant, and not just its written year, lies in years of four digits. */
  lemma WrittenReadsBack(c: Civil, ahead: bool, hours: int, minutes: int)
    requires ValidCivil(c) && 0 <= hours <= 23 && 0 <= minutes <= 59
    ensures Parse(WrittenInZone(c, ahead, hours, minutes)).Some?
    ensures Parse(FormatTime(InstantOf(Parse(WrittenInZone(c, ahead, hours, minutes)).value))).Some?
            <==> InYears(InZone(c, ahead, hours, minutes))
  {
    WrittenParses(c, ahead, hours, minutes);
    ReadBack(InZone(c, ahead, hours, minutes));
  }

  lemma TwoDigitField(s: string)
    requires |s| == 2 && AllDigits(s)
    ensures Field(s) == DigitValue(s[0]) * 10 + DigitValue(s[1])
  {
    Powers();
    assert Value(s[1..], 1) == DigitValue(s[1]) * Pow10(0) + Value(s[1..][1..], 0);
  }

  lemma FourDigitField(s: string)
    requires |s| == 4 && AllDigits(s)
    ensures Field(s) == DigitValue(s[0]) * 1000 + DigitValue(s[1]) * 100 + DigitValue(s[2]) * 10 + DigitValue(s[3])
  {
    Powers();
    assert Pow10(3) == 1000;
    TwoDigitField(s[2..]);
    assert s[1..][1..] == s[2..];
    assert Value(s[1..], 3) == DigitValue(s[1]) * Pow10(2) + Value(s[2..], 2);
  }

  /** A time that was received and stored, and whose text cannot be read back. */
  ghost predicate Lost(text: string, t: Time) {
    Parse(text).Some? && InstantOf(Parse(text).value) == t && Parse(FormatTime(t)).None?
  }

  /** Two digits at a place, and their number. */
  predicate TwoAt(s: string, i: nat, n: int) {
    i + 2 <= |s| && IsDigit(s[i]) && IsDigit(s[i + 1]) && DigitValue(s[i]) * 10 + DigitValue(s[i + 1]) == n
  }

  lemma FieldAt(s: string, i: nat, n: int)
    requires TwoAt(s, i, n)
    ensures Field(s[i..i + 2]) == n
  {
    TwoDigitField(s[i..i + 2]);
  }

  lemma YearAt(s: string, high: int, low: int)
    requires TwoAt(s, 0, high) && TwoAt(s, 2, low)
    ensures Field(s[..4]) == high * 100 + low
  {
    FourDigitField(s[..4]);
  }

  lemma ZoneAt(s: string, hours: int, minutes: int)
    requires |s| == 6 && (s[0] == '+' || s[0] == '-') && s[3] == ':'
    requires TwoAt(s, 1, hours) && TwoAt(s, 4, minutes) && 0 <= hours <= 23 && 0 <= minutes <= 59
    ensures ParseTail(s) == Some((0, (if s[0] == '+' then 1 else -1) * (hours * 60 + minutes)))
  {
    FieldAt(s, 1, hours);
    FieldAt(s, 4, minutes);
  }

  /** The fields of a whole second written with a numeric zone. */
  lemma ParseWhole(s: string, c: Civil, hours: int, minutes: int)
    requires ValidCivil(c) && c.nano == 0 && 0 <= hours <= 23 && 0 <= minutes <= 59
    requires |s| == 25 && s[4] == '-' && s[7] == '-' && s[10] == 'T' && s[13] == ':' && s[16] == ':'
    requires (s[19] == '+' || s[19] == '-') && s[22] == ':'
    requires TwoAt(s, 0, c.year / 100) && TwoAt(s, 2, c.year % 100) && TwoAt(s, 5, c.month) && TwoAt(s, 8, c.day)
    requires TwoAt(s, 11, c.hour) && TwoAt(s, 14, c.minute) && TwoAt(s, 17, c.second)
    requires TwoAt(s, 20, hours) && TwoAt(s, 23, minutes)
    ensures Parse(s) == Some(Stamp(c, (if s[19] == '+' then 1 else -1) * (hours * 60 + minutes)))
  {
    YearAt(s, c.year / 100, c.year % 100);
    FieldAt(s, 5, c.month);
    FieldAt(s, 8, c.day);
    FieldAt(s, 11, c.hour);
    FieldAt(s, 14, c.minute);
    FieldAt(s, 17, c.second);
    ZoneAt(s[19..], hours, minutes);
  }

  lemma ParseLate(s: string) returns (c: Civil)
    requires s == "9999-12-31T23:59:59-01:00"
    ensures Parse(s) == Some(Stamp(c, -60)) && ValidCivil(c)
            && c.year == 9999 && c.month == 12 && c.day == 31 && SecondOfDay(c) == 86399 && c.nano == 0
  {
    c := Civil(9999, 12, 31, 23, 59, 59, 0);
    ParseWhole(s, c, 1, 0);
  }

  lemma ParseEarly(s: string) returns (c: Civil)
    requires s == "0000-01-01T00:00:00+01:00"
    ensures Parse(s) == Some(Stamp(c, 60)) && ValidCivil(c)
            && c.year == 0 && c.month == 1 && c.day == 1 && SecondOfDay(c) == 0 && c.nano == 0
  {
    c := Civil(0, 1, 1, 0, 0, 0, 0);
    ParseWhole(s, c, 1, 0);
  }

  lemma InstantFrom(c: Civil, day: int, second: int)
    requires ValidDate(c) && Day(c) == day && SecondOfDay(c) == second && c.nano == 0
    ensures Instant(c) == ((day - 366) * 86_400 + second) * 1_000_000_000
  {
  }

  lemma LastInstant(c: Civil)
    requires ValidDate(c) && c.year == 9999 && c.month == 12 && c.day == 31 && SecondOfDay(c) == 86_399 && c.nano == 0
    ensures Instant(c) == YEAR_TEN_THOUSAND - 1_000_000_000
  {
    DecemberEndsYear(c.year);
    InstantFrom(c, 3_652_424, 86_399);
  }

  lemma FirstInstant(c: Civil)
    requires ValidDate(c) && c.year == 0 && c.month == 1 && c.day == 1 && SecondOfDay(c) == 0 && c.nano == 0
    ensures Instant(c) == YEAR_ZERO
  {
    InstantFrom(c, 0, 0);
  }

  lemma LostAt(text: string, stamp: Stamp, t: Time)
    requires ValidCivil(stamp.civil) && Parse(text) == Some(stamp) && InstantOf(stamp) == t && !InYears(t)
    ensures Lost(text, t)
  {
    ReadBack(t);
  }

  /** The last second of year 9999, written an hour behind UTC, is received and stored, and cannot be
      read back. */
  lemma LateIsLost(text: string, t: Time)
    requires text == "9999-12-31T23:59:59-01:00" && t == YEAR_TEN_THOUSAND + 3599 * 1_000_000_000
    ensures Lost(text, t)
  {
    var c := ParseLate(text);
    LastInstant(c);
    LostAt(text, Stamp(c, -60), t);
  }

  /** Nor can the first of year 0000, written an hour ahead. */
  lemma EarlyIsLost(text: string, t: Time)
    requires text == "0000-01-01T00:00:00+01:00" && t == YEAR_ZERO - 3600 * 1_000_000_000
    ensures Lost(text, t)
  {
    var c := ParseEarly(text);
    FirstInstant(c);
    LostAt(text, Stamp(c, 60), t);
  }
}
