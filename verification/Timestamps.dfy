/** Timestamps as text: RFC 3339 with a fraction of up to nine digits and no trailing zeros. */
module Timestamps {
  import opened Domain
  import opened Text

  /** A date and time of day. */
  datatype Civil = Civil(year: int, month: int, day: int, hour: int, minute: int, second: int, nano: int)

  predicate Leap(year: int) {
    year % 4 == 0 && (year % 100 != 0 || year % 400 == 0)
  }

  function DaysIn(year: int, month: int): int {
    if month == 2 then if Leap(year) then 29 else 28
    else if month == 4 || month == 6 || month == 9 || month == 11 then 30
    else 31
  }

  /** A date of the calendar, in any year. */
  predicate ValidDate(c: Civil) {
    && 1 <= c.month <= 12 && 1 <= c.day <= DaysIn(c.year, c.month)
    && 0 <= c.hour <= 23 && 0 <= c.minute <= 59 && 0 <= c.second <= 59 && 0 <= c.nano < 1_000_000_000
  }

  /** Years 0000 to 9999: the dates whose text can be read back. */
  predicate ValidCivil(c: Civil) {
    0 <= c.year <= 9999 && ValidDate(c)
  }

  // ---------------------------------------------------------------- digits

  function Pow10(n: nat): (p: nat)
    ensures p > 0
  {
    if n == 0 then 1 else 10 * Pow10(n - 1)
  }

  function DigitChar(d: int): char
    requires 0 <= d <= 9
  {
    "0123456789"[d]
  }

  predicate IsDigit(c: char) {
    '0' <= c <= '9'
  }

  function DigitValue(c: char): (d: int)
    requires IsDigit(c)
    ensures 0 <= d <= 9
  {
    (c as int) - ('0' as int)
  }

  predicate AllDigits(s: string) {
    forall i :: 0 <= i < |s| ==> IsDigit(s[i])
  }

  lemma DivideBelowTen(n: int, p: int)
    requires p > 0 && 0 <= n < 10 * p
    ensures 0 <= n / p <= 9 && 0 <= n % p < p && n == (n / p) * p + n % p
  {
  }

  lemma Leading(n: int, width: nat)
    requires width > 0 && 0 <= n < Pow10(width)
    ensures 0 <= n / Pow10(width - 1) <= 9
    ensures 0 <= n % Pow10(width - 1) < Pow10(width - 1)
    ensures n == (n / Pow10(width - 1)) * Pow10(width - 1) + n % Pow10(width - 1)
  {
    DivideBelowTen(n, Pow10(width - 1));
  }

  /** `n` in exactly `width` digits. */
  function Digits(n: int, width: nat): (s: string)
    requires 0 <= n < Pow10(width)
    ensures |s| == width && AllDigits(s)
  {
    if width == 0 then ""
    else
      Leading(n, width);
      [DigitChar(n / Pow10(width - 1))] + Digits(n % Pow10(width - 1), width - 1)
  }

  lemma ScaledDigit(d: int, p: int)
    requires 0 <= d <= 9 && p > 0
    ensures 0 <= d * p <= 9 * p
  {
  }

  /** The value of digits whose first stands for tens to the `width` - 1. */
  function Value(s: string, width: nat): (v: nat)
    requires AllDigits(s) && |s| <= width
    ensures v < Pow10(width)
  {
    if s == "" then 0
    else
      ScaledDigit(DigitValue(s[0]), Pow10(width - 1));
      DigitValue(s[0]) * Pow10(width - 1) + Value(s[1..], width - 1)
  }

  lemma {:induction false} ValueOfDigits(n: int, width: nat)
    requires 0 <= n < Pow10(width)
    ensures Value(Digits(n, width), width) == n
  {
    if width > 0 {
      Leading(n, width);
      var s := Digits(n, width);
      assert s[1..] == Digits(n % Pow10(width - 1), width - 1);
      ValueOfDigits(n % Pow10(width - 1), width - 1);
    }
  }

  function TrimZeros(s: string): (t: string)
    ensures t <= s
  {
    if s != "" && s[|s| - 1] == '0' then TrimZeros(s[..|s| - 1]) else s
  }

  lemma {:induction false} ValueIgnoresLastZero(s: string, width: nat)
    requires AllDigits(s) && s != "" && s[|s| - 1] == '0' && |s| <= width
    ensures Value(s, width) == Value(s[..|s| - 1], width)
  {
    if |s| == 1 {
      assert s[1..] == "" && DigitValue(s[0]) == 0;
    } else {
      ValueIgnoresLastZero(s[1..], width - 1);
      assert s[1..][..|s| - 2] == s[..|s| - 1][1..];
    }
  }

  lemma {:induction false} ValueIgnoresZeros(s: string, width: nat)
    requires AllDigits(s) && |s| <= width
    ensures Value(TrimZeros(s), width) == Value(s, width)
  {
    if s != "" && s[|s| - 1] == '0' {
      ValueIgnoresLastZero(s, width);
      ValueIgnoresZeros(s[..|s| - 1], width);
    }
  }

  // ---------------------------------------------------------------- formatting and parsing

  lemma Powers()
    ensures Pow10(1) == 10 && Pow10(2) == 100 && Pow10(4) == 10_000 && Pow10(9) == 1_000_000_000
  {
    assert Pow10(3) == 1000 && Pow10(5) == 100_000 && Pow10(6) == 1_000_000 && Pow10(7) == 10_000_000 && Pow10(8) == 100_000_000;
  }

  /** A two-digit field. */
  function Two(n: int): (s: string)
    requires 0 <= n <= 99
    ensures |s| == 2 && AllDigits(s) && Value(s, 2) == n
  {
    Powers();
    ValueOfDigits(n, 2);
    Digits(n, 2)
  }

  function Four(n: int): (s: string)
    requires 0 <= n <= 9999
    ensures |s| == 4 && AllDigits(s) && Value(s, 4) == n
  {
    Powers();
    ValueOfDigits(n, 4);
    Digits(n, 4)
  }

  function Date(c: Civil): (s: string)
    requires ValidCivil(c)
    ensures |s| == 10
  {
    Four(c.year) + "-" + Two(c.month) + "-" + Two(c.day)
  }

  function Clock(c: Civil): (s: string)
    requires ValidDate(c)
    ensures |s| == 8
  {
    Two(c.hour) + ":" + Two(c.minute) + ":" + Two(c.second)
  }

  /** The fraction, with its point, and without trailing zeros; nothing for a whole second. */
  function Fraction(nano: int): (s: string)
    requires 0 <= nano < 1_000_000_000
  {
    Powers();
    if nano == 0 then "" else "." + TrimZeros(Digits(nano, 9))
  }

  /** The text of a UTC time. */
  function Format(c: Civil): string
    requires ValidCivil(c)
  {
    Date(c) + "T" + Clock(c) + Fraction(c.nano) + "Z"
  }

  /** What parsing yields: local fields, and how many minutes they run ahead of UTC. */
  datatype Stamp = Stamp(civil: Civil, offset: int)

  function Field(s: string): (n: int)
    ensures n >= -1
    ensures n >= 0 ==> AllDigits(s) && n == Value(s, |s|)
  {
    if AllDigits(s) then Value(s, |s|) else -1
  }

  function DigitRun(s: string): (n: nat)
    ensures n <= |s| && AllDigits(s[..n]) && (n < |s| ==> !IsDigit(s[n]))
  {
    if s != "" && IsDigit(s[0]) then
      assert s[..1 + DigitRun(s[1..])] == [s[0]] + s[1..][..DigitRun(s[1..])];
      1 + DigitRun(s[1..])
    else 0
  }

  /** Nanoseconds from the digits after the point; digits past the ninth are dropped. */
  function FractionValue(digits: string): (n: int)
    requires AllDigits(digits)
    ensures 0 <= n < 1_000_000_000
  {
    Powers();
    if |digits| <= 9 then Value(digits, 9) else Value(digits[..9], 9)
  }

  function ParseZone(s: string): Option<int> {
    if s == "Z" then Some(0)
    else if |s| == 6 && (s[0] == '+' || s[0] == '-') && s[3] == ':'
            && 0 <= Field(s[1..3]) <= 23 && 0 <= Field(s[4..6]) <= 59
    then
      var minutes := Field(s[1..3]) * 60 + Field(s[4..6]);
      Some(if s[0] == '+' then minutes else -minutes)
    else None
  }

  /** The fraction and the zone. */
  function ParseTail(s: string): Option<(int, int)> {
    var n := if s != "" && s[0] == '.' then DigitRun(s[1..]) else 0;
    var zone := ParseZone(if n > 0 then s[n + 1..] else s);
    if zone.None? then None
    else Some((if n > 0 then FractionValue(s[1..][..n]) else 0, zone.value))
  }

  /** Section 5.6 of RFC 3339, with the seconds Go accepts. */
  function Parse(s: string): (r: Option<Stamp>)
    ensures r.Some? ==> ValidCivil(r.value.civil)
  {
    if |s| < 20 || s[4] != '-' || s[7] != '-' || s[10] != 'T' || s[13] != ':' || s[16] != ':' then None
    else
      var year, month, day := Field(s[..4]), Field(s[5..7]), Field(s[8..10]);
      var hour, minute, second := Field(s[11..13]), Field(s[14..16]), Field(s[17..19]);
      var tail := ParseTail(s[19..]);
      if tail.None? then None
      else
        var c := Civil(year, month, day, hour, minute, second, tail.value.0);
        if ValidCivil(c) then Some(Stamp(c, tail.value.1)) else None
  }

  // ---------------------------------------------------------------- round trip

  lemma TailRoundTrip(nano: int, zone: string)
    requires 0 <= nano < 1_000_000_000 && ParseZone(zone).Some?
    ensures ParseTail(Fraction(nano) + zone) == Some((nano, ParseZone(zone).value))
  {
    if nano == 0 {
      assert Fraction(nano) + zone == zone;
    } else {
      Powers();
      var digits := TrimZeros(Digits(nano, 9));
      ValueOfDigits(nano, 9);
      ValueIgnoresZeros(Digits(nano, 9), 9);
      TrimmedNonzero(Digits(nano, 9));
      var s := "." + digits + zone;
      assert s[1..] == digits + zone;
      DigitRunStops(digits, zone);
      assert s[1..][..|digits|] == digits && s[|digits| + 1..] == zone;
    }
  }

  lemma {:induction false} TrimmedNonzero(s: string)
    requires AllDigits(s)
    ensures TrimZeros(s) == "" ==> Value(s, |s|) == 0
    ensures AllDigits(TrimZeros(s))
  {
    if s != "" && s[|s| - 1] == '0' {
      TrimmedNonzero(s[..|s| - 1]);
      ValueIgnoresZeros(s, |s|);
    }
  }

  lemma {:induction false} DigitRunStops(digits: string, rest: string)
    requires AllDigits(digits) && (rest != "" ==> !IsDigit(rest[0]))
    ensures DigitRun(digits + rest) == |digits|
  {
    if digits == "" {
      assert digits + rest == rest;
    } else {
      assert (digits + rest)[1..] == digits[1..] + rest;
      DigitRunStops(digits[1..], rest);
    }
  }

  lemma DateFields(c: Civil)
    requires ValidCivil(c)
    ensures var d := Date(c);
            d[..4] == Four(c.year) && d[4] == '-' && d[5..7] == Two(c.month) && d[7] == '-' && d[8..10] == Two(c.day)
  {
  }

  lemma ClockFields(c: Civil)
    requires ValidDate(c)
    ensures var t := Clock(c);
            t[..2] == Two(c.hour) && t[2] == ':' && t[3..5] == Two(c.minute) && t[5] == ':' && t[6..8] == Two(c.second)
  {
  }

  lemma Fields(d: string, t: string, tail: string)
    requires |d| == 10 && |t| == 8
    ensures var s := d + "T" + t + tail;
            && |s| == 19 + |tail|
            && s[..4] == d[..4] && s[4] == d[4] && s[5..7] == d[5..7] && s[7] == d[7] && s[8..10] == d[8..10]
            && s[10] == 'T'
            && s[11..13] == t[..2] && s[13] == t[2] && s[14..16] == t[3..5] && s[16] == t[5] && s[17..19] == t[6..8]
            && s[19..] == tail
  {
  }

  /** Parsing reads back the fields of a written time and its zone, whichever zone it is. */
  lemma ParseWritten(c: Civil, zone: string)
    requires ValidCivil(c) && ParseZone(zone).Some?
    ensures Parse(Date(c) + "T" + Clock(c) + (Fraction(c.nano) + zone)) == Some(Stamp(c, ParseZone(zone).value))
  {
    Fields(Date(c), Clock(c), Fraction(c.nano) + zone);
    DateFields(c);
    ClockFields(c);
    TailRoundTrip(c.nano, zone);
  }

  /** Parsing a formatted time gives the time back. */
  lemma ParseFormat(c: Civil)
    requires ValidCivil(c)
    ensures Parse(Format(c)) == Some(Stamp(c, 0))
  {
    assert Format(c) == Date(c) + "T" + Clock(c) + (Fraction(c.nano) + "Z");
    ParseWritten(c, "Z");
  }

  /** A zone of whole hours and minutes. */
  function ZoneText(ahead: bool, hours: int, minutes: int): string
    requires 0 <= hours <= 23 && 0 <= minutes <= 59
  {
    (if ahead then "+" else "-") + Two(hours) + ":" + Two(minutes)
  }

  lemma ZoneRoundTrip(ahead: bool, hours: int, minutes: int)
    requires 0 <= hours <= 23 && 0 <= minutes <= 59
    ensures ParseZone(ZoneText(ahead, hours, minutes))
            == Some(if ahead then hours * 60 + minutes else -(hours * 60 + minutes))
  {
    var s := ZoneText(ahead, hours, minutes);
    assert s[1..3] == Two(hours) && s[4..6] == Two(minutes);
  }
}
