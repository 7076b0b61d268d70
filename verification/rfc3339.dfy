/** The part of Go's time package that the tracking client relies on: the
    time.Time value, the Gregorian calendar check, and time.Parse with the
    RFC 3339 layout, applied to text of the one shape the client assembles,
    "YYYY-MM-DDTHH:MM:SSZ" (a full-date, "T", a partial-time without a
    fraction, and the zone "Z", section 5.6 of RFC 3339).  A reference
    rendering, Format, is the inverse that pins the parser down exactly. */
module Rfc3339 {

  datatype Option<+T> = None | Some(value: T)

  /** A time.Time: calendar fields, the sub-second part and the zone's offset
      from UTC in seconds. */
  datatype Instant = Instant(year: int, month: int, day: int,
                             hour: int, minute: int, second: int,
                             nanosecond: int, offsetSeconds: int)

  /** Go's zero time.Time: January 1 of year 1, 00:00:00 UTC. */
  const ZeroInstant := Instant(1, 1, 1, 0, 0, 0, 0, 0)

  /** Gregorian leap years. */
  predicate IsLeap(year: int) {
    year % 4 == 0 && (year % 100 != 0 || year % 400 == 0)
  }

  /** Number of days of a month of a year. */
  function DaysIn(month: int, year: int): (n: int)
    requires 1 <= month <= 12
    ensures 28 <= n <= 31
    ensures n == 29 <==> month == 2 && IsLeap(year)
  {
    if month == 2 then (if IsLeap(year) then 29 else 28)
    else if month == 4 || month == 6 || month == 9 || month == 11 then 30
    else 31
  }

  /** The ranges time.Parse enforces.  A leap second (second 60), which
      RFC 3339 admits, is rejected, as Go rejects it. */
  predicate ValidCalendar(t: Instant) {
    1 <= t.month <= 12 && 1 <= t.day <= DaysIn(t.month, t.year) &&
    0 <= t.hour <= 23 && 0 <= t.minute <= 59 && 0 <= t.second <= 59
  }

  /** The instants that the "YYYY-MM-DDTHH:MM:SSZ" shape can denote. */
  predicate IsSecondPrecisionUtc(t: Instant) {
    0 <= t.year <= 9999 && ValidCalendar(t) && t.nanosecond == 0 && t.offsetSeconds == 0
  }

  predicate IsDigit(c: char) {
    '0' <= c <= '9'
  }

  predicate AllDigits(s: string) {
    forall i :: 0 <= i < |s| ==> IsDigit(s[i])
  }

  function DigitValue(c: char): int
    requires IsDigit(c)
  {
    c as int - '0' as int
  }

  function DigitChar(d: int): (c: char)
    requires 0 <= d < 10
    ensures IsDigit(c) && DigitValue(c) == d
  {
    ('0' as int + d) as char
  }

  function Pow10(n: nat): nat {
    if n == 0 then 1 else 10 * Pow10(n - 1)
  }

  /** The value of a run of decimal digits, most significant first. */
  function DecimalValue(s: string): (v: nat)
    requires AllDigits(s)
    ensures v < Pow10(|s|)
  {
    if s == [] then 0 else 10 * DecimalValue(s[..|s| - 1]) + DigitValue(s[|s| - 1])
  }

  /** The value of two digits. */
  lemma DecimalValue2(s: string)
    requires |s| == 2 && AllDigits(s)
    ensures DecimalValue(s) == 10 * DigitValue(s[0]) + DigitValue(s[1])
  {
    assert s[..1][..0] == [];
  }

  /** The value of four digits. */
  lemma DecimalValue4(s: string)
    requires |s| == 4 && AllDigits(s)
    ensures DecimalValue(s) == 1000 * DigitValue(s[0]) + 100 * DigitValue(s[1]) + 10 * DigitValue(s[2]) + DigitValue(s[3])
  {
    DecimalValue2(s[..2]);
    assert s[..3][..2] == s[..2];
  }

  /** The last `width` decimal digits of n, zero-padded on the left. */
  function ZeroPadded(n: nat, width: nat): (s: string)
    ensures |s| == width && AllDigits(s)
  {
    if width == 0 then [] else ZeroPadded(n / 10, width - 1) + [DigitChar(n % 10)]
  }

  lemma {:induction false} ValueOfZeroPadded(n: nat, width: nat)
    requires n < Pow10(width)
    ensures DecimalValue(ZeroPadded(n, width)) == n
  {
    if width > 0 {
      var s := ZeroPadded(n, width);
      assert s[..|s| - 1] == ZeroPadded(n / 10, width - 1);
      ValueOfZeroPadded(n / 10, width - 1);
    }
  }

  lemma {:induction false} ZeroPaddedOfValue(s: string)
    requires AllDigits(s)
    ensures ZeroPadded(DecimalValue(s), |s|) == s
  {
    if s != [] {
      var init := s[..|s| - 1];
      var v := DecimalValue(s);
      assert v / 10 == DecimalValue(init) && v % 10 == DigitValue(s[|s| - 1]);
      ZeroPaddedOfValue(init);
      assert s == init + [s[|s| - 1]];
    }
  }

  /** Text of the shape "YYYY-MM-DDTHH:MM:SSZ": twenty characters with the
      separators in place; the other fourteen positions are unconstrained. */
  predicate IsSecondForm(s: string) {
    |s| == 20 && s[4] == '-' && s[7] == '-' && s[10] == 'T' &&
    s[13] == ':' && s[16] == ':' && s[19] == 'Z'
  }

  /** The six numeric fields of text of the second form are all digits. */
  predicate FieldsAreDigits(s: string)
    requires IsSecondForm(s)
  {
    AllDigits(s[0..4]) && AllDigits(s[5..7]) && AllDigits(s[8..10]) &&
    AllDigits(s[11..13]) && AllDigits(s[14..16]) && AllDigits(s[17..19])
  }

  /** The instant the fields of text of the second form spell, in UTC. */
  function FieldsOf(s: string): Instant
    requires IsSecondForm(s) && FieldsAreDigits(s)
  {
    Instant(DecimalValue(s[0..4]), DecimalValue(s[5..7]), DecimalValue(s[8..10]),
            DecimalValue(s[11..13]), DecimalValue(s[14..16]), DecimalValue(s[17..19]), 0, 0)
  }

  /** time.Parse(time.RFC3339, s) on text of the second form: the instant,
      or None when a field is not all digits or is out of range. */
  function Parse(s: string): (r: Option<Instant>)
    requires IsSecondForm(s)
    ensures r.Some? ==> IsSecondPrecisionUtc(r.value)
  {
    if FieldsAreDigits(s) && ValidCalendar(FieldsOf(s)) then Some(FieldsOf(s)) else None
  }

  /** The RFC 3339 rendering of an instant of second precision in UTC, the
      reference against which Parse is checked. */
  function Format(t: Instant): (s: string)
    requires IsSecondPrecisionUtc(t)
    ensures IsSecondForm(s)
  {
    ZeroPadded(t.year, 4) + "-" + ZeroPadded(t.month, 2) + "-" + ZeroPadded(t.day, 2) + "T" +
    ZeroPadded(t.hour, 2) + ":" + ZeroPadded(t.minute, 2) + ":" + ZeroPadded(t.second, 2) + "Z"
  }

  /** Parse accepts the rendering of every instant it can denote, and gives
      that instant back. */
  lemma FormatThenParse(t: Instant)
    requires IsSecondPrecisionUtc(t)
    ensures Parse(Format(t)) == Some(t)
  {
    var s := Format(t);
    assert s[0..4] == ZeroPadded(t.year, 4);
    assert s[5..7] == ZeroPadded(t.month, 2);
    assert s[8..10] == ZeroPadded(t.day, 2);
    assert s[11..13] == ZeroPadded(t.hour, 2);
    assert s[14..16] == ZeroPadded(t.minute, 2);
    assert s[17..19] == ZeroPadded(t.second, 2);
    assert Pow10(2) == 100 && Pow10(4) == 10000;
    ValueOfZeroPadded(t.year, 4);
    ValueOfZeroPadded(t.month, 2);
    ValueOfZeroPadded(t.day, 2);
    ValueOfZeroPadded(t.hour, 2);
    ValueOfZeroPadded(t.minute, 2);
    ValueOfZeroPadded(t.second, 2);
    assert FieldsOf(s) == t;
  }

  /** Whatever Parse accepts is exactly the rendering of the instant it
      returns: no two texts parse to the same instant. */
  lemma ParseThenFormat(s: string)
    requires IsSecondForm(s) && Parse(s).Some?
    ensures Format(Parse(s).value) == s
  {
    assert FieldsAreDigits(s);
    var t := FieldsOf(s);
    assert Parse(s).value == t;
    ZeroPaddedOfValue(s[0..4]);
    ZeroPaddedOfValue(s[5..7]);
    ZeroPaddedOfValue(s[8..10]);
    ZeroPaddedOfValue(s[11..13]);
    ZeroPaddedOfValue(s[14..16]);
    ZeroPaddedOfValue(s[17..19]);
    calc {
      Format(t);
      ZeroPadded(t.year, 4) + "-" + ZeroPadded(t.month, 2) + "-" + ZeroPadded(t.day, 2) + "T" +
      ZeroPadded(t.hour, 2) + ":" + ZeroPadded(t.minute, 2) + ":" + ZeroPadded(t.second, 2) + "Z";
      s[0..4] + "-" + s[5..7] + "-" + s[8..10] + "T" + s[11..13] + ":" + s[14..16] + ":" + s[17..19] + "Z";
      { SecondFormSplit(s); }
      s;
    }
  }

  /** Text of the second form is its fields joined by its separators. */
  lemma SecondFormSplit(s: string)
    requires IsSecondForm(s)
    ensures s == s[0..4] + "-" + s[5..7] + "-" + s[8..10] + "T" + s[11..13] + ":" + s[14..16] + ":" + s[17..19] + "Z"
  {
  }
}
