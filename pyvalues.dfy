/**
 * The Python values that flow through the export helpers: dates and datetimes
 * (with their `strftime` renderings), `decimal.Decimal`, the float that
 * `float(Decimal)` produces, strings, integers, `None`, and opaque objects
 * such as bound methods.
 */
module PyValues {

  datatype Option<+T> = None | Some(value: T)

  // ---------------------------------------------------------------------------
  // Calendar values (datetime.date / datetime.datetime)
  // ---------------------------------------------------------------------------

  datatype CivilDate = CivilDate(year: int, month: int, day: int)

  datatype CivilDateTime =
    CivilDateTime(date: CivilDate, hour: int, minute: int, second: int, microsecond: int)

  predicate IsLeapYear(y: int) {
    y % 4 == 0 && (y % 100 != 0 || y % 400 == 0)
  }

  function DaysInMonth(y: int, m: int): int
    requires 1 <= m <= 12
  {
    if m == 2 then (if IsLeapYear(y) then 29 else 28)
    else if m == 4 || m == 6 || m == 9 || m == 11 then 30
    else 31
  }

  /** The range Python's `date` accepts: years 1 to 9999 of the proleptic Gregorian calendar. */
  predicate ValidDate(d: CivilDate) {
    && 1 <= d.year <= 9999
    && 1 <= d.month <= 12
    && 1 <= d.day <= DaysInMonth(d.year, d.month)
  }

  predicate ValidDateTime(dt: CivilDateTime) {
    && ValidDate(dt.date)
    && 0 <= dt.hour < 24
    && 0 <= dt.minute < 60
    && 0 <= dt.second < 60
    && 0 <= dt.microsecond < 1000000
  }

  type Date = d: CivilDate | ValidDate(d) witness CivilDate(1, 1, 1)

  type DateTime = dt: CivilDateTime | ValidDateTime(dt) witness CivilDateTime(CivilDate(1, 1, 1), 0, 0, 0, 0)

  /** A `date` asked for hours, minutes and seconds behaves as its midnight. */
  function Midnight(d: Date): (dt: DateTime)
    ensures dt.date == d && dt.hour == 0 && dt.minute == 0 && dt.second == 0
  {
    CivilDateTime(d, 0, 0, 0, 0)
  }

  /** What survives a rendering to whole seconds. */
  function Truncate(dt: DateTime): DateTime {
    dt.(microsecond := 0)
  }

  // ---------------------------------------------------------------------------
  // Other scalar values
  // ---------------------------------------------------------------------------

  /** `decimal.Decimal` as coefficient * 10^exponent; no arithmetic is needed. */
  datatype Decimal = Decimal(coefficient: int, exponent: int)

  /** `bool(Decimal)` is false exactly for a zero. */
  predicate Truthy(d: Decimal) {
    d.coefficient != 0
  }

  datatype Value =
    | NoneV
    | IntV(i: int)
    | StrV(s: string)
    | DateV(d: Date)
    | DateTimeV(dt: DateTime)
    | DecimalV(dec: Decimal)
    | FloatV(ofDecimal: Decimal)   // float(Decimal), kept as an opaque tag
    | ObjectV(description: string) // any other object, e.g. a bound method

  /** Values that have a `strftime` method. */
  predicate HasStrftime(v: Value) {
    v.DateV? || v.DateTimeV?
  }

  // ---------------------------------------------------------------------------
  // Zero-padded decimal digits
  // ---------------------------------------------------------------------------

  function Pow10(n: nat): (p: nat)
    ensures p >= 1
  {
    if n == 0 then 1 else 10 * Pow10(n - 1)
  }

  predicate IsDigit(c: char) {
    '0' <= c <= '9'
  }

  predicate AllDigits(s: string) {
    forall i :: 0 <= i < |s| ==> IsDigit(s[i])
  }

  function DigitChar(d: nat): (c: char)
    requires d < 10
    ensures IsDigit(c)
  {
    ('0' as int + d) as char
  }

  /** `n` written with exactly `width` digits, zero-padded on the left. */
  function Pad(n: nat, width: nat): (s: string)
    requires n < Pow10(width)
    ensures |s| == width && AllDigits(s)
    decreases width
  {
    if width == 0 then ""
    else
      assert n / 10 < Pow10(width - 1);
      Pad(n / 10, width - 1) + [DigitChar(n % 10)]
  }

  /** Reads a string of digits as a natural number. */
  function ParseDigits(s: string): (n: nat)
    requires AllDigits(s)
    ensures n < Pow10(|s|)
  {
    if s == [] then 0
    else 10 * ParseDigits(s[..|s| - 1]) + (s[|s| - 1] as int - '0' as int)
  }

  lemma {:induction false} ParsePad(n: nat, width: nat)
    requires n < Pow10(width)
    ensures ParseDigits(Pad(n, width)) == n
    decreases width
  {
    if width > 0 {
      var s := Pad(n, width);
      assert s[..|s| - 1] == Pad(n / 10, width - 1);
      ParsePad(n / 10, width - 1);
    }
  }

  // ---------------------------------------------------------------------------
  // strftime('%Y-%m-%d %H:%M:%S') and strftime('%Y%m%d_%H%M%S')
  // ---------------------------------------------------------------------------

  /** `%Y<sep>%m<sep>%d`: the date fields, zero-padded, joined by `sep`. */
  function DateDigits(d: Date, sep: string): (s: string)
    ensures |s| == 8 + 2 * |sep|
  {
    Pad(d.year, 4) + sep + Pad(d.month, 2) + sep + Pad(d.day, 2)
  }

  /** `%H<sep>%M<sep>%S`: the time fields, zero-padded, joined by `sep`. */
  function TimeDigits(dt: DateTime, sep: string): (s: string)
    ensures |s| == 6 + 2 * |sep|
  {
    Pad(dt.hour, 2) + sep + Pad(dt.minute, 2) + sep + Pad(dt.second, 2)
  }

  /** Where the fields of `%Y-%m-%d` lie. */
  lemma DashedDateFields(d: Date)
    ensures var s := DateDigits(d, "-");
      && s[0..4] == Pad(d.year, 4) && s[4] == '-' && s[5..7] == Pad(d.month, 2)
      && s[7] == '-' && s[8..10] == Pad(d.day, 2)
  {
  }

  /** Where the fields of `%Y%m%d` lie. */
  lemma PlainDateFields(d: Date)
    ensures var s := DateDigits(d, "");
      && s[0..4] == Pad(d.year, 4) && s[4..6] == Pad(d.month, 2) && s[6..8] == Pad(d.day, 2)
  {
  }

  /** Where the fields of `%H:%M:%S` lie. */
  lemma ColonTimeFields(dt: DateTime)
    ensures var s := TimeDigits(dt, ":");
      && s[0..2] == Pad(dt.hour, 2) && s[2] == ':' && s[3..5] == Pad(dt.minute, 2)
      && s[5] == ':' && s[6..8] == Pad(dt.second, 2)
  {
  }

  /** Where the fields of `%H%M%S` lie. */
  lemma PlainTimeFields(dt: DateTime)
    ensures var s := TimeDigits(dt, "");
      && s[0..2] == Pad(dt.hour, 2) && s[2..4] == Pad(dt.minute, 2) && s[4..6] == Pad(dt.second, 2)
  {
  }

  /** `dt.strftime('%Y-%m-%d %H:%M:%S')`. */
  function StampFull(dt: DateTime): (s: string)
    ensures |s| == 19
  {
    DateDigits(dt.date, "-") + " " + TimeDigits(dt, ":")
  }

  /** `dt.strftime('%Y%m%d_%H%M%S')`. */
  function StampCompact(dt: DateTime): (s: string)
    ensures |s| == 15
  {
    DateDigits(dt.date, "") + "_" + TimeDigits(dt, "")
  }

  /** Reads `YYYY-MM-DD HH:MM:SS` back into its fields (microseconds are zero). */
  function ParseFull(s: string): Option<CivilDateTime> {
    if && |s| == 19
       && s[4] == '-' && s[7] == '-' && s[10] == ' ' && s[13] == ':' && s[16] == ':'
       && AllDigits(s[0..4]) && AllDigits(s[5..7]) && AllDigits(s[8..10])
       && AllDigits(s[11..13]) && AllDigits(s[14..16]) && AllDigits(s[17..19])
    then
      Some(CivilDateTime(
        CivilDate(ParseDigits(s[0..4]), ParseDigits(s[5..7]), ParseDigits(s[8..10])),
        ParseDigits(s[11..13]), ParseDigits(s[14..16]), ParseDigits(s[17..19]), 0))
    else None
  }

  /** Reads `YYYYMMDD_HHMMSS` back into its fields (microseconds are zero). */
  function ParseCompact(s: string): Option<CivilDateTime> {
    if && |s| == 15 && s[8] == '_'
       && AllDigits(s[0..4]) && AllDigits(s[4..6]) && AllDigits(s[6..8])
       && AllDigits(s[9..11]) && AllDigits(s[11..13]) && AllDigits(s[13..15])
    then
      Some(CivilDateTime(
        CivilDate(ParseDigits(s[0..4]), ParseDigits(s[4..6]), ParseDigits(s[6..8])),
        ParseDigits(s[9..11]), ParseDigits(s[11..13]), ParseDigits(s[13..15]), 0))
    else None
  }

  /** Where the six fields and the separators of the full stamp lie. */
  lemma StampFullFields(dt: DateTime)
    ensures var s := StampFull(dt);
      && s[0..4] == Pad(dt.date.year, 4) && s[5..7] == Pad(dt.date.month, 2) && s[8..10] == Pad(dt.date.day, 2)
      && s[11..13] == Pad(dt.hour, 2) && s[14..16] == Pad(dt.minute, 2) && s[17..19] == Pad(dt.second, 2)
      && s[4] == '-' && s[7] == '-' && s[10] == ' ' && s[13] == ':' && s[16] == ':'
  {
    var ds := DateDigits(dt.date, "-");
    var ts := TimeDigits(dt, ":");
    DashedDateFields(dt.date);
    ColonTimeFields(dt);
    var s := StampFull(dt);
    assert s[..10] == ds && s[11..] == ts;
  }

  /** Where the six fields and the separator of the compact stamp lie. */
  lemma StampCompactFields(dt: DateTime)
    ensures var s := StampCompact(dt);
      && s[0..4] == Pad(dt.date.year, 4) && s[4..6] == Pad(dt.date.month, 2) && s[6..8] == Pad(dt.date.day, 2)
      && s[9..11] == Pad(dt.hour, 2) && s[11..13] == Pad(dt.minute, 2) && s[13..15] == Pad(dt.second, 2)
      && s[8] == '_'
  {
    var ds := DateDigits(dt.date, "");
    var ts := TimeDigits(dt, "");
    PlainDateFields(dt.date);
    PlainTimeFields(dt);
    var s := StampCompact(dt);
    assert s[..8] == ds && s[9..] == ts;
  }

  /** The full stamp determines the datetime up to its microseconds. */
  lemma StampFullRoundTrip(dt: DateTime)
    ensures ParseFull(StampFull(dt)) == Some(Truncate(dt))
  {
    StampFullFields(dt);
    ParsePad(dt.date.year, 4);
    ParsePad(dt.date.month, 2);
    ParsePad(dt.date.day, 2);
    ParsePad(dt.hour, 2);
    ParsePad(dt.minute, 2);
    ParsePad(dt.second, 2);
  }

  /** The compact stamp determines the datetime up to its microseconds. */
  lemma StampCompactRoundTrip(dt: DateTime)
    ensures ParseCompact(StampCompact(dt)) == Some(Truncate(dt))
  {
    StampCompactFields(dt);
    ParsePad(dt.date.year, 4);
    ParsePad(dt.date.month, 2);
    ParsePad(dt.date.day, 2);
    ParsePad(dt.hour, 2);
    ParsePad(dt.minute, 2);
    ParsePad(dt.second, 2);
  }

  /** Two datetimes get the same full stamp exactly when they agree to the second. */
  lemma StampFullInjective(a: DateTime, b: DateTime)
    ensures StampFull(a) == StampFull(b) <==> Truncate(a) == Truncate(b)
  {
    StampFullRoundTrip(a);
    StampFullRoundTrip(b);
  }

  /** Midnight is written `00:00:00`. */
  lemma MidnightTimeDigits(d: Date)
    ensures TimeDigits(Midnight(d), ":") == "00:00:00"
  {
    assert Pad(0, 2) == "00" by {
      assert Pad(0, 1) == "0";
    }
  }

  /** Three paddings used by the example below. */
  lemma PadExamples()
    ensures Pad(3, 2) == "03" && Pad(5, 2) == "05" && Pad(2024, 4) == "2024"
  {
    assert Pad(0, 1) == "0";
    assert Pad(2, 1) == "2" && Pad(20, 2) == "20" && Pad(202, 3) == "202";
  }

  /** The date 2024-03-05 is written `2024-03-05`. */
  lemma DateDigitsExample()
    ensures DateDigits(CivilDate(2024, 3, 5), "-") == "2024-03-05"
  {
    PadExamples();
  }

  /** The date 2024-03-05, taken at midnight, is stamped `2024-03-05 00:00:00`. */
  lemma StampFullDateExample()
    ensures StampFull(Midnight(CivilDate(2024, 3, 5))) == "2024-03-05 00:00:00"
  {
    DateDigitsExample();
    MidnightTimeDigits(CivilDate(2024, 3, 5));
  }

  /** A plain date is rendered at midnight: its stamp ends in ` 00:00:00` and reads back as that midnight. */
  lemma DateStampAtMidnight(d: Date)
    ensures StampFull(Midnight(d))[10..] == " 00:00:00"
    ensures ParseFull(StampFull(Midnight(d))) == Some(Midnight(d))
  {
    StampFullRoundTrip(Midnight(d));
    MidnightStampSuffix(d);
  }

  /** The stamp of a date's midnight ends in ` 00:00:00`. */
  lemma MidnightStampSuffix(d: Date)
    ensures StampFull(Midnight(d))[10..] == " 00:00:00"
  {
    var m := Midnight(d);
    MidnightTimeDigits(d);
    assert StampFull(m)[10..] == " " + TimeDigits(m, ":");
  }

  /** A concatenation is all digits exactly when both parts are. */
  lemma AllDigitsConcat(a: string, b: string)
    ensures AllDigits(a + b) <==> AllDigits(a) && AllDigits(b)
  {
    if AllDigits(a) && AllDigits(b) {
      forall i | 0 <= i < |a + b|
        ensures IsDigit((a + b)[i])
      {
        if i >= |a| {
          assert (a + b)[i] == b[i - |a|];
        }
      }
    }
    if AllDigits(a + b) {
      forall i | 0 <= i < |a|
        ensures IsDigit(a[i])
      {
        assert (a + b)[i] == a[i];
      }
      forall i | 0 <= i < |b|
        ensures IsDigit(b[i])
      {
        assert (a + b)[|a| + i] == b[i];
      }
    }
  }

  /** `%Y%m%d` is eight digits. */
  lemma DateDigitsAreDigits(d: Date)
    ensures AllDigits(DateDigits(d, ""))
  {
    AllDigitsConcat(Pad(d.year, 4), Pad(d.month, 2));
    AllDigitsConcat(Pad(d.year, 4) + Pad(d.month, 2), Pad(d.day, 2));
    assert DateDigits(d, "") == Pad(d.year, 4) + Pad(d.month, 2) + Pad(d.day, 2);
  }

  /** `%H%M%S` is six digits. */
  lemma TimeDigitsAreDigits(dt: DateTime)
    ensures AllDigits(TimeDigits(dt, ""))
  {
    AllDigitsConcat(Pad(dt.hour, 2), Pad(dt.minute, 2));
    AllDigitsConcat(Pad(dt.hour, 2) + Pad(dt.minute, 2), Pad(dt.second, 2));
    assert TimeDigits(dt, "") == Pad(dt.hour, 2) + Pad(dt.minute, 2) + Pad(dt.second, 2);
  }

  /** The compact stamp is eight digits, `_`, six digits. */
  lemma StampCompactShape(dt: DateTime)
    ensures var s := StampCompact(dt); AllDigits(s[..8]) && s[8] == '_' && AllDigits(s[9..])
  {
    var s := StampCompact(dt);
    DateDigitsAreDigits(dt.date);
    TimeDigitsAreDigits(dt);
    assert s[..8] == DateDigits(dt.date, "") && s[9..] == TimeDigits(dt, "");
  }
}
