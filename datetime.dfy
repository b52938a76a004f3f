/**
 * Naive (timezone-free) date-times as the TODO items hold them: the seven
 * fields of a Python `datetime`, its chronological order, and the text that
 * `datetime.isoformat()` produces for it, together with a reader for that text.
 */
module DateTimes {
  import opened Wrappers

  datatype RawDateTime = RawDateTime(
    year: int, month: int, day: int,
    hour: int, minute: int, second: int, microsecond: int)

  predicate IsLeapYear(y: int) {
    y % 4 == 0 && (y % 100 != 0 || y % 400 == 0)
  }

  function DaysInMonth(y: int, m: int): (n: int)
    requires 1 <= m <= 12
    ensures 28 <= n <= 31
    ensures m == 2 ==> (n == 29 <==> IsLeapYear(y))
  {
    if m == 2 then (if IsLeapYear(y) then 29 else 28)
    else if m == 4 || m == 6 || m == 9 || m == 11 then 30
    else 31
  }

  /** The field ranges a Python `datetime` enforces on construction. */
  predicate IsValid(d: RawDateTime) {
    && 1 <= d.year <= 9999
    && 1 <= d.month <= 12
    && 1 <= d.day <= DaysInMonth(d.year, d.month)
    && 0 <= d.hour < 24
    && 0 <= d.minute < 60
    && 0 <= d.second < 60
    && 0 <= d.microsecond < 1000000
  }

  /** Every value of this type is a date-time Python can hold. */
  type DateTime = d: RawDateTime | IsValid(d) witness RawDateTime(1, 1, 1, 0, 0, 0, 0)

  /** Chronological strict order, field by field from the year down (Python's `<` on naive datetimes). */
  predicate Before(a: DateTime, b: DateTime) {
    if a.year != b.year then a.year < b.year
    else if a.month != b.month then a.month < b.month
    else if a.day != b.day then a.day < b.day
    else if a.hour != b.hour then a.hour < b.hour
    else if a.minute != b.minute then a.minute < b.minute
    else if a.second != b.second then a.second < b.second
    else a.microsecond < b.microsecond
  }

  /** Python's `<=` on naive datetimes. */
  predicate NotAfter(a: DateTime, b: DateTime) {
    a == b || Before(a, b)
  }

  lemma BeforeIsStrict(a: DateTime, b: DateTime)
    ensures Before(a, b) ==> !Before(b, a) && a != b
  {
  }

  lemma NotAfterIsTotal(a: DateTime, b: DateTime)
    ensures NotAfter(a, b) || NotAfter(b, a)
  {
  }

  lemma NotAfterIsTransitive(a: DateTime, b: DateTime, c: DateTime)
    requires NotAfter(a, b) && NotAfter(b, c)
    ensures NotAfter(a, c)
  {
  }

  // ---------------------------------------------------------------------------
  // Fixed-width decimal fields

  function Pow10(n: nat): (p: nat)
    ensures p >= 1
  {
    if n == 0 then 1 else 10 * Pow10(n - 1)
  }

  function DigitChar(d: int): char
    requires 0 <= d < 10
  {
    ('0' as int + d) as char
  }

  predicate IsDigit(c: char) {
    '0' <= c <= '9'
  }

  /** The last `width` decimal digits of `n`, zero-padded on the left. */
  function Padded(n: nat, width: nat): (s: string)
    ensures |s| == width
    ensures forall i | 0 <= i < |s| :: IsDigit(s[i])
  {
    if width == 0 then [] else Padded(n / 10, width - 1) + [DigitChar(n % 10)]
  }

  /** The number a string of decimal digits spells, or None if some character is not a digit. */
  function ParseDigits(s: string): (r: Option<nat>)
    ensures r.Some? <==> forall i | 0 <= i < |s| :: IsDigit(s[i])
    ensures r.Some? ==> r.value < Pow10(|s|)
  {
    if s == [] then Some(0)
    else
      match ParseDigits(s[..|s| - 1])
      case None => None
      case Some(high) =>
        if IsDigit(s[|s| - 1]) then Some(high * 10 + (s[|s| - 1] as int - '0' as int)) else None
  }

  lemma {:induction false} ParsePadded(n: nat, width: nat)
    requires n < Pow10(width)
    ensures ParseDigits(Padded(n, width)) == Some(n)
  {
    if width > 0 {
      var s := Padded(n, width);
      assert s[..|s| - 1] == Padded(n / 10, width - 1);
      ParsePadded(n / 10, width - 1);
    }
  }

  // ---------------------------------------------------------------------------
  // ISO 8601 text

  /**
   * `datetime.isoformat()` of a naive datetime: YYYY-MM-DDTHH:MM:SS, followed
   * by .ffffff only when the microsecond field is not zero.
   */
  function IsoFormat(d: DateTime): (s: string)
    ensures |s| == (if d.microsecond == 0 then 19 else 26)
    ensures s[4] == '-' && s[7] == '-' && s[10] == 'T' && s[13] == ':' && s[16] == ':'
  {
    DatePart(d) + "T" + TimePart(d) + (if d.microsecond == 0 then "" else "." + Padded(d.microsecond, 6))
  }

  /** YYYY-MM-DD. */
  function DatePart(d: DateTime): (s: string)
    ensures |s| == 10 && s[4] == '-' && s[7] == '-'
  {
    Padded(d.year, 4) + "-" + Padded(d.month, 2) + "-" + Padded(d.day, 2)
  }

  /** HH:MM:SS. */
  function TimePart(d: DateTime): (s: string)
    ensures |s| == 8 && s[2] == ':' && s[5] == ':'
  {
    Padded(d.hour, 2) + ":" + Padded(d.minute, 2) + ":" + Padded(d.second, 2)
  }

  /** Reads back exactly the layout IsoFormat writes; None for anything else or an impossible date. */
  function ParseIso(s: string): (r: Option<DateTime>)
    ensures r.Some? ==> |s| == 19 || |s| == 26
  {
    if |s| != 19 && |s| != 26 then None
    else if s[4] != '-' || s[7] != '-' || s[10] != 'T' || s[13] != ':' || s[16] != ':' then None
    else if |s| == 26 && s[19] != '.' then None
    else
      var year := ParseDigits(s[0..4]);
      var month := ParseDigits(s[5..7]);
      var day := ParseDigits(s[8..10]);
      var hour := ParseDigits(s[11..13]);
      var minute := ParseDigits(s[14..16]);
      var second := ParseDigits(s[17..19]);
      var micro := if |s| == 19 then Some(0) else ParseDigits(s[20..26]);
      if year.None? || month.None? || day.None? || hour.None? || minute.None? || second.None? || micro.None?
      then None
      else
        var d := RawDateTime(year.value, month.value, day.value,
                             hour.value, minute.value, second.value, micro.value);
        if IsValid(d) then Some(d) else None
  }

  lemma DateFields(d: DateTime)
    ensures DatePart(d)[0..4] == Padded(d.year, 4) && DatePart(d)[5..7] == Padded(d.month, 2)
    ensures DatePart(d)[8..10] == Padded(d.day, 2)
  {
  }

  lemma TimeFields(d: DateTime)
    ensures TimePart(d)[0..2] == Padded(d.hour, 2) && TimePart(d)[3..5] == Padded(d.minute, 2)
    ensures TimePart(d)[6..8] == Padded(d.second, 2)
  {
  }

  /** Where each field sits in the ISO text. */
  lemma IsoFields(d: DateTime)
    ensures IsoFormat(d)[0..4] == Padded(d.year, 4) && IsoFormat(d)[5..7] == Padded(d.month, 2)
    ensures IsoFormat(d)[8..10] == Padded(d.day, 2) && IsoFormat(d)[11..13] == Padded(d.hour, 2)
    ensures IsoFormat(d)[14..16] == Padded(d.minute, 2) && IsoFormat(d)[17..19] == Padded(d.second, 2)
    ensures d.microsecond != 0 ==> IsoFormat(d)[19] == '.' && IsoFormat(d)[20..26] == Padded(d.microsecond, 6)
  {
    var date, time := DatePart(d), TimePart(d);
    var frac := if d.microsecond == 0 then "" else "." + Padded(d.microsecond, 6);
    var s := IsoFormat(d);
    assert s[0..10] == date && s[11..19] == time && s[19..] == frac;
    DateFields(d);
    TimeFields(d);
    assert s[0..4] == s[0..10][0..4] && s[5..7] == s[0..10][5..7] && s[8..10] == s[0..10][8..10];
    assert s[11..13] == s[11..19][0..2] && s[14..16] == s[11..19][3..5] && s[17..19] == s[11..19][6..8];
    if d.microsecond != 0 {
      assert s[19] == s[19..][0] && s[20..26] == s[19..][1..7];
    }
  }

  /** The ISO text of a date-time reads back as the same date-time. */
  lemma IsoRoundTrip(d: DateTime)
    ensures ParseIso(IsoFormat(d)) == Some(d)
  {
    IsoFields(d);
    ParsePadded(d.year, 4);
    ParsePadded(d.month, 2);
    ParsePadded(d.day, 2);
    ParsePadded(d.hour, 2);
    ParsePadded(d.minute, 2);
    ParsePadded(d.second, 2);
    if d.microsecond != 0 {
      ParsePadded(d.microsecond, 6);
    }
  }

  /** Distinct date-times have distinct ISO texts. */
  lemma IsoFormatInjective(a: DateTime, b: DateTime)
    requires IsoFormat(a) == IsoFormat(b)
    ensures a == b
  {
    IsoRoundTrip(a);
    IsoRoundTrip(b);
  }
}
