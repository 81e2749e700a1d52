/**
 * The ISO-8601 text that java.time's LocalDate, LocalTime, LocalDateTime,
 * ZoneOffset, OffsetDateTime and OffsetTime produce from toString(): the
 * lexical forms the date/time literal constructors store.  Only rendering is
 * modelled; parsing is not.
 */
module JavaTime {
  import opened JavaNumbers

  const YEAR_MIN: int := -999_999_999
  const YEAR_MAX: int := 999_999_999
  const NANOS_PER_SECOND: int := 1_000_000_000
  /** ZoneOffset accepts offsets up to eighteen hours either side of UTC. */
  const MAX_OFFSET_SECONDS: int := 18 * 3600

  datatype LocalDate = LocalDate(year: int, month: int, day: int)
  datatype LocalTime = LocalTime(hour: int, minute: int, second: int, nano: int)
  datatype LocalDateTime = LocalDateTime(date: LocalDate, time: LocalTime)
  datatype ZoneOffset = ZoneOffset(totalSeconds: int)
  datatype OffsetDateTime = OffsetDateTime(dateTime: LocalDateTime, offset: ZoneOffset)
  datatype OffsetTime = OffsetTime(time: LocalTime, offset: ZoneOffset)

  /** The proleptic Gregorian leap-year rule of IsoChronology. */
  predicate IsLeapYear(y: int) {
    y % 4 == 0 && (y % 100 != 0 || y % 400 == 0)
  }

  function MonthLength(y: int, m: int): int
    requires 1 <= m <= 12
  {
    if m == 2 then (if IsLeapYear(y) then 29 else 28)
    else if m == 4 || m == 6 || m == 9 || m == 11 then 30
    else 31
  }

  predicate ValidDate(d: LocalDate) {
    && YEAR_MIN <= d.year <= YEAR_MAX
    && 1 <= d.month <= 12
    && 1 <= d.day <= MonthLength(d.year, d.month)
  }

  predicate ValidTime(t: LocalTime) {
    && 0 <= t.hour < 24
    && 0 <= t.minute < 60
    && 0 <= t.second < 60
    && 0 <= t.nano < NANOS_PER_SECOND
  }

  predicate ValidDateTime(dt: LocalDateTime) {
    ValidDate(dt.date) && ValidTime(dt.time)
  }

  predicate ValidOffset(o: ZoneOffset) {
    -MAX_OFFSET_SECONDS <= o.totalSeconds <= MAX_OFFSET_SECONDS
  }

  predicate ValidOffsetDateTime(v: OffsetDateTime) {
    ValidDateTime(v.dateTime) && ValidOffset(v.offset)
  }

  predicate ValidOffsetTime(v: OffsetTime) {
    ValidTime(v.time) && ValidOffset(v.offset)
  }

  /**
   * The last `width` decimal digits of n, zero-padded.  java.time obtains the
   * same text by prefixing "0" to a value below 10, or by rendering
   * `value + 1000` (or `+ 1000000`, `+ 1000000000`) and dropping the first
   * character.
   */
  function Padded(n: nat, width: nat): (r: string)
    ensures |r| == width && AllDigits(r)
  {
    if width == 0 then [] else Padded(n / 10, width - 1) + [DigitChar(n % 10)]
  }

  /**
   * LocalDate's year field: four digits (with a leading '-' for negative
   * years) when |year| < 1000; otherwise the plain decimal rendering, with a
   * '+' in front of years beyond 9999.
   */
  function YearText(y: int): string {
    if -1000 < y < 1000 then
      (if y < 0 then "-" else "") + Padded(if y < 0 then -y else y, 4)
    else
      (if y > 9999 then "+" else "") + IntegerToString(y)
  }

  /** LocalDate.toString: yyyy-MM-dd. */
  function DateText(d: LocalDate): string
    requires ValidDate(d)
  {
    YearText(d.year) + "-" + Padded(d.month, 2) + "-" + Padded(d.day, 2)
  }

  /** The fraction LocalTime.toString appends: 3, 6 or 9 digits, as few as are exact. */
  function NanoText(nano: nat): string {
    if nano == 0 then ""
    else if nano % 1_000_000 == 0 then "." + Padded(nano / 1_000_000, 3)
    else if nano % 1000 == 0 then "." + Padded(nano / 1000, 6)
    else "." + Padded(nano, 9)
  }

  /** LocalTime.toString: HH:mm, then :ss when seconds or nanos are non-zero, then the fraction. */
  function TimeText(t: LocalTime): string
    requires ValidTime(t)
  {
    Padded(t.hour, 2) + ":" + Padded(t.minute, 2)
    + (if t.second > 0 || t.nano > 0 then ":" + Padded(t.second, 2) + NanoText(t.nano) else "")
  }

  /** LocalDateTime.toString: the date, 'T', the time. */
  function DateTimeText(dt: LocalDateTime): string
    requires ValidDateTime(dt)
  {
    DateText(dt.date) + "T" + TimeText(dt.time)
  }

  /** ZoneOffset's id: "Z" for UTC, otherwise +hh:mm, with :ss when the seconds are non-zero. */
  function OffsetId(o: ZoneOffset): string
    requires ValidOffset(o)
  {
    if o.totalSeconds == 0 then "Z"
    else
      var abs := if o.totalSeconds < 0 then -o.totalSeconds else o.totalSeconds;
      var seconds := abs % 60;
      (if o.totalSeconds < 0 then "-" else "+")
      + Padded(abs / 3600, 2) + ":" + Padded((abs / 60) % 60, 2)
      + (if seconds != 0 then ":" + Padded(seconds, 2) else "")
  }

  /** OffsetDateTime.toString: the local date-time followed by the offset id. */
  function OffsetDateTimeText(v: OffsetDateTime): string
    requires ValidOffsetDateTime(v)
  {
    DateTimeText(v.dateTime) + OffsetId(v.offset)
  }

  /** OffsetTime.toString: the local time followed by the offset id. */
  function OffsetTimeText(v: OffsetTime): string
    requires ValidOffsetTime(v)
  {
    TimeText(v.time) + OffsetId(v.offset)
  }

  // ---------------------------------------------------------------------
  // Shapes of the renderings
  // ---------------------------------------------------------------------

  /** No digit string contains a sign, a 'Z', a 'T', a ':' or a '.'. */
  lemma DigitsExclude(s: string)
    requires AllDigits(s)
    ensures '+' !in s && '-' !in s && 'Z' !in s && 'T' !in s && ':' !in s && '.' !in s
  {
  }

  /** The two-digit rendering is Java's "0"-prefix construction. */
  lemma {:induction false} PaddedTwoDigits(n: nat)
    requires n < 100
    ensures Padded(n, 2) == (if n < 10 then "0" else "") + NatToDecimal(n)
  {
    assert Padded(n, 2) == Padded(n / 10, 1) + [DigitChar(n % 10)];
    assert Padded(n / 10, 1) == [DigitChar(n / 10 % 10)];
  }

  lemma {:induction false} NanoTextShape(nano: nat)
    ensures '+' !in NanoText(nano) && '-' !in NanoText(nano) && 'Z' !in NanoText(nano)
    ensures 'T' !in NanoText(nano) && ':' !in NanoText(nano)
    ensures nano == 0 <==> |NanoText(nano)| == 0
    ensures |NanoText(nano)| <= 10
  {
    if nano != 0 {
      var p := NanoText(nano)[1..];
      assert NanoText(nano) == "." + p;
      DigitsExclude(p);
    }
  }

  /**
   * A local time renders in 5 (HH:mm), 8 (HH:mm:ss) or 12 to 18 characters
   * (with a fraction), has ':' at index 2, and contains no '+', '-', 'Z' or 'T'.
   */
  lemma {:induction false} TimeTextShape(t: LocalTime)
    requires ValidTime(t)
    ensures var s := TimeText(t);
      && |s| >= 5 && s[2] == ':'
      && '+' !in s && '-' !in s && 'Z' !in s && 'T' !in s
      && (|s| == 5 <==> t.second == 0 && t.nano == 0)
      && (t.nano == 0 ==> |s| <= 8)
      && (t.nano > 0 ==> 12 <= |s| <= 18)
  {
    var h := Padded(t.hour, 2);
    var m := Padded(t.minute, 2);
    var sec := Padded(t.second, 2);
    DigitsExclude(h);
    DigitsExclude(m);
    DigitsExclude(sec);
    NanoTextShape(t.nano);
  }

  /** Decimal renderings grow with the number. */
  lemma {:induction false} DecimalLengthMonotone(m: nat, n: nat)
    requires m <= n
    ensures |NatToDecimal(m)| <= |NatToDecimal(n)|
  {
    if m >= 10 {
      DecimalLengthMonotone(m / 10, n / 10);
    }
  }

  /** A year of 1000 or more (in absolute value) up to the LocalDate limit has 4 to 9 digits. */
  lemma {:induction false} LongYearDigits(n: nat)
    requires 1000 <= n <= YEAR_MAX
    ensures 4 <= |NatToDecimal(n)| <= 9
    ensures NatToDecimal(n)[0] != '0'
  {
    DecimalLengthMonotone(1000, n);
    DecimalLengthMonotone(n, YEAR_MAX);
    assert |NatToDecimal(1000)| == |NatToDecimal(100)| + 1 == |NatToDecimal(10)| + 2 == 4;
    var r := YEAR_MAX;
    assert |NatToDecimal(r)| == |NatToDecimal(r / 10)| + 1;
    assert |NatToDecimal(r / 10)| == |NatToDecimal(r / 100)| + 1;
    assert |NatToDecimal(r / 100)| == |NatToDecimal(r / 1000)| + 1;
    assert |NatToDecimal(r / 1000)| == |NatToDecimal(r / 10000)| + 1;
    assert |NatToDecimal(r / 10000)| == |NatToDecimal(r / 100000)| + 1;
    assert |NatToDecimal(r / 100000)| == |NatToDecimal(r / 1000000)| + 1;
    assert |NatToDecimal(r / 1000000)| == |NatToDecimal(r / 10000000)| + 1;
    assert |NatToDecimal(r / 10000000)| == |NatToDecimal(r / 100000000)| + 1;
  }

  /**
   * The year field is exactly four characters for years 0 to 9999 and five
   * to ten characters otherwise; it never contains ':' or 'T', and its
   * character at index 2 is a digit.
   */
  lemma {:induction false} YearTextShape(y: int)
    requires YEAR_MIN <= y <= YEAR_MAX
    ensures var s := YearText(y);
      && (0 <= y <= 9999 ==> |s| == 4 && AllDigits(s))
      && (y < 0 || y > 9999 ==> 5 <= |s| <= 10)
      && |s| >= 4 && IsDigit(s[2])
      && 'T' !in s && ':' !in s && 'Z' !in s
  {
    var s := YearText(y);
    if -1000 < y < 1000 {
      var p := Padded(if y < 0 then -y else y, 4);
      DigitsExclude(p);
      assert s == (if y < 0 then "-" else "") + p;
    } else {
      var n := if y < 0 then -y else y;
      var digits := NatToDecimal(n);
      LongYearDigits(n);
      DigitsExclude(digits);
      if y < 0 {
        assert s == "-" + digits;
      } else if y > 9999 {
        assert s == "+" + digits;
        DecimalLengthMonotone(10000, n);
        assert |NatToDecimal(10000)| == 5;
      } else {
        assert s == digits;
        DecimalLengthMonotone(n, 9999);
        assert |NatToDecimal(9999)| == 4;
      }
    }
  }

  /**
   * A date renders in 10 characters exactly when its year is 0 to 9999, and
   * in 11 to 16 otherwise; index 2 is a digit and no ':' or 'T' occurs.
   */
  lemma {:induction false} DateTextShape(d: LocalDate)
    requires ValidDate(d)
    ensures var s := DateText(d);
      && (0 <= d.year <= 9999 <==> |s| == 10)
      && 10 <= |s| <= 16
      && IsDigit(s[2])
      && 'T' !in s && ':' !in s && 'Z' !in s
      && (0 <= d.year <= 9999 ==> '+' !in s)
  {
    var y := YearText(d.year);
    var m := Padded(d.month, 2);
    var dd := Padded(d.day, 2);
    YearTextShape(d.year);
    DigitsExclude(m);
    DigitsExclude(dd);
    if 0 <= d.year <= 9999 {
      DigitsExclude(y);
    }
    assert DateText(d)[2] == y[2];
  }

  /** An offset id is "Z" (UTC) or starts with a sign; it has 1, 6 or 9 characters. */
  lemma {:induction false} OffsetIdShape(o: ZoneOffset)
    requires ValidOffset(o)
    ensures var s := OffsetId(o);
      && (o.totalSeconds == 0 <==> s == "Z")
      && (o.totalSeconds != 0 ==> (s[0] == '+' || s[0] == '-') && (|s| == 6 || |s| == 9))
      && ('+' in s || '-' in s || 'Z' in s)
      && 'T' !in s
  {
    var s := OffsetId(o);
    if o.totalSeconds != 0 {
      var abs := if o.totalSeconds < 0 then -o.totalSeconds else o.totalSeconds;
      var h := Padded(abs / 3600, 2);
      var m := Padded((abs / 60) % 60, 2);
      var sec := if abs % 60 != 0 then ":" + Padded(abs % 60, 2) else "";
      DigitsExclude(h);
      DigitsExclude(m);
      DigitsExclude(Padded(abs % 60, 2));
      assert s == [s[0]] + h + ":" + m + sec;
    }
  }
}
