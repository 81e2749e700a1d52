/**
 * Decimal text of Java's integer types: the rendering that Long.toString and
 * BigInteger.toString produce, and the radix-10 parsing that Byte.parseByte,
 * Short.parseShort, Integer.parseInt, Long.parseLong and new BigInteger(String)
 * perform (ASCII digits only).
 */
module JavaNumbers {
  import opened Results

  const BYTE_MIN: int := -0x80
  const BYTE_MAX: int := 0x7f
  const SHORT_MIN: int := -0x8000
  const SHORT_MAX: int := 0x7fff
  const INT_MIN: int := -0x8000_0000
  const INT_MAX: int := 0x7fff_ffff
  const LONG_MIN: int := -0x8000_0000_0000_0000
  const LONG_MAX: int := 0x7fff_ffff_ffff_ffff

  type Byte = x: int | BYTE_MIN <= x <= BYTE_MAX
  type Short = x: int | SHORT_MIN <= x <= SHORT_MAX
  type Int = x: int | INT_MIN <= x <= INT_MAX
  type Long = x: int | LONG_MIN <= x <= LONG_MAX

  predicate IsDigit(c: char) {
    '0' <= c <= '9'
  }

  predicate AllDigits(s: string) {
    forall i :: 0 <= i < |s| ==> IsDigit(s[i])
  }

  /** The length of the longest prefix of s made of decimal digits. */
  function DigitRun(s: string): (n: nat)
    ensures n <= |s| && AllDigits(s[..n])
    ensures n < |s| ==> !IsDigit(s[n])
  {
    if |s| > 0 && IsDigit(s[0]) then 1 + DigitRun(s[1..]) else 0
  }

  /** A digit string at the front is part of the leading run. */
  lemma {:induction false} DigitRunAppend(digits: string, rest: string)
    requires AllDigits(digits)
    ensures DigitRun(digits + rest) == |digits| + DigitRun(rest)
  {
    if |digits| > 0 {
      assert (digits + rest)[1..] == digits[1..] + rest;
      DigitRunAppend(digits[1..], rest);
    } else {
      assert digits + rest == rest;
    }
  }

  function DigitValue(c: char): (d: nat)
    requires IsDigit(c)
    ensures d < 10
  {
    (c as int) - ('0' as int)
  }

  function DigitChar(d: nat): (c: char)
    requires d < 10
    ensures IsDigit(c) && DigitValue(c) == d
  {
    ('0' as int + d) as char
  }

  /** The number a string of decimal digits denotes (leading zeros allowed). */
  function DigitsValue(s: string): nat
    requires AllDigits(s)
  {
    if s == [] then 0 else DigitsValue(s[..|s| - 1]) * 10 + DigitValue(s[|s| - 1])
  }

  /** The shortest decimal rendering of n: no leading zero unless n is 0. */
  function NatToDecimal(n: nat): (r: string)
    ensures |r| > 0 && AllDigits(r)
    ensures |r| > 1 ==> r[0] != '0'
    ensures n < 10 <==> |r| == 1
  {
    if n < 10 then [DigitChar(n)] else NatToDecimal(n / 10) + [DigitChar(n % 10)]
  }

  /** Long.toString and BigInteger.toString: a minus sign for negatives, then the digits. */
  function IntegerToString(v: int): (r: string)
    ensures |r| > 0 && (r[0] == '-' <==> v < 0)
    ensures v < 0 ==> AllDigits(r[1..])
    ensures v >= 0 ==> AllDigits(r)
  {
    if v < 0 then "-" + NatToDecimal(-v) else NatToDecimal(v)
  }

  /**
   * The radix-10 grammar shared by Long.parseLong and new BigInteger(String):
   * an optional '+' or '-' followed by at least one digit.  None is the
   * NumberFormatException case.
   */
  function ParseSignedDecimal(s: string): (r: Option<int>)
    ensures r.Some? ==> |s| > 0
  {
    if |s| == 0 then None
    else if s[0] == '-' || s[0] == '+' then
      if |s| > 1 && AllDigits(s[1..]) then
        var n: int := DigitsValue(s[1..]);
        Some(if s[0] == '-' then -n else n)
      else None
    else if AllDigits(s) then Some(DigitsValue(s))
    else None
  }

  /**
   * A parser of a fixed-width Java integer type: the decimal value if it lies
   * in [lo, hi], a NumberFormatException (never a wrapped value) otherwise.
   */
  function ParseBounded(s: string, lo: int, hi: int): (r: Result<int>)
    ensures r.Success? ==> lo <= r.value <= hi
    ensures r.Success? <==> ParseSignedDecimal(s).Some? && lo <= ParseSignedDecimal(s).value <= hi
    ensures r.Success? ==> r.value == ParseSignedDecimal(s).value
    ensures r.Failure? ==> r.error == NumberFormat(s)
  {
    match ParseSignedDecimal(s)
    case None => Failure(NumberFormat(s))
    case Some(v) => if lo <= v <= hi then Success(v) else Failure(NumberFormat(s))
  }

  /** Byte.parseByte(s) */
  function ParseByte(s: string): (r: Result<int>)
    ensures r.Success? <==> ParseSignedDecimal(s).Some? && BYTE_MIN <= ParseSignedDecimal(s).value <= BYTE_MAX
    ensures r.Success? ==> r.value == ParseSignedDecimal(s).value && BYTE_MIN <= r.value <= BYTE_MAX
    ensures r.Failure? ==> r.error == NumberFormat(s)
  {
    ParseBounded(s, BYTE_MIN, BYTE_MAX)
  }

  /** Short.parseShort(s) */
  function ParseShort(s: string): (r: Result<int>)
    ensures r.Success? <==> ParseSignedDecimal(s).Some? && SHORT_MIN <= ParseSignedDecimal(s).value <= SHORT_MAX
    ensures r.Success? ==> r.value == ParseSignedDecimal(s).value && SHORT_MIN <= r.value <= SHORT_MAX
    ensures r.Failure? ==> r.error == NumberFormat(s)
  {
    ParseBounded(s, SHORT_MIN, SHORT_MAX)
  }

  /** Integer.parseInt(s) */
  function ParseInt(s: string): (r: Result<int>)
    ensures r.Success? <==> ParseSignedDecimal(s).Some? && INT_MIN <= ParseSignedDecimal(s).value <= INT_MAX
    ensures r.Success? ==> r.value == ParseSignedDecimal(s).value && INT_MIN <= r.value <= INT_MAX
    ensures r.Failure? ==> r.error == NumberFormat(s)
  {
    ParseBounded(s, INT_MIN, INT_MAX)
  }

  /** Long.parseLong(s) */
  function ParseLong(s: string): (r: Result<int>)
    ensures r.Success? <==> ParseSignedDecimal(s).Some? && LONG_MIN <= ParseSignedDecimal(s).value <= LONG_MAX
    ensures r.Success? ==> r.value == ParseSignedDecimal(s).value && LONG_MIN <= r.value <= LONG_MAX
    ensures r.Failure? ==> r.error == NumberFormat(s)
  {
    ParseBounded(s, LONG_MIN, LONG_MAX)
  }

  /** new BigInteger(s): the same grammar, without a range. */
  function ParseBigInteger(s: string): (r: Result<int>)
    ensures r.Success? <==> ParseSignedDecimal(s).Some?
    ensures r.Success? ==> r.value == ParseSignedDecimal(s).value
    ensures r.Failure? ==> r.error == NumberFormat(s)
  {
    match ParseSignedDecimal(s)
    case None => Failure(NumberFormat(s))
    case Some(v) => Success(v)
  }

  // ---------------------------------------------------------------------
  // Round trips between rendering and parsing
  // ---------------------------------------------------------------------

  /** DigitsValue inverts NatToDecimal. */
  lemma {:induction false} DigitsValueOfDecimal(n: nat)
    ensures DigitsValue(NatToDecimal(n)) == n
  {
    if n >= 10 {
      var r := NatToDecimal(n);
      assert r[..|r| - 1] == NatToDecimal(n / 10);
      DigitsValueOfDecimal(n / 10);
    }
  }

  /** A digit string that does not start with '0' denotes a positive number. */
  lemma {:induction false} LeadingDigitPositive(s: string)
    requires AllDigits(s) && |s| > 0 && s[0] != '0'
    ensures DigitsValue(s) > 0
  {
    if |s| > 1 {
      LeadingDigitPositive(s[..|s| - 1]);
    }
  }

  /** Rendering is the inverse of DigitsValue on digit strings without a leading zero. */
  lemma {:induction false} DecimalOfDigitsValue(s: string)
    requires AllDigits(s) && |s| > 0 && (|s| > 1 ==> s[0] != '0')
    ensures NatToDecimal(DigitsValue(s)) == s
  {
    if |s| > 1 {
      var init := s[..|s| - 1];
      LeadingDigitPositive(init);
      DecimalOfDigitsValue(init);
      var n := DigitsValue(s);
      assert n / 10 == DigitsValue(init) && n % 10 == DigitValue(s[|s| - 1]);
      assert s == init + [s[|s| - 1]];
    }
  }

  /** Parsing the rendering of any integer gives the integer back. */
  lemma {:induction false} FormatThenParse(v: int)
    ensures ParseSignedDecimal(IntegerToString(v)) == Some(v)
  {
    if v < 0 {
      NegativeFormatThenParse(v);
    } else {
      assert IntegerToString(v) == NatToDecimal(v);
      DigitsValueOfDecimal(v);
    }
  }

  lemma {:induction false} NegativeFormatThenParse(v: int)
    requires v < 0
    ensures ParseSignedDecimal(IntegerToString(v)) == Some(v)
  {
    var d := NatToDecimal(-v);
    ParseNegated(d);
    DigitsValueOfDecimal(-v);
    assert IntegerToString(v) == "-" + d;
  }

  lemma {:induction false} ParseNegated(d: string)
    requires |d| > 0 && AllDigits(d)
    ensures ParseSignedDecimal("-" + d) == Some(-(DigitsValue(d) as int))
  {
    assert ("-" + d)[1..] == d;
  }

  /**
   * The strings IntegerToString produces: "0", or an optional minus sign
   * followed by digits without a leading zero.
   */
  predicate IsCanonicalDecimal(s: string) {
    || (|s| > 0 && AllDigits(s) && (|s| > 1 ==> s[0] != '0'))
    || (|s| > 1 && s[0] == '-' && AllDigits(s[1..]) && s[1] != '0')
  }

  /** Every rendering is canonical. */
  lemma {:induction false} FormatIsCanonical(v: int)
    ensures IsCanonicalDecimal(IntegerToString(v))
  {
    if v < 0 {
      var r := IntegerToString(v);
      assert r[1..] == NatToDecimal(-v);
    }
  }

  /** Rendering the parse of a canonical string gives the string back. */
  lemma {:induction false} ParseThenFormat(s: string)
    requires IsCanonicalDecimal(s)
    ensures ParseSignedDecimal(s).Some?
    ensures IntegerToString(ParseSignedDecimal(s).value) == s
  {
    if |s| > 0 && AllDigits(s) && (|s| > 1 ==> s[0] != '0') {
      UnsignedThenFormat(s);
    } else {
      NegativeThenFormat(s);
    }
  }

  lemma {:induction false} UnsignedThenFormat(s: string)
    requires |s| > 0 && AllDigits(s) && (|s| > 1 ==> s[0] != '0')
    ensures ParseSignedDecimal(s) == Some(DigitsValue(s))
    ensures IntegerToString(DigitsValue(s)) == s
  {
    DecimalOfDigitsValue(s);
    assert IsDigit(s[0]);
  }

  lemma {:induction false} NegativeThenFormat(s: string)
    requires |s| > 1 && s[0] == '-' && AllDigits(s[1..]) && s[1] != '0'
    ensures ParseSignedDecimal(s) == Some(-(DigitsValue(s[1..]) as int))
    ensures IntegerToString(-(DigitsValue(s[1..]) as int)) == s
  {
    var digits := s[1..];
    LeadingDigitPositive(digits);
    DecimalOfDigitsValue(digits);
    assert s == "-" + digits;
  }

  /** Distinct integers have distinct renderings. */
  lemma {:induction false} FormatInjective(v: int, w: int)
    requires IntegerToString(v) == IntegerToString(w)
    ensures v == w
  {
    FormatThenParse(v);
    FormatThenParse(w);
  }

  /** Each parser accepts the rendering of every value of its width and returns it. */
  lemma {:induction false} FixedWidthRoundTrip(v: int)
    ensures LONG_MIN <= v <= LONG_MAX ==> ParseLong(IntegerToString(v)) == Success(v)
    ensures INT_MIN <= v <= INT_MAX ==> ParseInt(IntegerToString(v)) == Success(v)
    ensures SHORT_MIN <= v <= SHORT_MAX ==> ParseShort(IntegerToString(v)) == Success(v)
    ensures BYTE_MIN <= v <= BYTE_MAX ==> ParseByte(IntegerToString(v)) == Success(v)
    ensures ParseBigInteger(IntegerToString(v)) == Success(v)
  {
    FormatThenParse(v);
  }

  /** A parser of a narrower width that succeeds agrees with every wider one. */
  lemma {:induction false} NarrowerParsersAgree(s: string)
    ensures ParseByte(s).Success? ==> ParseShort(s) == ParseByte(s)
    ensures ParseShort(s).Success? ==> ParseInt(s) == ParseShort(s)
    ensures ParseInt(s).Success? ==> ParseLong(s) == ParseInt(s)
    ensures ParseLong(s).Success? ==> ParseBigInteger(s) == ParseLong(s)
  {
  }
}
