/**
 * java.math.BigDecimal as far as Literal.asBigDecimal and
 * RDFContext.createLiteral(BigDecimal) use it: a value is an unscaled integer
 * and a 32-bit scale, its text is what BigDecimal.toString() lays out, and
 * new BigDecimal(String) reads that text back.
 */
module JavaBigDecimal {
  import opened Results
  import opened JavaNumbers

  /** unscaled × 10^(-scale); BigDecimal.equals compares both parts, so 3.14 and 3.140 differ. */
  datatype Decimal = Decimal(unscaled: int, scale: int)

  type BigDecimal = d: Decimal | INT_MIN <= d.scale <= INT_MAX witness Decimal(0, 0)

  /** |v| */
  function Magnitude(v: int): nat {
    if v < 0 then -v else v
  }

  function Zeros(n: nat): (r: string)
    ensures |r| == n && AllDigits(r)
  {
    if n == 0 then "" else Zeros(n - 1) + "0"
  }

  /** The exponent after 'E': an explicit '+' for positive exponents, '-' for negative ones. */
  function ExponentText(x: int): (r: string)
    ensures |r| > 0
  {
    (if x > 0 then "+" else "") + IntegerToString(x)
  }

  function FractionText(fraction: Option<string>): string {
    if fraction.Some? then fraction.value else ""
  }

  /** The exponent an optional exponent text denotes (0 when absent or unreadable). */
  function ExponentValue(exponent: Option<string>): int {
    match exponent
    case None => 0
    case Some(t) => match ParseSignedDecimal(t) case Some(x) => x case None => 0
  }

  /**
   * The textual shape shared by BigDecimal.toString and new BigDecimal(String):
   * an optional minus sign, the integer digits, an optional fraction after a
   * '.', and an optional exponent after an 'E'.
   */
  function Numeral(negative: bool, whole: string, fraction: Option<string>, exponent: Option<string>): string {
    (if negative then "-" else "")
      + whole
      + (match fraction case Some(f) => "." + f case None => "")
      + (match exponent case Some(t) => "E" + t case None => "")
  }

  /**
   * BigDecimal.toString(): plain notation when the scale is not negative and
   * the adjusted exponent is at least -6, scientific notation otherwise.
   */
  function ToString(d: BigDecimal): (r: string)
    ensures |r| > 0 && (r[0] == '-' <==> d.unscaled < 0)
  {
    var negative := d.unscaled < 0;
    var coeff := NatToDecimal(Magnitude(d.unscaled));
    var adjusted := -d.scale + (|coeff| - 1);
    if d.scale == 0 then
      NumeralSign(negative, coeff, None, None);
      Numeral(negative, coeff, None, None)
    else if d.scale >= 0 && adjusted >= -6 then
      if d.scale >= |coeff| then
        NumeralSign(negative, "0", Some(Zeros(d.scale - |coeff|) + coeff), None);
        Numeral(negative, "0", Some(Zeros(d.scale - |coeff|) + coeff), None)
      else
        NumeralSign(negative, coeff[..|coeff| - d.scale], Some(coeff[|coeff| - d.scale..]), None);
        Numeral(negative, coeff[..|coeff| - d.scale], Some(coeff[|coeff| - d.scale..]), None)
    else
      var fraction := if |coeff| > 1 then Some(coeff[1..]) else None;
      var exponent := if adjusted != 0 then Some(ExponentText(adjusted)) else None;
      NumeralSign(negative, coeff[..1], fraction, exponent);
      Numeral(negative, coeff[..1], fraction, exponent)
  }

  /** A numeral starts with '-' exactly when it is negative. */
  lemma {:induction false} NumeralSign(negative: bool, whole: string, fraction: Option<string>, exponent: Option<string>)
    requires |whole| > 0 && IsDigit(whole[0])
    ensures var r := Numeral(negative, whole, fraction, exponent); |r| > 0 && (r[0] == '-' <==> negative)
  {
  }

  /**
   * What a left-to-right scan of the mantissa collects: its digits as one
   * number, how many digits there were, how many of them followed the '.',
   * and the text after an 'e' or 'E' when there is one.
   */
  datatype Mantissa = Mantissa(magnitude: nat, digits: nat, fractionDigits: nat, exponent: Option<string>)

  function FractionCount(fraction: Option<nat>): nat {
    if fraction.Some? then fraction.value else 0
  }

  /**
   * The character loop of new BigDecimal(String) after the sign: digits are
   * accumulated, a second '.' or any other character is rejected, the first
   * 'e' or 'E' hands the rest over to the exponent, and at least one digit is
   * required.  `fraction` is None before the '.' and counts fraction digits after it.
   */
  function ScanMantissa(s: string, magnitude: nat, digits: nat, fraction: Option<nat>): Option<Mantissa>
    decreases |s|
  {
    if |s| == 0 then
      if digits == 0 then None else Some(Mantissa(magnitude, digits, FractionCount(fraction), None))
    else if IsDigit(s[0]) then
      ScanMantissa(s[1..], magnitude * 10 + DigitValue(s[0]), digits + 1,
                   if fraction.Some? then Some(fraction.value + 1) else None)
    else if s[0] == '.' then
      if fraction.Some? then None else ScanMantissa(s[1..], magnitude, digits, Some(0))
    else if s[0] == 'e' || s[0] == 'E' then
      if digits == 0 then None else Some(Mantissa(magnitude, digits, FractionCount(fraction), Some(s[1..])))
    else None
  }

  function Signed(negative: bool, magnitude: nat): int {
    if negative then -(magnitude as int) else magnitude
  }

  /** The value of an unsigned numeral `body`, given the sign already read. */
  function ParseBody(s: string, negative: bool, body: string): (r: Result<BigDecimal>)
    ensures r.Failure? ==> r.error == NumberFormat(s)
  {
    match ScanMantissa(body, 0, 0, None)
    case None => Failure(NumberFormat(s))
    case Some(m) =>
      var exponent := if m.exponent.Some? then ParseSignedDecimal(m.exponent.value) else Some(0);
      if exponent.None? || !(INT_MIN <= exponent.value <= INT_MAX) then Failure(NumberFormat(s))
      else
        var scale := m.fractionDigits - exponent.value;
        if INT_MIN <= scale <= INT_MAX then Success(Decimal(Signed(negative, m.magnitude), scale))
        else Failure(NumberFormat(s))
  }

  /**
   * new BigDecimal(s): an optional sign, digits with at most one '.', at
   * least one digit, then optionally 'e' or 'E' and a signed exponent.  The
   * exponent must fit in an int (the JDK's `(int) exp != exp` test), and so
   * must the scale, the number of fraction digits minus the exponent.  Every
   * failure is a NumberFormatException.
   */
  function Parse(s: string): (r: Result<BigDecimal>)
    ensures r.Success? <==> ReadNumeral(s).Some? && INT_MIN <= ReadNumeral(s).value.scale <= INT_MAX
    ensures r.Success? ==> r.value == ReadNumeral(s).value
    ensures r.Failure? ==> r.error == NumberFormat(s)
  {
    if |s| > 0 && (s[0] == '-' || s[0] == '+') then
      ParseBodyReadsBody(s, s[0] == '-', s[1..]);
      ParseBody(s, s[0] == '-', s[1..])
    else
      ParseBodyReadsBody(s, false, s);
      ParseBody(s, false, s)
  }

  // ---------------------------------------------------------------------
  // The grammar of new BigDecimal(String), read by splitting the text
  // ---------------------------------------------------------------------

  /**
   * An unsigned numeral: the leading digits, then optionally a '.' and more
   * digits, at least one digit in all, then nothing or an 'e' or 'E' and a
   * signed decimal exponent that fits in an int.  Its magnitude is all its digits read as one
   * number, its scale the count of digits after the '.' minus the exponent.
   */
  function ReadBody(b: string): Option<(nat, int)> {
    var n := DigitRun(b);
    if n < |b| && b[n] == '.' then ReadAfterPoint(b[..n], b[n + 1..])
    else ReadParts(b[..n], "", b[n..])
  }

  /** The digits after the '.', and what follows them. */
  function ReadAfterPoint(whole: string, t: string): Option<(nat, int)>
    requires AllDigits(whole)
  {
    ReadParts(whole, t[..DigitRun(t)], t[DigitRun(t)..])
  }

  /** Whole digits, fraction digits, and the text after them: nothing, or an exponent. */
  function ReadParts(whole: string, fraction: string, tail: string): Option<(nat, int)>
    requires AllDigits(whole) && AllDigits(fraction)
  {
    if |whole| + |fraction| == 0 then None
    else if tail == "" then Some((DigitsValue(whole + fraction), |fraction|))
    else if (tail[0] == 'e' || tail[0] == 'E') && ParseSignedDecimal(tail[1..]).Some?
            && INT_MIN <= ParseSignedDecimal(tail[1..]).value <= INT_MAX then
      Some((DigitsValue(whole + fraction), |fraction| - ParseSignedDecimal(tail[1..]).value))
    else None
  }

  /** The value a numeral with an optional leading sign denotes, before the scale is range-checked. */
  function ReadNumeral(s: string): Option<Decimal> {
    var signed := |s| > 0 && (s[0] == '-' || s[0] == '+');
    var body := if signed then s[1..] else s;
    match ReadBody(body)
    case None => None
    case Some(v) => Some(Decimal(Signed(signed && s[0] == '-', v.0), v.1))
  }

  /** The scan's verdict once it stops at something that is not a digit. */
  lemma {:induction false} ScanStop(tail: string, magnitude: nat, digits: nat, fraction: Option<nat>)
    requires tail == "" || !IsDigit(tail[0])
    requires fraction.None? && tail != "" ==> tail[0] != '.'
    ensures ScanMantissa(tail, magnitude, digits, fraction) == Stopped(tail, magnitude, digits, FractionCount(fraction))
  {
  }

  /** What the scan reports when it stops at `tail`. */
  function Stopped(tail: string, magnitude: nat, digits: nat, fractionDigits: nat): Option<Mantissa> {
    if digits == 0 then None
    else if tail == "" then Some(Mantissa(magnitude, digits, fractionDigits, None))
    else if tail[0] == 'e' || tail[0] == 'E' then Some(Mantissa(magnitude, digits, fractionDigits, Some(tail[1..])))
    else None
  }

  /** Reading the exponent after the scan stops is ReadParts' test of the tail. */
  lemma {:induction false} ReadStopped(whole: string, fraction: string, tail: string)
    requires AllDigits(whole) && AllDigits(fraction) && AllDigits(whole + fraction)
    ensures ReadMantissa(Stopped(tail, DigitsValue(whole + fraction), |whole| + |fraction|, |fraction|)) ==
            ReadParts(whole, fraction, tail)
  {
  }

  /** The magnitude and scale of a scanned mantissa, once its exponent is read. */
  function ReadMantissa(m: Option<Mantissa>): Option<(nat, int)> {
    match m
    case None => None
    case Some(m) =>
      if m.exponent.None? then Some((m.magnitude, m.fractionDigits))
      else match ParseSignedDecimal(m.exponent.value)
        case None => None
        case Some(e) => if INT_MIN <= e <= INT_MAX then Some((m.magnitude, m.fractionDigits - e)) else None
  }

  /** The scan of digits with no '.', stopped by what follows them. */
  lemma {:induction false} ScanWholeOnly(b: string, whole: string, after: string)
    requires b == whole + after && AllDigits(whole)
    requires after == "" || (!IsDigit(after[0]) && after[0] != '.')
    ensures ReadMantissa(ScanMantissa(b, 0, 0, None)) == ReadParts(whole, "", after)
  {
    ScanDigits(whole, after, 0, 0, None);
    AccumulateIsDigitsValue(whole);
    assert whole + "" == whole;
    ScanStop(after, DigitsValue(whole), |whole|, None);
    ReadStopped(whole, "", after);
  }

  /** The scan of digits, a '.', more digits, stopped by what follows them. */
  lemma {:induction false} ScanWholePoint(b: string, whole: string, fraction: string, tail: string)
    requires b == whole + ("." + (fraction + tail)) && AllDigits(whole) && AllDigits(fraction)
    requires tail == "" || !IsDigit(tail[0])
    ensures ReadMantissa(ScanMantissa(b, 0, 0, None)) == ReadParts(whole, fraction, tail)
  {
    ScanDigits(whole, "." + (fraction + tail), 0, 0, None);
    AccumulateIsDigitsValue(whole);
    ScanDot(fraction + tail, DigitsValue(whole), |whole|);
    ScanDigits(fraction, tail, DigitsValue(whole), |whole|, Some(0));
    AccumulateAppend(0, whole, fraction);
    AccumulateIsDigitsValue(whole + fraction);
    ScanStop(tail, DigitsValue(whole + fraction), |whole| + |fraction|, Some(|fraction|));
    ReadStopped(whole, fraction, tail);
  }

  /** The scan followed by reading the exponent is the split ReadBody makes. */
  lemma {:induction false} ScanIsReadBody(b: string)
    ensures ReadMantissa(ScanMantissa(b, 0, 0, None)) == ReadBody(b)
  {
    var n := DigitRun(b);
    if n < |b| && b[n] == '.' {
      ScanIsReadAfterPoint(b, n);
    } else {
      assert b == b[..n] + b[n..];
      ScanWholeOnly(b, b[..n], b[n..]);
    }
  }

  lemma {:induction false} ScanIsReadAfterPoint(b: string, n: nat)
    requires n == DigitRun(b) && n < |b| && b[n] == '.'
    ensures ReadMantissa(ScanMantissa(b, 0, 0, None)) == ReadAfterPoint(b[..n], b[n + 1..])
  {
    var t := b[n + 1..];
    var f := DigitRun(t);
    assert b == b[..n] + ("." + (t[..f] + t[f..]));
    ScanWholePoint(b, b[..n], t[..f], t[f..]);
  }

  /** ParseBody reads the exponent of the scanned mantissa and range-checks the exponent and the scale. */
  lemma {:induction false} ParseBodyOfMantissa(s: string, negative: bool, b: string)
    ensures ParseBody(s, negative, b) ==
      match ReadMantissa(ScanMantissa(b, 0, 0, None))
      case None => Failure(NumberFormat(s))
      case Some(v) =>
        if INT_MIN <= v.1 <= INT_MAX then Success(Decimal(Signed(negative, v.0), v.1))
        else Failure(NumberFormat(s))
  {
  }

  /** ParseBody gives what ReadBody reads, when the scale fits in an int; an exponent beyond int makes ReadBody fail. */
  lemma {:induction false} ParseBodyReadsBody(s: string, negative: bool, b: string)
    ensures ParseBody(s, negative, b) ==
      match ReadBody(b)
      case None => Failure(NumberFormat(s))
      case Some(v) =>
        if INT_MIN <= v.1 <= INT_MAX then Success(Decimal(Signed(negative, v.0), v.1))
        else Failure(NumberFormat(s))
  {
    ParseBodyOfMantissa(s, negative, b);
    ScanIsReadBody(b);
  }

  // ---------------------------------------------------------------------
  // Reading BigDecimal.toString back
  // ---------------------------------------------------------------------

  lemma {:induction false} ExponentTextParses(x: int)
    ensures ParseSignedDecimal(ExponentText(x)) == Some(x)
  {
    if x > 0 {
      var t := ExponentText(x);
      var digits := NatToDecimal(x);
      assert t == "+" + digits;
      assert t[0] == '+' && t[1..] == digits && |t| > 1;
      DigitsValueOfDecimal(x);
    } else {
      FormatThenParse(x);
      assert ExponentText(x) == IntegerToString(x);
    }
  }

  /** The digits of d appended, left to right, to the number m (the scan's accumulator). */
  function Accumulate(m: nat, d: string): nat
    requires AllDigits(d)
    decreases |d|
  {
    if |d| == 0 then m else Accumulate(m * 10 + DigitValue(d[0]), d[1..])
  }

  lemma {:induction false} AccumulateAppend(m: nat, a: string, b: string)
    requires AllDigits(a) && AllDigits(b)
    ensures AllDigits(a + b)
    ensures Accumulate(m, a + b) == Accumulate(Accumulate(m, a), b)
    decreases |a|
  {
    assert AllDigits(a + b);
    if |a| == 0 {
      assert a + b == b;
    } else {
      assert (a + b)[0] == a[0] && (a + b)[1..] == a[1..] + b;
      AccumulateAppend(m * 10 + DigitValue(a[0]), a[1..], b);
    }
  }

  /** Accumulating from zero computes the value of the digit string. */
  lemma {:induction false} AccumulateIsDigitsValue(s: string)
    requires AllDigits(s)
    ensures Accumulate(0, s) == DigitsValue(s)
  {
    if |s| > 0 {
      var init := s[..|s| - 1];
      var last := [s[|s| - 1]];
      assert init + last == s;
      AccumulateAppend(0, init, last);
      AccumulateIsDigitsValue(init);
      assert last[1..] == [];
    }
  }

  lemma {:induction false} AccumulateZeros(n: nat)
    ensures Accumulate(0, Zeros(n)) == 0
  {
    if n > 0 {
      AccumulateAppend(0, Zeros(n - 1), "0");
      AccumulateZeros(n - 1);
    }
  }

  /** Leading zeros do not change the value of a digit string. */
  lemma {:induction false} LeadingZerosValue(n: nat, s: string)
    requires AllDigits(s)
    ensures AllDigits(Zeros(n) + s) && DigitsValue(Zeros(n) + s) == DigitsValue(s)
  {
    AccumulateAppend(0, Zeros(n), s);
    AccumulateZeros(n);
    AccumulateIsDigitsValue(Zeros(n) + s);
    AccumulateIsDigitsValue(s);
  }

  /** The digits of "0.000ddd" without the point have the value of ddd. */
  lemma {:induction false} LeadingZeroNumeral(n: nat, s: string)
    requires AllDigits(s)
    ensures AllDigits(Zeros(n) + s)
    ensures AllDigits("0" + (Zeros(n) + s)) && DigitsValue("0" + (Zeros(n) + s)) == DigitsValue(s)
  {
    ZerosCons(n);
    assert "0" + (Zeros(n) + s) == Zeros(n + 1) + s;
    LeadingZerosValue(n + 1, s);
  }

  lemma {:induction false} ZerosCons(n: nat)
    ensures "0" + Zeros(n) == Zeros(n + 1)
  {
    if n > 0 {
      ZerosCons(n - 1);
      assert "0" + Zeros(n) == ("0" + Zeros(n - 1)) + "0";
    }
  }

  function Shift(fraction: Option<nat>, n: nat): Option<nat> {
    if fraction.Some? then Some(fraction.value + n) else None
  }

  /** Scanning a run of digits accumulates them and counts them. */
  lemma {:induction false} ScanDigits(d: string, rest: string, magnitude: nat, digits: nat, fraction: Option<nat>)
    requires AllDigits(d)
    ensures ScanMantissa(d + rest, magnitude, digits, fraction) ==
            ScanMantissa(rest, Accumulate(magnitude, d), digits + |d|, Shift(fraction, |d|))
  {
    if |d| == 0 {
      assert d + rest == rest;
    } else {
      assert (d + rest)[0] == d[0] && (d + rest)[1..] == d[1..] + rest;
      ScanDigits(d[1..], rest, magnitude * 10 + DigitValue(d[0]), digits + 1, Shift(fraction, 1));
    }
  }

  lemma {:induction false} ScanDot(rest: string, magnitude: nat, digits: nat)
    ensures ScanMantissa("." + rest, magnitude, digits, None) == ScanMantissa(rest, magnitude, digits, Some(0))
  {
    assert ("." + rest)[1..] == rest;
  }

  lemma {:induction false} ScanExponentMark(t: string, magnitude: nat, digits: nat, fraction: Option<nat>)
    requires digits > 0
    ensures ScanMantissa("E" + t, magnitude, digits, fraction) ==
            Some(Mantissa(magnitude, digits, FractionCount(fraction), Some(t)))
  {
    assert ("E" + t)[1..] == t;
  }

  function MantissaText(whole: string, fraction: Option<string>): string {
    whole + (match fraction case Some(f) => "." + f case None => "")
  }

  function ExponentPart(exponent: Option<string>): string {
    match exponent case Some(t) => "E" + t case None => ""
  }

  /** What the scan reports after the exponent part of a numeral. */
  lemma {:induction false} ScanExponentPart(exponent: Option<string>, magnitude: nat, digits: nat, fraction: Option<nat>)
    requires digits > 0
    ensures ScanMantissa(ExponentPart(exponent), magnitude, digits, fraction) ==
            Some(Mantissa(magnitude, digits, FractionCount(fraction), exponent))
  {
    if exponent.Some? {
      ScanExponentMark(exponent.value, magnitude, digits, fraction);
    }
  }

  /** Scanning a mantissa accumulates all its digits and counts those after the '.'. */
  lemma {:induction false} ScanMantissaText(whole: string, fraction: Option<string>, tail: string)
    requires AllDigits(whole)
    requires fraction.Some? ==> AllDigits(fraction.value)
    ensures AllDigits(whole + FractionText(fraction))
    ensures ScanMantissa(MantissaText(whole, fraction) + tail, 0, 0, None) ==
            ScanMantissa(tail, DigitsValue(whole + FractionText(fraction)), |whole| + |FractionText(fraction)|,
                         if fraction.Some? then Some(|fraction.value|) else None)
  {
    if fraction.Some? {
      assert MantissaText(whole, fraction) + tail == whole + ("." + (fraction.value + tail));
      ScanWholeDotFraction(whole, fraction.value, tail);
    } else {
      assert MantissaText(whole, fraction) + tail == whole + tail;
      assert whole + FractionText(fraction) == whole;
      ScanDigits(whole, tail, 0, 0, None);
      AccumulateIsDigitsValue(whole);
    }
  }

  lemma {:induction false} ScanWholeDotFraction(whole: string, frac: string, tail: string)
    requires AllDigits(whole) && AllDigits(frac)
    ensures AllDigits(whole + frac)
    ensures ScanMantissa(whole + ("." + (frac + tail)), 0, 0, None) ==
            ScanMantissa(tail, DigitsValue(whole + frac), |whole| + |frac|, Some(|frac|))
  {
    var value := Accumulate(0, whole);
    AccumulateAppend(0, whole, frac);
    AccumulateIsDigitsValue(whole + frac);
    ScanDigits(whole, "." + (frac + tail), 0, 0, None);
    ScanDot(frac + tail, value, |whole|);
    ScanDigits(frac, tail, value, |whole|, Some(0));
  }

  /** The scan of a numeral's body reads its digits, fraction length and exponent text. */
  lemma {:induction false} ScanNumeral(whole: string, fraction: Option<string>, exponent: Option<string>)
    requires AllDigits(whole) && |whole| > 0
    requires fraction.Some? ==> AllDigits(fraction.value)
    ensures AllDigits(whole + FractionText(fraction))
    ensures ScanMantissa(MantissaText(whole, fraction) + ExponentPart(exponent), 0, 0, None) ==
            Some(Mantissa(DigitsValue(whole + FractionText(fraction)), |whole| + |FractionText(fraction)|,
                          |FractionText(fraction)|, exponent))
  {
    ScanMantissaText(whole, fraction, ExponentPart(exponent));
    ScanExponentPart(exponent, DigitsValue(whole + FractionText(fraction)), |whole| + |FractionText(fraction)|,
                     if fraction.Some? then Some(|fraction.value|) else None);
  }

  /** Parse reads the sign and hands the rest to ParseBody. */
  lemma {:induction false} ParseSigned(s: string, negative: bool, body: string)
    requires s == (if negative then "-" else "") + body
    requires |body| > 0 && IsDigit(body[0])
    ensures Parse(s) == ParseBody(s, negative, body)
  {
    if negative {
      assert s[0] == '-' && s[1..] == body;
    } else {
      assert s == body;
    }
  }

  /** The value ParseBody gives to the body of a numeral. */
  lemma {:induction false} ParseBodyOfNumeral(s: string, negative: bool, whole: string, fraction: Option<string>, exponent: Option<string>)
    requires AllDigits(whole) && |whole| > 0
    requires fraction.Some? ==> AllDigits(fraction.value)
    requires exponent.Some? ==> ParseSignedDecimal(exponent.value).Some?
    ensures AllDigits(whole + FractionText(fraction))
    ensures var scale := |FractionText(fraction)| - ExponentValue(exponent);
            ParseBody(s, negative, MantissaText(whole, fraction) + ExponentPart(exponent)) ==
              if INT_MIN <= ExponentValue(exponent) <= INT_MAX && INT_MIN <= scale <= INT_MAX then
                Success(Decimal(Signed(negative, DigitsValue(whole + FractionText(fraction))), scale))
              else Failure(NumberFormat(s))
  {
    ScanNumeral(whole, fraction, exponent);
    var m := Mantissa(DigitsValue(whole + FractionText(fraction)), |whole| + |FractionText(fraction)|,
                      |FractionText(fraction)|, exponent);
    var x := ExponentValue(exponent);
    assert (if m.exponent.Some? then ParseSignedDecimal(m.exponent.value) else Some(0)) == Some(x);
    ParseBodyAt(s, negative, MantissaText(whole, fraction) + ExponentPart(exponent), m, x);
  }

  lemma {:induction false} ParseBodyAt(s: string, negative: bool, body: string, m: Mantissa, x: int)
    requires ScanMantissa(body, 0, 0, None) == Some(m)
    requires (if m.exponent.Some? then ParseSignedDecimal(m.exponent.value) else Some(0)) == Some(x)
    ensures ParseBody(s, negative, body) ==
            if INT_MIN <= x <= INT_MAX && INT_MIN <= m.fractionDigits - x <= INT_MAX then
              Success(Decimal(Signed(negative, m.magnitude), m.fractionDigits - x))
            else Failure(NumberFormat(s))
  {
  }

  /**
   * Reading a Numeral back gives its sign, all its digits as the unscaled
   * magnitude, and the number of fraction digits minus the exponent as the
   * scale, or a NumberFormatException when the exponent or that scale does
   * not fit in an int.
   */
  lemma {:induction false} ParseNumeral(negative: bool, whole: string, fraction: Option<string>, exponent: Option<string>)
    requires AllDigits(whole) && |whole| > 0
    requires fraction.Some? ==> AllDigits(fraction.value)
    requires exponent.Some? ==> ParseSignedDecimal(exponent.value).Some?
    ensures AllDigits(whole + FractionText(fraction))
    ensures var scale := |FractionText(fraction)| - ExponentValue(exponent);
            Parse(Numeral(negative, whole, fraction, exponent)) ==
              if INT_MIN <= ExponentValue(exponent) <= INT_MAX && INT_MIN <= scale <= INT_MAX then
                Success(Decimal(Signed(negative, DigitsValue(whole + FractionText(fraction))), scale))
              else Failure(NumberFormat(Numeral(negative, whole, fraction, exponent)))
  {
    var s := Numeral(negative, whole, fraction, exponent);
    var body := MantissaText(whole, fraction) + ExponentPart(exponent);
    assert s == (if negative then "-" else "") + body;
    assert body[0] == whole[0];
    ParseSigned(s, negative, body);
    ParseBodyOfNumeral(s, negative, whole, fraction, exponent);
  }

  /** A numeral whose digits, sign and scale are those of d reads back as d. */
  lemma {:induction false} NumeralRoundTrip(d: BigDecimal, whole: string, fraction: Option<string>, exponent: Option<string>)
    requires AllDigits(whole) && |whole| > 0
    requires fraction.Some? ==> AllDigits(fraction.value)
    requires exponent.Some? ==> ParseSignedDecimal(exponent.value).Some?
    requires AllDigits(whole + FractionText(fraction))
    requires DigitsValue(whole + FractionText(fraction)) == Magnitude(d.unscaled)
    requires |FractionText(fraction)| - ExponentValue(exponent) == d.scale
    requires INT_MIN <= ExponentValue(exponent) <= INT_MAX
    ensures Parse(Numeral(d.unscaled < 0, whole, fraction, exponent)) == Success(d)
  {
    var s := Numeral(d.unscaled < 0, whole, fraction, exponent);
    ParseNumeral(d.unscaled < 0, whole, fraction, exponent);
    assert INT_MIN <= ExponentValue(exponent) <= INT_MAX && INT_MIN <= d.scale <= INT_MAX;
    assert Parse(s) == Success(Decimal(Signed(d.unscaled < 0, Magnitude(d.unscaled)), d.scale));
    assert Signed(d.unscaled < 0, Magnitude(d.unscaled)) == d.unscaled;
  }

  /** Scale 0: the coefficient alone, "-42". */
  lemma {:induction false} IntegralRoundTrip(d: BigDecimal)
    requires d.scale == 0
    ensures Parse(ToString(d)) == Success(d)
  {
    var coeff := NatToDecimal(Magnitude(d.unscaled));
    DigitsValueOfDecimal(Magnitude(d.unscaled));
    assert coeff + FractionText(None) == coeff;
    NumeralRoundTrip(d, coeff, None, None);
  }

  /** Plain notation with digits before the point, "3.14". */
  lemma {:induction false} PlainRoundTrip(d: BigDecimal)
    requires d.scale > 0 && -d.scale + (|NatToDecimal(Magnitude(d.unscaled))| - 1) >= -6
    requires d.scale < |NatToDecimal(Magnitude(d.unscaled))|
    ensures Parse(ToString(d)) == Success(d)
  {
    var coeff := NatToDecimal(Magnitude(d.unscaled));
    DigitsValueOfDecimal(Magnitude(d.unscaled));
    var k := |coeff| - d.scale;
    assert coeff[..k] + FractionText(Some(coeff[k..])) == coeff;
    NumeralRoundTrip(d, coeff[..k], Some(coeff[k..]), None);
  }

  /** Plain notation below one, "0.00314". */
  lemma {:induction false} SmallRoundTrip(d: BigDecimal)
    requires d.scale > 0 && -d.scale + (|NatToDecimal(Magnitude(d.unscaled))| - 1) >= -6
    requires d.scale >= |NatToDecimal(Magnitude(d.unscaled))|
    ensures Parse(ToString(d)) == Success(d)
  {
    var coeff := NatToDecimal(Magnitude(d.unscaled));
    DigitsValueOfDecimal(Magnitude(d.unscaled));
    SmallNumeral(d, coeff, d.scale - |coeff|);
  }

  /** "0." then zeros then the coefficient reads back. */
  lemma {:induction false} SmallNumeral(d: BigDecimal, coeff: string, n: nat)
    requires AllDigits(coeff) && DigitsValue(coeff) == Magnitude(d.unscaled)
    requires d.scale == n + |coeff|
    ensures Parse(Numeral(d.unscaled < 0, "0", Some(Zeros(n) + coeff), None)) == Success(d)
  {
    LeadingZeroNumeral(n, coeff);
    NumeralRoundTrip(d, "0", Some(Zeros(n) + coeff), None);
  }

  /** Scientific notation, "3.14E-10" or "4E+3". */
  lemma {:induction false} ScientificRoundTrip(d: BigDecimal)
    requires !(d.scale >= 0 && AdjustedExponent(d) >= -6)
    requires AdjustedExponent(d) <= INT_MAX
    ensures Parse(ToString(d)) == Success(d)
  {
    var coeff := NatToDecimal(Magnitude(d.unscaled));
    DigitsValueOfDecimal(Magnitude(d.unscaled));
    var adjusted := AdjustedExponent(d);
    var exponent := if adjusted != 0 then Some(ExponentText(adjusted)) else None;
    if adjusted != 0 {
      ExponentTextParses(adjusted);
    }
    ScientificLayout(d);
    ScientificNumeral(d, coeff, exponent);
  }

  /** The scientific layout of toString: one digit, the others after the point, the exponent unless it is 0. */
  lemma {:induction false} ScientificLayout(d: BigDecimal)
    requires !(d.scale >= 0 && AdjustedExponent(d) >= -6)
    ensures var coeff := NatToDecimal(Magnitude(d.unscaled));
            ToString(d) == Numeral(d.unscaled < 0, coeff[..1], if |coeff| > 1 then Some(coeff[1..]) else None,
                                   if AdjustedExponent(d) != 0 then Some(ExponentText(AdjustedExponent(d))) else None)
  {
  }

  /** One digit, the other digits after the point, and the exponent text: the scientific layout reads back. */
  lemma {:induction false} ScientificNumeral(d: BigDecimal, coeff: string, exponent: Option<string>)
    requires AllDigits(coeff) && |coeff| > 0 && DigitsValue(coeff) == Magnitude(d.unscaled)
    requires exponent.Some? ==> ParseSignedDecimal(exponent.value).Some?
    requires (|coeff| - 1) - ExponentValue(exponent) == d.scale
    requires INT_MIN <= ExponentValue(exponent) <= INT_MAX
    ensures Parse(Numeral(d.unscaled < 0, coeff[..1], if |coeff| > 1 then Some(coeff[1..]) else None, exponent)) == Success(d)
  {
    var fraction := if |coeff| > 1 then Some(coeff[1..]) else None;
    assert coeff[..1] + FractionText(fraction) == coeff;
    NumeralRoundTrip(d, coeff[..1], fraction, exponent);
  }

  /**
   * The exponent toString writes in scientific notation: the position of the
   * leading digit relative to the point.
   */
  function AdjustedExponent(d: BigDecimal): (x: int)
    ensures x >= -INT_MAX
  {
    -d.scale + (|NatToDecimal(Magnitude(d.unscaled))| - 1)
  }

  /**
   * new BigDecimal(d.toString()) equals d, the same unscaled value and the
   * same scale, unless toString writes an exponent beyond int.
   */
  lemma {:induction false} ToStringRoundTrip(d: BigDecimal)
    requires d.scale >= 0 || AdjustedExponent(d) <= INT_MAX
    ensures Parse(ToString(d)) == Success(d)
  {
    var coeff := NatToDecimal(Magnitude(d.unscaled));
    var adjusted := -d.scale + (|coeff| - 1);
    if d.scale == 0 {
      IntegralRoundTrip(d);
    } else if d.scale >= 0 && adjusted >= -6 {
      if d.scale >= |coeff| {
        SmallRoundTrip(d);
      } else {
        PlainRoundTrip(d);
      }
    } else {
      ScientificRoundTrip(d);
    }
  }

  /**
   * When toString writes an exponent beyond int, as "1E+2147483648" for
   * unscaled value 1 and scale -2^31, new BigDecimal throws on it.
   */
  lemma {:induction false} ToStringExponentOverflow(d: BigDecimal)
    requires d.scale < 0 && AdjustedExponent(d) > INT_MAX
    ensures Parse(ToString(d)) == Failure(NumberFormat(ToString(d)))
  {
    var coeff := NatToDecimal(Magnitude(d.unscaled));
    ScientificLayout(d);
    ExponentOverflowNumeral(d.unscaled < 0, coeff[..1], if |coeff| > 1 then Some(coeff[1..]) else None, AdjustedExponent(d));
  }

  /** A numeral whose exponent is beyond int is rejected, whatever its scale. */
  lemma {:induction false} ExponentOverflowNumeral(negative: bool, whole: string, fraction: Option<string>, x: int)
    requires AllDigits(whole) && |whole| > 0
    requires fraction.Some? ==> AllDigits(fraction.value)
    requires x > INT_MAX
    ensures Parse(Numeral(negative, whole, fraction, Some(ExponentText(x)))) ==
            Failure(NumberFormat(Numeral(negative, whole, fraction, Some(ExponentText(x)))))
  {
    ExponentTextParses(x);
    ParseNumeral(negative, whole, fraction, Some(ExponentText(x)));
  }


  /** With scale 0, BigDecimal.toString is the integer's decimal rendering. */
  lemma {:induction false} ScaleZeroIsIntegerText(d: BigDecimal)
    requires d.scale == 0
    ensures ToString(d) == IntegerToString(d.unscaled)
  {
    assert NatToDecimal(Magnitude(d.unscaled)) + "" + "" == NatToDecimal(Magnitude(d.unscaled));
  }
}
