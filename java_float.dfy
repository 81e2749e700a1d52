/**
 * The text Float.parseFloat (and Double.parseDouble) accepts: after trimming
 * the characters up to U+0020 at both ends, an optional sign followed by
 * "NaN", "Infinity", a decimal floating-point literal or a hexadecimal one,
 * the literals optionally ending in one of f, F, d, D.  Anything else throws
 * NumberFormatException.  The value denoted is not computed.
 */
module JavaFloatSyntax {
  import opened JavaNumbers

  predicate IsHexDigit(c: char) {
    IsDigit(c) || 'a' <= c <= 'f' || 'A' <= c <= 'F'
  }

  /** The length of the longest prefix of s made of hexadecimal digits. */
  function HexRun(s: string): (n: nat)
    ensures n <= |s|
    ensures forall i :: 0 <= i < n ==> IsHexDigit(s[i])
    ensures n < |s| ==> !IsHexDigit(s[n])
  {
    if |s| > 0 && IsHexDigit(s[0]) then 1 + HexRun(s[1..]) else 0
  }

  /** String.trim: drops the characters up to U+0020 at both ends. */
  function Trim(s: string): string {
    TrimEnd(TrimStart(s))
  }

  function TrimStart(s: string): (r: string)
    ensures |s| > 0 && s[0] > ' ' ==> r == s
    ensures r == "" || r[0] > ' '
  {
    if |s| > 0 && s[0] <= ' ' then TrimStart(s[1..]) else s
  }

  /** The end of s with the trailing characters up to U+0020 dropped: a prefix keeping every later one. */
  function TrimEnd(s: string): (r: string)
    ensures |r| <= |s| && r == s[..|r|]
    ensures forall i :: 0 <= i < |s| && s[i] > ' ' ==> i < |r|
    ensures r == "" || r[|r| - 1] > ' '
  {
    if |s| > 0 && s[|s| - 1] <= ' ' then TrimEnd(s[..|s| - 1]) else s
  }

  predicate IsSign(c: char) {
    c == '+' || c == '-'
  }

  /** FloatTypeSuffix, optional. */
  predicate IsSuffix(s: string) {
    s == "" || s == "f" || s == "F" || s == "d" || s == "D"
  }

  /** SignedInteger followed by an optional suffix: the digits of an exponent. */
  predicate ExponentDigits(s: string) {
    var t := if |s| > 0 && IsSign(s[0]) then s[1..] else s;
    var k := DigitRun(t);
    k > 0 && IsSuffix(t[k..])
  }

  /** After the significand of a decimal literal: an optional exponent, then an optional suffix. */
  predicate DecimalTail(s: string) {
    IsSuffix(s) || (|s| > 0 && (s[0] == 'e' || s[0] == 'E') && ExponentDigits(s[1..]))
  }

  /** Digits [. Digits?] or . Digits, then the tail. */
  predicate IsDecimalLiteral(b: string) {
    var n := DigitRun(b);
    var rest := b[n..];
    if |rest| > 0 && rest[0] == '.' then
      var m := DigitRun(rest[1..]);
      (n > 0 || m > 0) && DecimalTail(rest[1 + m..])
    else
      n > 0 && DecimalTail(rest)
  }

  /** 0x HexDigits [. HexDigits?] or 0x . HexDigits, then a mandatory binary exponent. */
  predicate IsHexLiteral(b: string) {
    |b| >= 2 && b[0] == '0' && (b[1] == 'x' || b[1] == 'X') &&
    var h := b[2..];
    var n := HexRun(h);
    var rest := h[n..];
    var m := if |rest| > 0 && rest[0] == '.' then HexRun(rest[1..]) else 0;
    var after := if |rest| > 0 && rest[0] == '.' then rest[1 + m..] else rest;
    (n > 0 || m > 0) && |after| > 0 && (after[0] == 'p' || after[0] == 'P') && ExponentDigits(after[1..])
  }

  /** An unsigned FloatValue. */
  predicate IsUnsignedFloat(b: string) {
    b == "NaN" || b == "Infinity" || IsDecimalLiteral(b) || IsHexLiteral(b)
  }

  /** The text Float.parseFloat accepts. */
  predicate IsFloatText(s: string) {
    var t := Trim(s);
    if |t| > 0 && IsSign(t[0]) then IsUnsignedFloat(t[1..]) else IsUnsignedFloat(t)
  }

  // ---------------------------------------------------------------------
  // Properties
  // ---------------------------------------------------------------------

  /** A character that continues a number or starts a hex prefix, an exponent or a suffix. */
  predicate IsNumberChar(c: char) {
    IsDigit(c) || c == '.' || c == 'e' || c == 'E' || c == 'f' || c == 'F' || c == 'd' || c == 'D'
    || c == 'x' || c == 'X'
  }

  lemma {:induction false} DigitRunOf(digits: string, c: char, rest: string)
    requires AllDigits(digits) && !IsDigit(c)
    ensures DigitRun(digits + [c] + rest) == |digits|
  {
    assert digits + [c] + rest == digits + ([c] + rest);
    DigitRunAppend(digits, [c] + rest);
  }

  /** A decimal literal cannot stop its leading digits at a character that is no number character. */
  lemma {:induction false} NotDecimalAtMark(b: string)
    requires DigitRun(b) < |b| && !IsNumberChar(b[DigitRun(b)])
    ensures !IsDecimalLiteral(b)
  {
    var rest := b[DigitRun(b)..];
    assert rest[0] == b[DigitRun(b)];
    assert !IsSuffix(rest) by {
      if |rest| == 1 { assert rest == [rest[0]]; }
    }
  }

  /** A hexadecimal literal needs an x at index 1. */
  lemma {:induction false} NotHexWithoutX(b: string)
    requires |b| >= 2 && b[1] != 'x' && b[1] != 'X'
    ensures !IsHexLiteral(b)
  {
  }

  /**
   * Digits followed by a character that neither continues a number nor
   * starts an exponent or suffix are no unsigned float.
   */
  lemma {:induction false} UnsignedDigitsThenMark(digits: string, c: char, rest: string)
    requires |digits| > 0 && AllDigits(digits)
    requires !IsNumberChar(c)
    ensures !IsUnsignedFloat(digits + [c] + rest)
  {
    var b := digits + [c] + rest;
    DigitRunOf(digits, c, rest);
    assert b[|digits|] == c;
    NotDecimalAtMark(b);
    assert b[1] == (if |digits| > 1 then digits[1] else c);
    NotHexWithoutX(b);
    assert IsDigit(b[0]) by { assert b[0] == digits[0]; }
    assert b != "NaN" && b != "Infinity" by {
      assert "NaN"[0] == 'N' && "Infinity"[0] == 'I';
    }
  }

  /** With s[0] above U+0020, trimming keeps every character up to the last one above U+0020. */
  lemma {:induction false} TrimKeepsPrefix(s: string, k: nat)
    requires |s| > 0 && s[0] > ' ' && k < |s| && s[k] > ' '
    ensures k < |Trim(s)| && Trim(s)[..k + 1] == s[..k + 1]
  {
    assert TrimStart(s) == s;
  }

  /** Text starting with a piece whose first and last characters are above U+0020 keeps it when trimmed. */
  lemma {:induction false} TrimKeepsStart(p: string, rest: string)
    requires |p| > 0 && p[0] > ' ' && p[|p| - 1] > ' '
    ensures |p| <= |Trim(p + rest)| && Trim(p + rest) == p + Trim(p + rest)[|p|..]
  {
    var s := p + rest;
    var k := |p| - 1;
    TrimKeepsPrefix(s, k);
    var t := Trim(s);
    assert s[..k + 1] == p;
    assert t == t[..k + 1] + t[k + 1..];
  }

  /**
   * Text that starts with an optional sign and digits, followed by such a
   * mark, is not a float: Float.parseFloat throws on it, whatever follows.
   */
  lemma {:induction false} DigitsThenMarkIsNotFloat(sign: string, digits: string, c: char, rest: string)
    requires sign == "" || sign == "+" || sign == "-"
    requires |digits| > 0 && AllDigits(digits)
    requires !IsNumberChar(c) && c > ' '
    ensures !IsFloatText(sign + digits + [c] + rest)
  {
    var p := sign + digits + [c];
    assert p[0] == (if sign == "" then digits[0] else sign[0]);
    TrimKeepsStart(p, rest);
    var s := p + rest;
    var t := Trim(s);
    var tail := t[|p|..];
    Regroup(sign, digits, c, tail);
    UnsignedDigitsThenMark(digits, c, tail);
    SignThenUnsigned(s, sign, digits + [c] + tail);
  }

  lemma Regroup(sign: string, digits: string, c: char, tail: string)
    ensures sign + digits + [c] + tail == sign + (digits + [c] + tail)
  {
  }

  /** Text trimming to an optional sign and a non-float starting with a digit is no float text. */
  lemma {:induction false} SignThenUnsigned(s: string, sign: string, u: string)
    requires sign == "" || sign == "+" || sign == "-"
    requires |u| > 0 && IsDigit(u[0]) && !IsUnsignedFloat(u)
    requires Trim(s) == sign + u
    ensures !IsFloatText(s)
  {
    if sign != "" {
      assert (sign + u)[1..] == u;
    } else {
      assert sign + u == u;
    }
  }

  /** Text whose first and last characters are above U+0020 is its own trim. */
  lemma {:induction false} TrimUnchanged(s: string)
    requires s == "" || (s[0] > ' ' && s[|s| - 1] > ' ')
    ensures Trim(s) == s
  {
  }

  /** Trimming twice trims no more than once. */
  lemma {:induction false} TrimIdempotent(s: string)
    ensures Trim(Trim(s)) == Trim(s)
  {
    var t := Trim(s);
    assert t == "" || t[0] == TrimStart(s)[0];
    TrimUnchanged(t);
  }

  /** Float.parseFloat trims its argument itself: padding it beforehand changes nothing. */
  lemma {:induction false} FloatTextIgnoresTrim(s: string)
    ensures IsFloatText(s) <==> IsFloatText(Trim(s))
  {
    TrimIdempotent(s);
  }

  /** Characters up to U+0020 and nothing else trim to nothing from the start. */
  lemma {:induction false} TrimStartBlank(s: string)
    requires forall i :: 0 <= i < |s| ==> s[i] <= ' '
    ensures TrimStart(s) == ""
  {
    if |s| > 0 {
      TrimStartBlank(s[1..]);
    }
  }

  /** Text made only of characters up to U+0020, the empty text included, is not float text. */
  lemma {:induction false} BlankIsNotFloat(s: string)
    requires forall i :: 0 <= i < |s| ==> s[i] <= ' '
    ensures !IsFloatText(s)
  {
    TrimStartBlank(s);
    assert Trim(s) == "";
    assert !IsDecimalLiteral("") by { assert DigitRun("") == 0; }
  }

  /** An unsigned decimal literal with a point: digits, '.', digits, a suffix, at least one digit in all. */
  lemma {:induction false} PointLiteralIsDecimal(whole: string, fraction: string, suffix: string)
    requires AllDigits(whole) && AllDigits(fraction) && |whole| + |fraction| > 0
    requires IsSuffix(suffix)
    ensures IsDecimalLiteral(whole + ("." + (fraction + suffix)))
  {
    var b := whole + ("." + (fraction + suffix));
    DigitRunAppend(whole, "." + (fraction + suffix));
    assert DigitRun("." + (fraction + suffix)) == 0;
    var rest := b[|whole|..];
    assert rest == "." + (fraction + suffix);
    assert rest[1..] == fraction + suffix;
    DigitRunAppend(fraction, suffix);
    assert DigitRun(suffix) == 0 by {
      if suffix != "" { assert suffix[0] in "fFdD"; }
    }
    assert rest[1 + |fraction|..] == suffix;
  }

  /** An unsigned float behind an optional sign, with nothing to trim, is float text. */
  lemma {:induction false} SignThenFloat(s: string, sign: string, u: string)
    requires sign == "" || sign == "+" || sign == "-"
    requires |u| > 0 && !IsSign(u[0]) && IsUnsignedFloat(u)
    requires s == sign + u && Trim(s) == s
    ensures IsFloatText(s)
  {
    if sign != "" {
      assert s[1..] == u;
    } else {
      assert s == u;
    }
  }

  /** The last character of a literal ending in digits, a '.' or a suffix is above U+0020. */
  lemma {:induction false} PointLiteralEnds(b: string, whole: string, fraction: string, suffix: string)
    requires b == whole + ("." + (fraction + suffix)) && AllDigits(whole) && AllDigits(fraction) && IsSuffix(suffix)
    ensures b[|b| - 1] > ' ' && (IsDigit(b[0]) || b[0] == '.')
  {
    assert b[0] == (if whole != "" then whole[0] else '.');
    if suffix != "" { assert b[|b| - 1] == suffix[0]; }
    else if fraction != "" { assert b[|b| - 1] == fraction[|fraction| - 1]; }
    else { assert b[|b| - 1] == '.'; }
  }

  /**
   * An optional sign, digits, a '.', digits and an optional f, F, d or D
   * suffix, with at least one digit, is float text: "-1.5", "+.5f", "3.".
   */
  lemma {:induction false} DecimalFractionIsFloat(sign: string, whole: string, fraction: string, suffix: string)
    requires sign == "" || sign == "+" || sign == "-"
    requires AllDigits(whole) && AllDigits(fraction) && |whole| + |fraction| > 0
    requires IsSuffix(suffix)
    ensures IsFloatText(sign + whole + "." + fraction + suffix)
  {
    var b := whole + ("." + (fraction + suffix));
    RegroupPoint(sign, whole, fraction, suffix);
    PointLiteralIsDecimal(whole, fraction, suffix);
    PointLiteralEnds(b, whole, fraction, suffix);
    SignedTrimUnchanged(sign, b);
    SignThenFloat(sign + b, sign, b);
  }

  lemma RegroupPoint(sign: string, whole: string, fraction: string, suffix: string)
    ensures sign + whole + "." + fraction + suffix == sign + (whole + ("." + (fraction + suffix)))
  {
  }

  /** A literal starting with a digit or '.' and ending above U+0020, behind an optional sign, is its own trim. */
  lemma {:induction false} SignedTrimUnchanged(sign: string, b: string)
    requires sign == "" || sign == "+" || sign == "-"
    requires |b| > 0 && (IsDigit(b[0]) || b[0] == '.') && b[|b| - 1] > ' '
    ensures Trim(sign + b) == sign + b && !IsSign(b[0])
  {
    var s := sign + b;
    assert s[0] == (if sign == "" then b[0] else sign[0]);
    assert s[|s| - 1] == b[|b| - 1];
    TrimUnchanged(s);
  }

  /** Float.parseFloat rejects the empty text and text without a digit such as "abc". */
  lemma FloatTextRejects()
    ensures !IsFloatText("abc") && !IsFloatText("")
  {
    assert Trim("abc") == "abc";
    assert !IsDecimalLiteral("abc") by { assert DigitRun("abc") == 0; }
  }

  /** Float.parseFloat accepts a signed fraction such as "-1.5". */
  lemma FloatTextAccepts()
    ensures IsFloatText("-1.5")
  {
    assert Trim("-1.5") == "-1.5" by {
      assert TrimStart("-1.5") == "-1.5";
    }
    assert "-1.5"[1..] == "1.5";
    assert IsDecimalLiteral("1.5") by {
      assert DigitRun("1.5") == 1 by { assert "1.5"[1..] == ".5"; }
      assert "1.5"[1..] == ".5";
      assert DigitRun("5") == 1 by { assert "5"[1..] == ""; }
      assert ".5"[1..] == "5";
      assert IsSuffix(".5"[2..]);
    }
  }
}
