/**
 * The value accessors of an RDF literal (the default methods of Literal):
 * typed parsers of the lexical form, the shape-based temporal classifier,
 * and the datatype-driven dispatchers asDynamic and asObject.
 */
module LiteralCoercion {
  import opened Results
  import opened JavaNumbers
  import opened JavaBigDecimal
  import opened JavaTime
  import opened Terms
  import opened JavaFloatSyntax

  /** Which java.time type asTemporal hands the lexical form to. */
  datatype TemporalKind =
    | OffsetTimeKind
    | LocalTimeKind
    | OffsetDateTimeKind
    | LocalDateTimeKind
    | LocalDateKind

  /**
   * The objects asDynamic and asObject return, tagged by their Java type.
   * Floating point is not evaluated: FloatValue and DoubleValue hold the text
   * handed to Float.parseFloat.
   */
  datatype Value =
    | BigIntegerValue(integer: int)
    | LongValue(long: int)
    | DecimalValue(decimal: BigDecimal)
    | FloatValue(floatText: string)
    | DoubleValue(doubleText: string)
    | RawValue(raw: string)
    | NTriplesValue(ntriples: string)

  /** The datatypes asDynamic reads through asBigInteger. */
  const BIG_INTEGER_TYPES: set<string> := {
    XSD_INTEGER,
    "http://www.w3.org/2001/XMLSchema#unsignedLong",
    "http://www.w3.org/2001/XMLSchema#nonNegativeInteger",
    "http://www.w3.org/2001/XMLSchema#positiveInteger"
  }
  /** The datatypes asDynamic reads through asLong. */
  const LONG_TYPES: set<string> := {
    "http://www.w3.org/2001/XMLSchema#byte",
    "http://www.w3.org/2001/XMLSchema#short",
    "http://www.w3.org/2001/XMLSchema#long",
    "http://www.w3.org/2001/XMLSchema#int",
    "http://www.w3.org/2001/XMLSchema#unsignedInt",
    "http://www.w3.org/2001/XMLSchema#unsignedShort",
    "http://www.w3.org/2001/XMLSchema#unsignedByte"
  }
  /** The datatypes asDynamic reads through asDouble. */
  const DOUBLE_TYPES: set<string> := {XSD_DOUBLE, XSD_DATE, XSD_TIME, XSD_DATETIME}

  // ---------------------------------------------------------------------
  // Integer, decimal and boolean accessors: parsers of the lexical form
  // ---------------------------------------------------------------------

  /** asByte: Byte.parseByte of the lexical form; out-of-range values fail, never wrap. */
  function AsByte(lit: LiteralTerm): (r: Result<int>)
    ensures r.Success? <==> ParseSignedDecimal(lit.lexicalForm).Some?
                            && BYTE_MIN <= ParseSignedDecimal(lit.lexicalForm).value <= BYTE_MAX
    ensures r.Success? ==> r.value == ParseSignedDecimal(lit.lexicalForm).value
    ensures r.Failure? ==> r.error == NumberFormat(lit.lexicalForm)
  {
    ParseByte(lit.lexicalForm)
  }

  /** asShort: Short.parseShort of the lexical form. */
  function AsShort(lit: LiteralTerm): (r: Result<int>)
    ensures r.Success? <==> ParseSignedDecimal(lit.lexicalForm).Some?
                            && SHORT_MIN <= ParseSignedDecimal(lit.lexicalForm).value <= SHORT_MAX
    ensures r.Success? ==> r.value == ParseSignedDecimal(lit.lexicalForm).value
    ensures r.Failure? ==> r.error == NumberFormat(lit.lexicalForm)
  {
    ParseShort(lit.lexicalForm)
  }

  /** asInteger: Integer.parseInt of the lexical form. */
  function AsInteger(lit: LiteralTerm): (r: Result<int>)
    ensures r.Success? <==> ParseSignedDecimal(lit.lexicalForm).Some?
                            && INT_MIN <= ParseSignedDecimal(lit.lexicalForm).value <= INT_MAX
    ensures r.Success? ==> r.value == ParseSignedDecimal(lit.lexicalForm).value
    ensures r.Failure? ==> r.error == NumberFormat(lit.lexicalForm)
  {
    ParseInt(lit.lexicalForm)
  }

  /** asLong: Long.parseLong of the lexical form. */
  function AsLong(lit: LiteralTerm): (r: Result<int>)
    ensures r.Success? <==> ParseSignedDecimal(lit.lexicalForm).Some?
                            && LONG_MIN <= ParseSignedDecimal(lit.lexicalForm).value <= LONG_MAX
    ensures r.Success? ==> r.value == ParseSignedDecimal(lit.lexicalForm).value
    ensures r.Failure? ==> r.error == NumberFormat(lit.lexicalForm)
  {
    ParseLong(lit.lexicalForm)
  }

  /** asBigInteger: new BigInteger of the lexical form, without a range. */
  function AsBigInteger(lit: LiteralTerm): (r: Result<int>)
    ensures r.Success? <==> ParseSignedDecimal(lit.lexicalForm).Some?
    ensures r.Success? ==> r.value == ParseSignedDecimal(lit.lexicalForm).value
    ensures r.Failure? ==> r.error == NumberFormat(lit.lexicalForm)
  {
    ParseBigInteger(lit.lexicalForm)
  }

  /** asBigDecimal: new BigDecimal of the lexical form. */
  function AsBigDecimal(lit: LiteralTerm): (r: Result<BigDecimal>)
    ensures r.Success? <==> ReadNumeral(lit.lexicalForm).Some? && INT_MIN <= ReadNumeral(lit.lexicalForm).value.scale <= INT_MAX
    ensures r.Success? ==> r.value == ReadNumeral(lit.lexicalForm).value
    ensures r.Failure? ==> r.error == NumberFormat(lit.lexicalForm)
  {
    JavaBigDecimal.Parse(lit.lexicalForm)
  }

  function LowerAscii(c: char): char {
    if 'A' <= c <= 'Z' then (c as int + 32) as char else c
  }

  /**
   * Boolean.parseBoolean: true exactly when the text equals "true" ignoring
   * case (no other character folds onto the letters of "true").
   */
  function ParseBoolean(s: string): (r: bool)
    ensures r <==> |s| == 4 && forall i :: 0 <= i < 4 ==> LowerAscii(s[i]) == "true"[i]
  {
    |s| == 4 && LowerAscii(s[0]) == 't' && LowerAscii(s[1]) == 'r'
    && LowerAscii(s[2]) == 'u' && LowerAscii(s[3]) == 'e'
  }

  /** asBoolean: Boolean.parseBoolean of the lexical form; it never fails. */
  function AsBoolean(lit: LiteralTerm): (r: bool)
    ensures r <==> |lit.lexicalForm| == 4 && forall i :: 0 <= i < 4 ==> LowerAscii(lit.lexicalForm[i]) == "true"[i]
    ensures lit.lexicalForm == "true" ==> r
    ensures lit.lexicalForm == "false" ==> !r
  {
    ParseBoolean(lit.lexicalForm)
  }

  /** The integer accessors read the lexical form only: the datatype plays no part. */
  lemma {:induction false} IntegerAccessorsIgnoreDatatype(a: LiteralTerm, b: LiteralTerm)
    requires a.lexicalForm == b.lexicalForm
    ensures AsByte(a) == AsByte(b) && AsShort(a) == AsShort(b)
    ensures AsInteger(a) == AsInteger(b) && AsLong(a) == AsLong(b)
    ensures AsBigInteger(a) == AsBigInteger(b) && AsBigDecimal(a) == AsBigDecimal(b)
  {
  }

  // ---------------------------------------------------------------------
  // asTemporal
  // ---------------------------------------------------------------------

  predicate HasOffsetMark(s: string) {
    '+' in s || '-' in s || 'Z' in s
  }

  /**
   * asTemporal: the java.time type chosen from the shape of the lexical form.
   * charAt(2) is read first, so forms shorter than three characters throw.
   * Each form of length three or more gets exactly one kind.
   */
  function AsTemporal(lit: LiteralTerm): (r: Result<TemporalKind>)
    ensures var lf := lit.lexicalForm;
      && (r.Failure? <==> |lf| < 3)
      && (r.Failure? ==> r.error == IndexOutOfBounds(2))
      && (r == Success(OffsetTimeKind) <==> |lf| >= 3 && lf[2] == ':' && HasOffsetMark(lf))
      && (r == Success(LocalTimeKind) <==> |lf| >= 3 && lf[2] == ':' && !HasOffsetMark(lf))
      && (r == Success(OffsetDateTimeKind) <==> |lf| > 19 && lf[2] != ':')
      && (r == Success(LocalDateTimeKind) <==> 10 < |lf| <= 19 && lf[2] != ':')
      && (r == Success(LocalDateKind) <==> 3 <= |lf| <= 10 && lf[2] != ':')
  {
    var lf := lit.lexicalForm;
    if |lf| < 3 then Failure(IndexOutOfBounds(2))
    else if lf[2] == ':' then
      if '+' in lf || '-' in lf || 'Z' in lf then Success(OffsetTimeKind) else Success(LocalTimeKind)
    else if |lf| > 19 then Success(OffsetDateTimeKind)
    else if |lf| > 10 then Success(LocalDateTimeKind)
    else Success(LocalDateKind)
  }

  // ---------------------------------------------------------------------
  // asRawString, asDynamic and asObject
  // ---------------------------------------------------------------------

  /** asRawString: the lexical form, unchanged. */
  function AsRawString(lit: LiteralTerm): (r: string)
    ensures r == lit.lexicalForm
  {
    lit.lexicalForm
  }

  /**
   * asFloat: Float.parseFloat of the lexical form.  It throws exactly when
   * the text is outside Java's floating-point grammar; the value read is not
   * evaluated and is kept as its text.
   */
  function AsFloat(lit: LiteralTerm): (r: Result<Value>)
    ensures r.Success? <==> IsFloatText(lit.lexicalForm)
    ensures r.Success? ==> r.value == FloatValue(lit.lexicalForm)
    ensures r.Failure? ==> r.error == NumberFormat(lit.lexicalForm)
  {
    if IsFloatText(lit.lexicalForm) then Success(FloatValue(lit.lexicalForm))
    else Failure(NumberFormat(lit.lexicalForm))
  }

  /** asDouble: also Float.parseFloat of the lexical form, widened to double; it throws where asFloat does. */
  function AsDouble(lit: LiteralTerm): (r: Result<Value>)
    ensures r.Success? <==> IsFloatText(lit.lexicalForm)
    ensures r.Success? ==> r.value == DoubleValue(lit.lexicalForm)
    ensures r.Failure? ==> r.error == NumberFormat(lit.lexicalForm)
  {
    if IsFloatText(lit.lexicalForm) then Success(DoubleValue(lit.lexicalForm))
    else Failure(NumberFormat(lit.lexicalForm))
  }

  /** The accessor asDynamic's switch picks for a datatype IRI. */
  datatype Accessor = ViaBigInteger | ViaLong | ViaBigDecimal | ViaFloat | ViaDouble | ViaRawString

  /** The switch of asDynamic: each datatype IRI selects exactly one accessor. */
  function DynamicAccessor(dt: string): (a: Accessor)
    ensures a == ViaBigInteger <==> dt in BIG_INTEGER_TYPES
    ensures a == ViaLong <==> dt in LONG_TYPES
    ensures a == ViaBigDecimal <==> dt == XSD_DECIMAL
    ensures a == ViaFloat <==> dt == XSD_FLOAT
    ensures a == ViaDouble <==> dt in DOUBLE_TYPES
  {
    if dt in BIG_INTEGER_TYPES then ViaBigInteger
    else if dt in LONG_TYPES then ViaLong
    else if dt == XSD_DECIMAL then ViaBigDecimal
    else if dt == XSD_FLOAT then ViaFloat
    else if dt in DOUBLE_TYPES then ViaDouble
    else ViaRawString
  }

  /**
   * asDynamic: the accessor chosen by the datatype IRI.  An unknown datatype
   * never fails: it yields the raw lexical form.
   */
  function AsDynamic(lit: LiteralTerm): (r: Result<Value>)
    ensures r.Failure? ==> r.error == NumberFormat(lit.lexicalForm)
    ensures lit.dataType in BIG_INTEGER_TYPES ==>
      (r.Success? <==> AsBigInteger(lit).Success?) && (r.Success? ==> r.value == BigIntegerValue(AsBigInteger(lit).value))
    ensures lit.dataType in LONG_TYPES ==>
      (r.Success? <==> AsLong(lit).Success?) && (r.Success? ==> r.value == LongValue(AsLong(lit).value))
    ensures lit.dataType == XSD_DECIMAL ==>
      (r.Success? <==> AsBigDecimal(lit).Success?) && (r.Success? ==> r.value == DecimalValue(AsBigDecimal(lit).value))
    ensures lit.dataType == XSD_FLOAT ==>
      (r.Success? <==> IsFloatText(lit.lexicalForm)) && (r.Success? ==> r.value == FloatValue(lit.lexicalForm))
    ensures lit.dataType in DOUBLE_TYPES ==>
      (r.Success? <==> IsFloatText(lit.lexicalForm)) && (r.Success? ==> r.value == DoubleValue(lit.lexicalForm))
    ensures r == Success(RawValue(lit.lexicalForm)) <==> DynamicAccessor(lit.dataType) == ViaRawString
  {
    match DynamicAccessor(lit.dataType)
    case ViaBigInteger => var v :- AsBigInteger(lit); Success(BigIntegerValue(v))
    case ViaLong => var v :- AsLong(lit); Success(LongValue(v))
    case ViaBigDecimal => var v :- AsBigDecimal(lit); Success(DecimalValue(v))
    case ViaFloat => AsFloat(lit)
    case ViaDouble => AsDouble(lit)
    case ViaRawString => Success(RawValue(AsRawString(lit)))
  }

  /**
   * asObject: the raw lexical form for xsd:string, Float.parseFloat for
   * xsd:float and xsd:double, and the N-Triples form for everything else.
   * Only the Float.parseFloat of the two floating-point types can throw.
   */
  function AsObject(lit: LiteralTerm): (r: Result<Value>)
    ensures r.Failure? <==> (lit.dataType == XSD_FLOAT || lit.dataType == XSD_DOUBLE) && !IsFloatText(lit.lexicalForm)
    ensures r.Failure? ==> r.error == NumberFormat(lit.lexicalForm)
    ensures r.Success? ==> (r.value.RawValue? <==> lit.dataType == XSD_STRING)
    ensures r.Success? && r.value.RawValue? ==> r.value.raw == lit.lexicalForm
    ensures r.Success? ==> (r.value.FloatValue? <==> lit.dataType == XSD_FLOAT)
    ensures r.Success? ==> (r.value.DoubleValue? <==> lit.dataType == XSD_DOUBLE)
    ensures r.Success? && r.value.FloatValue? ==> r.value.floatText == lit.lexicalForm
    ensures r.Success? && r.value.DoubleValue? ==> r.value.doubleText == lit.lexicalForm
    ensures r.Success? ==> (r.value.NTriplesValue? <==> lit.dataType !in {XSD_STRING, XSD_FLOAT, XSD_DOUBLE})
    ensures r.Success? && r.value.NTriplesValue? ==> r.value.ntriples == NTriplesString(lit)
    ensures r.Success? ==> !r.value.BigIntegerValue? && !r.value.LongValue? && !r.value.DecimalValue?
  {
    var dt := lit.dataType;
    if dt == XSD_STRING then Success(RawValue(AsRawString(lit)))
    else if dt == XSD_FLOAT then AsFloat(lit)
    else if dt == XSD_DOUBLE then AsDouble(lit)
    else Success(NTriplesValue(NTriplesString(lit)))
  }

  /**
   * asObject is a dispatch of its own: on a numeric literal that asDynamic
   * decodes, asObject returns the N-Triples form instead.
   */
  lemma {:induction false} AsObjectIgnoresNumericTypes(lit: LiteralTerm)
    requires lit.dataType in BIG_INTEGER_TYPES || lit.dataType in LONG_TYPES || lit.dataType == XSD_DECIMAL
    ensures AsObject(lit) == Success(NTriplesValue(NTriplesString(lit)))
    ensures AsDynamic(lit).Success? ==> !AsDynamic(lit).value.RawValue? && !AsDynamic(lit).value.NTriplesValue?
  {
    var a := DynamicAccessor(lit.dataType);
    assert a == ViaBigInteger || a == ViaLong || a == ViaBigDecimal;
  }

  // ---------------------------------------------------------------------
  // asTemporal on the renderings of java.time values
  // ---------------------------------------------------------------------

  /** Every LocalTime rendering (HH:mm, HH:mm:ss, with or without a fraction) is read as a local time. */
  lemma {:induction false} LocalTimeRenderingIsLocalTime(lit: LiteralTerm, t: LocalTime)
    requires ValidTime(t) && lit.lexicalForm == TimeText(t)
    ensures AsTemporal(lit) == Success(LocalTimeKind)
  {
    TimeTextShape(t);
  }

  /** Every OffsetTime rendering is read as an offset time. */
  lemma {:induction false} OffsetTimeRenderingIsOffsetTime(lit: LiteralTerm, v: OffsetTime)
    requires ValidOffsetTime(v) && lit.lexicalForm == OffsetTimeText(v)
    ensures AsTemporal(lit) == Success(OffsetTimeKind)
  {
    TimeTextShape(v.time);
    OffsetIdShape(v.offset);
    assert lit.lexicalForm[2] == TimeText(v.time)[2];
  }

  /** A date with a four-digit year (yyyy-MM-dd, ten characters) is read as a date. */
  lemma {:induction false} DateRenderingIsDate(lit: LiteralTerm, d: LocalDate)
    requires ValidDate(d) && 0 <= d.year <= 9999 && lit.lexicalForm == DateText(d)
    ensures AsTemporal(lit) == Success(LocalDateKind)
  {
    DateTextShape(d);
  }

  lemma {:induction false} DateTimeTextShape(dt: LocalDateTime)
    requires ValidDateTime(dt)
    ensures var s := DateTimeText(dt);
      && |s| == |DateText(dt.date)| + 1 + |TimeText(dt.time)|
      && 'T' in s && s[2] != ':'
  {
    DateTextShape(dt.date);
    assert DateTimeText(dt)[2] == DateText(dt.date)[2];
  }

  /**
   * A local date-time with a four-digit year and no fraction of a second
   * (yyyy-MM-ddTHH:mm or yyyy-MM-ddTHH:mm:ss) is read as a local date-time.
   */
  lemma {:induction false} DateTimeRenderingIsDateTime(lit: LiteralTerm, dt: LocalDateTime)
    requires ValidDateTime(dt) && 0 <= dt.date.year <= 9999 && dt.time.nano == 0
    requires lit.lexicalForm == DateTimeText(dt)
    ensures AsTemporal(lit) == Success(LocalDateTimeKind)
  {
    DateTextShape(dt.date);
    TimeTextShape(dt.time);
    DateTimeTextShape(dt);
  }

  /**
   * An offset date-time with a four-digit year is read as an offset
   * date-time unless it is at a whole minute in UTC.
   */
  lemma {:induction false} OffsetDateTimeRenderingIsOffsetDateTime(lit: LiteralTerm, v: OffsetDateTime)
    requires ValidOffsetDateTime(v) && 0 <= v.dateTime.date.year <= 9999
    requires !(v.dateTime.time.second == 0 && v.dateTime.time.nano == 0 && v.offset.totalSeconds == 0)
    requires lit.lexicalForm == OffsetDateTimeText(v)
    ensures AsTemporal(lit) == Success(OffsetDateTimeKind)
  {
    DateTextShape(v.dateTime.date);
    TimeTextShape(v.dateTime.time);
    DateTimeTextShape(v.dateTime);
    OffsetIdShape(v.offset);
    assert lit.lexicalForm[2] == DateTimeText(v.dateTime)[2];
  }

  // ---------------------------------------------------------------------
  // Renderings asTemporal hands to the wrong parser (as written), and the intended classifier
  // ---------------------------------------------------------------------

  /** A UTC offset date-time at a whole minute (yyyy-MM-ddTHH:mmZ, 17 characters) is handed to LocalDateTime.parse, which rejects it. */
  lemma {:induction false} UtcMinuteOffsetDateTimeMisread(lit: LiteralTerm, v: OffsetDateTime)
    requires ValidOffsetDateTime(v) && 0 <= v.dateTime.date.year <= 9999
    requires v.dateTime.time.second == 0 && v.dateTime.time.nano == 0 && v.offset.totalSeconds == 0
    requires lit.lexicalForm == OffsetDateTimeText(v)
    ensures AsTemporal(lit) == Success(LocalDateTimeKind)
  {
    DateTextShape(v.dateTime.date);
    TimeTextShape(v.dateTime.time);
    DateTimeTextShape(v.dateTime);
    assert lit.lexicalForm[2] == DateTimeText(v.dateTime)[2];
  }

  /** A local date-time with a fraction of a second (23 to 29 characters) is handed to OffsetDateTime.parse, which rejects it. */
  lemma {:induction false} FractionalDateTimeMisread(lit: LiteralTerm, dt: LocalDateTime)
    requires ValidDateTime(dt) && 0 <= dt.date.year <= 9999 && dt.time.nano > 0
    requires lit.lexicalForm == DateTimeText(dt)
    ensures AsTemporal(lit) == Success(OffsetDateTimeKind)
  {
    DateTextShape(dt.date);
    TimeTextShape(dt.time);
    DateTimeTextShape(dt);
  }

  /** A date whose year is negative or beyond 9999 (11 to 16 characters) is handed to LocalDateTime.parse, which rejects it. */
  lemma {:induction false} DistantYearDateMisread(lit: LiteralTerm, d: LocalDate)
    requires ValidDate(d) && (d.year < 0 || d.year > 9999) && lit.lexicalForm == DateText(d)
    ensures AsTemporal(lit) == Success(LocalDateTimeKind)
  {
    DateTextShape(d);
  }

  /** The index of the first c in s, or |s| when there is none. */
  function IndexOf(s: string, c: char): (i: nat)
    ensures i <= |s|
    ensures i < |s| ==> s[i] == c
  {
    if |s| == 0 then 0 else if s[0] == c then 0 else 1 + IndexOf(s[1..], c)
  }

  lemma {:induction false} IndexOfAbsent(s: string, c: char)
    requires c !in s
    ensures IndexOf(s, c) == |s|
  {
    if |s| > 0 {
      assert c !in s[1..];
      IndexOfAbsent(s[1..], c);
    }
  }

  lemma {:induction false} IndexOfFirst(a: string, c: char, b: string)
    requires c !in a
    ensures IndexOf(a + [c] + b, c) == |a|
  {
    if |a| > 0 {
      assert (a + [c] + b)[1..] == a[1..] + [c] + b;
      assert c !in a[1..];
      IndexOfFirst(a[1..], c, b);
    }
  }

  /**
   * The classification the renderings call for: a form with a 'T' is a
   * date-time, offset when the part after the 'T' carries '+', '-' or 'Z';
   * otherwise ':' at index 2 makes a time (offset likewise), and anything
   * else is a date.  Short forms fail as in asTemporal.
   */
  function IntendedTemporalKind(lf: string): (r: Result<TemporalKind>)
    ensures r.Failure? <==> |lf| < 3
  {
    if |lf| < 3 then Failure(IndexOutOfBounds(2))
    else
      var t := IndexOf(lf, 'T');
      if t < |lf| then
        if HasOffsetMark(lf[t + 1..]) then Success(OffsetDateTimeKind) else Success(LocalDateTimeKind)
      else if lf[2] == ':' then
        if HasOffsetMark(lf) then Success(OffsetTimeKind) else Success(LocalTimeKind)
      else Success(LocalDateKind)
  }

  /** The intended classifier names the type of every rendering, for every year. */
  lemma {:induction false} IntendedKindOfDate(d: LocalDate)
    requires ValidDate(d)
    ensures IntendedTemporalKind(DateText(d)) == Success(LocalDateKind)
  {
    DateTextShape(d);
    IndexOfAbsent(DateText(d), 'T');
  }

  lemma {:induction false} IntendedKindOfTime(t: LocalTime)
    requires ValidTime(t)
    ensures IntendedTemporalKind(TimeText(t)) == Success(LocalTimeKind)
  {
    TimeTextShape(t);
    IndexOfAbsent(TimeText(t), 'T');
  }

  lemma {:induction false} IntendedKindOfOffsetTime(v: OffsetTime)
    requires ValidOffsetTime(v)
    ensures IntendedTemporalKind(OffsetTimeText(v)) == Success(OffsetTimeKind)
  {
    TimeTextShape(v.time);
    OffsetIdShape(v.offset);
    IndexOfAbsent(OffsetTimeText(v), 'T');
    assert OffsetTimeText(v)[2] == TimeText(v.time)[2];
  }

  lemma {:induction false} IntendedKindOfDateTime(dt: LocalDateTime)
    requires ValidDateTime(dt)
    ensures IntendedTemporalKind(DateTimeText(dt)) == Success(LocalDateTimeKind)
  {
    var date, time := DateText(dt.date), TimeText(dt.time);
    DateTextShape(dt.date);
    TimeTextShape(dt.time);
    IndexOfFirst(date, 'T', time);
    assert DateTimeText(dt) == date + ['T'] + time;
    assert DateTimeText(dt)[|date| + 1..] == time;
  }

  lemma {:induction false} IntendedKindOfOffsetDateTime(v: OffsetDateTime)
    requires ValidOffsetDateTime(v)
    ensures IntendedTemporalKind(OffsetDateTimeText(v)) == Success(OffsetDateTimeKind)
  {
    var date, rest := DateText(v.dateTime.date), TimeText(v.dateTime.time) + OffsetId(v.offset);
    DateTextShape(v.dateTime.date);
    OffsetIdShape(v.offset);
    IndexOfFirst(date, 'T', rest);
    assert OffsetDateTimeText(v) == date + ['T'] + rest;
    assert OffsetDateTimeText(v)[|date| + 1..] == rest;
  }

  // ---------------------------------------------------------------------
  // asDynamic on the renderings of java.time values
  // ---------------------------------------------------------------------

  /** The year field is an optional sign followed by at least one digit. */
  lemma {:induction false} YearTextSignDigits(y: int) returns (sign: string, digits: string)
    ensures sign == "" || sign == "+" || sign == "-"
    ensures |digits| > 0 && AllDigits(digits)
    ensures YearText(y) == sign + digits
  {
    if -1000 < y < 1000 {
      sign := if y < 0 then "-" else "";
      digits := Padded(if y < 0 then -y else y, 4);
    } else {
      sign := if y < 0 then "-" else if y > 9999 then "+" else "";
      digits := NatToDecimal(if y < 0 then -y else y);
    }
  }

  /** A date rendering is no float text: its year's digits run into a '-'. */
  lemma {:induction false} DateRenderingIsNoFloat(d: LocalDate, after: string)
    requires ValidDate(d)
    ensures !IsFloatText(DateText(d) + after)
  {
    var sign, digits := YearTextSignDigits(d.year);
    var rest := Padded(d.month, 2) + "-" + Padded(d.day, 2) + after;
    assert DateText(d) + after == sign + digits + ['-'] + rest;
    DigitsThenMarkIsNotFloat(sign, digits, '-', rest);
  }

  /** A time rendering is no float text: its hour's digits run into a ':'. */
  lemma {:induction false} TimeRenderingIsNoFloat(t: LocalTime)
    requires ValidTime(t)
    ensures !IsFloatText(TimeText(t))
  {
    var rest := TimeText(t)[3..];
    assert TimeText(t) == "" + Padded(t.hour, 2) + [':'] + rest;
    DigitsThenMarkIsNotFloat("", Padded(t.hour, 2), ':', rest);
  }

  /** A local date-time rendering is no float text. */
  lemma {:induction false} DateTimeRenderingIsNoFloat(dt: LocalDateTime)
    requires ValidDateTime(dt)
    ensures !IsFloatText(DateTimeText(dt))
  {
    var after := "T" + TimeText(dt.time);
    assert DateTimeText(dt) == DateText(dt.date) + after;
    DateRenderingIsNoFloat(dt.date, after);
  }

  /** An offset date-time rendering is no float text. */
  lemma {:induction false} OffsetDateTimeRenderingIsNoFloat(v: OffsetDateTime)
    requires ValidOffsetDateTime(v)
    ensures !IsFloatText(OffsetDateTimeText(v))
  {
    var after := "T" + TimeText(v.dateTime.time) + OffsetId(v.offset);
    assert OffsetDateTimeText(v) == DateText(v.dateTime.date) + after;
    DateRenderingIsNoFloat(v.dateTime.date, after);
  }
}
