/**
 * The default methods of the RDFContext interface.  A context is the record
 * of its overridable term constructors; the typed literal constructors, the
 * dynamic constructor and the triple conveniences are functions of it, as
 * the interface's default methods are written in terms of those
 * constructors.
 */
module RDFContext {
  import opened Results
  import opened JavaNumbers
  import opened JavaBigDecimal
  import opened JavaTime
  import opened Terms
  import opened JavaFloatSyntax
  import opened LiteralCoercion
  import opened Graphs

  /**
   * The pure constructors an implementation overrides: createBlankNode(String),
   * createIRI(String), the three createLiteral and createTriple.  (The
   * stateful createBlankNode() and createGraph() are not part of the record:
   * their base versions are BaseCreateBlankNode and BaseCreateGraph.)
   */
  datatype Context = Context(
    createNamedBlankNode: string -> Result<BlankNodeTerm>,
    createIRI: string -> Result<IRITerm>,
    createLiteral: string -> Result<LiteralTerm>,
    createTypedLiteral: (string, IRITerm) -> Result<LiteralTerm>,
    createLangLiteral: (string, string) -> Result<LiteralTerm>,
    createTriple: (BlankNodeOrIRI, IRITerm, Term) -> Result<Triple>)

  /** The failures of the interface's own (not overridden) methods. */
  const BLANK_NODE_UNSUPPORTED: Error := Unsupported("createBlankNode() not supported")
  const GRAPH_UNSUPPORTED: Error := Unsupported("createGraph() not supported")

  /** The base createBlankNode(): throws UnsupportedOperationException. */
  function BaseCreateBlankNode(): (r: Result<BlankNodeTerm>)
    ensures r.Failure? && r.error == Unsupported("createBlankNode() not supported")
  {
    Failure(BLANK_NODE_UNSUPPORTED)
  }

  /** The base createGraph(): throws UnsupportedOperationException. */
  function BaseCreateGraph(): (r: Result<Graph>)
    ensures r.Failure? && r.error == Unsupported("createGraph() not supported")
  {
    Failure(GRAPH_UNSUPPORTED)
  }

  /** The interface's base methods: each throws UnsupportedOperationException. */
  function BaseContext(): (c: Context)
    ensures forall name :: c.createNamedBlankNode(name) == Failure(Unsupported("createBlankNode(String) not supported"))
    ensures forall iri :: c.createIRI(iri) == Failure(Unsupported("createIRI(String) not supported"))
    ensures forall lex :: c.createLiteral(lex) == Failure(Unsupported("createLiteral(String) not supported"))
    // The two-argument overloads keep the source's messages, copy-paste slip included.
    ensures forall lex, dt :: c.createTypedLiteral(lex, dt) == Failure(Unsupported("createLiteral(String) not supported"))
    ensures forall lex, tag :: c.createLangLiteral(lex, tag) == Failure(Unsupported("createLiteral(String,String) not supported"))
    ensures forall s, p, o :: c.createTriple(s, p, o) == Failure(Unsupported("createTriple(BlankNodeOrIRI,IRI,RDFTerm) not supported"))
  {
    Context(
      (name: string) => Failure(Unsupported("createBlankNode(String) not supported")),
      (iri: string) => Failure(Unsupported("createIRI(String) not supported")),
      (lex: string) => Failure(Unsupported("createLiteral(String) not supported")),
      (lex: string, dt: IRITerm) => Failure(Unsupported("createLiteral(String) not supported")),
      (lex: string, tag: string) => Failure(Unsupported("createLiteral(String,String) not supported")),
      (s: BlankNodeOrIRI, p: IRITerm, o: Term) => Failure(Unsupported("createTriple(BlankNodeOrIRI,IRI,RDFTerm) not supported")))
  }

  /**
   * A context whose constructors accept every argument and build exactly the
   * term asked for (the contracts of the interface's documentation).
   */
  ghost predicate Conforms(c: Context) {
    && (forall iri :: c.createIRI(iri).Success? && c.createIRI(iri).value.iriString == iri)
    && (forall lex :: c.createLiteral(lex).Success?
          && c.createLiteral(lex).value.lexicalForm == lex
          && c.createLiteral(lex).value.dataType == XSD_STRING
          && c.createLiteral(lex).value.languageTag == None)
    && (forall lex, dt :: c.createTypedLiteral(lex, dt).Success?
          && c.createTypedLiteral(lex, dt).value.lexicalForm == lex
          && c.createTypedLiteral(lex, dt).value.dataType == dt.iriString
          && c.createTypedLiteral(lex, dt).value.languageTag == None)
    && (forall lex, tag :: c.createLangLiteral(lex, tag).Success?
          && c.createLangLiteral(lex, tag).value.lexicalForm == lex
          && c.createLangLiteral(lex, tag).value.dataType == RDF_LANGSTRING
          && c.createLangLiteral(lex, tag).value.languageTag == Some(tag))
    && (forall s, p, o :: c.createTriple(s, p, o).Success?
          && c.createTriple(s, p, o).value.subject == s
          && c.createTriple(s, p, o).value.pred == p
          && c.createTriple(s, p, o).value.obj == o)
  }

  /** The literal with lexical form lex and datatype dt that a conforming context builds. */
  ghost predicate IsTypedLiteral(r: Result<LiteralTerm>, lex: string, dt: string) {
    r.Success? && r.value.lexicalForm == lex && r.value.dataType == dt && r.value.languageTag == None
  }

  /** createLiteral(String, createIRI(dt)): the shape shared by every typed default. */
  function TypedLiteral(c: Context, lex: string, dt: string): (r: Result<LiteralTerm>)
    ensures Conforms(c) ==> IsTypedLiteral(r, lex, dt)
    ensures c.createIRI(dt).Failure? ==> r == Failure(c.createIRI(dt).error)
  {
    var iri :- c.createIRI(dt);
    c.createTypedLiteral(lex, iri)
  }

  // ---------------------------------------------------------------------
  // Typed literal constructors
  // ---------------------------------------------------------------------

  /** createLiteral(long): Long.toString with xsd:integer. */
  function CreateLongLiteral(c: Context, v: Long): (r: Result<LiteralTerm>)
    ensures Conforms(c) ==> IsTypedLiteral(r, IntegerToString(v), XSD_INTEGER)
  {
    TypedLiteral(c, IntegerToString(v), XSD_INTEGER)
  }

  /** createLiteral(byte): the literal of the value widened to long. */
  function CreateByteLiteral(c: Context, v: Byte): (r: Result<LiteralTerm>)
    ensures r == CreateLongLiteral(c, v)
    ensures Conforms(c) ==> IsTypedLiteral(r, IntegerToString(v), XSD_INTEGER)
  {
    CreateLongLiteral(c, v)
  }

  /** createLiteral(short): the literal of the value widened to long. */
  function CreateShortLiteral(c: Context, v: Short): (r: Result<LiteralTerm>)
    ensures r == CreateLongLiteral(c, v)
    ensures Conforms(c) ==> IsTypedLiteral(r, IntegerToString(v), XSD_INTEGER)
  {
    CreateLongLiteral(c, v)
  }

  /** createLiteral(int): the literal of the value widened to long. */
  function CreateIntLiteral(c: Context, v: Int): (r: Result<LiteralTerm>)
    ensures r == CreateLongLiteral(c, v)
    ensures Conforms(c) ==> IsTypedLiteral(r, IntegerToString(v), XSD_INTEGER)
  {
    CreateLongLiteral(c, v)
  }

  /** createLiteral(BigInteger): BigInteger.toString with xsd:integer. */
  function CreateBigIntegerLiteral(c: Context, v: int): (r: Result<LiteralTerm>)
    ensures Conforms(c) ==> IsTypedLiteral(r, IntegerToString(v), XSD_INTEGER)
  {
    TypedLiteral(c, IntegerToString(v), XSD_INTEGER)
  }

  /** createLiteral(BigDecimal): BigDecimal.toString with xsd:decimal. */
  function CreateBigDecimalLiteral(c: Context, v: BigDecimal): (r: Result<LiteralTerm>)
    ensures Conforms(c) ==> IsTypedLiteral(r, JavaBigDecimal.ToString(v), XSD_DECIMAL)
  {
    TypedLiteral(c, JavaBigDecimal.ToString(v), XSD_DECIMAL)
  }

  /** asLong and asBigInteger read back the value of every long literal. */
  lemma {:induction false} LongLiteralRoundTrip(c: Context, v: Long)
    requires Conforms(c)
    ensures AsLong(CreateLongLiteral(c, v).value) == Success(v)
    ensures AsBigInteger(CreateLongLiteral(c, v).value) == Success(v)
    ensures AsDynamic(CreateLongLiteral(c, v).value) == Success(BigIntegerValue(v))
  {
    FixedWidthRoundTrip(v);
  }

  /** The narrow widths read back through their own accessor. */
  lemma {:induction false} NarrowLiteralsRoundTrip(c: Context, b: Byte, s: Short, i: Int)
    requires Conforms(c)
    ensures AsByte(CreateByteLiteral(c, b).value) == Success(b)
    ensures AsShort(CreateShortLiteral(c, s).value) == Success(s)
    ensures AsInteger(CreateIntLiteral(c, i).value) == Success(i)
  {
    FixedWidthRoundTrip(b);
    FixedWidthRoundTrip(s);
    FixedWidthRoundTrip(i);
  }

  /** asBigInteger reads back every BigInteger literal, of any magnitude. */
  lemma {:induction false} BigIntegerLiteralRoundTrip(c: Context, v: int)
    requires Conforms(c)
    ensures AsBigInteger(CreateBigIntegerLiteral(c, v).value) == Success(v)
    ensures AsDynamic(CreateBigIntegerLiteral(c, v).value) == Success(BigIntegerValue(v))
  {
    FixedWidthRoundTrip(v);
  }

  /** asBigDecimal, and asDynamic through it, read back every BigDecimal literal. */
  lemma {:induction false} BigDecimalLiteralRoundTrip(c: Context, v: BigDecimal)
    requires Conforms(c)
    requires v.scale >= 0 || AdjustedExponent(v) <= INT_MAX
    ensures AsBigDecimal(CreateBigDecimalLiteral(c, v).value) == Success(v)
    ensures AsDynamic(CreateBigDecimalLiteral(c, v).value) == Success(DecimalValue(v))
  {
    ToStringRoundTrip(v);
  }

  /**
   * A float or double value, represented by its Float.toString /
   * Double.toString text, which is always text Float.parseFloat accepts.
   */
  type JavaFloat = t: string | IsFloatText(t) witness "NaN"
  type JavaDouble = t: string | IsFloatText(t) witness "NaN"

  /** createLiteral(float): Float.toString with xsd:float. */
  function CreateFloatLiteral(c: Context, v: JavaFloat): (r: Result<LiteralTerm>)
    ensures Conforms(c) ==> IsTypedLiteral(r, v, XSD_FLOAT)
  {
    TypedLiteral(c, v, XSD_FLOAT)
  }

  /** createLiteral(double): Double.toString with xsd:double. */
  function CreateDoubleLiteral(c: Context, v: JavaDouble): (r: Result<LiteralTerm>)
    ensures Conforms(c) ==> IsTypedLiteral(r, v, XSD_DOUBLE)
  {
    TypedLiteral(c, v, XSD_DOUBLE)
  }

  function BooleanToString(b: bool): string {
    if b then "true" else "false"
  }

  /** createLiteral(boolean): "true" or "false" with xsd:boolean. */
  function CreateBooleanLiteral(c: Context, b: bool): (r: Result<LiteralTerm>)
    ensures Conforms(c) ==> IsTypedLiteral(r, if b then "true" else "false", XSD_BOOLEAN)
  {
    TypedLiteral(c, BooleanToString(b), XSD_BOOLEAN)
  }

  /** asBoolean reads back both boolean literals. */
  lemma {:induction false} BooleanLiteralRoundTrip(c: Context, b: bool)
    requires Conforms(c)
    ensures AsBoolean(CreateBooleanLiteral(c, b).value) == b
  {
  }

  /** asDynamic has no case for xsd:boolean: a boolean literal decodes as its raw text. */
  lemma {:induction false} BooleanLiteralDecodesRaw(c: Context, b: bool)
    requires Conforms(c)
    ensures AsDynamic(CreateBooleanLiteral(c, b).value) == Success(RawValue(BooleanToString(b)))
  {
    assert DynamicAccessor(XSD_BOOLEAN) == ViaRawString;
  }

  /** asDynamic and asObject read the float and double literals back through Float.parseFloat without failing. */
  lemma {:induction false} FloatingLiteralsDecode(c: Context, f: JavaFloat, d: JavaDouble)
    requires Conforms(c)
    ensures AsDynamic(CreateFloatLiteral(c, f).value) == Success(FloatValue(f))
    ensures AsDynamic(CreateDoubleLiteral(c, d).value) == Success(DoubleValue(d))
    ensures AsObject(CreateFloatLiteral(c, f).value) == Success(FloatValue(f))
    ensures AsObject(CreateDoubleLiteral(c, d).value) == Success(DoubleValue(d))
  {
    assert DynamicAccessor(XSD_FLOAT) == ViaFloat;
  }

  /** A literal typed xsd:float or xsd:double whose text Float.parseFloat rejects makes asDynamic throw. */
  lemma {:induction false} FloatingLiteralsReject(c: Context, lex: string)
    requires Conforms(c) && !IsFloatText(lex)
    ensures AsDynamic(TypedLiteral(c, lex, XSD_FLOAT).value) == Failure(NumberFormat(lex))
    ensures AsDynamic(TypedLiteral(c, lex, XSD_DOUBLE).value) == Failure(NumberFormat(lex))
    ensures AsObject(TypedLiteral(c, lex, XSD_FLOAT).value) == Failure(NumberFormat(lex))
  {
    assert DynamicAccessor(XSD_FLOAT) == ViaFloat;
  }

  /** The datatype the date-time overloads use, as written: lower-case "datetime". */
  const XSD_DATETIME_AS_WRITTEN: string := "http://www.w3.org/2001/XMLSchema#datetime"

  /** createLiteral(OffsetDateTime): its toString with the as-written "#datetime" datatype. */
  function CreateOffsetDateTimeLiteral(c: Context, v: OffsetDateTime): (r: Result<LiteralTerm>)
    requires ValidOffsetDateTime(v)
    ensures Conforms(c) ==> IsTypedLiteral(r, OffsetDateTimeText(v), XSD_DATETIME_AS_WRITTEN)
  {
    TypedLiteral(c, OffsetDateTimeText(v), XSD_DATETIME_AS_WRITTEN)
  }

  /** createLiteral(LocalDateTime): its toString with the as-written "#datetime" datatype. */
  function CreateLocalDateTimeLiteral(c: Context, v: LocalDateTime): (r: Result<LiteralTerm>)
    requires ValidDateTime(v)
    ensures Conforms(c) ==> IsTypedLiteral(r, DateTimeText(v), XSD_DATETIME_AS_WRITTEN)
  {
    TypedLiteral(c, DateTimeText(v), XSD_DATETIME_AS_WRITTEN)
  }

  /** createLiteral(LocalDate): its toString with xsd:date. */
  function CreateLocalDateLiteral(c: Context, v: LocalDate): (r: Result<LiteralTerm>)
    requires ValidDate(v)
    ensures Conforms(c) ==> IsTypedLiteral(r, DateText(v), XSD_DATE)
  {
    TypedLiteral(c, DateText(v), XSD_DATE)
  }

  /** createLiteral(LocalTime): its toString with xsd:time. */
  function CreateLocalTimeLiteral(c: Context, v: LocalTime): (r: Result<LiteralTerm>)
    requires ValidTime(v)
    ensures Conforms(c) ==> IsTypedLiteral(r, TimeText(v), XSD_TIME)
  {
    TypedLiteral(c, TimeText(v), XSD_TIME)
  }

  /**
   * The as-written datatype is not one asDynamic knows, so the date-time
   * literals decode as raw strings; xsd:dateTime would be decoded.
   */
  lemma DateTimeDatatypeAsWritten()
    ensures XSD_DATETIME_AS_WRITTEN != XSD_DATETIME
    ensures DynamicAccessor(XSD_DATETIME_AS_WRITTEN) == ViaRawString
    ensures DynamicAccessor(XSD_DATETIME) == ViaDouble
  {
  }

  /** asDynamic of a date-time literal of a conforming context is its raw lexical form. */
  lemma {:induction false} DateTimeLiteralsDecodeRaw(c: Context, v: OffsetDateTime, w: LocalDateTime)
    requires Conforms(c) && ValidOffsetDateTime(v) && ValidDateTime(w)
    ensures AsDynamic(CreateOffsetDateTimeLiteral(c, v).value) == Success(RawValue(OffsetDateTimeText(v)))
    ensures AsDynamic(CreateLocalDateTimeLiteral(c, w).value) == Success(RawValue(DateTimeText(w)))
  {
    DateTimeDatatypeAsWritten();
  }

  /** The date-time constructors with the datatype the tests expect, xsd:dateTime. */
  function IntendedOffsetDateTimeLiteral(c: Context, v: OffsetDateTime): (r: Result<LiteralTerm>)
    requires ValidOffsetDateTime(v)
    ensures Conforms(c) ==> IsTypedLiteral(r, OffsetDateTimeText(v), XSD_DATETIME)
    ensures Conforms(c) ==> DynamicAccessor(r.value.dataType) == ViaDouble
  {
    TypedLiteral(c, OffsetDateTimeText(v), XSD_DATETIME)
  }

  function IntendedLocalDateTimeLiteral(c: Context, v: LocalDateTime): (r: Result<LiteralTerm>)
    requires ValidDateTime(v)
    ensures Conforms(c) ==> IsTypedLiteral(r, DateTimeText(v), XSD_DATETIME)
    ensures Conforms(c) ==> DynamicAccessor(r.value.dataType) == ViaDouble
  {
    TypedLiteral(c, DateTimeText(v), XSD_DATETIME)
  }

  /**
   * asDynamic sends xsd:date and xsd:time to asDouble, whose Float.parseFloat
   * rejects every date and time rendering: it throws on both literals.
   */
  lemma {:induction false} DateAndTimeLiteralsFailDynamic(c: Context, d: LocalDate, t: LocalTime)
    requires Conforms(c) && ValidDate(d) && ValidTime(t)
    ensures AsDynamic(CreateLocalDateLiteral(c, d).value) == Failure(NumberFormat(DateText(d)))
    ensures AsDynamic(CreateLocalTimeLiteral(c, t).value) == Failure(NumberFormat(TimeText(t)))
  {
    DateRenderingIsNoFloat(d, "");
    assert DateText(d) + "" == DateText(d);
    TimeRenderingIsNoFloat(t);
  }

  /** With xsd:dateTime the date-time literals would reach asDouble too, and it throws on them. */
  lemma {:induction false} IntendedDateTimeLiteralsFailDynamic(c: Context, v: OffsetDateTime, w: LocalDateTime)
    requires Conforms(c) && ValidOffsetDateTime(v) && ValidDateTime(w)
    ensures AsDynamic(IntendedOffsetDateTimeLiteral(c, v).value) == Failure(NumberFormat(OffsetDateTimeText(v)))
    ensures AsDynamic(IntendedLocalDateTimeLiteral(c, w).value) == Failure(NumberFormat(DateTimeText(w)))
  {
    OffsetDateTimeRenderingIsNoFloat(v);
    DateTimeRenderingIsNoFloat(w);
  }

  /**
   * The temporal literals of a conforming context feed asTemporal: a time is
   * read as a local time, and a date, a local date-time without a fraction
   * and an offset date-time off the UTC whole minute, all with four-digit
   * years, as their own kinds.
   */
  lemma {:induction false} TemporalLiteralsClassify(c: Context, d: LocalDate, t: LocalTime,
                                                    dt: LocalDateTime, odt: OffsetDateTime)
    requires Conforms(c) && ValidDate(d) && ValidTime(t) && ValidDateTime(dt) && ValidOffsetDateTime(odt)
    ensures AsTemporal(CreateLocalTimeLiteral(c, t).value) == Success(LocalTimeKind)
    ensures 0 <= d.year <= 9999 ==> AsTemporal(CreateLocalDateLiteral(c, d).value) == Success(LocalDateKind)
    ensures 0 <= dt.date.year <= 9999 && dt.time.nano == 0 ==>
      AsTemporal(CreateLocalDateTimeLiteral(c, dt).value) == Success(LocalDateTimeKind)
    ensures (0 <= odt.dateTime.date.year <= 9999
             && !(odt.dateTime.time.second == 0 && odt.dateTime.time.nano == 0 && odt.offset.totalSeconds == 0)) ==>
      AsTemporal(CreateOffsetDateTimeLiteral(c, odt).value) == Success(OffsetDateTimeKind)
  {
    LocalTimeRenderingIsLocalTime(CreateLocalTimeLiteral(c, t).value, t);
    if 0 <= d.year <= 9999 {
      DateRenderingIsDate(CreateLocalDateLiteral(c, d).value, d);
    }
    if 0 <= dt.date.year <= 9999 && dt.time.nano == 0 {
      DateTimeRenderingIsDateTime(CreateLocalDateTimeLiteral(c, dt).value, dt);
    }
    if 0 <= odt.dateTime.date.year <= 9999
       && !(odt.dateTime.time.second == 0 && odt.dateTime.time.nano == 0 && odt.offset.totalSeconds == 0) {
      OffsetDateTimeRenderingIsOffsetDateTime(CreateOffsetDateTimeLiteral(c, odt).value, odt);
    }
  }

  // ---------------------------------------------------------------------
  // createLiteralDynamic
  // ---------------------------------------------------------------------

  /** The runtime value handed to createLiteralDynamic, by its class. */
  datatype JavaObject =
    | JString(s: string)
    | JFloat(f: JavaFloat)
    | JDouble(d: JavaDouble)
    | JOther(className: string)
    | JNull

  /**
   * createLiteralDynamic: a String, a Float or a Double goes to its
   * constructor; any other class throws IllegalArgumentException, and null
   * throws NullPointerException (from o.getClass()).
   */
  function CreateLiteralDynamic(c: Context, o: JavaObject): (r: Result<LiteralTerm>)
    ensures o.JString? ==> r == c.createLiteral(o.s)
    ensures o.JFloat? ==> r == CreateFloatLiteral(c, o.f)
    ensures o.JDouble? ==> r == CreateDoubleLiteral(c, o.d)
    ensures o.JOther? ==> r.Failure? && r.error.IllegalArgument?
    ensures o.JNull? ==> r == Failure(NullPointer)
    ensures Conforms(c) ==> (r.Success? <==> o.JString? || o.JFloat? || o.JDouble?)
  {
    match o
    case JString(s) => c.createLiteral(s)
    case JFloat(f) => CreateFloatLiteral(c, f)
    case JDouble(d) => CreateDoubleLiteral(c, d)
    case JOther(cls) =>
      Failure(IllegalArgument("Cannot interpret object of type [class " + cls + "] as an RDF literal"))
    case JNull => Failure(NullPointer)
  }

  // ---------------------------------------------------------------------
  // Triple conveniences
  // ---------------------------------------------------------------------

  /** The argument of a createTriple(subject, predicate, value) overload, by its static type. */
  datatype Native =
    | NLong(l: Long)
    | NInt(i: Int)
    | NShort(s: Short)
    | NByte(b: Byte)
    | NBigInteger(n: int)
    | NBigDecimal(d: BigDecimal)
    | NFloat(f: JavaFloat)
    | NDouble(g: JavaDouble)
    | NOffsetDateTime(odt: OffsetDateTime)
    | NLocalDateTime(ldt: LocalDateTime)
    | NLocalDate(date: LocalDate)
    | NLocalTime(time: LocalTime)

  predicate ValidNative(v: Native) {
    match v
    case NOffsetDateTime(x) => ValidOffsetDateTime(x)
    case NLocalDateTime(x) => ValidDateTime(x)
    case NLocalDate(x) => ValidDate(x)
    case NLocalTime(x) => ValidTime(x)
    case _ => true
  }

  /** The createLiteral overload Java's overload resolution picks for the argument. */
  function LiteralOf(c: Context, v: Native): (r: Result<LiteralTerm>)
    requires ValidNative(v)
    ensures Conforms(c) ==> r.Success? && r.value.languageTag == None
  {
    match v
    case NLong(x) => CreateLongLiteral(c, x)
    case NInt(x) => CreateIntLiteral(c, x)
    case NShort(x) => CreateShortLiteral(c, x)
    case NByte(x) => CreateByteLiteral(c, x)
    case NBigInteger(x) => CreateBigIntegerLiteral(c, x)
    case NBigDecimal(x) => CreateBigDecimalLiteral(c, x)
    case NFloat(x) => CreateFloatLiteral(c, x)
    case NDouble(x) => CreateDoubleLiteral(c, x)
    case NOffsetDateTime(x) => CreateOffsetDateTimeLiteral(c, x)
    case NLocalDateTime(x) => CreateLocalDateTimeLiteral(c, x)
    case NLocalDate(x) => CreateLocalDateLiteral(c, x)
    case NLocalTime(x) => CreateLocalTimeLiteral(c, x)
  }

  /** createTriple(s, p, o) for an object the conveniences built; a failure to build it propagates. */
  function TripleOf(c: Context, s: BlankNodeOrIRI, p: IRITerm, o: Result<LiteralTerm>): (r: Result<Triple>)
    ensures o.Failure? ==> r == Failure(o.error)
    ensures o.Success? ==> r == c.createTriple(s, p, o.value)
    ensures Conforms(c) && o.Success? ==>
      r.Success? && r.value.subject == s && r.value.pred == p && r.value.obj == o.value
  {
    var lit :- o;
    c.createTriple(s, p, lit)
  }

  /** The twelve createTriple(subject, predicate, value) overloads for native values. */
  function CreateTripleOfValue(c: Context, s: BlankNodeOrIRI, p: IRITerm, v: Native): (r: Result<Triple>)
    requires ValidNative(v)
    ensures Conforms(c) ==>
      r.Success? && r.value.subject == s && r.value.pred == p && r.value.obj == LiteralOf(c, v).value
  {
    TripleOf(c, s, p, LiteralOf(c, v))
  }

  /** createTriple(subject, predicate, text, language). */
  function CreateTripleLang(c: Context, s: BlankNodeOrIRI, p: IRITerm, text: string, language: string): (r: Result<Triple>)
    ensures Conforms(c) ==>
      && r.Success? && r.value.subject == s && r.value.pred == p
      && r.value.obj.Literal? && r.value.obj.lexicalForm == text
      && r.value.obj.dataType == RDF_LANGSTRING && r.value.obj.languageTag == Some(language)
  {
    TripleOf(c, s, p, c.createLangLiteral(text, language))
  }

  /** createTriple(subject, predicate, rawString): a plain xsd:string literal. */
  function CreateTripleString(c: Context, s: BlankNodeOrIRI, p: IRITerm, rawString: string): (r: Result<Triple>)
    ensures Conforms(c) ==>
      && r.Success? && r.value.subject == s && r.value.pred == p
      && r.value.obj.Literal? && r.value.obj.lexicalForm == rawString
      && r.value.obj.dataType == XSD_STRING && r.value.obj.languageTag == None
  {
    TripleOf(c, s, p, c.createLiteral(rawString))
  }

  /** createTriple(subject, predicate, lexicalForm, datatype). */
  function CreateTripleTyped(c: Context, s: BlankNodeOrIRI, p: IRITerm, lexicalForm: string, dt: IRITerm): (r: Result<Triple>)
    ensures Conforms(c) ==>
      && r.Success? && r.value.subject == s && r.value.pred == p
      && r.value.obj.Literal? && r.value.obj.lexicalForm == lexicalForm
      && r.value.obj.dataType == dt.iriString && r.value.obj.languageTag == None
  {
    TripleOf(c, s, p, c.createTypedLiteral(lexicalForm, dt))
  }

  /** createTripleDynamic(subject, predicate, value). */
  function CreateTripleDynamic(c: Context, s: BlankNodeOrIRI, p: IRITerm, o: JavaObject): (r: Result<Triple>)
    ensures CreateLiteralDynamic(c, o).Failure? ==> r == Failure(CreateLiteralDynamic(c, o).error)
    ensures Conforms(c) ==> (r.Success? <==> o.JString? || o.JFloat? || o.JDouble?)
    ensures Conforms(c) && r.Success? ==> r.value.obj == CreateLiteralDynamic(c, o).value
  {
    TripleOf(c, s, p, CreateLiteralDynamic(c, o))
  }

  /**
   * On the base context every typed default fails at its first step,
   * createIRI; the base createBlankNode() and createGraph() fail too, so the
   * base context creates nothing and is not a conforming one.
   */
  lemma {:induction false} BaseDefaultsUnsupported(lex: string, dt: string, o: JavaObject)
    ensures TypedLiteral(BaseContext(), lex, dt) == Failure(Unsupported("createIRI(String) not supported"))
    ensures o.JString? ==> CreateLiteralDynamic(BaseContext(), o) == Failure(Unsupported("createLiteral(String) not supported"))
    ensures BaseCreateBlankNode() == Failure(BLANK_NODE_UNSUPPORTED) && BaseCreateGraph() == Failure(GRAPH_UNSUPPORTED)
    ensures !Conforms(BaseContext())
  {
    assert BaseContext().createIRI(lex).Failure?;
  }
}
