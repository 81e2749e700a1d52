# Commons RDF term construction and literal coercion, in Dafny

This project models the term-construction and literal-coercion layer of
Apache Commons RDF. It has three parts.

- **Literal accessors** (`Literal`'s default methods). The integer, decimal
  and boolean parsers of the lexical form; the grammar `Float.parseFloat`
  accepts, which decides whether the float and double accessors throw; `asTemporal`, which picks a
  java.time type from the shape of the lexical form; and `asDynamic` and
  `asObject`, which dispatch on the datatype IRI.
- **Context defaults** (`RDFContext`'s default methods). The base
  constructors throw `UnsupportedOperationException`. The typed
  `createLiteral` overloads build a lexical form and a datatype IRI and
  delegate to the two-argument `createLiteral`. `createLiteralDynamic`
  dispatches on the runtime class. The `createTriple` conveniences compose
  these.
- **The simple factory** (`SimpleRDFTermFactory`). A class with a
  per-instance salt for named blank nodes and a counter of fresh blank
  nodes. It interns well-known IRIs through a lookup table, and its plain,
  typed and language-tagged literals, its triples and its graphs all report
  the factory as their context.

Modules, one file each:

| file | module | contents |
|---|---|---|
| results.dfy | Results | `Option`, `Result` and the Java exceptions as `Error` values |
| java_numbers.dfy | JavaNumbers | `Long.toString`, and `Byte/Short/Integer/Long.parseLong` and `new BigInteger(String)` over ASCII decimal text |
| java_big_decimal.dfy | JavaBigDecimal | `BigDecimal.toString()` and `new BigDecimal(String)` |
| java_float.dfy | JavaFloatSyntax | the text `Float.parseFloat` accepts: trimmed, an optional sign, then `NaN`, `Infinity`, a decimal or a hexadecimal floating-point literal |
| java_time.dfy | JavaTime | the `toString()` of `LocalDate`, `LocalTime`, `LocalDateTime`, `OffsetDateTime`, `OffsetTime` and `ZoneOffset` ids |
| terms.dfy | Terms | IRI, blank node, literal and triple values carrying their context; term equality; N-Triples forms |
| literal_coercion.dfy | LiteralCoercion | the accessors of `Literal` |
| rdf_context.dfy | RDFContext | the default methods of `RDFContext` |
| graph.dfy | Graphs | a graph as a mutable set of triples |
| simple.dfy | Simple | `SimpleRDFTermFactory` |

A context is a record of the six constructors an implementation overrides:
`createBlankNode(String)`, `createIRI`, the three `createLiteral`, and
`createTriple`. The default methods are functions of that record. `Conforms(c)` says
that a context's constructors build exactly the term asked for, as the
interface's documentation requires. The properties of the default methods
are proved for every conforming context. `SimpleRDFTermFactory.AsContext`
is proved to conform.

`BaseContext` keeps the messages of the source's base methods as written.
This includes `createLiteral(String, IRI)`, which reports
"createLiteral(String) not supported".

## Model

| member | source | states |
|---|---|---|
| JavaNumbers.ParseSignedDecimal | api/src/main/java/org/apache/commons/rdf/api/Literal.java:130-143 | the decimal reading of an optional sign and ASCII digits; defined only on non-empty text |
| JavaNumbers.ParseBounded | api/src/main/java/org/apache/commons/rdf/api/Literal.java:130-143 | succeeds exactly when the text is a decimal inside [lo, hi], with that value; otherwise NumberFormatException on the text |
| JavaNumbers.ParseByte | api/src/main/java/org/apache/commons/rdf/api/Literal.java:130-131 | Byte.parseByte: succeeds exactly when the text is a decimal in [-128, 127], with that value; otherwise NumberFormatException on the text |
| JavaNumbers.ParseShort | api/src/main/java/org/apache/commons/rdf/api/Literal.java:134-135 | Short.parseShort: succeeds exactly when the text is a decimal in [-2^15, 2^15-1], with that value; otherwise NumberFormatException on the text |
| JavaNumbers.ParseInt | api/src/main/java/org/apache/commons/rdf/api/Literal.java:138-139 | Integer.parseInt: succeeds exactly when the text is a decimal in [-2^31, 2^31-1], with that value; otherwise NumberFormatException on the text |
| JavaNumbers.ParseLong | api/src/main/java/org/apache/commons/rdf/api/Literal.java:142-143 | Long.parseLong: succeeds exactly when the text is a decimal in [-2^63, 2^63-1], with that value; otherwise NumberFormatException on the text |
| JavaNumbers.ParseBigInteger | api/src/main/java/org/apache/commons/rdf/api/Literal.java:154-155 | new BigInteger(String): succeeds exactly on decimal text, unbounded, with its value; otherwise NumberFormatException on the text |
| JavaNumbers.NatToDecimal | api/src/main/java/org/apache/commons/rdf/api/RDFContext.java:250-251 | the digits of a natural: non-empty, ASCII digits only, no leading zero, one digit exactly below 10 |
| JavaNumbers.IntegerToString | api/src/main/java/org/apache/commons/rdf/api/RDFContext.java:250-251 | Long.toString and BigInteger.toString: non-empty, starting with '-' exactly for negative values, decimal digits after it; FormatThenParse reads it back |
| JavaNumbers.DigitsValueOfDecimal | api/src/main/java/org/apache/commons/rdf/api/RDFContext.java:250-251 | reading the digits of n gives back n |
| JavaNumbers.DecimalOfDigitsValue | api/src/main/java/org/apache/commons/rdf/api/Literal.java:142-143 | canonical digit text is the rendering of its value |
| JavaNumbers.FormatThenParse | api/src/test/java/org/apache/commons/rdf/api/AbstractRDFTermFactoryTest.java:428-474 | parsing Long.toString(v) gives back v, for every integer |
| JavaNumbers.FormatIsCanonical | api/src/main/java/org/apache/commons/rdf/api/RDFContext.java:250-251 | Long.toString produces canonical text: an optional '-', no leading zeros, no "-0" |
| JavaNumbers.ParseThenFormat | api/src/main/java/org/apache/commons/rdf/api/Literal.java:142-143 | canonical text parses, and rendering the value gives back the text |
| JavaNumbers.FormatInjective | api/src/main/java/org/apache/commons/rdf/api/RDFContext.java:250-251 | distinct values have distinct renderings |
| JavaNumbers.FixedWidthRoundTrip | api/src/test/java/org/apache/commons/rdf/api/AbstractRDFTermFactoryTest.java:428-486 | each width's parser reads back the rendering of every value in its range; BigInteger reads back every value |
| JavaNumbers.NarrowerParsersAgree | api/src/main/java/org/apache/commons/rdf/api/Literal.java:130-155 | text a narrower parser accepts is accepted with the same value by every wider one |
| JavaNumbers.DigitRun | api/src/main/java/org/apache/commons/rdf/api/Literal.java:146-152 | the longest run of decimal digits at the start: within the text, all digits, and stopped by a non-digit |
| JavaNumbers.DigitRunAppend | api/src/main/java/org/apache/commons/rdf/api/Literal.java:146-152 | the digit run of digits followed by more text is those digits plus the run of the rest |
| JavaFloatSyntax.HexRun | api/src/main/java/org/apache/commons/rdf/api/Literal.java:146-152 | the longest run of hexadecimal digits at the start: within the text, all hex digits, and stopped by a non-hex-digit |
| JavaFloatSyntax.TrimEnd | api/src/main/java/org/apache/commons/rdf/api/Literal.java:146-152 | String.trim's right end: a prefix of the text that keeps every character above U+0020 |
| JavaFloatSyntax.TrimStart | api/src/main/java/org/apache/commons/rdf/api/Literal.java:146-152 | String.trim's left end: the text itself when it starts above U+0020, and always empty or starting above U+0020 |
| JavaFloatSyntax.UnsignedDigitsThenMark | api/src/main/java/org/apache/commons/rdf/api/Literal.java:146-152 | digits followed by a character that is no digit, '.', exponent, suffix or hex mark are neither NaN, Infinity, a decimal nor a hexadecimal literal |
| JavaFloatSyntax.DigitsThenMarkIsNotFloat | api/src/main/java/org/apache/commons/rdf/api/Literal.java:146-152 | an optional sign, digits, then such a character above U+0020 is rejected by Float.parseFloat, whatever follows |
| JavaFloatSyntax.FloatTextRejects | api/src/main/java/org/apache/commons/rdf/api/Literal.java:146-152 | Float.parseFloat throws on "" and on "abc" |
| JavaFloatSyntax.BlankIsNotFloat | api/src/main/java/org/apache/commons/rdf/api/Literal.java:146-152 | Float.parseFloat throws on every text made only of characters up to U+0020, the empty text included |
| JavaFloatSyntax.TrimIdempotent | api/src/main/java/org/apache/commons/rdf/api/Literal.java:146-152 | String.trim of a trimmed text changes nothing |
| JavaFloatSyntax.FloatTextIgnoresTrim | api/src/main/java/org/apache/commons/rdf/api/Literal.java:146-152 | a text is accepted by Float.parseFloat exactly when its trimmed form is |
| JavaFloatSyntax.FloatTextAccepts | api/src/main/java/org/apache/commons/rdf/api/Literal.java:146-152 | Float.parseFloat accepts the signed fraction "-1.5" |
| JavaFloatSyntax.DecimalFractionIsFloat | api/src/main/java/org/apache/commons/rdf/api/Literal.java:146-152 | Float.parseFloat accepts every optional sign, digits, '.', digits and optional f/F/d/D suffix with at least one digit, such as "+.5f" and "3." |
| JavaFloatSyntax.IsFloatText | api/src/main/java/org/apache/commons/rdf/api/Literal.java:146-152 | the grammar Float.parseFloat accepts after trimming: optional sign, then NaN, Infinity, a decimal or a hexadecimal literal; its properties are the lemmas beside it |
| JavaBigDecimal.Parse | api/src/main/java/org/apache/commons/rdf/api/Literal.java:158-159 | new BigDecimal(String): succeeds exactly when the text is a numeral by ReadNumeral (whose exponent must fit in an int) and the scale fits in an int, with ReadNumeral's unscaled value and scale; otherwise NumberFormatException on the text |
| JavaBigDecimal.ReadNumeral | api/src/main/java/org/apache/commons/rdf/api/Literal.java:158-159 | the reference reading of a decimal numeral: an optional sign, digits, an optional '.' and digits (at least one digit in all), an optional e/E and a signed exponent that fits in an int; scale = fraction digits minus exponent |
| JavaBigDecimal.ParseBodyReadsBody | api/src/main/java/org/apache/commons/rdf/api/Literal.java:158-159 | the character scan of the unsigned part gives exactly what ReadBody's split of it reads, failing when the exponent or the scale leaves int range |
| JavaBigDecimal.ScanWholePoint | api/src/main/java/org/apache/commons/rdf/api/Literal.java:158-159 | scanning digits, '.', digits and a stop character gives the magnitude of all digits, the count after the point, and the exponent text |
| JavaBigDecimal.ParseNumeral | api/src/main/java/org/apache/commons/rdf/api/Literal.java:158-159 | a numeral built from a sign, whole digits, optional fraction digits and an optional exponent parses to its digits' value and fraction-minus-exponent scale, or fails with NumberFormatException when the exponent or that scale leaves int range |
| JavaBigDecimal.ToStringRoundTrip | api/src/test/java/org/apache/commons/rdf/api/AbstractRDFTermFactoryTest.java:488-498 | new BigDecimal(d.toString()) equals d, unscaled value and scale both, for every BigDecimal except those whose toString writes an exponent beyond int (negative scale and adjusted exponent above 2^31-1) |
| JavaBigDecimal.ToStringExponentOverflow | api/src/main/java/org/apache/commons/rdf/api/Literal.java:158-159 | for a negative scale with adjusted exponent above 2^31-1, new BigDecimal(d.toString()) throws NumberFormatException on that text |
| JavaBigDecimal.ExponentOverflowNumeral | api/src/main/java/org/apache/commons/rdf/api/Literal.java:158-159 | a numeral whose exponent is above 2^31-1 is rejected with NumberFormatException, whatever its digits |
| JavaBigDecimal.AdjustedExponent | api/src/main/java/org/apache/commons/rdf/api/RDFContext.java:278-279 | the adjusted exponent toString writes (digits - 1 - scale) is at least -(2^31-1) |
| JavaBigDecimal.ReadStopped | api/src/main/java/org/apache/commons/rdf/api/Literal.java:158-159 | what the scan reports at its stop character, read as a decimal, is ReadParts' split of the same text |
| JavaBigDecimal.ScaleZeroIsIntegerText | api/src/main/java/org/apache/commons/rdf/api/RDFContext.java:278-279 | a BigDecimal of scale 0 renders as its integer's decimal text |
| JavaBigDecimal.ToString | api/src/main/java/org/apache/commons/rdf/api/RDFContext.java:278-279 | BigDecimal.toString: non-empty and starting with '-' exactly for a negative unscaled value; ToStringRoundTrip reads it back |
| JavaTime.Padded | api/src/main/java/org/apache/commons/rdf/api/RDFContext.java:299-313 | zero-padded fields of java.time's toString have the requested width and only digits |
| JavaTime.PaddedTwoDigits | api/src/main/java/org/apache/commons/rdf/api/RDFContext.java:299-313 | a two-digit field is the number, with a '0' in front below 10 |
| JavaTime.NanoTextShape | api/src/main/java/org/apache/commons/rdf/api/RDFContext.java:311-312 | the fraction of a time is empty exactly when the nanosecond is 0, is at most 10 characters, and never holds + - Z T : |
| JavaTime.TimeTextShape | api/src/main/java/org/apache/commons/rdf/api/RDFContext.java:311-312 | LocalTime.toString has ':' at index 2, no + - Z T, is 5 characters exactly when second and nano are 0, at most 8 without a fraction, 12 to 18 with one |
| JavaTime.YearTextShape | api/src/main/java/org/apache/commons/rdf/api/RDFContext.java:307-308 | the year of LocalDate.toString is 4 characters exactly for years 0..9999, otherwise 5 to 10, with a digit at index 2 |
| JavaTime.DateTextShape | api/src/main/java/org/apache/commons/rdf/api/RDFContext.java:307-308 | LocalDate.toString is 10 characters exactly for years 0..9999 and 10 to 16 otherwise, with a digit at index 2 and no T : Z |
| JavaTime.OffsetIdShape | api/src/main/java/org/apache/commons/rdf/api/RDFContext.java:299-300 | a zone-offset id is "Z" exactly for offset 0, otherwise starts with a sign and is 6 or 9 characters (±hh:mm or ±hh:mm:ss); it always holds + - or Z and never 'T' |
| JavaTime.DateText | api/src/main/java/org/apache/commons/rdf/api/RDFContext.java:307-308 | LocalDate.toString; its shape is stated by DateTextShape |
| JavaTime.TimeText | api/src/main/java/org/apache/commons/rdf/api/RDFContext.java:311-312 | LocalTime.toString; its shape is stated by TimeTextShape |
| JavaTime.DateTimeText | api/src/main/java/org/apache/commons/rdf/api/RDFContext.java:303-304 | LocalDateTime.toString, the date, 'T' and the time; its shape is stated by LiteralCoercion.DateTimeTextShape |
| JavaTime.OffsetId | api/src/main/java/org/apache/commons/rdf/api/RDFContext.java:299-300 | ZoneOffset.getId; its shape is stated by OffsetIdShape |
| JavaTime.OffsetDateTimeText | api/src/main/java/org/apache/commons/rdf/api/RDFContext.java:299-300 | OffsetDateTime.toString, the local date-time then the offset id; LiteralCoercion.OffsetDateTimeRenderingIsNoFloat and IntendedKindOfOffsetDateTime state what reads it |
| JavaTime.OffsetTimeText | api/src/test/java/org/apache/commons/rdf/api/AbstractRDFTermFactoryTest.java:603-614 | OffsetTime.toString, the time then the offset id; LiteralCoercion.OffsetTimeRenderingIsOffsetTime states how asTemporal reads it |
| Terms.TermEqualIsEquivalence | api/src/test/java/org/apache/commons/rdf/api/AbstractRDFTermFactoryTest.java:99-118 | term equality is reflexive, symmetric and transitive |
| Terms.TermEqual | api/src/test/java/org/apache/commons/rdf/api/AbstractRDFTermFactoryTest.java:99-118 | RDF term equality: IRIs by string, blank nodes by context and reference, literals by lexical form, datatype and tag; an equivalence (TermEqualIsEquivalence) that keeps the N-Triples form (TermEqualSameNTriples) |
| Terms.NTriplesString | api/src/test/java/org/apache/commons/rdf/api/AbstractRDFTermFactoryTest.java:99-118 | the N-Triples form: at least two characters, starting with '<' exactly for IRIs, '"' exactly for literals and '_' exactly for blank nodes |
| Terms.TermEqualSameNTriples | api/src/test/java/org/apache/commons/rdf/api/AbstractRDFTermFactoryTest.java:99-118 | equal terms have the same N-Triples form |
| Terms.BlankLabelInjective | api/src/test/java/org/apache/commons/rdf/api/AbstractRDFTermFactoryTest.java:112-116 | the blank-node label determines the reference |
| Terms.BlankNodeNTriplesInjective | api/src/test/java/org/apache/commons/rdf/api/AbstractRDFTermFactoryTest.java:112-116 | blank nodes with the same N-Triples form have the same reference |
| LiteralCoercion.AsByte | api/src/main/java/org/apache/commons/rdf/api/Literal.java:130-131 | asByte succeeds exactly when the lexical form is a decimal in byte range, with that value; otherwise NumberFormatException |
| LiteralCoercion.AsShort | api/src/main/java/org/apache/commons/rdf/api/Literal.java:134-135 | asShort succeeds exactly when the lexical form is a decimal in short range, with that value; otherwise NumberFormatException |
| LiteralCoercion.AsInteger | api/src/main/java/org/apache/commons/rdf/api/Literal.java:138-139 | asInteger succeeds exactly when the lexical form is a decimal in int range, with that value; otherwise NumberFormatException |
| LiteralCoercion.AsLong | api/src/main/java/org/apache/commons/rdf/api/Literal.java:142-143 | asLong succeeds exactly when the lexical form is a decimal in long range, with that value; otherwise NumberFormatException |
| LiteralCoercion.AsBigInteger | api/src/main/java/org/apache/commons/rdf/api/Literal.java:154-155 | asBigInteger succeeds exactly on decimal text, with its value; otherwise NumberFormatException on the lexical form |
| LiteralCoercion.AsBigDecimal | api/src/main/java/org/apache/commons/rdf/api/Literal.java:158-159 | asBigDecimal succeeds exactly when the lexical form is a numeral by ReadNumeral with an exponent and a scale in int range, with that value; otherwise NumberFormatException on the lexical form |
| LiteralCoercion.ParseBoolean | api/src/main/java/org/apache/commons/rdf/api/Literal.java:162-163 | Boolean.parseBoolean is true exactly for "true" in any ASCII letter case |
| LiteralCoercion.AsBoolean | api/src/main/java/org/apache/commons/rdf/api/Literal.java:162-163 | asBoolean is true exactly on four-character forms whose ASCII-lowercased characters spell "true"; so true on "true", false on "false" |
| LiteralCoercion.IntegerAccessorsIgnoreDatatype | api/src/main/java/org/apache/commons/rdf/api/Literal.java:130-159 | the numeric accessors depend on the lexical form only, never on the datatype |
| LiteralCoercion.AsTemporal | api/src/main/java/org/apache/commons/rdf/api/Literal.java:171-187 | fails (charAt(2)) exactly on forms shorter than 3; ':' at index 2 gives offset time exactly when + - or Z occurs, else local time; otherwise length above 19 gives offset date-time, 11..19 local date-time, up to 10 date; exactly one kind each |
| LiteralCoercion.AsRawString | api/src/main/java/org/apache/commons/rdf/api/Literal.java:233-235 | asRawString is the lexical form unchanged |
| LiteralCoercion.AsFloat | api/src/main/java/org/apache/commons/rdf/api/Literal.java:146-148 | succeeds exactly on text Float.parseFloat accepts, holding that text; NumberFormatException on the text otherwise |
| LiteralCoercion.AsDouble | api/src/main/java/org/apache/commons/rdf/api/Literal.java:150-152 | Float.parseFloat as well: succeeds exactly where asFloat does; NumberFormatException on the text otherwise |
| LiteralCoercion.DynamicAccessor | api/src/main/java/org/apache/commons/rdf/api/Literal.java:193-227 | the switch of asDynamic picks BigInteger exactly for the four integer types, long exactly for the seven bounded types, BigDecimal for decimal, float for float, and asDouble for double, date, time and dateTime; anything else is raw |
| LiteralCoercion.AsDynamic | api/src/main/java/org/apache/commons/rdf/api/Literal.java:193-227 | each family succeeds exactly when its accessor does, with that accessor's value; xsd:float, and xsd:double, date, time and dateTime, succeed exactly on text Float.parseFloat accepts; fails only with NumberFormatException; an unknown datatype yields the raw lexical form, and only then |
| LiteralCoercion.AsObject | api/src/main/java/org/apache/commons/rdf/api/Literal.java:241-252 | fails (NumberFormatException) exactly for xsd:float and xsd:double text Float.parseFloat rejects; otherwise raw text exactly for xsd:string, float and double exactly for their types, the N-Triples form exactly for every other datatype; never a numeric value |
| LiteralCoercion.AsObjectIgnoresNumericTypes | api/src/main/java/org/apache/commons/rdf/api/Literal.java:193-252 | the integer and decimal types, which asDynamic decodes, are rendered in N-Triples form by asObject |
| LiteralCoercion.LocalTimeRenderingIsLocalTime | api/src/test/java/org/apache/commons/rdf/api/AbstractRDFTermFactoryTest.java:590-601 | asTemporal reads every LocalTime.toString as a local time |
| LiteralCoercion.OffsetTimeRenderingIsOffsetTime | api/src/test/java/org/apache/commons/rdf/api/AbstractRDFTermFactoryTest.java:603-614 | asTemporal reads every OffsetTime.toString as an offset time |
| LiteralCoercion.DateRenderingIsDate | api/src/test/java/org/apache/commons/rdf/api/AbstractRDFTermFactoryTest.java:576-587 | asTemporal reads LocalDate.toString as a date for years 0..9999 |
| LiteralCoercion.DateTimeTextShape | api/src/main/java/org/apache/commons/rdf/api/RDFContext.java:303-304 | LocalDateTime.toString is as long as the date, the 'T' and the time together, contains a 'T', and has no ':' at index 2 |
| LiteralCoercion.DateTimeRenderingIsDateTime | api/src/test/java/org/apache/commons/rdf/api/AbstractRDFTermFactoryTest.java:557-573 | asTemporal reads LocalDateTime.toString as a local date-time for years 0..9999 without a fraction of a second |
| LiteralCoercion.OffsetDateTimeRenderingIsOffsetDateTime | api/src/test/java/org/apache/commons/rdf/api/AbstractRDFTermFactoryTest.java:539-554 | asTemporal reads OffsetDateTime.toString as an offset date-time for years 0..9999, except at whole UTC minutes |
| LiteralCoercion.UtcMinuteOffsetDateTimeMisread | api/src/main/java/org/apache/commons/rdf/api/Literal.java:180-183 | an OffsetDateTime at a whole UTC minute, such as "2011-03-24T15:16Z", is handed to LocalDateTime.parse (which rejects it) |
| LiteralCoercion.FractionalDateTimeMisread | api/src/main/java/org/apache/commons/rdf/api/Literal.java:180-181 | a LocalDateTime with a fraction of a second is handed to OffsetDateTime.parse (which rejects it) |
| LiteralCoercion.DistantYearDateMisread | api/src/main/java/org/apache/commons/rdf/api/Literal.java:182-183 | a LocalDate with a year outside 0..9999 is handed to LocalDateTime.parse (which rejects it) |
| LiteralCoercion.IndexOf | api/src/main/java/org/apache/commons/rdf/api/Literal.java:171-187 | the search helper of IntendedTemporalKind, the corrected classifier: the position found is within the string and holds the character |
| LiteralCoercion.IntendedTemporalKind | api/src/main/java/org/apache/commons/rdf/api/Literal.java:171-187 | the corrected classifier fails exactly on forms shorter than 3 |
| LiteralCoercion.IntendedKindOfDate | api/src/test/java/org/apache/commons/rdf/api/AbstractRDFTermFactoryTest.java:576-587 | the corrected classifier reads every LocalDate.toString as a date, for every year |
| LiteralCoercion.IntendedKindOfTime | api/src/test/java/org/apache/commons/rdf/api/AbstractRDFTermFactoryTest.java:590-601 | the corrected classifier reads every LocalTime.toString as a local time |
| LiteralCoercion.IntendedKindOfOffsetTime | api/src/test/java/org/apache/commons/rdf/api/AbstractRDFTermFactoryTest.java:603-614 | the corrected classifier reads every OffsetTime.toString as an offset time |
| LiteralCoercion.IntendedKindOfDateTime | api/src/test/java/org/apache/commons/rdf/api/AbstractRDFTermFactoryTest.java:557-573 | the corrected classifier reads every LocalDateTime.toString as a local date-time, any year, any fraction |
| LiteralCoercion.IntendedKindOfOffsetDateTime | api/src/test/java/org/apache/commons/rdf/api/AbstractRDFTermFactoryTest.java:539-554 | the corrected classifier reads every OffsetDateTime.toString as an offset date-time, any year, any offset |
| LiteralCoercion.YearTextSignDigits | api/src/main/java/org/apache/commons/rdf/api/RDFContext.java:307-308 | LocalDate's year field is an optional sign followed by at least one digit |
| LiteralCoercion.DateRenderingIsNoFloat | api/src/main/java/org/apache/commons/rdf/api/Literal.java:219-222 | no text starting with a LocalDate.toString is accepted by Float.parseFloat |
| LiteralCoercion.TimeRenderingIsNoFloat | api/src/main/java/org/apache/commons/rdf/api/Literal.java:219-222 | no LocalTime.toString is accepted by Float.parseFloat |
| LiteralCoercion.DateTimeRenderingIsNoFloat | api/src/main/java/org/apache/commons/rdf/api/Literal.java:219-222 | no LocalDateTime.toString is accepted by Float.parseFloat |
| LiteralCoercion.OffsetDateTimeRenderingIsNoFloat | api/src/main/java/org/apache/commons/rdf/api/Literal.java:219-222 | no OffsetDateTime.toString is accepted by Float.parseFloat |
| RDFContext.BaseCreateBlankNode | api/src/main/java/org/apache/commons/rdf/api/RDFContext.java:58-61 | the base createBlankNode() throws UnsupportedOperationException "createBlankNode() not supported" |
| RDFContext.BaseCreateGraph | api/src/main/java/org/apache/commons/rdf/api/RDFContext.java:108-110 | the base createGraph() throws UnsupportedOperationException "createGraph() not supported" |
| RDFContext.BaseContext | api/src/main/java/org/apache/commons/rdf/api/RDFContext.java:88-246 | every base constructor of the context record throws UnsupportedOperationException with the source's message |
| RDFContext.TypedLiteral | api/src/main/java/org/apache/commons/rdf/api/RDFContext.java:250-312 | createLiteral(text, createIRI(dt)) builds the literal of that text and datatype on a conforming context; a failing createIRI propagates |
| RDFContext.CreateLongLiteral | api/src/main/java/org/apache/commons/rdf/api/RDFContext.java:250-252 | the literal has the decimal rendering of v, xsd:integer, and no language tag |
| RDFContext.CreateByteLiteral | api/src/main/java/org/apache/commons/rdf/api/RDFContext.java:262-264 | exactly the literal of the value widened to long, so xsd:integer |
| RDFContext.CreateShortLiteral | api/src/main/java/org/apache/commons/rdf/api/RDFContext.java:266-268 | exactly the literal of the value widened to long, so xsd:integer |
| RDFContext.CreateIntLiteral | api/src/main/java/org/apache/commons/rdf/api/RDFContext.java:270-272 | exactly the literal of the value widened to long, so xsd:integer |
| RDFContext.CreateBigIntegerLiteral | api/src/main/java/org/apache/commons/rdf/api/RDFContext.java:274-276 | the literal has BigInteger.toString and xsd:integer |
| RDFContext.CreateBigDecimalLiteral | api/src/main/java/org/apache/commons/rdf/api/RDFContext.java:278-280 | the literal has BigDecimal.toString and xsd:decimal |
| RDFContext.LongLiteralRoundTrip | api/src/test/java/org/apache/commons/rdf/api/AbstractRDFTermFactoryTest.java:428-438 | asLong and asBigInteger of createLiteral(v) give back v for every long, and asDynamic decodes it as that BigInteger |
| RDFContext.NarrowLiteralsRoundTrip | api/src/test/java/org/apache/commons/rdf/api/AbstractRDFTermFactoryTest.java:440-474 | asByte, asShort and asInteger give back every value of their width |
| RDFContext.BigIntegerLiteralRoundTrip | api/src/test/java/org/apache/commons/rdf/api/AbstractRDFTermFactoryTest.java:476-486 | asBigInteger gives back every integer of any size, and asDynamic decodes it |
| RDFContext.BigDecimalLiteralRoundTrip | api/src/test/java/org/apache/commons/rdf/api/AbstractRDFTermFactoryTest.java:488-498 | asBigDecimal gives back every BigDecimal, scale included, and asDynamic decodes it, except a BigDecimal whose toString writes an exponent beyond int (negative scale and adjusted exponent above 2^31-1), which JavaBigDecimal.ToStringExponentOverflow shows is rejected |
| RDFContext.CreateFloatLiteral | api/src/main/java/org/apache/commons/rdf/api/RDFContext.java:282-284 | the literal has the Float.toString text and xsd:float |
| RDFContext.CreateDoubleLiteral | api/src/main/java/org/apache/commons/rdf/api/RDFContext.java:286-288 | the literal has the Double.toString text and xsd:double |
| RDFContext.CreateBooleanLiteral | api/src/main/java/org/apache/commons/rdf/api/RDFContext.java:290-292 | "true" or "false" with xsd:boolean |
| RDFContext.BooleanLiteralRoundTrip | api/src/test/java/org/apache/commons/rdf/api/AbstractRDFTermFactoryTest.java:524-537 | asBoolean gives back both booleans |
| RDFContext.BooleanLiteralDecodesRaw | api/src/main/java/org/apache/commons/rdf/api/Literal.java:193-227 | asDynamic has no case for xsd:boolean, so a boolean literal decodes as its raw text |
| RDFContext.FloatingLiteralsDecode | api/src/main/java/org/apache/commons/rdf/api/Literal.java:213-217 | asDynamic and asObject read the float and double literals back through Float.parseFloat without failing, with their text |
| RDFContext.FloatingLiteralsReject | api/src/main/java/org/apache/commons/rdf/api/Literal.java:213-217 | a literal typed xsd:float or xsd:double whose text Float.parseFloat rejects makes asDynamic (and asObject for xsd:float) throw NumberFormatException |
| RDFContext.CreateOffsetDateTimeLiteral | api/src/main/java/org/apache/commons/rdf/api/RDFContext.java:299-301 | OffsetDateTime.toString with the datatype as written, "...XMLSchema#datetime" |
| RDFContext.CreateLocalDateTimeLiteral | api/src/main/java/org/apache/commons/rdf/api/RDFContext.java:303-305 | LocalDateTime.toString with the datatype as written, "...XMLSchema#datetime" |
| RDFContext.CreateLocalDateLiteral | api/src/main/java/org/apache/commons/rdf/api/RDFContext.java:307-309 | LocalDate.toString with xsd:date |
| RDFContext.CreateLocalTimeLiteral | api/src/main/java/org/apache/commons/rdf/api/RDFContext.java:311-313 | LocalTime.toString with xsd:time |
| RDFContext.DateTimeDatatypeAsWritten | api/src/main/java/org/apache/commons/rdf/api/RDFContext.java:299-305 | "#datetime" is not xsd:dateTime: asDynamic treats it as unknown, while xsd:dateTime goes to asDouble |
| RDFContext.DateTimeLiteralsDecodeRaw | api/src/main/java/org/apache/commons/rdf/api/RDFContext.java:299-305 | asDynamic of both date-time literals is their raw lexical form |
| RDFContext.IntendedOffsetDateTimeLiteral | api/src/test/java/org/apache/commons/rdf/api/AbstractRDFTermFactoryTest.java:539-554 | the corrected constructor uses xsd:dateTime, which asDynamic routes to asDouble |
| RDFContext.IntendedLocalDateTimeLiteral | api/src/test/java/org/apache/commons/rdf/api/AbstractRDFTermFactoryTest.java:557-573 | the corrected constructor uses xsd:dateTime, which asDynamic routes to asDouble |
| RDFContext.IntendedDateTimeLiteralsFailDynamic | api/src/main/java/org/apache/commons/rdf/api/Literal.java:219-222 | asDynamic throws NumberFormatException on both corrected date-time literals, since Float.parseFloat rejects their text |
| RDFContext.DateAndTimeLiteralsFailDynamic | api/src/main/java/org/apache/commons/rdf/api/Literal.java:219-222 | asDynamic throws NumberFormatException on every LocalDate and LocalTime literal, since xsd:date and xsd:time go to asDouble |
| RDFContext.TemporalLiteralsClassify | api/src/test/java/org/apache/commons/rdf/api/AbstractRDFTermFactoryTest.java:539-601 | the temporal literals feed asTemporal: times always, dates and date-times for years 0..9999, local date-times without a fraction, and offset date-times off the whole UTC minute, each as its own kind |
| RDFContext.CreateLiteralDynamic | api/src/main/java/org/apache/commons/rdf/api/RDFContext.java:335-345 | String, Float and Double go to their overloads; any other class throws IllegalArgumentException, null NullPointerException; on a conforming context it succeeds exactly for the three |
| RDFContext.LiteralOf | api/src/main/java/org/apache/commons/rdf/api/RDFContext.java:370-439 | the overload chosen for each native argument type builds a literal without a language tag |
| RDFContext.TripleOf | api/src/main/java/org/apache/commons/rdf/api/RDFContext.java:352-446 | createTriple(s, p, literal) keeps s, p and the literal; a failure to build the literal propagates |
| RDFContext.CreateTripleOfValue | api/src/main/java/org/apache/commons/rdf/api/RDFContext.java:370-439 | each native-value overload is createTriple(s, p, createLiteral(value)) |
| RDFContext.CreateTripleLang | api/src/main/java/org/apache/commons/rdf/api/RDFContext.java:352-356 | the object is the rdf:langString literal of the text, carrying the language tag |
| RDFContext.CreateTripleString | api/src/main/java/org/apache/commons/rdf/api/RDFContext.java:358-362 | the object is the xsd:string literal of the text |
| RDFContext.CreateTripleTyped | api/src/main/java/org/apache/commons/rdf/api/RDFContext.java:364-368 | the object is the literal of the lexical form with the given datatype |
| RDFContext.CreateTripleDynamic | api/src/main/java/org/apache/commons/rdf/api/RDFContext.java:442-446 | createLiteralDynamic's failures propagate; on a conforming context it succeeds exactly for String, Float and Double, with that literal as object |
| RDFContext.BaseDefaultsUnsupported | api/src/main/java/org/apache/commons/rdf/api/RDFContext.java:58-129 | on the base context every typed default fails at createIRI with its UnsupportedOperationException; the base createBlankNode() and createGraph() fail; the base context does not conform |
| Graphs.Graph.constructor | api/src/test/java/org/apache/commons/rdf/api/AbstractRDFTermFactoryTest.java:120-130 | a new graph is empty |
| Graphs.Graph.Add | api/src/test/java/org/apache/commons/rdf/api/AbstractRDFTermFactoryTest.java:131-133 | adding a triple puts it in the graph and leaves the rest unchanged |
| Simple.SimpleRDFTermFactory.constructor | simple/src/main/java/org/apache/commons/rdf/simple/SimpleRDFTermFactory.java:38-42 | a new factory with its own salt, no fresh blank nodes issued yet |
| Simple.SimpleRDFTermFactory.CreateBlankNode | simple/src/main/java/org/apache/commons/rdf/simple/SimpleRDFTermFactory.java:44-47 | the node reports this factory, and its reference is none of the earlier ones; it is recorded as issued |
| Simple.SimpleRDFTermFactory.CreateNamedBlankNode | simple/src/main/java/org/apache/commons/rdf/simple/SimpleRDFTermFactory.java:49-52 | the node reports this factory, and its reference is determined by the salt and the name |
| Simple.SimpleRDFTermFactory.CreateGraph | simple/src/main/java/org/apache/commons/rdf/simple/SimpleRDFTermFactory.java:54-59 | a new, empty graph that reports this factory |
| Simple.SimpleRDFTermFactory.CreateIRI | simple/src/main/java/org/apache/commons/rdf/simple/SimpleRDFTermFactory.java:61-66 | the interned instance when Types has one, else a new IRI of this factory; either way the IRI string is iri and the N-Triples form is "<" + iri + ">" |
| Simple.SimpleRDFTermFactory.CreateLiteral | simple/src/main/java/org/apache/commons/rdf/simple/SimpleRDFTermFactory.java:68-71 | an xsd:string literal of this factory without a tag, written as the quoted form; asObject and asDynamic give the raw text |
| Simple.SimpleRDFTermFactory.CreateTypedLiteral | simple/src/main/java/org/apache/commons/rdf/simple/SimpleRDFTermFactory.java:73-76 | keeps the lexical form unvalidated, with the datatype's IRI and no tag; written "lex"^^<dt> for every datatype but xsd:string, and "lex" (the plain createLiteral(lex)) for xsd:string |
| Simple.SimpleRDFTermFactory.CreateLangLiteral | simple/src/main/java/org/apache/commons/rdf/simple/SimpleRDFTermFactory.java:78-81 | an rdf:langString literal carrying the tag, written "lex"@tag |
| Simple.SimpleRDFTermFactory.CreateTriple | simple/src/main/java/org/apache/commons/rdf/simple/SimpleRDFTermFactory.java:83-87 | the triple reports this factory and keeps subject, predicate and object |
| Simple.SimpleRDFTermFactory.AsContext | simple/src/main/java/org/apache/commons/rdf/simple/SimpleRDFTermFactory.java:38-87 | the factory's overrides form a conforming context |
| Simple.SimpleRDFTermFactory.NamedBlankNodeIdentity | api/src/test/java/org/apache/commons/rdf/api/AbstractRDFTermFactoryTest.java:99-118 | on one factory, two named nodes have equal references, equal N-Triples forms and are equal exactly when the names are equal |
| Simple.SimpleRDFTermFactory.NamedNeverFresh | api/src/main/java/org/apache/commons/rdf/api/RDFContext.java:70-72 | a named node never has the reference or N-Triples form of a fresh node |
| Simple.SimpleRDFTermFactory.TypedDefaultsOnFactory | api/src/test/java/org/apache/commons/rdf/api/AbstractRDFTermFactoryTest.java:428-537 | the typed defaults on this factory build a literal of this factory with exactly the given text and datatype, whether or not the datatype IRI is interned |
| Simple.SimpleRDFTermFactory.FactoryRoundTrips | api/src/test/java/org/apache/commons/rdf/api/AbstractRDFTermFactoryTest.java:428-537 | on this factory createLiteral(long) is the xsd:integer literal of this factory, and asLong and asBoolean read back their values |
| Simple.DistinctSaltsDistinctNodes | api/src/main/java/org/apache/commons/rdf/api/RDFContext.java:74-79 | factories with different salts give non-equal blank nodes for the same name, with different references and N-Triples forms |
| Simple.TwoFreshBlankNodes | api/src/test/java/org/apache/commons/rdf/api/AbstractRDFTermFactoryTest.java:60-76 | two successive fresh blank nodes report the factory and differ in reference and N-Triples form |
| Simple.GraphsAreIndependent | api/src/test/java/org/apache/commons/rdf/api/AbstractRDFTermFactoryTest.java:120-140 | two graphs of a factory are distinct; after adding a triple to the first, it has one triple and the second has none |

## Left out

- Floating point: the values Float.parseFloat, Float.toString and Double.toString compute are not evaluated. Float and double literals carry their text, and asFloat/asDouble return a tag holding the text once Float.parseFloat accepts it. asDouble really calls Float.parseFloat, so doubles lose precision; this is not modelled.
- RDFContext.CreateFloatLiteral and RDFContext.CreateDoubleLiteral: a float or double value is any text Float.parseFloat accepts, a larger set than the texts Float.toString and Double.toString produce.
- LiteralCoercion.AsTemporal: Dafny strings are sequences of Unicode scalar values, while Java's length() and charAt count UTF-16 code units. On a lexical form with characters beyond the Basic Multilingual Plane the lengths and the index-2 character differ, so the model's classification differs there.
- java.time parsing: asTemporal returns the java.time type it would hand the form to, not the parsed value. A DateTimeParseException on malformed text is not modelled.
- ParseSignedDecimal, JavaBigDecimal.Parse and LiteralCoercion.AsBigDecimal: accept ASCII digits only; Long.parseLong, new BigInteger(String) and new BigDecimal(String) also accept the other digits Character.isDigit recognises.
- ParseBoolean: folds ASCII case only, not the full Unicode case folding of equalsIgnoreCase.
- JavaBigDecimal.Parse: the exponent check follows the JDK code's cast test, which admits -2^31; the JDK's Javadoc states the range as ±(2^31-1).
- IRI, blank-node-name and language-tag validation, and the IllegalArgumentException it throws: IRIImpl, LiteralImpl and BlankNodeImpl are not part of this model. createIRI and the createLiteral overloads of the simple factory always succeed.
- Escaping in N-Triples forms is not modelled.
- Terms.BlankLabel: the label encoding of BlankNodeImpl is not part of this model. It is replaced by an injective label built from the salt and the name or serial. The name enters that label verbatim, so for a name such as "with:colon" the label is not a valid N-Triples blank-node label, which AbstractRDFTermFactoryTest.java:392 requires.
- Randomness: UUID.randomUUID() is replaced by a salt passed to the constructor. Distinct factories having distinct salts is a precondition (Simple.DistinctSaltsDistinctNodes).
- Object identity: a factory's identity as the context of its terms is a number passed to the constructor, so that terms stay values.
- Fresh blank nodes: BlankNodeImpl's own source of unique references is not part of this model. It is replaced by the factory's salt and a counter of issued nodes.
- The graph store (GraphImpl: lookup, removal, pattern matching) is not part of this model. A graph is the set of its triples, with add.
- Simple.SimpleRDFTermFactory.CreateIRI: the Types table is a map given to the constructor. An interned IRI keeps the context it was created with, which need not be this factory; the Types class is not part of this model.
- Null arguments are modelled only for createLiteralDynamic, where getClass() throws NullPointerException. The other methods are modelled for non-null arguments.
- The OffsetTime test calls a createLiteral(OffsetTime) overload that RDFContext does not declare. Only OffsetTime.toString and its classification by asTemporal are modelled.
- asDynamic sends xsd:date, xsd:time and xsd:dateTime to asDouble, as written. The model keeps that routing, so asDynamic throws on every date and time rendering (RDFContext.DateAndTimeLiteralsFailDynamic).
- Concurrency and I/O (TestWritingGraph) are not modelled.
- hashCode, and equals beyond term equality, are not modelled.

## Findings

The createTriple overloads for date-times compose the as-written
constructors, as the source does.

| source | as written | input that shows it | evidently intended | confidence | as-written member | corrected member |
|---|---|---|---|---|---|---|
| api/src/main/java/org/apache/commons/rdf/api/RDFContext.java:299-305 | the OffsetDateTime and LocalDateTime overloads use datatype "http://www.w3.org/2001/XMLSchema#datetime" | createLiteral(LocalDateTime.of(2011, 3, 24, 15, 16, 17)): the datatype ends in "#datetime"; the tests at AbstractRDFTermFactoryTest.java:550 and :569 expect "#dateTime", and asDynamic reads the literal as a raw string | xsd:dateTime, "http://www.w3.org/2001/XMLSchema#dateTime" | not executed | RDFContext.DateTimeLiteralsDecodeRaw | RDFContext.IntendedLocalDateTimeLiteral |
| api/src/main/java/org/apache/commons/rdf/api/Literal.java:180-186 | a date-time or date is told apart by length alone: above 19 is an offset date-time, 11..19 a local date-time, up to 10 a date | OffsetDateTime 2011-03-24T15:16Z (17 characters, handed to LocalDateTime.parse, which rejects it); LocalDateTime 2011-03-24T15:16:17.250 (23, handed to OffsetDateTime.parse, which rejects it); LocalDate +10000-01-01 (12, handed to LocalDateTime.parse, which rejects it) | the toString of every value is read as its own type, as the round-trip tests at AbstractRDFTermFactoryTest.java:539-587 expect | not executed | LiteralCoercion.UtcMinuteOffsetDateTimeMisread | LiteralCoercion.IntendedTemporalKind |
