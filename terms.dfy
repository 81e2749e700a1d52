/**
 * RDF terms and triples as the term factories build them.  Every term and
 * triple carries the context (factory) that created it, so that "this term
 * reports that factory as its context" can be stated.
 */
module Terms {
  import opened Results
  import opened JavaNumbers

  /**
   * The identity of the context (factory) that created a term: object
   * identity in the source, a number here, so that terms stay plain values.
   */
  type Ctx = nat

  /** A per-factory random salt (a UUID in the source). */
  type Salt = nat

  /**
   * The unique reference of a blank node: derived from the factory's salt and
   * either the caller's name or a serial number for a fresh node.
   */
  datatype BlankRef = Named(salt: Salt, name: string) | Fresh(salt: Salt, serial: nat)

  datatype Term =
    | IRI(ctx: Ctx, iriString: string)
    | BlankNode(ctx: Ctx, ref: BlankRef)
    | Literal(ctx: Ctx, lexicalForm: string, dataType: string, languageTag: Option<string>)

  type IRITerm = t: Term | t.IRI? witness IRI(0, "")
  type BlankNodeTerm = t: Term | t.BlankNode? witness BlankNode(0, Fresh(0, 0))
  type BlankNodeOrIRI = t: Term | t.IRI? || t.BlankNode? witness IRI(0, "")
  type LiteralTerm = t: Term | t.Literal? witness Literal(0, "", "", None)

  datatype Triple = Triple(ctx: Ctx, subject: BlankNodeOrIRI, pred: IRITerm, obj: Term)

  const XSD_STRING: string := "http://www.w3.org/2001/XMLSchema#string"
  const XSD_BOOLEAN: string := "http://www.w3.org/2001/XMLSchema#boolean"
  const XSD_INTEGER: string := "http://www.w3.org/2001/XMLSchema#integer"
  const XSD_DECIMAL: string := "http://www.w3.org/2001/XMLSchema#decimal"
  const XSD_FLOAT: string := "http://www.w3.org/2001/XMLSchema#float"
  const XSD_DOUBLE: string := "http://www.w3.org/2001/XMLSchema#double"
  const XSD_DATE: string := "http://www.w3.org/2001/XMLSchema#date"
  const XSD_TIME: string := "http://www.w3.org/2001/XMLSchema#time"
  const XSD_DATETIME: string := "http://www.w3.org/2001/XMLSchema#dateTime"
  const RDF_LANGSTRING: string := "http://www.w3.org/1999/02/22-rdf-syntax-ns#langString"

  /**
   * Term equality of RDF 1.1: IRIs by their string, blank nodes by creating
   * context and reference, literals by lexical form, datatype and language
   * tag.  The creating context of an IRI or a literal plays no part.
   */
  predicate TermEqual(a: Term, b: Term) {
    match a
    case IRI(_, s) => b.IRI? && b.iriString == s
    case BlankNode(c, r) => b.BlankNode? && b.ctx == c && b.ref == r
    case Literal(_, lex, dt, lang) =>
      b.Literal? && b.lexicalForm == lex && b.dataType == dt && b.languageTag == lang
  }

  /**
   * The blank-node label: a stand-in for the source's encoding of the
   * reference, chosen injective: a kind letter, the salt's digits, '.', then
   * the name or the serial's digits.
   */
  function BlankLabel(r: BlankRef): string {
    [if r.Named? then 'n' else 'f'] + (NatToDecimal(r.salt) + "." + LabelPayload(r))
  }

  function LabelPayload(r: BlankRef): string {
    match r
    case Named(_, name) => name
    case Fresh(_, serial) => NatToDecimal(serial)
  }

  /**
   * The N-Triples form: <iri>, _:label, or a quoted lexical form followed by
   * @tag, by ^^<datatype>, or by nothing for xsd:string.  Escaping is not
   * modelled.
   */
  function NTriplesString(t: Term): (r: string)
    ensures |r| >= 2
    ensures r[0] == '<' <==> t.IRI?
    ensures r[0] == '"' <==> t.Literal?
    ensures r[0] == '_' <==> t.BlankNode?
  {
    match t
    case IRI(_, s) => "<" + s + ">"
    case BlankNode(_, r) => "_:" + BlankLabel(r)
    case Literal(_, lex, dt, lang) =>
      "\"" + lex + "\""
      + (if lang.Some? then "@" + lang.value
         else if dt == XSD_STRING then ""
         else "^^<" + dt + ">")
  }

  // ---------------------------------------------------------------------
  // Properties
  // ---------------------------------------------------------------------

  /** Term equality is an equivalence relation. */
  lemma TermEqualIsEquivalence(a: Term, b: Term, c: Term)
    ensures TermEqual(a, a)
    ensures TermEqual(a, b) ==> TermEqual(b, a)
    ensures TermEqual(a, b) && TermEqual(b, c) ==> TermEqual(a, c)
  {
  }

  /** Term-equal IRIs and literals have the same N-Triples form. */
  lemma TermEqualSameNTriples(a: Term, b: Term)
    requires TermEqual(a, b)
    ensures NTriplesString(a) == NTriplesString(b)
  {
  }

  /** If a + "." + b == c + "." + d and a, c are digit strings, the parts agree. */
  lemma {:induction false} SplitAtDot(a: string, b: string, c: string, d: string)
    requires AllDigits(a) && AllDigits(c)
    requires a + "." + b == c + "." + d
    ensures a == c && b == d
  {
    var s := a + "." + b;
    // The first '.' of s sits at index |a| and at index |c|.
    assert s[|a|] == '.' && s[|c|] == '.';
    assert a == s[..|a|] == c;
    assert b == s[|a| + 1..] == d;
  }

  lemma DecimalInjective(m: nat, n: nat)
    requires NatToDecimal(m) == NatToDecimal(n)
    ensures m == n
  {
    DigitsValueOfDecimal(m);
    DigitsValueOfDecimal(n);
  }

  /** The blank-node label determines the reference. */
  lemma {:induction false} BlankLabelInjective(r1: BlankRef, r2: BlankRef)
    requires BlankLabel(r1) == BlankLabel(r2)
    ensures r1 == r2
  {
    var l := BlankLabel(r1);
    assert NatToDecimal(r1.salt) + "." + LabelPayload(r1) == l[1..];
    assert NatToDecimal(r2.salt) + "." + LabelPayload(r2) == l[1..];
    SplitAtDot(NatToDecimal(r1.salt), LabelPayload(r1), NatToDecimal(r2.salt), LabelPayload(r2));
    DecimalInjective(r1.salt, r2.salt);
    assert l[0] == BlankLabel(r2)[0];
    if r1.Fresh? {
      DecimalInjective(r1.serial, r2.serial);
    }
  }

  /** Distinct blank nodes (by reference) have distinct N-Triples forms. */
  lemma {:induction false} BlankNodeNTriplesInjective(a: BlankNodeTerm, b: BlankNodeTerm)
    requires NTriplesString(a) == NTriplesString(b)
    ensures a.ref == b.ref
  {
    assert BlankLabel(a.ref) == NTriplesString(a)[2..];
    assert BlankLabel(b.ref) == NTriplesString(b)[2..];
    BlankLabelInjective(a.ref, b.ref);
  }
}
