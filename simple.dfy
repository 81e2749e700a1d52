/**
 * SimpleRDFTermFactory: the in-memory context.  A factory holds its own
 * identity (the context its terms report), a per-instance salt for named
 * blank nodes, the shared table of interned IRIs, and a count of the fresh
 * blank nodes it has issued.
 */
module Simple {
  import opened Results
  import opened JavaNumbers
  import opened Terms
  import opened LiteralCoercion
  import opened RDFContext
  import opened Graphs

  /** The shared table of well-known IRI instances, keyed by their IRI string. */
  type TypesTable = m: map<string, IRITerm> | forall k :: k in m ==> m[k].iriString == k
    witness map[]

  class SimpleRDFTermFactory {
    /** The context identity every created term and triple reports. */
    const id: Ctx
    /** The per-instance salt (a random UUID in the source). */
    const salt: Salt
    const types: TypesTable
    /** The number of fresh blank nodes issued so far. */
    var issued: nat
    /** The references of the fresh blank nodes issued so far. */
    ghost var issuedRefs: set<BlankRef>

    ghost predicate Valid()
      reads this
    {
      forall r :: r in issuedRefs ==> r.Fresh? && r.salt == salt && r.serial < issued
    }

    constructor (id: Ctx, salt: Salt, types: TypesTable)
      ensures this.id == id && this.salt == salt && this.types == types
      ensures issued == 0 && issuedRefs == {}
      ensures Valid()
    {
      this.id := id;
      this.salt := salt;
      this.types := types;
      issued := 0;
      issuedRefs := {};
    }

    /** createBlankNode(): a node of this factory whose reference no earlier node has. */
    method CreateBlankNode() returns (b: BlankNodeTerm)
      requires Valid()
      modifies this
      ensures Valid()
      ensures b.ctx == id && b.ref.Fresh? && b.ref.salt == salt
      ensures b.ref !in old(issuedRefs)
      ensures issuedRefs == old(issuedRefs) + {b.ref}
      ensures issued == old(issued) + 1
    {
      b := BlankNode(id, Fresh(salt, issued));
      issued := issued + 1;
      issuedRefs := issuedRefs + {b.ref};
    }

    /** createBlankNode(name): the reference is a function of the salt and the name alone. */
    function CreateNamedBlankNode(name: string): (r: BlankNodeTerm)
      ensures r.ctx == id && r.ref.Named? && r.ref.salt == salt && r.ref.name == name
    {
      BlankNode(id, Named(salt, name))
    }

    /** createGraph(): a new, empty graph of this factory. */
    method CreateGraph() returns (g: Graph)
      ensures fresh(g) && g.context == id && g.triples == {}
    {
      g := new Graph(id);
    }

    /** createIRI: the interned instance when Types has one for the string, a new IRI otherwise. */
    function CreateIRI(iri: string): (r: IRITerm)
      ensures r.iriString == iri
      ensures NTriplesString(r) == "<" + iri + ">"
      ensures iri in types ==> r == types[iri]
      ensures iri !in types ==> r.ctx == id
    {
      if iri in types then types[iri] else IRI(id, iri)
    }

    /** createLiteral(lexicalForm): an xsd:string literal, written as the quoted lexical form. */
    function CreateLiteral(lex: string): (r: LiteralTerm)
      ensures r.ctx == id && r.lexicalForm == lex && r.dataType == XSD_STRING && r.languageTag == None
      ensures NTriplesString(r) == "\"" + lex + "\""
      ensures AsObject(r) == Success(RawValue(lex)) && AsDynamic(r) == Success(RawValue(lex))
    {
      assert DynamicAccessor(XSD_STRING) == ViaRawString;
      Literal(id, lex, XSD_STRING, None)
    }

    /** createLiteral(lexicalForm, dataType): the lexical form is kept unvalidated. */
    function CreateTypedLiteral(lex: string, dt: IRITerm): (r: LiteralTerm)
      ensures r.ctx == id && r.lexicalForm == lex && r.dataType == dt.iriString && r.languageTag == None
      ensures dt.iriString != XSD_STRING ==> NTriplesString(r) == "\"" + lex + "\"^^" + NTriplesString(dt)
      ensures dt.iriString == XSD_STRING ==> NTriplesString(r) == "\"" + lex + "\"" && r == CreateLiteral(lex)
    {
      Literal(id, lex, dt.iriString, None)
    }

    /** createLiteral(lexicalForm, languageTag): an rdf:langString literal carrying the tag. */
    function CreateLangLiteral(lex: string, lang: string): (r: LiteralTerm)
      ensures r.ctx == id && r.lexicalForm == lex && r.dataType == RDF_LANGSTRING && r.languageTag == Some(lang)
      ensures NTriplesString(r) == "\"" + lex + "\"@" + lang
    {
      Literal(id, lex, RDF_LANGSTRING, Some(lang))
    }

    /** createTriple: subject, predicate and object are kept as given. */
    function CreateTriple(s: BlankNodeOrIRI, p: IRITerm, o: Term): (r: Triple)
      ensures r.ctx == id && r.subject == s && r.pred == p && r.obj == o
    {
      Triple(id, s, p, o)
    }

    /** The factory seen as a context: its overrides of the interface's constructors. */
    function AsContext(): (c: Context)
      ensures Conforms(c)
      ensures forall name :: c.createNamedBlankNode(name) == Success(CreateNamedBlankNode(name))
      ensures forall iri :: c.createIRI(iri) == Success(CreateIRI(iri))
      ensures forall lex :: c.createLiteral(lex) == Success(CreateLiteral(lex))
      ensures forall lex, dt :: c.createTypedLiteral(lex, dt) == Success(CreateTypedLiteral(lex, dt))
      ensures forall lex, lang :: c.createLangLiteral(lex, lang) == Success(CreateLangLiteral(lex, lang))
      ensures forall s, p, o :: c.createTriple(s, p, o) == Success(CreateTriple(s, p, o))
    {
      Context(
        (name: string) => Success(CreateNamedBlankNode(name)),
        (iri: string) => Success(CreateIRI(iri)),
        (lex: string) => Success(CreateLiteral(lex)),
        (lex: string, dt: IRITerm) => Success(CreateTypedLiteral(lex, dt)),
        (lex: string, lang: string) => Success(CreateLangLiteral(lex, lang)),
        (s: BlankNodeOrIRI, p: IRITerm, o: Term) => Success(CreateTriple(s, p, o)))
    }

    /**
     * On one factory, named blank nodes have the same reference and the same
     * N-Triples form exactly when their names are the same.
     */
    lemma {:induction false} NamedBlankNodeIdentity(a: string, b: string)
      ensures CreateNamedBlankNode(a).ref == CreateNamedBlankNode(b).ref <==> a == b
      ensures NTriplesString(CreateNamedBlankNode(a)) == NTriplesString(CreateNamedBlankNode(b)) <==> a == b
      ensures CreateNamedBlankNode(a) == CreateNamedBlankNode(b) <==> a == b
    {
      if NTriplesString(CreateNamedBlankNode(a)) == NTriplesString(CreateNamedBlankNode(b)) {
        BlankNodeNTriplesInjective(CreateNamedBlankNode(a), CreateNamedBlankNode(b));
      }
    }

    /** A named blank node never has the reference or the N-Triples form of a fresh one. */
    lemma {:induction false} NamedNeverFresh(name: string, other: BlankNodeTerm)
      requires other.ref.Fresh?
      ensures CreateNamedBlankNode(name).ref != other.ref
      ensures NTriplesString(CreateNamedBlankNode(name)) != NTriplesString(other)
    {
      if NTriplesString(CreateNamedBlankNode(name)) == NTriplesString(other) {
        BlankNodeNTriplesInjective(CreateNamedBlankNode(name), other);
      }
    }

    /**
     * The typed defaults of the interface, run on this factory, build their
     * literal with this factory as context, whether or not the datatype IRI
     * is interned.
     */
    lemma {:induction false} TypedDefaultsOnFactory(lex: string, dt: string)
      ensures TypedLiteral(AsContext(), lex, dt) == Success(Literal(id, lex, dt, None))
    {
      assert AsContext().createIRI(dt) == Success(CreateIRI(dt));
    }

    /** asLong and asBoolean read back the long and boolean literals of this factory. */
    lemma {:induction false} FactoryRoundTrips(v: Long, b: bool)
      ensures CreateLongLiteral(AsContext(), v) == Success(Literal(id, IntegerToString(v), XSD_INTEGER, None))
      ensures AsLong(CreateLongLiteral(AsContext(), v).value) == Success(v)
      ensures AsBoolean(CreateBooleanLiteral(AsContext(), b).value) == b
    {
      TypedDefaultsOnFactory(IntegerToString(v), XSD_INTEGER);
      LongLiteralRoundTrip(AsContext(), v);
      BooleanLiteralRoundTrip(AsContext(), b);
    }
  }

  /**
   * Factories with distinct salts give non-equal blank nodes, with distinct
   * references and N-Triples forms, for the same name.
   */
  lemma {:induction false} DistinctSaltsDistinctNodes(f: SimpleRDFTermFactory, g: SimpleRDFTermFactory, name: string)
    requires f.salt != g.salt
    ensures f.CreateNamedBlankNode(name).ref != g.CreateNamedBlankNode(name).ref
    ensures !TermEqual(f.CreateNamedBlankNode(name), g.CreateNamedBlankNode(name))
    ensures NTriplesString(f.CreateNamedBlankNode(name)) != NTriplesString(g.CreateNamedBlankNode(name))
  {
    if NTriplesString(f.CreateNamedBlankNode(name)) == NTriplesString(g.CreateNamedBlankNode(name)) {
      BlankNodeNTriplesInjective(f.CreateNamedBlankNode(name), g.CreateNamedBlankNode(name));
    }
  }

  /** Two successive fresh blank nodes of a factory differ in reference and N-Triples form. */
  method TwoFreshBlankNodes(f: SimpleRDFTermFactory) returns (b1: BlankNodeTerm, b2: BlankNodeTerm)
    requires f.Valid()
    modifies f
    ensures f.Valid()
    ensures b1.ctx == f.id && b2.ctx == f.id
    ensures b1.ref != b2.ref && NTriplesString(b1) != NTriplesString(b2)
    ensures b1.ref !in old(f.issuedRefs) && b2.ref !in old(f.issuedRefs)
    ensures f.issuedRefs == old(f.issuedRefs) + {b1.ref, b2.ref}
  {
    b1 := f.CreateBlankNode();
    b2 := f.CreateBlankNode();
    if NTriplesString(b1) == NTriplesString(b2) {
      BlankNodeNTriplesInjective(b1, b2);
    }
  }

  /**
   * Two graphs of a factory are distinct objects: adding a triple to the
   * first leaves it with one triple and the second still empty.
   */
  method GraphsAreIndependent(f: SimpleRDFTermFactory) returns (g1: Graph, g2: Graph)
    requires f.Valid()
    modifies f
    ensures f.Valid()
    ensures fresh(g1) && fresh(g2) && g1 != g2
    ensures g1.context == f.id && g2.context == f.id
    ensures g1.Size() == 1 && g2.Size() == 0
  {
    g1 := f.CreateGraph();
    assert g1.Size() == 0;
    var s := f.CreateBlankNode();
    var p := f.CreateIRI("http://example.com/");
    var o := f.CreateBlankNode();
    g1.Add(f.CreateTriple(s, p, o));
    g2 := f.CreateGraph();
  }
}
