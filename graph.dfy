/**
 * The Graph an RDFContext creates: a mutable set of triples.  Only the parts
 * the term factories use are modelled.
 */
module Graphs {
  import opened Terms

  /** A graph: an abstract set of triples that starts empty. */
  class Graph {
    const context: Ctx
    var triples: set<Triple>

    constructor (context: Ctx)
      ensures this.context == context && triples == {}
    {
      this.context := context;
      triples := {};
    }

    function Size(): nat
      reads this
    {
      |triples|
    }

    method Add(t: Triple)
      modifies this
      ensures triples == old(triples) + {t}
    {
      triples := triples + {t};
    }
  }
}
