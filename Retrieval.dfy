/** Context assembly (`retrieve_documents`) in the three scripts. The vector
    store's nearest-neighbour search is not modelled: what its `query` call hands
    back is an input. The three-agent and plain scripts let any failure escape; the
    four-agent script catches it and answers with the empty context. */
module Retrieval {
  import opened Text

  /** The separator placed between retrieved documents. */
  const Sep: string := "\n---\n"

  /** What `results.get("documents", [[]])` finds: no "documents" key, or the list
      of per-query document lists stored under it. */
  datatype Lookup = Missing | Present(lists: seq<seq<string>>)

  /** The store's `query` call either raises or returns its results. `Raised` is a
      failure of the store only: the embedder that computes the query vector is
      total here. */
  datatype QueryOutcome = Raised | Returned(lookup: Lookup)

  /** `results.get("documents", [[]])[0]`: the default gives no document; an empty
      list under the key makes the index fail. */
  datatype Fetched = Docs(docs: seq<string>) | IndexFailed

  function FirstList(lookup: Lookup): Fetched {
    match lookup
    case Missing => Docs([])
    case Present(lists) => if lists == [] then IndexFailed else Docs(lists[0])
  }

  /** `"\n---\n".join(docs) if docs else ""`. */
  function Context(docs: seq<string>): string {
    if docs != [] then Join(docs, Sep) else ""
  }

  /** The three-agent and plain scripts: a failure escapes as an exception. */
  datatype Retrieved = Ok(context: string) | Raises

  function RetrieveDocuments(outcome: QueryOutcome): Retrieved {
    match outcome
    case Raised => Raises
    case Returned(lookup) =>
      match FirstList(lookup)
      case IndexFailed => Raises
      case Docs(docs) => Ok(Context(docs))
  }

  /** The four-agent script: the same assembly inside `try`, any exception giving "". */
  function RetrieveDocuments4(outcome: QueryOutcome): string {
    match outcome
    case Raised => ""
    case Returned(lookup) =>
      match FirstList(lookup)
      case IndexFailed => ""
      case Docs(docs) => Context(docs)
  }

  /** The context is empty exactly when no document came back or the only one is
      empty: two or more documents always leave a separator behind. */
  lemma ContextEmptyIff(docs: seq<string>)
    ensures Context(docs) == "" <==> docs == [] || docs == [""]
  {
    if |docs| >= 2 {
      assert |Context(docs)| >= |Sep|;
    }
  }

  /** The documents come back out of the context, in their returned order, when none
      contains a line break (the separator's first character). */
  lemma ContextSplitsBack(docs: seq<string>)
    requires docs != []
    requires forall k :: 0 <= k < |docs| ==> '\n' !in docs[k]
    ensures Split(Context(docs), Sep) == docs
  {
    forall k | 0 <= k < |docs| ensures Avoids(docs[k], Sep) {
      assert Sep[0] == '\n';
    }
    SplitJoin(docs, Sep);
  }

  /** A single document is the whole context. */
  lemma SingleDocumentContext(doc: string)
    ensures Context([doc]) == doc
  {
  }

  /** The four-agent assembly agrees with the others whenever they return, and
      turns every failure into the empty context; it is empty exactly when the
      store raised, the index failed, or the documents give an empty context. */
  lemma RetrieveDocuments4Agrees(outcome: QueryOutcome)
    ensures RetrieveDocuments(outcome).Ok? ==> RetrieveDocuments4(outcome) == RetrieveDocuments(outcome).context
    ensures RetrieveDocuments(outcome) == Raises ==> RetrieveDocuments4(outcome) == ""
    ensures RetrieveDocuments4(outcome) == "" <==>
              outcome == Raised || FirstList(outcome.lookup) == IndexFailed ||
              FirstList(outcome.lookup).docs == [] || FirstList(outcome.lookup).docs == [""]
  {
    if outcome.Returned? && FirstList(outcome.lookup).Docs? {
      ContextEmptyIff(FirstList(outcome.lookup).docs);
    }
  }
}
