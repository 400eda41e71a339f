/** The controller loops of the three scripts, one turn at a time: the line is
    classified, and a question goes through the agents. A turn is stated over what
    the agents make of a question (`agents`), and the agent pipelines of the three
    scripts are given separately (`Agents4`, `Agents3`, `AgentsPlain`). The
    embedder and the vector store's query are one function parameter, `search`,
    from the text that is embedded to what the query hands back; the embedder is
    total, so `Raised` stands for a failure of the store's query alone. */
module Controller {
  import opened Text
  import opened Retrieval
  import opened Commands
  import QueryEnhancer
  import FragmentResponder
  import RuleResponder
  import Prompt

  /** What one turn of a loop prints: the farewell, the prompt to ask again, an
      answer, or the traceback of an escaped exception. An answer is kept as the
      responder's reply, from which the printed text is rendered
      (`FragmentResponder.Render`, `RuleResponder.Render`, or the model's text). */
  datatype Said<R> = Goodbye | AskAgain | Answered(reply: R) | Crashed

  /** What a pipeline without `try` makes of a question: an escaped exception, or
      a reply. */
  datatype Attempt<R> = Failed | Succeeded(value: R)

  /** A reply of the three-agent responder: the rule that fired and the context it
      quotes. */
  datatype RuleReply = RuleReply(rule: RuleResponder.Rule, context: string)

  /** The four-agent pipeline: the question is enhanced before retrieval, a failed
      retrieval gives the empty context, and the fragment responder answers. */
  function Agents4(search: string -> QueryOutcome): string -> FragmentResponder.Reply {
    q => FragmentResponder.Decide(RetrieveDocuments4(search(QueryEnhancer.Enhanced(q))))
  }

  /** The three-agent pipeline: retrieval on the question itself, with no `try`,
      then the rule-based responder. */
  function Agents3(search: string -> QueryOutcome): string -> Attempt<RuleReply> {
    q => match RetrieveDocuments(search(q))
         case Raises => Failed
         case Ok(context) => Succeeded(RuleReply(RuleResponder.Choose(context, q), context))
  }

  /** The plain pipeline: retrieval with no `try`, then the chat model answering the
      three-message prompt. */
  function AgentsPlain(search: string -> QueryOutcome, model: seq<Prompt.Message> -> string): string -> Attempt<string> {
    q => match RetrieveDocuments(search(q))
         case Raises => Failed
         case Ok(context) => Succeeded(Prompt.Answer(model, context, q))
  }

  /** One turn of the four-agent loop: the pipeline sits inside `try`, so every
      question is answered. */
  function Turn4<R>(raw: string, agents: string -> R): Said<R> {
    match Classify4(raw)
    case Exit => Goodbye
    case Reprompt => AskAgain
    case Ask(q) => Answered(agents(q))
  }

  /** One turn of the three-agent or the plain loop: an exception in the pipeline
      ends the program. */
  function Turn<R>(raw: string, agents: string -> Attempt<R>): Said<R> {
    match Classify(raw)
    case Exit => Goodbye
    case Reprompt => AskAgain
    case Ask(q) =>
      match agents(q)
      case Failed => Crashed
      case Succeeded(r) => Answered(r)
  }

  /** One four-agent turn for each line, as a function of the line. */
  function Responder4<R>(agents: string -> R): string -> Said<R> {
    raw => Turn4(raw, agents)
  }

  /** The four-agent session over the lines typed: one turn per line read. */
  function Session4<R>(lines: seq<string>, agents: string -> R): seq<Said<R>> {
    MapSeq(Consumed(lines), Responder4(agents))
  }

  /** `f` applied to every element of `xs`, in order. */
  function MapSeq<T, U>(xs: seq<T>, f: T -> U): seq<U>
    decreases |xs|
  {
    if xs == [] then [] else MapSeq(xs[..|xs| - 1], f) + [f(xs[|xs| - 1])]
  }

  /** Mapping keeps the length and the order. */
  lemma {:induction false} MapSeqIndex<T, U>(xs: seq<T>, f: T -> U)
    ensures |MapSeq(xs, f)| == |xs|
    ensures forall k :: 0 <= k < |xs| ==> MapSeq(xs, f)[k] == f(xs[k])
    decreases |xs|
  {
    if xs != [] {
      MapSeqIndex(xs[..|xs| - 1], f);
    }
  }

  /** A turn says goodbye exactly on an exit word, whatever the agents do. */
  lemma GoodbyeOnExit<R>(raw: string, agents: string -> R)
    ensures Turn4(raw, agents) == Goodbye <==> IsExitLine(raw)
    ensures Responder4(agents)(raw) == Goodbye <==> IsExitLine(raw)
  {
  }

  /** Once an exit word has been typed, the lines that follow are never answered. */
  lemma SessionStopsReading<R>(lines: seq<string>, more: seq<string>, agents: string -> R)
    requires HasExit(lines)
    ensures Session4(lines + more, agents) == Session4(lines, agents)
  {
    ConsumedStopsAtExit(lines, more);
  }

  /** A session with an exit word ends with the goodbye and says it nowhere else. */
  lemma SessionEndsAtExit<R>(lines: seq<string>, agents: string -> R)
    requires HasExit(lines)
    ensures var said := Session4(lines, agents);
            said != [] && said[|said| - 1] == Goodbye &&
            forall k :: 0 <= k < |said| - 1 ==> said[k] != Goodbye
  {
    var read := Consumed(lines);
    ConsumedStopsAtExit(lines, []);
    MapSeqIndex(read, Responder4(agents));
    GoodbyeOnExit(read[|read| - 1], agents);
    forall k | 0 <= k < |read| - 1 ensures Turn4(read[k], agents) != Goodbye {
      GoodbyeOnExit(read[k], agents);
    }
  }

  /** Without an exit word every line gets its turn and none says goodbye. */
  lemma SessionWithoutExit<R>(lines: seq<string>, agents: string -> R)
    requires !HasExit(lines)
    ensures |Session4(lines, agents)| == |lines|
    ensures forall k :: 0 <= k < |lines| ==> Session4(lines, agents)[k] == Turn4(lines[k], agents) != Goodbye
  {
    ConsumedAll(lines);
    MapSeqIndex(lines, Responder4(agents));
    var said := Session4(lines, agents);
    forall k | 0 <= k < |lines| ensures said[k] == Turn4(lines[k], agents) != Goodbye {
      GoodbyeOnExit(lines[k], agents);
    }
  }

  /** On a blank line the four-agent loop asks again while the other two run their
      pipeline on the empty question, whatever the pipelines do. */
  lemma BlankLine<R, S>(raw: string, agents4: string -> R, agents: string -> Attempt<S>)
    requires AllSpace(raw)
    ensures Turn4(raw, agents4) == AskAgain
    ensures Turn(raw, agents) == if agents("").Failed? then Crashed else Answered(agents("").value)
  {
    assert Classify4(raw) == Reprompt && Classify(raw) == Ask("") by {
      ClassifyAgree(raw);
      StripEmptyIffBlank(raw);
      EmptyNotExit();
    }
  }

  /** A line that is neither blank nor an exit word is answered alike by the
      four-agent loop and the others, up to the pipeline. */
  lemma QuestionAnswered<R, S>(raw: string, agents4: string -> R, agents: string -> Attempt<S>)
    requires !AllSpace(raw) && !IsExitLine(raw)
    ensures Classify4(raw) == Classify(raw) && Classify(raw).Ask?
    ensures Turn4(raw, agents4) == Answered(agents4(Strip(raw)))
    ensures Turn(raw, agents) != Goodbye && Turn(raw, agents) != AskAgain
  {
    ClassifyAgree(raw);
  }

  /** When the store fails, the four-agent pipeline answers with the no-context
      reply (the apology), so the loop carries on. */
  lemma FailedSearch4(q: string, search: string -> QueryOutcome)
    requires forall text :: search(text) == Raised
    ensures Agents4(search)(q) == FragmentResponder.NoContext
  {
    assert RetrieveDocuments4(search(QueryEnhancer.Enhanced(q))) == "";
  }

  /** When the store fails, the three-agent pipeline raises. */
  lemma FailedSearch3(q: string, search: string -> QueryOutcome)
    requires forall text :: search(text) == Raised
    ensures Agents3(search)(q) == Failed
  {
    assert RetrieveDocuments(search(q)) == Raises;
  }

  /** When the store fails, the plain pipeline raises. */
  lemma FailedSearchPlain(q: string, search: string -> QueryOutcome, model: seq<Prompt.Message> -> string)
    requires forall text :: search(text) == Raised
    ensures AgentsPlain(search, model)(q) == Failed
  {
    assert RetrieveDocuments(search(q)) == Raises;
  }

  /** A pipeline that raises on a question ends the three-agent and plain loops. */
  lemma FailureCrashes<R>(raw: string, agents: string -> Attempt<R>)
    requires Classify(raw).Ask? && agents(Classify(raw).question) == Failed
    ensures Turn(raw, agents) == Crashed
  {
  }
}
