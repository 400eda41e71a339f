/** The response agent of the four-agent script (`generate_response`): no model
    call, only the retrieved context cut back into its documents, the substantial
    ones kept, at most two of them quoted, and a fixed closing sentence added. */
module FragmentResponder {
  import opened Text
  import opened Retrieval

  const Apology: string :=
    "I'm sorry, I couldn't find relevant information to answer your question. Could you please rephrase or ask about a different Apple product?"

  const Closing: string :=
    "\n\nThis information should help answer your question about Apple products. Is there anything specific you'd like to know more about?"

  const NotSpecific: string :=
    "I found some information but it wasn't specific enough to answer your question. Could you please ask about a specific Apple product or feature?"

  /** A fragment worth quoting: more than ten characters once stripped. */
  predicate Substantial(fragment: string) {
    |Strip(fragment)| > 10
  }

  /** `f` of each element of `xs` that `keep` selects, in order. */
  function KeepMap<T, U>(xs: seq<T>, keep: T -> bool, f: T -> U): seq<U>
    decreases |xs|
  {
    if xs == [] then []
    else
      var last := xs[|xs| - 1];
      KeepMap(xs[..|xs| - 1], keep, f) + (if keep(last) then [f(last)] else [])
  }

  /** The stripped substantial fragments of `fragments`, in order. */
  function Kept(fragments: seq<string>): seq<string> {
    KeepMap(fragments, Substantial, Strip)
  }

  /** `parts[:2]`. */
  function TopTwo<T>(parts: seq<T>): seq<T> {
    parts[..Min(2, |parts|)]
  }

  /** `parts[:2]` holds at most two elements, the first ones of `parts`, and is
      empty only when `parts` is. */
  lemma TopTwoWithin<T>(parts: seq<T>)
    ensures |TopTwo(parts)| <= 2 && (parts != [] <==> TopTwo(parts) != [])
    ensures forall i :: 0 <= i < |TopTwo(parts)| ==> TopTwo(parts)[i] == parts[i]
  {
  }

  /** Which of the three replies `generate_response` gives. */
  datatype Reply = NoContext | NothingSpecific | Quoted(parts: seq<string>)

  function Decide(context: string): Reply {
    if context == "" then NoContext
    else
      var parts := Kept(Split(context, Sep));
      if parts == [] then NothingSpecific else Quoted(TopTwo(parts))
  }

  /** The text of a reply: a fixed message, or the quoted parts separated by a blank
      line and followed by the closing sentence. */
  function Render(reply: Reply): string {
    match reply
    case NoContext => Apology
    case NothingSpecific => NotSpecific
    case Quoted(parts) => Join(parts, "\n\n") + Closing
  }

  /** The reply for `context`. */
  function FragmentResponse(context: string): string {
    Render(Decide(context))
  }

  /** `generate_response`; the user's question is only echoed to the log. */
  method GenerateResponse(context: string, userInput: string) returns (response: string)
    ensures response == FragmentResponse(context)
  {
    if context == "" {
      return Apology;
    }
    var responseParts: seq<string> := [];
    var contextLines := Split(context, Sep);
    for i := 0 to |contextLines|
      invariant responseParts == Kept(contextLines[..i])
    {
      var line := contextLines[i];
      PrefixStep(contextLines, i);
      if Strip(line) != "" {
        var cleanLine := Strip(line);
        if cleanLine != "" && |cleanLine| > 10 {
          responseParts := responseParts + [cleanLine];
        }
      }
    }
    assert contextLines[..|contextLines|] == contextLines by {
      if contextLines != [] { PrefixStep(contextLines, 0); }
    }
    if responseParts != [] {
      response := Join(responseParts[..Min(2, |responseParts|)], "\n\n");
      response := response + Closing;
    } else {
      response := NotSpecific;
    }
  }

  /** Keeping distributes over concatenation, so fragments keep their order. */
  lemma {:induction false} KeepMapAppend<T, U>(a: seq<T>, b: seq<T>, keep: T -> bool, f: T -> U)
    ensures KeepMap(a + b, keep, f) == KeepMap(a, keep, f) + KeepMap(b, keep, f)
    decreases |b|
  {
    if b == [] {
      AppendAssoc(a, b, b);
      AppendAssoc(KeepMap(a, keep, f), [], []);
    } else {
      var front, last := b[..|b| - 1], b[|b| - 1];
      var extra := if keep(last) then [f(last)] else [];
      assert KeepMap(a + b, keep, f) == KeepMap(a + front, keep, f) + extra by {
        AppendFront(a, b);
      }
      KeepMapAppend(a, front, keep, f);
      AppendAssoc(KeepMap(a, keep, f), KeepMap(front, keep, f), extra);
    }
  }

  /** Every element kept is `f` of a selected element, and no more are kept than
      there are elements. */
  lemma {:induction false} KeepMapFrom<T, U>(xs: seq<T>, keep: T -> bool, f: T -> U)
    ensures |KeepMap(xs, keep, f)| <= |xs|
    ensures forall i :: 0 <= i < |KeepMap(xs, keep, f)| ==>
              exists k :: 0 <= k < |xs| && keep(xs[k]) && KeepMap(xs, keep, f)[i] == f(xs[k])
    decreases |xs|
  {
    if xs != [] {
      var n := |xs| - 1;
      var front := xs[..n];
      KeepMapFrom(front, keep, f);
      var kept, before := KeepMap(xs, keep, f), KeepMap(front, keep, f);
      assert kept == before + (if keep(xs[n]) then [f(xs[n])] else []);
      forall i | 0 <= i < |kept| ensures exists k :: 0 <= k < |xs| && keep(xs[k]) && kept[i] == f(xs[k]) {
        if i < |before| {
          assert kept[i] == before[i];
          var k :| 0 <= k < |front| && keep(front[k]) && before[i] == f(front[k]);
          assert xs[k] == front[k];
        } else {
          assert keep(xs[n]) && kept[i] == f(xs[n]);
        }
      }
    }
  }

  /** A single element is kept, mapped, exactly when it is selected. */
  lemma KeepMapSingle<T, U>(x: T, keep: T -> bool, f: T -> U)
    ensures KeepMap([x], keep, f) == if keep(x) then [f(x)] else []
  {
    assert [x][..0] == [];
    AppendAssoc([f(x)], [], []);
  }

  /** No element of `xs` satisfies `p`. */
  predicate NoneOf<T>(xs: seq<T>, p: T -> bool) {
    forall k :: 0 <= k < |xs| ==> !p(xs[k])
  }

  /** No element satisfies `p` exactly when none of the front does and the last does not. */
  lemma NoneOfFrontLast<T>(xs: seq<T>, p: T -> bool)
    requires xs != []
    ensures NoneOf(xs, p) <==> NoneOf(xs[..|xs| - 1], p) && !p(xs[|xs| - 1])
  {
    assert forall k :: 0 <= k < |xs| - 1 ==> xs[..|xs| - 1][k] == xs[k];
  }

  /** Nothing is kept exactly when nothing is selected. */
  lemma {:induction false} KeepMapEmptyIff<T, U>(xs: seq<T>, keep: T -> bool, f: T -> U)
    ensures KeepMap(xs, keep, f) == [] <==> NoneOf(xs, keep)
    decreases |xs|
  {
    if xs != [] {
      KeepMapEmptyIff(xs[..|xs| - 1], keep, f);
      NoneOfFrontLast(xs, keep);
    }
  }

  /** A kept part: the stripped text of a substantial fragment. */
  predicate PartOf(x: string, fragments: seq<string>) {
    exists k :: 0 <= k < |fragments| && Substantial(fragments[k]) && x == Strip(fragments[k])
  }

  /** Every kept part is a stripped fragment of more than ten characters, and the
      parts are never more than the fragments. */
  lemma KeptParts(fragments: seq<string>)
    ensures |Kept(fragments)| <= |fragments|
    ensures forall i :: 0 <= i < |Kept(fragments)| ==>
              |Kept(fragments)[i]| > 10 && IsStripped(Kept(fragments)[i]) && PartOf(Kept(fragments)[i], fragments)
  {
    KeepMapFrom(fragments, Substantial, Strip);
    var kept := Kept(fragments);
    forall i | 0 <= i < |kept| ensures |kept[i]| > 10 && IsStripped(kept[i]) && PartOf(kept[i], fragments) {
      var k :| 0 <= k < |fragments| && Substantial(fragments[k]) && kept[i] == Strip(fragments[k]);
    }
  }

  /** No fragment is substantial. */
  predicate NoneSubstantial(fragments: seq<string>) {
    NoneOf(fragments, Substantial)
  }

  /** Nothing is kept exactly when no fragment is substantial. */
  lemma KeptEmptyIff(fragments: seq<string>)
    ensures Kept(fragments) == [] <==> NoneSubstantial(fragments)
  {
    KeepMapEmptyIff(fragments, Substantial, Strip);
  }

  /** The decision: no context exactly when the context is empty, nothing specific
      exactly when no fragment of a non-empty context is substantial. */
  lemma DecideCases(context: string)
    ensures Decide(context) == NoContext <==> context == ""
    ensures Decide(context) == NothingSpecific <==>
              context != "" && NoneSubstantial(Split(context, Sep))
  {
    if context != "" {
      KeptEmptyIff(Split(context, Sep));
    }
  }

  /** The first one or two kept fragments: each a stripped fragment of more than
      ten characters. */
  lemma QuotedParts(fragments: seq<string>)
    requires Kept(fragments) != []
    ensures var parts := TopTwo(Kept(fragments));
            1 <= |parts| <= 2 && parts[0] == Kept(fragments)[0] &&
            forall i :: 0 <= i < |parts| ==>
              parts[i] == Kept(fragments)[i] && |parts[i]| > 10 && IsStripped(parts[i]) && PartOf(parts[i], fragments)
  {
    KeptParts(fragments);
    TopTwoWithin(Kept(fragments));
  }

  /** A quoted reply quotes the first one or two kept fragments of the context. */
  lemma DecideQuoted(context: string)
    requires Decide(context).Quoted?
    ensures Kept(Split(context, Sep)) != []
    ensures Decide(context).parts == TopTwo(Kept(Split(context, Sep)))
  {
  }

  /** The text tells the replies apart: a quoted reply is never one of the two fixed
      messages, it starts with its first part and ends with the closing sentence. */
  lemma RenderTellsApart(reply: Reply)
    requires reply.Quoted? ==> reply.parts != [] && |reply.parts[0]| > 10
    ensures Render(reply) == Apology <==> reply == NoContext
    ensures Render(reply) == NotSpecific <==> reply == NothingSpecific
    ensures reply.Quoted? ==>
              var r := Render(reply);
              reply.parts[0] <= r && |r| >= |Closing| && r[|r| - |Closing|..] == Closing
  {
    MessageFacts();
    if reply.Quoted? {
      var joined := Join(reply.parts, "\n\n");
      var r := joined + Closing;
      JoinStartsWithFirst(reply.parts, "\n\n");
      assert |r| > |Apology|;
      assert r[|r| - 2] == Closing[|Closing| - 2];
    }
  }

  /** The lengths and last letters of the fixed texts. */
  lemma MessageFacts()
    ensures |Apology| == 138 && |NotSpecific| == 143 && |Closing| == 131
    ensures NotSpecific[141] == 'e' && Closing[129] == 't'
  {
  }

  /** The three outcomes of `generate_response` as its text shows them. */
  lemma FragmentResponseCases(context: string)
    ensures FragmentResponse(context) == Apology <==> context == ""
    ensures FragmentResponse(context) == NotSpecific <==>
              context != "" && NoneSubstantial(Split(context, Sep))
    ensures context != "" && Decide(context).Quoted? ==>
              var r := FragmentResponse(context);
              Kept(Split(context, Sep))[0] <= r && r[|r| - |Closing|..] == Closing
  {
    DecideCases(context);
    if Decide(context).Quoted? {
      DecideQuoted(context);
      QuotedParts(Split(context, Sep));
    }
    RenderTellsApart(Decide(context));
  }

  /** A join starts with its first piece. */
  lemma JoinStartsWithFirst(xs: seq<string>, sep: string)
    requires xs != []
    ensures xs[0] <= Join(xs, sep)
  {
    if |xs| > 1 {
      assert Join(xs, sep) == xs[0] + (sep + Join(xs[1..], sep));
    }
  }

  /** Only the first two kept fragments matter: contexts that agree on them get the
      same reply. */
  lemma OnlyTopTwoMatter(c1: string, c2: string)
    requires c1 != "" && c2 != ""
    requires TopTwo(Kept(Split(c1, Sep))) == TopTwo(Kept(Split(c2, Sep)))
    ensures Decide(c1) == Decide(c2)
  {
    var p1, p2 := Kept(Split(c1, Sep)), Kept(Split(c2, Sep));
    assert p1 == [] <==> TopTwo(p1) == [];
    assert p2 == [] <==> TopTwo(p2) == [];
  }

  /** From retrieval to reply: when no retrieved document contains a line break, the
      reply is decided on the documents themselves. */
  lemma DecideOnDocuments(docs: seq<string>)
    requires docs != [] && Context(docs) != ""
    requires forall k :: 0 <= k < |docs| ==> '\n' !in docs[k]
    ensures Decide(Context(docs)) == if Kept(docs) == [] then NothingSpecific else Quoted(TopTwo(Kept(docs)))
  {
    ContextSplitsBack(docs);
  }

  /** A single retrieved document of more than ten characters, with no line break and
      no whitespace at its ends, is quoted whole and followed by the closing sentence. */
  lemma SingleDocumentReply(doc: string)
    requires '\n' !in doc && IsStripped(doc) && |doc| > 10
    ensures FragmentResponse(Context([doc])) == doc + Closing
  {
    assert Kept([doc]) == [doc] by {
      StripOfStripped(doc);
      KeepMapSingle(doc, Substantial, Strip);
    }
    DecideOnDocuments([doc]);
  }
}
