/** How the controller loops of the three scripts read their input: each line is
    stripped, an exit word in any case ends the session, and anything else is a
    question. Only the four-agent loop asks again on an empty line. */
module Commands {
  import opened Text

  const ExitWords: seq<string> := ["exit", "quit", "bye"]

  /** What the controller does with one line of input. */
  datatype Step = Exit | Reprompt | Ask(question: string)

  /** `user_input.lower() in ["exit", "quit", "bye"]` on the stripped line. */
  predicate IsExit(input: string) {
    Lower(input) in ExitWords
  }

  /** The three-agent and plain loops: exit, or ask with the stripped line. */
  function Classify(raw: string): Step {
    var input := Strip(raw);
    if IsExit(input) then Exit else Ask(input)
  }

  /** The four-agent loop: exit, ask again on an empty line, or ask. */
  function Classify4(raw: string): Step {
    var input := Strip(raw);
    if IsExit(input) then Exit
    else if input == "" then Reprompt
    else Ask(input)
  }

  /** The four-agent loop differs from the others only on a blank line, which the
      others send on as an empty question. */
  lemma ClassifyAgree(raw: string)
    ensures Classify(raw) == Ask("") ==> Classify4(raw) == Reprompt
    ensures Classify(raw) != Ask("") ==> Classify4(raw) == Classify(raw)
    ensures Classify4(raw) == Reprompt <==> AllSpace(raw)
  {
    EmptyNotExit();
    assert Strip(raw) == "" <==> AllSpace(raw) by {
      StripEmptyIffBlank(raw);
    }
  }

  /** The empty line is not an exit word. */
  lemma EmptyNotExit()
    ensures !IsExit("")
  {
    assert |Lower("")| == 0;
  }

  /** A question is never blank in the four-agent loop and is always stripped. */
  lemma QuestionsStripped(raw: string)
    ensures Classify(raw).Ask? ==> IsStripped(Classify(raw).question)
    ensures Classify4(raw).Ask? ==> IsStripped(Classify4(raw).question) && Classify4(raw).question != ""
  {
  }

  /** Whitespace around the line and the case of its letters do not decide whether it
      ends the session. */
  lemma ExitIgnoresPaddingAndCase(p: string, raw: string, q: string)
    requires AllSpace(p) && AllSpace(q)
    ensures IsExit(Strip(p + raw + q)) <==> IsExit(Strip(raw))
    ensures IsExit(Strip(Lower(raw))) <==> IsExit(Strip(raw))
    ensures Classify(p + raw + q) == Classify(raw) && Classify4(p + raw + q) == Classify4(raw)
  {
    StripPadded(p, raw, q);
    StripLower(raw);
    LowerIdempotent(Strip(raw));
  }

  /** "Bye" in capitals ends the session in every loop (and, by the lemma above, so
      does "Bye" with whitespace around it). */
  lemma ByeIsExit()
    ensures Classify("Bye") == Exit && Classify4("Bye") == Exit
  {
    assert Strip("Bye") == "Bye" by {
      StripOfStripped("Bye");
    }
    ByeLowered();
  }

  /** "Bye" lowered is the third exit word. */
  lemma ByeLowered()
    ensures IsExit("Bye")
  {
    var w := Lower("Bye");
    assert w[0] == 'b' && w[1] == 'y' && w[2] == 'e';
    assert w == ExitWords[2];
  }

  /** A line that ends the four-agent session. */
  predicate IsExitLine(raw: string) {
    Classify4(raw) == Exit
  }

  /** The elements of `xs` up to and including the first one that satisfies `stop`. */
  function UpToFirst<T>(xs: seq<T>, stop: T -> bool): seq<T>
    decreases |xs|
  {
    if xs == [] then []
    else if stop(xs[0]) then [xs[0]]
    else [xs[0]] + UpToFirst(xs[1..], stop)
  }

  /** What is taken is a prefix. */
  lemma {:induction false} UpToFirstPrefix<T>(xs: seq<T>, stop: T -> bool)
    ensures var r := UpToFirst(xs, stop);
            |r| <= |xs| && r == xs[..|r|]
    decreases |xs|
  {
    if xs != [] && !stop(xs[0]) {
      UpToFirstPrefix(xs[1..], stop);
    }
  }

  /** Taking stops at the first match: what follows is never taken. */
  lemma {:induction false} UpToFirstExtend<T>(xs: seq<T>, more: seq<T>, stop: T -> bool, i: nat)
    requires i < |xs| && stop(xs[i])
    ensures UpToFirst(xs + more, stop) == UpToFirst(xs, stop)
    decreases |xs|
  {
    assert (xs + more)[0] == xs[0];
    if !stop(xs[0]) {
      assert (xs + more)[1..] == xs[1..] + more;
      assert xs[1..][i - 1] == xs[i];
      UpToFirstExtend(xs[1..], more, stop, i - 1);
    }
  }

  /** When something matches, the last element taken is the first match. */
  lemma {:induction false} UpToFirstLast<T>(xs: seq<T>, stop: T -> bool, i: nat)
    requires i < |xs| && stop(xs[i])
    ensures var r := UpToFirst(xs, stop);
            r != [] && stop(r[|r| - 1]) && forall k :: 0 <= k < |r| - 1 ==> !stop(r[k])
    decreases |xs|
  {
    if !stop(xs[0]) {
      assert xs[1..][i - 1] == xs[i];
      UpToFirstLast(xs[1..], stop, i - 1);
    }
  }

  /** With no match everything is taken. */
  lemma {:induction false} UpToFirstAll<T>(xs: seq<T>, stop: T -> bool)
    requires forall k :: 0 <= k < |xs| ==> !stop(xs[k])
    ensures UpToFirst(xs, stop) == xs
    decreases |xs|
  {
    if xs != [] {
      assert forall k :: 0 <= k < |xs[1..]| ==> !stop(xs[1..][k]) by {
        forall k | 0 <= k < |xs[1..]| ensures !stop(xs[1..][k]) {
          assert xs[1..][k] == xs[k + 1];
        }
      }
      UpToFirstAll(xs[1..], stop);
      assert [xs[0]] + xs[1..] == xs;
    }
  }

  /** The lines the four-agent loop reads: all of them up to and including the first
      exit word. */
  function Consumed(lines: seq<string>): seq<string> {
    UpToFirst(lines, IsExitLine)
  }

  predicate HasExit(lines: seq<string>) {
    exists k :: 0 <= k < |lines| && IsExitLine(lines[k])
  }

  /** Reading stops at the first exit word: later lines are never read, and the last
      line read is the only exit word read. */
  lemma ConsumedStopsAtExit(lines: seq<string>, more: seq<string>)
    requires HasExit(lines)
    ensures Consumed(lines + more) == Consumed(lines)
    ensures var read := Consumed(lines);
            read != [] && |read| <= |lines| && read == lines[..|read|] && IsExitLine(read[|read| - 1]) &&
            forall k :: 0 <= k < |read| - 1 ==> !IsExitLine(read[k])
  {
    var i :| 0 <= i < |lines| && IsExitLine(lines[i]);
    UpToFirstExtend(lines, more, IsExitLine, i);
    UpToFirstPrefix(lines, IsExitLine);
    ConsumedLast(lines, i);
  }

  lemma ConsumedLast(lines: seq<string>, i: nat)
    requires i < |lines| && IsExitLine(lines[i])
    ensures var read := Consumed(lines);
            read != [] && IsExitLine(read[|read| - 1]) &&
            forall k :: 0 <= k < |read| - 1 ==> !IsExitLine(read[k])
  {
    UpToFirstLast(lines, IsExitLine, i);
  }

  /** Without an exit word every line is read. */
  lemma ConsumedAll(lines: seq<string>)
    requires !HasExit(lines)
    ensures Consumed(lines) == lines
  {
    UpToFirstAll(lines, IsExitLine);
  }
}
