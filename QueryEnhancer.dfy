/** The query-processing agent of the four-agent script (`process_query`): the
    query is trimmed and lower-cased for matching only, scanned for a fixed,
    ordered table of product keywords, and the canonical term of every row that
    matches is appended to the ORIGINAL query. */
module QueryEnhancer {
  import opened Text

  /** One row of the keyword table: the canonical term and the words that trigger it. */
  datatype KeyTerm = KeyTerm(term: string, triggers: seq<string>)

  /** The table, in the order the source tests it. */
  const KeyTable: seq<KeyTerm> := [
    KeyTerm("pricing", ["price", "cost"]),
    KeyTerm("iphone", ["iphone"]),
    KeyTerm("mac", ["mac"]),
    KeyTerm("watch", ["watch"]),
    KeyTerm("ipad", ["ipad"]),
    KeyTerm("airpods", ["airpods"])
  ]

  /** The canonical terms of the table, in order. */
  const CanonicalTerms: seq<string> := ["pricing", "iphone", "mac", "watch", "ipad", "airpods"]

  /** `query.strip().lower()`. */
  function Normalize(query: string): string {
    Lower(Strip(query))
  }

  /** Some trigger word of `row` occurs in `normalized`. */
  predicate Triggered(row: KeyTerm, normalized: string) {
    exists w | w in row.triggers :: Contains(normalized, w)
  }

  /** The canonical terms of the rows `rows[i..]` that `normalized` triggers, in row order. */
  function MatchedFrom(rows: seq<KeyTerm>, i: nat, normalized: string): seq<string>
    requires i <= |rows|
    decreases |rows| - i
  {
    if i == |rows| then []
    else Pick(Triggered(rows[i], normalized), rows[i].term) + MatchedFrom(rows, i + 1, normalized)
  }

  /** The canonical terms of the rows that `normalized` triggers, in row order. */
  function MatchedTerms(rows: seq<KeyTerm>, normalized: string): seq<string> {
    MatchedFrom(rows, 0, normalized)
  }

  /** `[term]` when `b` holds, nothing otherwise. */
  function Pick(b: bool, term: string): seq<string> {
    if b then [term] else []
  }

  /** The key terms `process_query` collects for `query`. */
  function KeyTerms(query: string): seq<string> {
    MatchedTerms(KeyTable, Normalize(query))
  }

  /** The enhanced query: the original query, followed by a space and the key terms
      separated by single spaces when there are any. */
  function Enhanced(query: string): string {
    Appended(query, KeyTerms(query))
  }

  /** `query` followed by a space and `terms` separated by single spaces, or `query`
      alone when there are no terms. */
  function Appended(query: string, terms: seq<string>): string {
    if terms == [] then query else query + " " + Join(terms, " ")
  }

  /** The key terms spelled out row by row, as the source's six tests read. */
  lemma KeyTermsUnrolled(n: string)
    ensures MatchedTerms(KeyTable, n) ==
      Pick(Contains(n, "price") || Contains(n, "cost"), "pricing") +
      (Pick(Contains(n, "iphone"), "iphone") +
      (Pick(Contains(n, "mac"), "mac") +
      (Pick(Contains(n, "watch"), "watch") +
      (Pick(Contains(n, "ipad"), "ipad") +
      Pick(Contains(n, "airpods"), "airpods")))))
  {
    var t := KeyTable;
    assert Triggered(t[0], n) <==> Contains(n, "price") || Contains(n, "cost") by {
      assert t[0].triggers == ["price", "cost"];
    }
    assert Triggered(t[1], n) <==> Contains(n, "iphone") by { assert t[1].triggers == ["iphone"]; }
    assert Triggered(t[2], n) <==> Contains(n, "mac") by { assert t[2].triggers == ["mac"]; }
    assert Triggered(t[3], n) <==> Contains(n, "watch") by { assert t[3].triggers == ["watch"]; }
    assert Triggered(t[4], n) <==> Contains(n, "ipad") by { assert t[4].triggers == ["ipad"]; }
    assert Triggered(t[5], n) <==> Contains(n, "airpods") by { assert t[5].triggers == ["airpods"]; }
    var last := Pick(Contains(n, "airpods"), "airpods");
    assert MatchedFrom(t, 5, n) == last by {
      assert last + [] == last;
    }
  }

  /** `process_query`: normalize, collect the key terms, append them to the original query. */
  method ProcessQuery(query: string) returns (enhancedQuery: string)
    ensures enhancedQuery == Enhanced(query)
  {
    var processedQuery := Lower(Strip(query));
    var keyTerms := CollectKeyTerms(processedQuery);
    enhancedQuery := query;
    if keyTerms != [] {
      enhancedQuery := query + " " + Join(keyTerms, " ");
    }
  }

  /** The six keyword tests of `process_query`, in source order, on the normalized query. */
  method CollectKeyTerms(processedQuery: string) returns (keyTerms: seq<string>)
    ensures keyTerms == MatchedTerms(KeyTable, processedQuery)
  {
    keyTerms := [];
    if Contains(processedQuery, "price") || Contains(processedQuery, "cost") {
      keyTerms := keyTerms + ["pricing"];
    }
    ghost var k0 := keyTerms;
    assert k0 == Pick(Contains(processedQuery, "price") || Contains(processedQuery, "cost"), "pricing");
    if Contains(processedQuery, "iphone") {
      keyTerms := keyTerms + ["iphone"];
    }
    ghost var k1 := keyTerms;
    assert k1 == k0 + Pick(Contains(processedQuery, "iphone"), "iphone");
    if Contains(processedQuery, "mac") {
      keyTerms := keyTerms + ["mac"];
    }
    ghost var k2 := keyTerms;
    assert k2 == k1 + Pick(Contains(processedQuery, "mac"), "mac");
    if Contains(processedQuery, "watch") {
      keyTerms := keyTerms + ["watch"];
    }
    ghost var k3 := keyTerms;
    assert k3 == k2 + Pick(Contains(processedQuery, "watch"), "watch");
    if Contains(processedQuery, "ipad") {
      keyTerms := keyTerms + ["ipad"];
    }
    ghost var k4 := keyTerms;
    assert k4 == k3 + Pick(Contains(processedQuery, "ipad"), "ipad");
    if Contains(processedQuery, "airpods") {
      keyTerms := keyTerms + ["airpods"];
    }
    assert keyTerms == k4 + Pick(Contains(processedQuery, "airpods"), "airpods");
    KeyTermsUnrolled(processedQuery);
    Reassociate(k0, Pick(Contains(processedQuery, "iphone"), "iphone"), Pick(Contains(processedQuery, "mac"), "mac"),
                Pick(Contains(processedQuery, "watch"), "watch"), Pick(Contains(processedQuery, "ipad"), "ipad"),
                Pick(Contains(processedQuery, "airpods"), "airpods"));
  }

  lemma Reassociate<T>(a: seq<T>, b: seq<T>, c: seq<T>, d: seq<T>, e: seq<T>, f: seq<T>)
    ensures ((((a + b) + c) + d) + e) + f == a + (b + (c + (d + (e + f))))
  {
  }

  /** Every trigger word of the table. */
  const TriggerWords: seq<string> := ["price", "cost", "iphone", "mac", "watch", "ipad", "airpods"]

  /** The trigger words are those of the table's rows, row by row in table order. */
  lemma TriggerWordsOfTable()
    ensures TriggerWords ==
            KeyTable[0].triggers + KeyTable[1].triggers + KeyTable[2].triggers +
            KeyTable[3].triggers + KeyTable[4].triggers + KeyTable[5].triggers
  {
  }

  /** The elements `xs[j]`, `j >= i`, whose flag `keep[j]` is set, in order. */
  function SelectFrom<T>(xs: seq<T>, keep: seq<bool>, i: nat): seq<T>
    requires |xs| == |keep| && i <= |xs|
    decreases |xs| - i
  {
    if i == |xs| then [] else (if keep[i] then [xs[i]] else []) + SelectFrom(xs, keep, i + 1)
  }

  /** The flagged positions `j >= i`, in increasing order. */
  function Flagged(keep: seq<bool>, i: nat): (r: seq<nat>)
    requires i <= |keep|
    ensures forall k :: 0 <= k < |r| ==> i <= r[k] < |keep| && keep[r[k]]
    decreases |keep| - i
  {
    if i == |keep| then [] else (if keep[i] then [i] else []) + Flagged(keep, i + 1)
  }

  /** Flagged positions increase strictly. */
  lemma {:induction false} FlaggedIncreasing(keep: seq<bool>, i: nat)
    requires i <= |keep|
    ensures forall k1, k2 :: 0 <= k1 < k2 < |Flagged(keep, i)| ==> Flagged(keep, i)[k1] < Flagged(keep, i)[k2]
    decreases |keep| - i
  {
    if i < |keep| {
      FlaggedIncreasing(keep, i + 1);
    }
  }

  /** Every flagged position is listed. */
  lemma {:induction false} FlaggedComplete(keep: seq<bool>, i: nat)
    requires i <= |keep|
    ensures forall j :: i <= j < |keep| && keep[j] ==> j in Flagged(keep, i)
    decreases |keep| - i
  {
    if i < |keep| {
      FlaggedComplete(keep, i + 1);
    }
  }

  /** The selection picks exactly the elements at the flagged positions. */
  lemma {:induction false} SelectAtFlagged<T>(xs: seq<T>, keep: seq<bool>, i: nat)
    requires |xs| == |keep| && i <= |xs|
    ensures |SelectFrom(xs, keep, i)| == |Flagged(keep, i)| <= |xs| - i
    ensures forall k :: 0 <= k < |Flagged(keep, i)| ==> SelectFrom(xs, keep, i)[k] == xs[Flagged(keep, i)[k]]
    decreases |xs| - i
  {
    if i < |xs| {
      SelectAtFlagged(xs, keep, i + 1);
    }
  }

  /** No element occurs twice. */
  predicate Distinct<T(==)>(xs: seq<T>) {
    forall i, j :: 0 <= i < j < |xs| ==> xs[i] != xs[j]
  }

  /** A selection from a sequence without repeats has no repeats. */
  lemma SelectDistinct<T>(xs: seq<T>, keep: seq<bool>, i: nat)
    requires |xs| == |keep| && i <= |xs| && Distinct(xs)
    ensures Distinct(SelectFrom(xs, keep, i))
  {
    var sel, origin := SelectFrom(xs, keep, i), Flagged(keep, i);
    SelectAtFlagged(xs, keep, i);
    FlaggedIncreasing(keep, i);
    forall k1, k2 | 0 <= k1 < k2 < |sel| ensures sel[k1] != sel[k2] {
      assert origin[k1] < origin[k2];
    }
  }

  /** In a sequence without repeats, an element is selected exactly when its flag is set. */
  lemma SelectHas<T>(xs: seq<T>, keep: seq<bool>, i: nat, j: nat)
    requires |xs| == |keep| && i <= j < |xs| && Distinct(xs)
    ensures xs[j] in SelectFrom(xs, keep, i) <==> keep[j]
  {
    var sel, origin := SelectFrom(xs, keep, i), Flagged(keep, i);
    SelectAtFlagged(xs, keep, i);
    if xs[j] in sel {
      var k :| 0 <= k < |sel| && sel[k] == xs[j];
      assert xs[origin[k]] == xs[j];
    }
    if keep[j] {
      FlaggedComplete(keep, i);
      var k :| 0 <= k < |origin| && origin[k] == j;
      assert sel[k] == xs[j];
    }
  }

  /** The row terms, and whether each row is triggered by `n`. */
  function Terms(rows: seq<KeyTerm>): seq<string> {
    seq(|rows|, j requires 0 <= j < |rows| => rows[j].term)
  }

  function Hits(rows: seq<KeyTerm>, n: string): seq<bool> {
    seq(|rows|, j requires 0 <= j < |rows| => Triggered(rows[j], n))
  }

  lemma {:induction false} MatchedIsSelected(rows: seq<KeyTerm>, i: nat, n: string)
    requires i <= |rows|
    ensures MatchedFrom(rows, i, n) == SelectFrom(Terms(rows), Hits(rows, n), i)
    decreases |rows| - i
  {
    if i < |rows| {
      MatchedIsSelected(rows, i + 1, n);
    }
  }

  /** The key terms are the canonical terms of the triggered rows. */
  lemma MatchedAsSelection(n: string)
    ensures MatchedTerms(KeyTable, n) == SelectFrom(CanonicalTerms, Hits(KeyTable, n), 0)
  {
    MatchedIsSelected(KeyTable, 0, n);
    CanonicalTermsOfTable();
  }

  /** The matched terms of any normalized query are canonical terms taken in the
      table's order, so each occurs at most once; "pricing" is among them exactly
      when "price" or "cost" occurs. */
  lemma TermsInTableOrder(n: string) returns (origin: seq<nat>)
    ensures |origin| == |MatchedTerms(KeyTable, n)| <= 6
    ensures forall k :: 0 <= k < |origin| ==>
              origin[k] < 6 && MatchedTerms(KeyTable, n)[k] == CanonicalTerms[origin[k]]
    ensures forall k1, k2 :: 0 <= k1 < k2 < |origin| ==> origin[k1] < origin[k2]
    ensures Distinct(MatchedTerms(KeyTable, n))
    ensures "pricing" in MatchedTerms(KeyTable, n) <==> Contains(n, "price") || Contains(n, "cost")
  {
    var xs, keep := CanonicalTerms, Hits(KeyTable, n);
    MatchedAsSelection(n);
    origin := Flagged(keep, 0);
    SelectAtFlagged(xs, keep, 0);
    FlaggedIncreasing(keep, 0);
    CanonicalTermsDistinct();
    SelectDistinct(xs, keep, 0);
    SelectHas(xs, keep, 0, 0);
    assert keep[0] == Triggered(KeyTable[0], n);
    PricingRow(n);
  }

  /** The first row is triggered by "price" or "cost". */
  lemma PricingRow(n: string)
    ensures Triggered(KeyTable[0], n) <==> Contains(n, "price") || Contains(n, "cost")
  {
    var t := KeyTable;
    assert t[0].triggers == ["price", "cost"];
  }

  /** The table's terms are the canonical terms. */
  lemma CanonicalTermsOfTable()
    ensures Terms(KeyTable) == CanonicalTerms
  {
  }

  /** No two canonical terms are equal. */
  lemma CanonicalTermsDistinct()
    ensures Distinct(CanonicalTerms)
  {
    var c := CanonicalTerms;
    assert c[0][0] == 'p' && c[1][0] == 'i' && c[2][0] == 'm' && c[3][0] == 'w' && c[5][0] == 'a';
    assert c[4][0] == 'i' && |c[1]| != |c[4]|;
  }

  /** The same, for the terms `process_query` collects from a raw query. */
  lemma KeyTermsOrdered(query: string) returns (origin: seq<nat>)
    ensures |origin| == |KeyTerms(query)| <= 6
    ensures forall k :: 0 <= k < |origin| ==> origin[k] < 6 && KeyTerms(query)[k] == CanonicalTerms[origin[k]]
    ensures forall k1, k2 :: 0 <= k1 < k2 < |origin| ==> origin[k1] < origin[k2]
    ensures Distinct(KeyTerms(query))
    ensures "pricing" in KeyTerms(query) <==> Contains(Normalize(query), "price") || Contains(Normalize(query), "cost")
  {
    origin := TermsInTableOrder(Normalize(query));
  }

  /** Some trigger word of the table occurs in `normalized`. */
  predicate AnyTrigger(normalized: string) {
    exists w | w in TriggerWords :: Contains(normalized, w)
  }

  /** The original query always leads the enhanced one, which equals it exactly when
      no trigger word occurs in the normalized query; otherwise what follows the
      query and its space splits on spaces back into the key terms. */
  lemma EnhancedShape(query: string)
    ensures query <= Enhanced(query)
    ensures Enhanced(query) == query <==> !AnyTrigger(Normalize(query))
    ensures Enhanced(query) != query ==>
              Enhanced(query)[|query|] == ' ' && Split(Enhanced(query)[|query| + 1..], " ") == KeyTerms(query)
  {
    NoTermsIffNoTrigger(Normalize(query));
    if KeyTerms(query) != [] {
      AppendedTermsSplit(query);
    }
  }

  /** No term is collected exactly when no trigger word occurs. */
  lemma NoTermsIffNoTrigger(n: string)
    ensures MatchedTerms(KeyTable, n) == [] <==> !AnyTrigger(n)
  {
    KeyTermsUnrolled(n);
    var w := TriggerWords;
    assert w[0] == "price" && w[1] == "cost" && w[2] == "iphone" && w[3] == "mac";
    assert w[4] == "watch" && w[5] == "ipad" && w[6] == "airpods";
  }

  lemma AppendedTermsSplit(query: string)
    requires KeyTerms(query) != []
    ensures Enhanced(query)[|query|] == ' ' && Split(Enhanced(query)[|query| + 1..], " ") == KeyTerms(query)
  {
    KeyTermsAvoidSpace(Normalize(query));
    SplitAppended(query, KeyTerms(query));
  }

  /** No key term contains a space. */
  lemma KeyTermsAvoidSpace(n: string)
    ensures forall k :: 0 <= k < |MatchedTerms(KeyTable, n)| ==> Avoids(MatchedTerms(KeyTable, n)[k], " ")
  {
    var terms, origin := MatchedTerms(KeyTable, n), Flagged(Hits(KeyTable, n), 0);
    MatchedAsSelection(n);
    SelectAtFlagged(CanonicalTerms, Hits(KeyTable, n), 0);
    forall k | 0 <= k < |terms| ensures Avoids(terms[k], " ") {
      CanonicalTermsAvoidSpace(origin[k]);
    }
  }

  /** Appended terms free of spaces split back out of what follows the query. */
  lemma SplitAppended(query: string, terms: seq<string>)
    requires terms != []
    requires forall k :: 0 <= k < |terms| ==> Avoids(terms[k], " ")
    ensures Appended(query, terms)[|query|] == ' ' && Split(Appended(query, terms)[|query| + 1..], " ") == terms
  {
    var e := Appended(query, terms);
    assert e == query + (" " + Join(terms, " "));
    assert e[|query| + 1..] == Join(terms, " ");
    SplitJoin(terms, " ");
  }

  lemma CanonicalTermsAvoidSpace(j: nat)
    requires j < |CanonicalTerms|
    ensures Avoids(CanonicalTerms[j], " ")
  {
  }

  /** "iPhone cost?" gains "pricing" (from "cost") and "iphone"; the original casing
      is kept. */
  lemma CostQueryExample()
    ensures Enhanced("iPhone cost?") == "iPhone cost?" + " pricing iphone"
  {
    var suffix := " " + "pricing" + " " + "iphone";
    assert suffix == " pricing iphone";
    CostQueryTerms();
    AppendedTwo("iPhone cost?", "pricing", "iphone");
  }

  lemma AppendedTwo(query: string, t1: string, t2: string)
    ensures Appended(query, [t1, t2]) == query + (" " + t1 + " " + t2)
  {
    assert [t1, t2][1..] == [t2];
    assert Join([t1, t2], " ") == t1 + " " + t2;
    assert query + " " + (t1 + " " + t2) == query + (" " + t1 + " " + t2);
  }

  lemma CostQueryTerms()
    ensures KeyTerms("iPhone cost?") == ["pricing", "iphone"]
  {
    CostQueryNormalized();
    CostQueryMatches();
  }

  lemma CostQueryNormalized()
    ensures Normalize("iPhone cost?") == "iphone cost?"
  {
    StripOfStripped("iPhone cost?");
    var q, n := "iPhone cost?", "iphone cost?";
    forall k | 0 <= k < |q| ensures Lower(q)[k] == n[k] {
    }
  }

  lemma CostQueryMatches()
    ensures MatchedTerms(KeyTable, "iphone cost?") == ["pricing", "iphone"]
  {
    var n := "iphone cost?";
    assert Contains(n, "cost") by { ContainsAt(n, "cost", 7); }
    assert Contains(n, "iphone") by { ContainsAt(n, "iphone", 0); }
    CostQueryMisses();
    KeyTermsUnrolled(n);
  }

  lemma CostQueryMisses()
    ensures !Contains("iphone cost?", "price") && !Contains("iphone cost?", "mac") && !Contains("iphone cost?", "watch")
    ensures !Contains("iphone cost?", "ipad") && !Contains("iphone cost?", "airpods")
  {
    var n := "iphone cost?";
    assert 'r' !in n && 'a' !in n;
    AbsentChar(n, "price", 1);
    AbsentChar(n, "mac", 1);
    AbsentChar(n, "watch", 1);
    AbsentChar(n, "ipad", 2);
    AbsentChar(n, "airpods", 0);
  }

  /** A query that names no product and no price is left as it is. */
  lemma PlainQueryExample()
    ensures Enhanced("Hello there") == "Hello there"
  {
    PlainQueryTerms();
  }

  lemma PlainQueryTerms()
    ensures KeyTerms("Hello there") == []
  {
    PlainQueryNormalized();
    PlainQueryMatches();
  }

  lemma PlainQueryNormalized()
    ensures Normalize("Hello there") == "hello there"
  {
    StripOfStripped("Hello there");
    var q, n := "Hello there", "hello there";
    forall k | 0 <= k < |q| ensures Lower(q)[k] == n[k] {
    }
  }

  lemma PlainQueryMatches()
    ensures MatchedTerms(KeyTable, "hello there") == []
  {
    var n := "hello there";
    assert !Contains(n, "price") && !Contains(n, "ipad") && !Contains(n, "iphone") by {
      assert 'p' !in n;
      AbsentChar(n, "price", 0);
      AbsentChar(n, "ipad", 1);
      AbsentChar(n, "iphone", 1);
    }
    assert !Contains(n, "cost") && !Contains(n, "mac") && !Contains(n, "watch") && !Contains(n, "airpods") by {
      assert 'a' !in n && 'c' !in n;
      AbsentChar(n, "cost", 0);
      AbsentChar(n, "mac", 1);
      AbsentChar(n, "watch", 1);
      AbsentChar(n, "airpods", 0);
    }
    KeyTermsUnrolled(n);
  }
}
