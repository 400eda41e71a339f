/** The document loader shared by the three scripts (`load_docx_chunks`): one
    pass over the parsed paragraphs that carries the latest heading as the running
    category, skips blank paragraphs and prefixes every body paragraph with its
    category. Parsing the Word file itself is outside the model: a document is
    the sequence of its paragraphs' style names and texts. */
module Chunker {
  import opened Text

  datatype Paragraph = Paragraph(styleName: string, text: string)

  /** A paragraph whose style name starts with "Heading". */
  predicate IsHeading(p: Paragraph) {
    "Heading" <= p.styleName
  }

  /** A paragraph that yields a chunk: not a heading, and its text not blank. */
  predicate IsBody(p: Paragraph) {
    !IsHeading(p) && Strip(p.text) != ""
  }

  /** The chunk stored for body text `body` under `category`. */
  function ChunkText(category: string, body: string): string {
    if category != "" then category + ": " + body else body
  }

  /** What paragraph `p` emits under the running category `category`. */
  function Emit(p: Paragraph, category: string): seq<string> {
    if IsBody(p) then [ChunkText(category, Strip(p.text))] else []
  }

  /** The running category after paragraph `p`. */
  function Next(p: Paragraph, category: string): string {
    if IsHeading(p) then Strip(p.text) else category
  }

  /** The chunks of `ps` when the running category is `category` on entry. */
  function ChunksFrom(ps: seq<Paragraph>, category: string): seq<string>
    decreases |ps|
  {
    if ps == [] then [] else Emit(ps[0], category) + ChunksFrom(ps[1..], Next(ps[0], category))
  }

  /** The chunks of a whole document: the category starts out empty. */
  function Chunks(ps: seq<Paragraph>): seq<string> {
    ChunksFrom(ps, "")
  }

  /** The category in force after `ps`: the stripped text of its last heading, or
      `category` when `ps` has no heading. */
  function CategoryAfter(ps: seq<Paragraph>, category: string): string
    decreases |ps|
  {
    if ps == [] then category
    else if IsHeading(ps[|ps| - 1]) then Strip(ps[|ps| - 1].text)
    else CategoryAfter(ps[..|ps| - 1], category)
  }

  /** How many paragraphs of `ps` are body paragraphs. */
  function CountBodies(ps: seq<Paragraph>): nat
    decreases |ps|
  {
    if ps == [] then 0 else (if IsBody(ps[0]) then 1 else 0) + CountBodies(ps[1..])
  }

  /** `load_docx_chunks` on an already parsed document. */
  method LoadDocxChunks(paragraphs: seq<Paragraph>) returns (chunks: seq<string>)
    ensures chunks == Chunks(paragraphs)
    ensures |chunks| == CountBodies(paragraphs) <= |paragraphs|
    ensures forall chunk :: chunk in chunks ==> chunk != ""
  {
    chunks := [];
    var currentCategory := "";
    for i := 0 to |paragraphs|
      invariant chunks == Chunks(paragraphs[..i])
      invariant currentCategory == CategoryAfter(paragraphs[..i], "")
    {
      var para := paragraphs[i];
      PrefixStep(paragraphs, i);
      ChunkOfParagraph(paragraphs[..i], para, "");
      if IsHeading(para) {
        currentCategory := Strip(para.text);
      } else if Strip(para.text) != "" {
        var fullText := if currentCategory != "" then currentCategory + ": " + Strip(para.text) else Strip(para.text);
        chunks := chunks + [fullText];
      }
    }
    assert paragraphs[..|paragraphs|] == paragraphs by {
      if paragraphs != [] { PrefixStep(paragraphs, 0); }
    }
    ChunkCount(paragraphs, "");
    ChunksNonEmpty(paragraphs, "");
  }

  /** One chunk per body paragraph, whatever the headings: so never more chunks
      than paragraphs. */
  lemma {:induction false} ChunkCount(ps: seq<Paragraph>, category: string)
    ensures |ChunksFrom(ps, category)| == CountBodies(ps) <= |ps|
    decreases |ps|
  {
    if ps != [] {
      ChunkCount(ps[1..], Next(ps[0], category));
    }
  }

  /** No chunk is empty. */
  lemma {:induction false} ChunksNonEmpty(ps: seq<Paragraph>, category: string)
    ensures forall chunk :: chunk in ChunksFrom(ps, category) ==> chunk != ""
    decreases |ps|
  {
    if ps != [] {
      ChunksNonEmpty(ps[1..], Next(ps[0], category));
    }
  }

  /** A document yields no chunk exactly when none of its paragraphs is a body
      paragraph (a headings-only document among them). */
  lemma NoChunksIffNoBody(ps: seq<Paragraph>, category: string)
    ensures ChunksFrom(ps, category) == [] <==> forall k :: 0 <= k < |ps| ==> !IsBody(ps[k])
  {
    ChunkCount(ps, category);
    NoBodyCount(ps);
  }

  lemma {:induction false} NoBodyCount(ps: seq<Paragraph>)
    ensures CountBodies(ps) == 0 <==> forall k :: 0 <= k < |ps| ==> !IsBody(ps[k])
    decreases |ps|
  {
    if ps != [] {
      NoBodyCount(ps[1..]);
      assert forall k :: 1 <= k < |ps| ==> ps[k] == ps[1..][k - 1];
    }
  }

  /** A heading sets the category to its stripped text and emits nothing; one with
      blank text resets the category to empty. */
  lemma HeadingSetsCategory(h: Paragraph, ps: seq<Paragraph>, category: string)
    requires IsHeading(h)
    ensures ChunksFrom([h] + ps, category) == ChunksFrom(ps, Strip(h.text))
    ensures AllSpace(h.text) ==> ChunksFrom([h] + ps, category) == ChunksFrom(ps, "")
  {
    assert ([h] + ps)[1..] == ps;
    StripEmptyIffBlank(h.text);
  }

  /** Reading one paragraph more: the category becomes the heading's text if it
      is a heading, and stays otherwise. */
  lemma {:induction false} CategoryAfterFirst(p: Paragraph, ps: seq<Paragraph>, category: string)
    ensures CategoryAfter([p] + ps, category) == CategoryAfter(ps, Next(p, category))
    decreases |ps|
  {
    if ps != [] {
      AppendFront([p], ps);
      CategoryAfterFirst(p, ps[..|ps| - 1], category);
    }
  }

  /** Chunking distributes over concatenation: the second part is chunked under the
      category the first part leaves in force. */
  lemma {:induction false} ChunksAppend(ps: seq<Paragraph>, qs: seq<Paragraph>, category: string)
    ensures ChunksFrom(ps + qs, category) == ChunksFrom(ps, category) + ChunksFrom(qs, CategoryAfter(ps, category))
    decreases |ps|
  {
    if ps == [] {
      assert ps + qs == qs;
    } else {
      var next := Next(ps[0], category);
      var a, b, c := Emit(ps[0], category), ChunksFrom(ps[1..], next), ChunksFrom(qs, CategoryAfter(ps, category));
      AppendTail(ps, qs);
      assert ChunksFrom(ps + qs, category) == a + ChunksFrom(ps[1..] + qs, next);
      assert ChunksFrom(ps[1..] + qs, next) == b + c by {
        ChunksAppend(ps[1..], qs, next);
        CategoryAfterFirst(ps[0], ps[1..], category);
      }
      assert ChunksFrom(ps, category) == a + b;
      AppendAssoc(a, b, c);
    }
  }

  /** The chunk a body paragraph contributes is its stripped text, prefixed with
      `category: ` exactly when the latest heading before it is non-blank. */
  lemma ChunkOfParagraph(ps: seq<Paragraph>, p: Paragraph, category: string)
    ensures ChunksFrom(ps + [p], category) ==
            ChunksFrom(ps, category) +
            (if IsBody(p) then [ChunkText(CategoryAfter(ps, category), Strip(p.text))] else [])
  {
    ChunksAppend(ps, [p], category);
  }

  /** The stripped texts of the body paragraphs, in document order. */
  function Bodies(ps: seq<Paragraph>): seq<string>
    decreases |ps|
  {
    if ps == [] then []
    else (if IsBody(ps[0]) then [Strip(ps[0].text)] else []) + Bodies(ps[1..])
  }

  /** A document without headings yields its non-blank paragraphs, stripped, with
      no category prefix. */
  lemma {:induction false} NoHeadingsNoPrefix(ps: seq<Paragraph>)
    requires forall k :: 0 <= k < |ps| ==> !IsHeading(ps[k])
    ensures Chunks(ps) == Bodies(ps)
    decreases |ps|
  {
    if ps != [] {
      assert forall k :: 0 <= k < |ps[1..]| ==> ps[1..][k] == ps[k + 1];
      NoHeadingsNoPrefix(ps[1..]);
    }
  }

  /** Category inheritance: a heading, two body paragraphs, a second heading and a
      body paragraph give the first two bodies under the first heading's text and
      the last under the second's. */
  lemma CategoryInheritance(h1: Paragraph, x: Paragraph, y: Paragraph, h2: Paragraph, z: Paragraph)
    requires IsHeading(h1) && IsHeading(h2) && IsBody(x) && IsBody(y) && IsBody(z)
    ensures Chunks([h1, x, y, h2, z]) ==
            [ChunkText(Strip(h1.text), Strip(x.text)), ChunkText(Strip(h1.text), Strip(y.text)),
             ChunkText(Strip(h2.text), Strip(z.text))]
  {
    var a, b := Strip(h1.text), Strip(h2.text);
    var cx, cy, cz := ChunkText(a, Strip(x.text)), ChunkText(a, Strip(y.text)), ChunkText(b, Strip(z.text));
    ConsDisplay(h1, x, y, h2, z);
    ConsDisplay(cx, cy, cz, cz, cz);
    ConsDisplay(cy, cz, cz, cz, cz);
    ConsDisplay(cz, cz, cz, cz, cz);
    assert ChunksFrom([z], b) == [cz] by { BodyFirst(z, [], b); }
    assert ChunksFrom([h2, z], a) == [cz] by { HeadingFirst(h2, [z], a); }
    assert ChunksFrom([y, h2, z], a) == [cy, cz] by { BodyFirst(y, [h2, z], a); }
    assert ChunksFrom([x, y, h2, z], a) == [cx, cy, cz] by { BodyFirst(x, [y, h2, z], a); }
    HeadingFirst(h1, [x, y, h2, z], "");
  }

  /** A leading body paragraph gives its chunk under the running category. */
  lemma BodyFirst(p: Paragraph, ps: seq<Paragraph>, category: string)
    requires IsBody(p)
    ensures ChunksFrom([p] + ps, category) == [ChunkText(category, Strip(p.text))] + ChunksFrom(ps, category)
  {
    FirstParagraph(p, ps, category);
  }

  /** A leading heading gives no chunk and becomes the running category. */
  lemma HeadingFirst(p: Paragraph, ps: seq<Paragraph>, category: string)
    requires IsHeading(p)
    ensures ChunksFrom([p] + ps, category) == ChunksFrom(ps, Strip(p.text))
  {
    FirstParagraph(p, ps, category);
    AppendAssoc([], [], ChunksFrom(ps, Strip(p.text)));
  }

  /** Chunking one paragraph and then the rest. */
  lemma FirstParagraph(p: Paragraph, ps: seq<Paragraph>, category: string)
    ensures ChunksFrom([p] + ps, category) == Emit(p, category) + ChunksFrom(ps, Next(p, category))
  {
    AppendTail([p], ps);
  }

  /** A blank paragraph between two others yields no chunk of its own. */
  lemma BlankParagraphSkipped(ps: seq<Paragraph>, blank: Paragraph, qs: seq<Paragraph>, category: string)
    requires !IsHeading(blank) && AllSpace(blank.text)
    ensures ChunksFrom(ps + [blank] + qs, category) == ChunksFrom(ps + qs, category)
  {
    assert !IsBody(blank) by { StripEmptyIffBlank(blank.text); }
    var c := CategoryAfter(ps, category);
    assert CategoryAfter(ps + [blank], category) == c by { AppendFront(ps, [blank]); }
    assert ChunksFrom(ps + [blank], category) == ChunksFrom(ps, category) by {
      ChunksAppend(ps, [blank], category);
      FirstParagraph(blank, [], c);
      assert [blank] + [] == [blank];
    }
    assert ChunksFrom(ps + [blank] + qs, category) == ChunksFrom(ps, category) + ChunksFrom(qs, c) by {
      ChunksAppend(ps + [blank], qs, category);
    }
    assert ChunksFrom(ps + qs, category) == ChunksFrom(ps, category) + ChunksFrom(qs, c) by {
      ChunksAppend(ps, qs, category);
    }
  }
}
