/** The knowledge-base build (`build_knowledge_base`) over an abstract vector store.
    The store is a list of entries, each an id, an embedding and a document. The
    embedding model is a function parameter. A counter stands in for `uuid4()`, so
    ids are fresh by construction. The four-agent script builds only into an empty
    collection; the other two append every time. */
module KnowledgeBase {

  type Vector = seq<real>

  datatype Entry = Entry(id: nat, embedding: Vector, document: string)

  /** A collection's contents and the next unused id. */
  datatype Store = Store(entries: seq<Entry>, nextId: nat)

  /** Ids strictly increase along the entries and are all below the next id, so
      they are distinct and the next id is fresh. */
  predicate Valid(s: Store) {
    (forall i, j :: 0 <= i < j < |s.entries| ==> s.entries[i].id < s.entries[j].id) &&
    (forall i :: 0 <= i < |s.entries| ==> s.entries[i].id < s.nextId)
  }

  /** The stored documents, in order. */
  function Documents(entries: seq<Entry>): seq<string> {
    seq(|entries|, k requires 0 <= k < |entries| => entries[k].document)
  }

  /** One entry per chunk, in chunk order, numbered from `start`. */
  function NewEntries(start: nat, chunks: seq<string>, embed: string -> Vector): seq<Entry> {
    seq(|chunks|, k requires 0 <= k < |chunks| => Entry(start + k, embed(chunks[k]), chunks[k]))
  }

  /** The build loop of every script: each chunk added with its embedding. */
  function Build(s: Store, chunks: seq<string>, embed: string -> Vector): Store {
    Store(s.entries + NewEntries(s.nextId, chunks, embed), s.nextId + |chunks|)
  }

  /** The four-agent build: a collection that already counts documents is left alone. */
  function Build4(s: Store, chunks: seq<string>, embed: string -> Vector): Store {
    if |s.entries| > 0 then s else Build(s, chunks, embed)
  }

  /** `times` successive builds from the same chunks. */
  function Rebuilt(s: Store, chunks: seq<string>, embed: string -> Vector, times: nat): Store
    decreases times
  {
    if times == 0 then s else Build(Rebuilt(s, chunks, embed, times - 1), chunks, embed)
  }

  /** `times` successive four-agent builds from the same chunks. */
  function Rebuilt4(s: Store, chunks: seq<string>, embed: string -> Vector, times: nat): Store
    decreases times
  {
    if times == 0 then s else Build4(Rebuilt4(s, chunks, embed, times - 1), chunks, embed)
  }

  /** A build adds exactly the chunks, in order, after what was stored, and keeps
      ids fresh and increasing. */
  lemma BuildAppends(s: Store, chunks: seq<string>, embed: string -> Vector)
    requires Valid(s)
    ensures Valid(Build(s, chunks, embed))
    ensures Documents(Build(s, chunks, embed).entries) == Documents(s.entries) + chunks
    ensures |Build(s, chunks, embed).entries| == |s.entries| + |chunks|
    ensures Build(s, chunks, embed).entries[..|s.entries|] == s.entries
  {
    var t := Build(s, chunks, embed);
    var added := NewEntries(s.nextId, chunks, embed);
    forall i, j | 0 <= i < j < |t.entries| ensures t.entries[i].id < t.entries[j].id {
      if j >= |s.entries| {
        assert t.entries[j] == added[j - |s.entries|];
        if i < |s.entries| {
          assert t.entries[i] == s.entries[i];
        } else {
          assert t.entries[i] == added[i - |s.entries|];
        }
      }
    }
    forall i | 0 <= i < |t.entries| ensures t.entries[i].id < t.nextId {
      if i >= |s.entries| {
        assert t.entries[i] == added[i - |s.entries|];
      }
    }
    assert Documents(t.entries) == Documents(s.entries) + chunks;
  }

  /** The four-agent build changes nothing once the collection holds a document, and
      otherwise stores exactly the chunks. */
  lemma Build4Cases(s: Store, chunks: seq<string>, embed: string -> Vector)
    requires Valid(s)
    ensures Valid(Build4(s, chunks, embed))
    ensures |s.entries| > 0 ==> Build4(s, chunks, embed) == s
    ensures |s.entries| == 0 ==> Documents(Build4(s, chunks, embed).entries) == chunks
  {
    BuildAppends(s, chunks, embed);
    if |s.entries| == 0 {
      assert Documents(s.entries) == [];
    }
  }

  /** Building twice from the same chunks in the four-agent script is building once:
      a second build finds the documents of the first, or finds none because there
      were no chunks and adds none again. */
  lemma Build4Idempotent(s: Store, chunks: seq<string>, embed: string -> Vector)
    ensures Build4(Build4(s, chunks, embed), chunks, embed) == Build4(s, chunks, embed)
  {
    if |s.entries| == 0 && chunks == [] {
      assert NewEntries(s.nextId, chunks, embed) == [];
      assert s.entries + [] == s.entries;
    }
  }

  /** Repeated four-agent builds keep the count of the first. */
  lemma {:induction false} Rebuilt4Count(s: Store, chunks: seq<string>, embed: string -> Vector, times: nat)
    requires times >= 1
    ensures Rebuilt4(s, chunks, embed, times) == Build4(s, chunks, embed)
    decreases times
  {
    if times > 1 {
      Rebuilt4Count(s, chunks, embed, times - 1);
      Build4Idempotent(s, chunks, embed);
    }
  }

  /** The appending builds grow the count by the number of chunks on every call. */
  lemma {:induction false} RebuiltCount(s: Store, chunks: seq<string>, embed: string -> Vector, times: nat)
    ensures |Rebuilt(s, chunks, embed, times).entries| == |s.entries| + times * |chunks|
    ensures Rebuilt(s, chunks, embed, times).nextId == s.nextId + times * |chunks|
    decreases times
  {
    if times > 0 {
      RebuiltCount(s, chunks, embed, times - 1);
      assert (times - 1) * |chunks| + |chunks| == times * |chunks|;
    }
  }

  /** An appending build of chunks that are already stored stores them again: the
      documents come out twice. */
  lemma RebuildDuplicates(s: Store, chunks: seq<string>, embed: string -> Vector)
    requires Valid(s)
    ensures Documents(Build(Build(s, chunks, embed), chunks, embed).entries) == Documents(s.entries) + chunks + chunks
  {
    BuildAppends(s, chunks, embed);
    BuildAppends(Build(s, chunks, embed), chunks, embed);
  }

  /** A ChromaDB collection as the scripts use it: a count, and `add` of one document
      under a fresh id. */
  class Collection {
    var entries: seq<Entry>
    var nextId: nat

    function State(): Store
      reads this
    {
      Store(entries, nextId)
    }

    /** A new, empty collection. */
    constructor ()
      ensures State() == Store([], 0) && Valid(State())
    {
      entries := [];
      nextId := 0;
    }

    /** `collection.count()`. */
    function Count(): (n: nat)
      reads this
      ensures n == |State().entries|
    {
      |entries|
    }

    /** `collection.add(documents=[document], embeddings=[embedding], ids=[fresh id])`. */
    method Add(document: string, embedding: Vector)
      requires Valid(State())
      modifies this
      ensures State() == Store(old(entries) + [Entry(old(nextId), embedding, document)], old(nextId) + 1)
      ensures Valid(State())
    {
      entries := entries + [Entry(nextId, embedding, document)];
      nextId := nextId + 1;
    }
  }

  /** The loop shared by all three scripts: each chunk is embedded and added. */
  method AddChunks(collection: Collection, chunks: seq<string>, embed: string -> Vector)
    requires Valid(collection.State())
    modifies collection
    ensures collection.State() == Build(old(collection.State()), chunks, embed)
    ensures Valid(collection.State())
  {
    ghost var start := collection.State();
    for i := 0 to |chunks|
      invariant collection.State() == Build(start, chunks[..i], embed)
      invariant Valid(collection.State())
    {
      var chunk := chunks[i];
      var embedding := embed(chunk);
      collection.Add(chunk, embedding);
      assert NewEntries(start.nextId, chunks[..i + 1], embed) ==
             NewEntries(start.nextId, chunks[..i], embed) + [Entry(start.nextId + i, embedding, chunk)];
    }
    assert chunks[..|chunks|] == chunks;
  }

  /** `build_knowledge_base` of the three-agent and plain scripts: always append. */
  method BuildKnowledgeBase(collection: Collection, chunks: seq<string>, embed: string -> Vector)
    requires Valid(collection.State())
    modifies collection
    ensures collection.State() == Build(old(collection.State()), chunks, embed)
    ensures Valid(collection.State())
  {
    AddChunks(collection, chunks, embed);
  }

  /** `build_knowledge_base` of the four-agent script: return early when the
      collection already counts documents. */
  method BuildKnowledgeBase4(collection: Collection, chunks: seq<string>, embed: string -> Vector)
    requires Valid(collection.State())
    modifies collection
    ensures collection.State() == Build4(old(collection.State()), chunks, embed)
    ensures Valid(collection.State())
  {
    var count := collection.Count();
    if count > 0 {
      return;
    }
    AddChunks(collection, chunks, embed);
  }
}
