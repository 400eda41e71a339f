# Customer service assistant: retrieval pipeline model

This project models the deterministic text logic of the customer service
assistant in `customer_service_assistant_3agents`. The assistant comes as three
near-duplicate scripts:

- the four-agent script (`run_4agent_rag_system.py`);
- the three-agent script (`test_rag_system_3agents.py`), whose responder is rule-based;
- the plain script (`run_rag_system.py`), whose responder asks a chat model.

Each script does the same steps:

1. It loads a Word document as chunks with a running heading category.
2. It embeds the chunks into a vector-store collection.
3. It reads questions in a loop.
4. For each question, it retrieves up to three documents, joins them into a
   context, and answers from that context.

The model is organised by component. Each behaviour the scripts share is defined
once. Where the scripts differ, each variant is defined once as well.

- `Text`: Python's `str.strip`, `str.lower`, `in`, `str.join` and `str.split`, on
  ASCII characters.
- `Chunker`: `load_docx_chunks`. A document is a sequence of paragraphs, each a
  style name and a text. The loop is a method, proved against the function
  `Chunks`.
- `KnowledgeBase`: `build_knowledge_base`. The collection is a class over a list of
  entries `(id, embedding, document)` with a fresh-id counter. The four-agent
  build returns early when the collection is not empty. The other two builds
  always append.
- `QueryEnhancer`: `process_query`. It matches the trimmed, lower-cased query
  against the ordered key-term table and appends the canonical terms to the
  original query.
- `Retrieval`: `retrieve_documents`. The store's query result is an input. The
  four-agent version turns every failure into `""`. The other two let it escape.
- `FragmentResponder`: `generate_response` of the four-agent script. It keeps the
  substantial fragments of the context and quotes at most two of them.
- `RuleResponder`: `generate_response` of the three-agent script. The first
  matching keyword rule wins, and each rule quotes the first 200 or 300
  characters of the context.
- `Prompt`: the three-message chat prompt of the plain script.
- `Commands`: how each loop classifies an input line: exit word, blank line, or
  question. It also covers which lines of a session are read at all.
- `Controller`: one turn of each loop and the four-agent session. It also covers
  what a failing vector store does to each pipeline.

## Model

| member | source | states |
|---|---|---|
| Text.Strip | customer_service_assistant_3agents/run_4agent_rag_system.py:195 | `strip()`: the result is no longer than the input and starts and ends with non-whitespace; `StripTrims` pins it down as the middle of the input |
| Text.Lower | customer_service_assistant_3agents/run_4agent_rag_system.py:93 | `lower()` on ASCII: the length is kept, and `LowerIdempotent` and `StripLower` relate it to `strip()` |
| Text.Split | customer_service_assistant_3agents/run_4agent_rag_system.py:154 | `split(sep)`: at least one piece; `SplitJoin` and `SplitNoSeparator` relate it to `join` |
| Text.Head | customer_service_assistant_3agents/test_rag_system_3agents.py:70 | the slice `context[:n]`: a prefix of the text, of length `min(n, len)` |
| Text.Join | customer_service_assistant_3agents/run_4agent_rag_system.py:113 | `sep.join(xs)` (also at lines 132 and 165); no contract of its own, `SplitJoin` states that `Split` undoes it and `JoinStartsWithFirst` that it starts with its first piece |
| Text.Contains | customer_service_assistant_3agents/run_4agent_rag_system.py:97-108 | the substring test `sub in s` (also at test_rag_system_3agents.py:68-79); no contract of its own, `ContainsAt` and `AbsentChar` give its witnesses and counter-witnesses |
| Text.StripTrims | customer_service_assistant_3agents/run_4agent_rag_system.py:195 | `strip()` removes exactly a leading and a trailing run of whitespace and keeps the middle, which starts and ends with non-whitespace |
| Text.StripEmptyIffBlank | customer_service_assistant_3agents/run_4agent_rag_system.py:201 | a stripped line is empty exactly when the line is all whitespace |
| Text.StripOfStripped | customer_service_assistant_3agents/run_4agent_rag_system.py:159 | stripping an already stripped string changes nothing |
| Text.StripPadded | customer_service_assistant_3agents/run_4agent_rag_system.py:195 | whitespace added on either side does not change the stripped text |
| Text.StripLower | customer_service_assistant_3agents/run_4agent_rag_system.py:93 | stripping and lower-casing commute, so `strip().lower()` equals `lower().strip()` |
| Text.LowerIdempotent | customer_service_assistant_3agents/test_rag_system_3agents.py:65-66 | lower-casing twice equals lower-casing once |
| Text.SplitJoin | customer_service_assistant_3agents/run_4agent_rag_system.py:154 | splitting a join on the same separator gives back the pieces, when no piece contains the separator's first character |
| Text.SplitNoSeparator | customer_service_assistant_3agents/run_4agent_rag_system.py:154 | a text in which the separator does not occur splits into itself alone |
| Chunker.Chunks | customer_service_assistant_3agents/run_4agent_rag_system.py:37-42 | the chunks of a document from the empty category; it has no contract of its own, and its properties are the `Chunker` lemmas below |
| Chunker.LoadDocxChunks | customer_service_assistant_3agents/run_4agent_rag_system.py:30-45 | the loop returns the chunks of the document: one per non-blank body paragraph, never an empty one, at most one per paragraph |
| Chunker.ChunkCount | customer_service_assistant_3agents/run_4agent_rag_system.py:37-42 | the number of chunks equals the number of body paragraphs with non-blank text and is at most the number of paragraphs |
| Chunker.ChunksNonEmpty | customer_service_assistant_3agents/run_4agent_rag_system.py:40-42 | no chunk is the empty string |
| Chunker.NoChunksIffNoBody | customer_service_assistant_3agents/test_rag_system_3agents.py:21-26 | a document yields no chunk exactly when it has no non-blank body paragraph, e.g. when it is headings only |
| Chunker.NoBodyCount | customer_service_assistant_3agents/run_rag_system.py:25-30 | the body count is zero exactly when no paragraph is a non-blank body paragraph |
| Chunker.HeadingSetsCategory | customer_service_assistant_3agents/run_4agent_rag_system.py:38-39 | a heading emits nothing and sets the category to its stripped text, and a blank heading resets it to empty |
| Chunker.HeadingFirst | customer_service_assistant_3agents/run_rag_system.py:26-27 | the chunks after a heading are those of the rest under the heading's stripped text |
| Chunker.BodyFirst | customer_service_assistant_3agents/run_4agent_rag_system.py:40-42 | a non-blank body paragraph emits exactly its chunk under the current category, and the category carries on unchanged |
| Chunker.FirstParagraph | customer_service_assistant_3agents/run_4agent_rag_system.py:37-42 | a paragraph contributes what it emits, and the rest is chunked under the category it leaves behind |
| Chunker.BlankParagraphSkipped | customer_service_assistant_3agents/run_4agent_rag_system.py:40 | a blank non-heading paragraph can be removed from the document without changing the chunks |
| Chunker.ChunksAppend | customer_service_assistant_3agents/test_rag_system_3agents.py:21-26 | chunking keeps document order: the chunks of two parts are the first part's chunks then the second's, under the category left by the first |
| Chunker.CategoryAfterFirst | customer_service_assistant_3agents/run_4agent_rag_system.py:38-39 | the category after a paragraph list is threaded from paragraph to paragraph |
| Chunker.ChunkOfParagraph | customer_service_assistant_3agents/run_4agent_rag_system.py:38-42 | the last paragraph adds one chunk, under the category left by the paragraphs before it (the latest heading's stripped text, or empty), exactly when it is a non-blank body paragraph |
| Chunker.NoHeadingsNoPrefix | customer_service_assistant_3agents/run_4agent_rag_system.py:41 | with no heading the category stays empty, so each chunk is the bare stripped text of its paragraph |
| Chunker.CategoryInheritance | customer_service_assistant_3agents/run_4agent_rag_system.py:38-42 | for any document laid out as heading, body, body, heading, body: the first two bodies are chunked under the first heading's stripped text and the last under the second's |
| KnowledgeBase.Collection.constructor | customer_service_assistant_3agents/run_4agent_rag_system.py:66 | a created collection is empty, and its id counter starts fresh |
| KnowledgeBase.Collection.Count | customer_service_assistant_3agents/run_4agent_rag_system.py:70 | `count()` is the number of stored entries |
| KnowledgeBase.Collection.Add | customer_service_assistant_3agents/run_4agent_rag_system.py:79 | `add` appends one entry with the document, its embedding and a fresh id, and keeps the ids distinct and increasing |
| KnowledgeBase.AddChunks | customer_service_assistant_3agents/run_4agent_rag_system.py:76-79 | the loop appends one entry per chunk in chunk order and keeps the ids fresh |
| KnowledgeBase.BuildKnowledgeBase | customer_service_assistant_3agents/test_rag_system_3agents.py:30-46 | the three-agent and plain builds always append every chunk |
| KnowledgeBase.BuildKnowledgeBase4 | customer_service_assistant_3agents/run_4agent_rag_system.py:53-85 | the four-agent build leaves a non-empty collection untouched and otherwise appends every chunk |
| KnowledgeBase.Build | customer_service_assistant_3agents/run_rag_system.py:40-44 | the store after the append loop; no contract of its own, `BuildAppends` and `RebuiltCount` state its properties |
| KnowledgeBase.Build4 | customer_service_assistant_3agents/run_4agent_rag_system.py:70-79 | the store after the four-agent build; no contract of its own, `Build4Cases` and `Build4Idempotent` state its properties |
| KnowledgeBase.BuildAppends | customer_service_assistant_3agents/run_rag_system.py:40-44 | a build stores exactly the old documents followed by the chunks, keeps the old entries and adds `|chunks|` entries with fresh ids |
| KnowledgeBase.Build4Cases | customer_service_assistant_3agents/run_4agent_rag_system.py:70-79 | the four-agent build returns a non-empty collection unchanged, and an empty one then holds exactly the chunks |
| KnowledgeBase.Build4Idempotent | customer_service_assistant_3agents/run_4agent_rag_system.py:70-73 | a second four-agent build changes nothing |
| KnowledgeBase.Rebuilt4Count | customer_service_assistant_3agents/run_4agent_rag_system.py:70-73 | any number of repeated four-agent builds gives the same collection as one build |
| KnowledgeBase.RebuiltCount | customer_service_assistant_3agents/test_rag_system_3agents.py:37-40 | each appending build grows the count by `|chunks|`, so `n` builds add `n * |chunks|` entries |
| KnowledgeBase.RebuildDuplicates | customer_service_assistant_3agents/run_rag_system.py:40-44 | building twice from the same chunks stores every chunk twice |
| QueryEnhancer.Normalize | customer_service_assistant_3agents/run_4agent_rag_system.py:93 | `query.strip().lower()`; no contract of its own |
| QueryEnhancer.KeyTerms | customer_service_assistant_3agents/run_4agent_rag_system.py:96-108 | the key terms of a query; no contract of its own, `KeyTermsOrdered` states its properties |
| QueryEnhancer.Enhanced | customer_service_assistant_3agents/run_4agent_rag_system.py:111-113 | the enhanced query; no contract of its own, `EnhancedShape` states its properties |
| QueryEnhancer.ProcessQuery | customer_service_assistant_3agents/run_4agent_rag_system.py:88-116 | the method returns the enhanced query: the original query, followed by the matched terms when there are any |
| QueryEnhancer.CollectKeyTerms | customer_service_assistant_3agents/run_4agent_rag_system.py:96-108 | the six checks collect exactly the table's terms whose triggers occur in the normalised query, in table order |
| QueryEnhancer.KeyTermsUnrolled | customer_service_assistant_3agents/run_4agent_rag_system.py:97-108 | the table-driven matching is the six source checks in source order, with "price" or "cost" both giving "pricing" |
| QueryEnhancer.TermsInTableOrder | customer_service_assistant_3agents/run_4agent_rag_system.py:96-108 | the matched terms are distinct, at most six, in the fixed order of the table, and "pricing" is among them exactly when "price" or "cost" occurs |
| QueryEnhancer.KeyTermsOrdered | customer_service_assistant_3agents/run_4agent_rag_system.py:93-108 | the same facts for the key terms of a raw query, with matching on its stripped, lower-cased form |
| QueryEnhancer.CanonicalTermsOfTable | customer_service_assistant_3agents/run_4agent_rag_system.py:97-108 | the table's terms are pricing, iphone, mac, watch, ipad, airpods, in that order |
| QueryEnhancer.CanonicalTermsDistinct | customer_service_assistant_3agents/run_4agent_rag_system.py:97-108 | no canonical term appears twice |
| QueryEnhancer.TriggerWordsOfTable | customer_service_assistant_3agents/run_4agent_rag_system.py:97-107 | the seven trigger words are exactly the table's triggers, row by row in the order the source tests them |
| QueryEnhancer.PricingRow | customer_service_assistant_3agents/run_4agent_rag_system.py:97-98 | the pricing row fires exactly on "price" or "cost" |
| QueryEnhancer.NoTermsIffNoTrigger | customer_service_assistant_3agents/run_4agent_rag_system.py:96-112 | no term is collected exactly when no trigger word occurs |
| QueryEnhancer.EnhancedShape | customer_service_assistant_3agents/run_4agent_rag_system.py:111-113 | the original query is always a prefix of the enhanced one; they are equal exactly when no trigger occurs; otherwise a space follows, and splitting the rest on spaces gives back the terms |
| QueryEnhancer.AppendedTermsSplit | customer_service_assistant_3agents/run_4agent_rag_system.py:113 | after the query come a space and the terms joined by single spaces, which split back into the terms |
| QueryEnhancer.SplitAppended | customer_service_assistant_3agents/run_4agent_rag_system.py:113 | appending space-free terms to any query can be undone by splitting |
| QueryEnhancer.KeyTermsAvoidSpace | customer_service_assistant_3agents/run_4agent_rag_system.py:97-108 | no collected term contains a space |
| QueryEnhancer.CostQueryExample | customer_service_assistant_3agents/run_4agent_rag_system.py:93-113 | "iPhone cost?" is enhanced to "iPhone cost? pricing iphone" |
| QueryEnhancer.PlainQueryExample | customer_service_assistant_3agents/run_4agent_rag_system.py:111-112 | "Hello there" has no key term and is left as it is |
| Retrieval.FirstList | customer_service_assistant_3agents/test_rag_system_3agents.py:56 | `results.get("documents", [[]])[0]`: no key gives no document, an empty list under the key fails the index; no contract of its own |
| Retrieval.Context | customer_service_assistant_3agents/test_rag_system_3agents.py:57 | `"\n---\n".join(docs) if docs else ""`; no contract of its own, `ContextEmptyIff` and `ContextSplitsBack` state its properties |
| Retrieval.RetrieveDocuments | customer_service_assistant_3agents/run_rag_system.py:54-57 | the three-agent and plain retrieval: a store or index failure escapes, otherwise the joined context; no contract of its own |
| Retrieval.RetrieveDocuments4 | customer_service_assistant_3agents/run_4agent_rag_system.py:119-140 | the four-agent retrieval inside `try`: every failure gives `""`; no contract of its own, `RetrieveDocuments4Agrees` relates it to `RetrieveDocuments` |
| Retrieval.ContextEmptyIff | customer_service_assistant_3agents/test_rag_system_3agents.py:56-57 | the context is empty exactly when no document came back or the only one is empty |
| Retrieval.ContextSplitsBack | customer_service_assistant_3agents/run_rag_system.py:55-57 | the joined context splits back into the returned documents in their order, when none contains a newline |
| Retrieval.SingleDocumentContext | customer_service_assistant_3agents/run_4agent_rag_system.py:129-133 | a single document is its own context |
| Retrieval.RetrieveDocuments4Agrees | customer_service_assistant_3agents/run_4agent_rag_system.py:119-140 | the four-agent retrieval gives the same context as the others when they succeed and `""` where they raise, and it is empty exactly on a failure, no documents, or one empty document |
| FragmentResponder.Decide | customer_service_assistant_3agents/run_4agent_rag_system.py:147-165 | which reply the context gets; no contract of its own, `DecideCases` and `DecideQuoted` state its cases |
| FragmentResponder.Render | customer_service_assistant_3agents/run_4agent_rag_system.py:148-172 | the printed text of a reply; no contract of its own, `RenderTellsApart` states its properties |
| FragmentResponder.FragmentResponse | customer_service_assistant_3agents/run_4agent_rag_system.py:143-172 | `generate_response` as a function; no contract of its own, `FragmentResponseCases` states its properties |
| FragmentResponder.Kept | customer_service_assistant_3agents/run_4agent_rag_system.py:156-161 | the stripped fragments longer than 10 characters, in order; no contract of its own, `KeptParts` and `KeptEmptyIff` state its properties |
| FragmentResponder.TopTwo | customer_service_assistant_3agents/run_4agent_rag_system.py:165 | `response_parts[:2]`; no contract of its own, `TopTwoWithin` states its properties |
| FragmentResponder.GenerateResponse | customer_service_assistant_3agents/run_4agent_rag_system.py:143-172 | the loop's response is the fragment responder's reply, rendered |
| FragmentResponder.TopTwoWithin | customer_service_assistant_3agents/run_4agent_rag_system.py:165 | at most the first two parts are quoted, in order, and some part is quoted exactly when there is one |
| FragmentResponder.KeptParts | customer_service_assistant_3agents/run_4agent_rag_system.py:156-161 | every kept part is a stripped fragment of the context longer than 10 characters, and there are at most as many as fragments |
| FragmentResponder.KeptEmptyIff | customer_service_assistant_3agents/run_4agent_rag_system.py:156-163 | nothing is kept exactly when no fragment is substantial |
| FragmentResponder.KeepMapEmptyIff | customer_service_assistant_3agents/run_4agent_rag_system.py:156-161 | a filter keeps nothing exactly when no element passes it |
| FragmentResponder.KeepMapAppend | customer_service_assistant_3agents/run_4agent_rag_system.py:156-161 | the kept parts of a concatenation are the kept parts of each half, in order |
| FragmentResponder.KeepMapFrom | customer_service_assistant_3agents/run_4agent_rag_system.py:156-161 | every kept part comes from an element that passed the filter |
| FragmentResponder.DecideCases | customer_service_assistant_3agents/run_4agent_rag_system.py:147-172 | the apology is chosen exactly for the empty context, and the "not specific" reply exactly when the context is non-empty with no substantial fragment |
| FragmentResponder.DecideQuoted | customer_service_assistant_3agents/run_4agent_rag_system.py:163-165 | a quoting reply quotes the first two kept parts, of which there is at least one |
| FragmentResponder.QuotedParts | customer_service_assistant_3agents/run_4agent_rag_system.py:159-165 | the quoted parts are one or two, the first kept part first, each a stripped fragment longer than 10 characters |
| FragmentResponder.RenderTellsApart | customer_service_assistant_3agents/run_4agent_rag_system.py:148-172 | the three kinds of reply print differently: the apology and the "not specific" text each come from one reply only, and a quoting reply starts with its first part and ends with the closing sentence |
| FragmentResponder.FragmentResponseCases | customer_service_assistant_3agents/run_4agent_rag_system.py:143-172 | the response is the apology exactly for the empty context, the "not specific" text exactly when nothing is kept, and otherwise starts with the first kept part and ends with the closing sentence |
| FragmentResponder.OnlyTopTwoMatter | customer_service_assistant_3agents/run_4agent_rag_system.py:165 | two non-empty contexts with the same first two kept parts get the same reply |
| FragmentResponder.DecideOnDocuments | customer_service_assistant_3agents/run_4agent_rag_system.py:129-172 | on a context joined from newline-free documents, the reply depends on the documents' own kept parts |
| FragmentResponder.SingleDocumentReply | customer_service_assistant_3agents/run_4agent_rag_system.py:163-170 | a single stripped document longer than 10 characters and without a newline is answered with itself followed by the closing sentence |
| FragmentResponder.JoinStartsWithFirst | customer_service_assistant_3agents/run_4agent_rag_system.py:165 | a join starts with its first part |
| RuleResponder.Choose | customer_service_assistant_3agents/test_rag_system_3agents.py:61-83 | which branch answers; no contract of its own, `RulePrecedence` states the precedence |
| RuleResponder.Render | customer_service_assistant_3agents/test_rag_system_3agents.py:70-83 | the text of a branch: lead-in, excerpt, tail; no contract of its own, `Excerpt` states its shape |
| RuleResponder.RuleResponse | customer_service_assistant_3agents/test_rag_system_3agents.py:60-83 | `generate_response` of the three-agent script; no contract of its own, `Excerpt`, `EmptyContextReply` and `QuestionCaseInsensitive` state its properties |
| RuleResponder.EmptyContextReply | customer_service_assistant_3agents/test_rag_system_3agents.py:61-62 | the empty context gets the fixed "not enough information" message whatever the question |
| RuleResponder.RulePrecedence | customer_service_assistant_3agents/test_rag_system_3agents.py:68-83 | first match wins: a price rule fires exactly on "price" or "cost", specifications exactly on "spec" or "feature" without those, Apple exactly on "apple" without either, and the default otherwise |
| RuleResponder.PriceRuleWins | customer_service_assistant_3agents/test_rag_system_3agents.py:68-74 | two price questions get the same answer over the same context |
| RuleResponder.ProductPricingAlike | customer_service_assistant_3agents/test_rag_system_3agents.py:69-72 | a price question over a context mentioning iphone or mac gets the 200-character answer, the same for both products |
| RuleResponder.Excerpt | customer_service_assistant_3agents/test_rag_system_3agents.py:68-83 | every answer to a non-empty context is a lead-in, a prefix of the original context of length `min(200, |context|)` or `min(300, |context|)`, and a tail; 200 exactly for a price question over iphone or mac |
| RuleResponder.QuestionCaseInsensitive | customer_service_assistant_3agents/test_rag_system_3agents.py:66 | the answer does not depend on the question's letter case |
| Prompt.BuildMessages | customer_service_assistant_3agents/run_rag_system.py:61-65 | the `messages` list; no contract of its own, `PromptRoundTrip`, `PromptInjective` and `PromptRoles` state its properties |
| Prompt.PromptRoundTrip | customer_service_assistant_3agents/run_rag_system.py:61-65 | the prompt is system, user, user: the fixed instruction, then `Context:` and the context verbatim, then the question verbatim |
| Prompt.PromptInjective | customer_service_assistant_3agents/run_rag_system.py:61-65 | different contexts or questions give different prompts |
| Prompt.EmptyContextPrompt | customer_service_assistant_3agents/run_rag_system.py:60-65 | the empty context still gets the three-message prompt, with the bare label |
| Prompt.RoleName | customer_service_assistant_3agents/run_rag_system.py:62-64 | roles are named "system" or "user" |
| Prompt.PromptRoles | customer_service_assistant_3agents/run_rag_system.py:62-64 | the prompt's roles go out as "system", "user", "user", in that order |
| Prompt.Answer | customer_service_assistant_3agents/run_rag_system.py:66-71 | the reply is the model's answer, stripped |
| Commands.IsExit | customer_service_assistant_3agents/run_4agent_rag_system.py:197 | the stripped line, lower-cased, is one of "exit", "quit", "bye"; no contract of its own |
| Commands.Classify | customer_service_assistant_3agents/test_rag_system_3agents.py:96-99 | the three-agent and plain classification: exit word, or the stripped line as the question; no contract of its own |
| Commands.Classify4 | customer_service_assistant_3agents/run_4agent_rag_system.py:195-203 | the four-agent classification: exit word, blank line, or the stripped line as the question; no contract of its own, `ClassifyAgree` relates it to `Classify` |
| Commands.ClassifyAgree | customer_service_assistant_3agents/run_4agent_rag_system.py:195-203 | the four-agent loop asks again exactly on a blank line, where the others ask the empty question, and otherwise classifies like them |
| Commands.EmptyNotExit | customer_service_assistant_3agents/test_rag_system_3agents.py:97 | the empty line is not an exit word |
| Commands.QuestionsStripped | customer_service_assistant_3agents/run_rag_system.py:81 | every question passed on is stripped, and in the four-agent loop also non-empty |
| Commands.ExitIgnoresPaddingAndCase | customer_service_assistant_3agents/run_4agent_rag_system.py:195-197 | surrounding whitespace and letter case do not change whether a line is an exit word, and surrounding whitespace does not change how it is classified |
| Commands.ByeIsExit | customer_service_assistant_3agents/run_rag_system.py:82-84 | "Bye" ends every loop |
| Commands.Consumed | customer_service_assistant_3agents/run_4agent_rag_system.py:193-199 | the lines the four-agent loop reads: every line up to and including the first exit word; no contract of its own, `ConsumedStopsAtExit`, `ConsumedLast` and `ConsumedAll` state its properties |
| Commands.UpToFirstLast | customer_service_assistant_3agents/run_4agent_rag_system.py:193-199 | reading stops at the first stop line, which is the last one read |
| Commands.ConsumedStopsAtExit | customer_service_assistant_3agents/run_4agent_rag_system.py:193-199 | after the first exit word nothing more is read: the lines read are a prefix ending at the first exit word, and later input changes nothing |
| Commands.ConsumedLast | customer_service_assistant_3agents/run_4agent_rag_system.py:193-203 | with an exit word somewhere, the last line the four-agent loop reads is an exit word and no earlier one is |
| Commands.ConsumedAll | customer_service_assistant_3agents/run_4agent_rag_system.py:193-203 | without an exit word the four-agent loop reads every line |
| Controller.Agents4 | customer_service_assistant_3agents/run_4agent_rag_system.py:206-215 | the four-agent pipeline: enhance, search, retrieve inside `try`, fragment responder; no contract of its own, `FailedSearch4` states its failure case |
| Controller.Agents3 | customer_service_assistant_3agents/test_rag_system_3agents.py:103-109 | the three-agent pipeline: search on the question, retrieve without `try`, rule responder; no contract of its own |
| Controller.AgentsPlain | customer_service_assistant_3agents/run_rag_system.py:87-93 | the plain pipeline: search, retrieve without `try`, the stripped chat reply to the prompt; no contract of its own |
| Controller.Turn4 | customer_service_assistant_3agents/run_4agent_rag_system.py:195-217 | one turn of the four-agent loop; no contract of its own, `GoodbyeOnExit`, `BlankLine` and `QuestionAnswered` state its cases |
| Controller.Turn | customer_service_assistant_3agents/test_rag_system_3agents.py:96-110 | one turn of the three-agent and plain loops; no contract of its own, `BlankLine`, `QuestionAnswered` and `FailureCrashes` state its cases |
| Controller.Session4 | customer_service_assistant_3agents/run_4agent_rag_system.py:193-224 | one four-agent turn per line read; no contract of its own, `SessionEndsAtExit` and `SessionWithoutExit` state its properties |
| Controller.MapSeqIndex | customer_service_assistant_3agents/run_4agent_rag_system.py:193 | one turn per line read, in order |
| Controller.GoodbyeOnExit | customer_service_assistant_3agents/run_4agent_rag_system.py:197-199 | a turn says goodbye exactly on an exit word, whatever the agents do |
| Controller.SessionStopsReading | customer_service_assistant_3agents/run_4agent_rag_system.py:193-199 | lines after an exit word never change the session |
| Controller.SessionEndsAtExit | customer_service_assistant_3agents/run_4agent_rag_system.py:193-224 | a session with an exit word ends with the goodbye and says it nowhere else |
| Controller.SessionWithoutExit | customer_service_assistant_3agents/run_4agent_rag_system.py:193-224 | without an exit word each line gets its own turn and none says goodbye |
| Controller.BlankLine | customer_service_assistant_3agents/run_4agent_rag_system.py:201-203 | a blank line makes the four-agent loop ask again, while the other loops run their pipeline on the empty question |
| Controller.QuestionAnswered | customer_service_assistant_3agents/run_4agent_rag_system.py:205-217 | a line that is neither blank nor an exit word is a question in every loop, and the four-agent loop answers it with the pipeline's reply to the stripped line |
| Controller.FailedSearch4 | customer_service_assistant_3agents/run_4agent_rag_system.py:138-148 | when the store fails, the four-agent pipeline answers with the no-context apology instead of raising |
| Controller.FailedSearch3 | customer_service_assistant_3agents/test_rag_system_3agents.py:54-57 | when the store fails, the three-agent pipeline raises |
| Controller.FailedSearchPlain | customer_service_assistant_3agents/run_rag_system.py:54-57 | when the store fails, the plain pipeline raises |
| Controller.FailureCrashes | customer_service_assistant_3agents/test_rag_system_3agents.py:101-110 | a pipeline that raises ends the three-agent and plain loops |

## Left out

- Word-document parsing: a document is given as its paragraphs, each a style name and a text.
- The embedding models (sentence-transformers and the OpenAI embeddings call) are function parameters: `embed` in the build, and inside `search` in the controller. Both are total: `Raised` stands for a failure of the store's query only.
- ChromaDB persistence, the client path, get-or-create of a collection, and the nearest-neighbour ranking inside `query`. What `query` hands back is an input (`QueryOutcome`).
- `uuid4()` ids: a counter gives fresh, distinct ids instead of random ones.
- The chat-model call and its temperature. The model is a function parameter (`model`), and only its stripped reply is modelled.
- Every `print`, including the progress report every five chunks, the banners and the farewell text.
- The `pip install` fallback at start-up, and `test_imports.py`, `check_packages.py` and `fix_notebook.py`. These are package probing and a one-off notebook rewrite.
- `input()` itself: a session is given as the list of lines the user would type.
- In the three-agent and plain loops, an exception from the embedder (`embed_query`, an OpenAI call in the plain script) or from the chat call is not modelled: there it would end the loop like a store failure, but the embedder and the chat model are total here. Only store and index failures reach `Crashed`.
- End of input, `KeyboardInterrupt`, and exceptions raised in the four-agent loop's pipeline (the embedder, or the printing) are not modelled. The four-agent pipeline is total here. Its retrieval failures are modelled and answered with the apology.
- Text handling is ASCII only. `strip()` removes the characters Python's `isspace` accepts below 128. `lower()` folds `A`–`Z`. Unicode whitespace and case folding are not modelled.
- Controller.Said: an answer holds the responder's reply, not the printed text. The printed text is `FragmentResponder.Render`, `RuleResponder.Render` or the model's stripped reply.
- Controller.Turn: the three-agent and plain loops have no blank-line check. A blank line is the question `""` there, so their `AskAgain` case never arises.
- QueryEnhancer.ProcessQuery: the six keyword checks run in `CollectKeyTerms`, on the normalised query that `ProcessQuery` computes and passes in. The source does this inline in one function.
- The count check and the blank-line check exist only in the four-agent script. The other two scripts append on every build and send a blank line to retrieval; the model follows the code here.
