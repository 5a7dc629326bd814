# TeamMind RAG engine — text-processing core in Dafny

This project models the deterministic core of `RAGEngine` in `rag_engine.py`,
the retrieval-augmented question answerer of the TeamMind assistant, and proves
properties of it:

- **Credentials** (`__init__`): construction fails with the source's message
  unless `IBM_API_KEY` and `WATSONX_PROJECT_ID` are set and are not the
  template placeholders. The API key is checked first.
- **Chunker** (`_create_chunks`):
  - A document is split on `"\n## "`, and every section but the first gets
    its `"## "` back.
  - A section of at most `chunk_size` characters becomes one stripped chunk,
    or none if it is blank.
  - A longer section goes through the word loop: words are appended, a
    character counter is kept, the chunk is flushed once the counter
    reaches `chunk_size`, and `current_chunk[-overlap:]` is carried into
    the next chunk.
- **Keyword fallback retrieval** (`_retrieve_relevant_chunks` without a
  vector store):
  - each chunk's score is the number of distinct lower-cased whitespace
    words it shares with the query;
  - a stable descending sort by score;
  - the first `top_k` chunks are returned.
- **Context and answers** (`query`, `_fallback_response`):
  - the labelled context joined by blank lines, and the prompt around it;
  - a generator's reply is stripped, and an exception becomes an error text;
  - with no generator, the fallback answer shows a 300-character snippet of
    each retrieved chunk.

Files:

- `wrappers.dfy`: `Option`, `Outcome` and `Result`.
- `text.dfy`: the Python string operations the core relies on.
  - `str.split()`, `str.split(sep)`, `sep.join`, `str.strip()`, ASCII
    `str.lower()`.
  - Their round trips: `Words(Join(" ", ws)) == ws` and
    `Join(sep, SplitOn(s, sep)) == s`.
- `chunker.dfy`: the chunker.
  - The word loop is the method `SplitLongSection`.
  - It is proved against a left fold (`Step`, `Fold`, `WordChunks`), and the
    chunking guarantees are proved about that fold.
- `retriever.dfy`: the scoring loop (`ScoreChunks`) and the keyword fallback
  (`RetrieveFallback`).
  - Both are proved against `FallbackRetrieval`.
  - `Ranking` specifies Python's stable `sort(key=..., reverse=True)` as an
    insertion sort over positions.
- `composer.dfy`: the context, the prompt, the `+=` loop of
  `_fallback_response`, and the answer chosen from the generator's reply.
- `engine.dfy`: `class RagEngine`, whose `documents` and `chunks` lists are
  updated in place by `LoadDocuments` and `CreateChunks`, and its `Query`.
  - The field `hasCollection` records whether `self.collection` exists yet.
  - `Query` returns a `Result`: a `Failure` is the `AttributeError` that
    `if self.collection:` raises before the attribute is assigned.

Modelling choices:

- `chunk_size`, `overlap` and `top_k` are `int` with Python's slice rules.
  - `ws[-0:]` is the whole list.
  - A negative `top_k` drops elements from the end.
- Whitespace is Python's `str.isspace` set, written out in `Text.IsSpace`.
- The generator is a value `Option<string -> Reply>`: `None` when
  `_init_watsonx` could not set a model up. `Reply` is either the generated
  text or the message of the exception it raised.
- `LoadDocuments` receives the documents the directory walk produced, or
  `None` when the directory does not exist.
- Without a vector store, `_create_vector_store` sets `self.collection` to
  `None`. The model takes that path, so a load that found the directory
  leaves `hasCollection` true and retrieval uses the keyword fallback.

Behaviour of the code worth knowing:

- **No chunk-size bound.** The code gives no "chunk length ≤ target + one
  word" guarantee. The counter is checked only after a word is appended, and
  the overlap seed carried over may already be at or above the target.
  `Chunker.SizeCanExceedTargetPlusOneWord` shows a case:
  - the words `aaa bbb c` with target 4 and overlap 2;
  - they give the chunk `aaa bbb c`, 9 characters long;
  - the chunk after it, `bbb c`, consists only of the carried-over seed.
- **`query` can crash before any load succeeds.** `__init__` never assigns
  `self.collection`. Only `_create_vector_store` does, and `load_documents`
  returns before calling it when the directory is missing. The next `query`
  then raises `AttributeError` at line 194 of `rag_engine.py`. See
  "## Findings".
- **`load_documents` filters nothing.** Every `.md` file that reads
  successfully is loaded.
- **A flush on the last word repeats its seed.** When the last word of a long
  section triggers a flush and the kept overlap is non-empty, that overlap is
  emitted again as a final chunk with no word of its own.
  `Chunker.SingleWordRepeated` shows the word `aaaa` with target 5 and
  overlap 50 giving the chunk `aaaa` twice.
- **Overlap 0 carries every word.** With `overlap == 0`, `current_chunk[-0:]`
  keeps the whole chunk, so after the first flush every further word flushes
  again.
- **Repeated loads re-chunk everything.** Each `load_documents` call appends
  the chunks of all documents held so far, not just the new ones, to `chunks`.

## Model

| member | source | states |
|---|---|---|
| Engine.CheckCredentials | rag_engine.py:23-26 | passes exactly when both the API key and the project id are present, non-empty and not the template placeholder; a bad API key is reported first with its message, then a bad project id |
| Engine.RagEngine.Create | rag_engine.py:17-34 | a failed credential check ends construction with that message; otherwise a fresh engine with no documents, no chunks and the given generator |
| Engine.RagEngine.LoadDocuments | rag_engine.py:83-110 | a missing directory changes nothing and leaves `self.collection` as it was (unassigned on a fresh engine); otherwise the documents found are appended, the chunks of all documents held are appended to `chunks`, and the collection is assigned |
| Engine.RagEngine.CreateChunks | rag_engine.py:112-153 | leaves `documents` as they are and appends to `chunks` exactly the chunks of every document, in document order |
| Engine.RagEngine.RetrieveRelevantChunks | rag_engine.py:192-219 | once the collection is assigned (to `None`, without a vector store) the result is the keyword-fallback retrieval over the current chunks; before that, the `AttributeError` of reading `self.collection`; nothing changes |
| Engine.RagEngine.Query | rag_engine.py:221-263 | the result is `QueryResult` of the engine's state: the `AttributeError` before the collection is assigned, else the generator's stripped reply (or its error text) for the prompt over the top three fallback chunks, or the fallback text when there is no generator |
| Engine.QueryWithoutKnowledgeBase | rag_engine.py:192-194 | an engine built with valid credentials whose `load_documents` found no directory (the early return at lines 87-89 skips `_create_vector_store`) fails its first query with the `AttributeError` of `self.collection` |
| Engine.IntendedQueryAlwaysAnswers | rag_engine.py:28-31 | with `self.collection = None` set in `__init__`, `query` answers on every engine; this agrees with the code as written wherever the collection was assigned, and the code as written fails wherever it was not |
| Engine.EmptyKnowledgeBaseAnswer | rag_engine.py:261-268 | without a generator, once a load found the directory, an empty knowledge base answers every query with the fixed no-information message |
| Engine.NonEmptyKnowledgeBaseAnswer | rag_engine.py:209-282 | without a generator, once a load found the directory, a non-empty knowledge base always answers with the fallback header and note, since zero-score chunks are still retrieved |
| Engine.IntendedAnswersWithoutKnowledgeBase | rag_engine.py:192-268 | on the failing input (no generator, nothing loaded) the code as written gives the `AttributeError` of line 194, while `query` with `self.collection = None` answers with the fixed no-information message of line 268 |
| Engine.IsConfigured | rag_engine.py:23-25 | definition: the value is set, non-empty (`not value` is false) and not the template placeholder |
| Engine.QueryResult | rag_engine.py:192-263 | definition: `query` as written, failing with the `AttributeError` message when the collection was never assigned, else `QueryAnswer` |
| Engine.QueryAnswer | rag_engine.py:233-263 | definition: the top three fallback chunks, their context, the prompt around it, then `Answer` |
| Engine.IntendedQueryResult | rag_engine.py:28-31 | definition: `query` with the collection assigned `None` at construction, always `QueryAnswer` |
| Chunker.Sections | rag_engine.py:118-122 | definition: the pieces of `content.split("\n## ")`, with `"## "` put back in front of every piece but the first |
| Chunker.WordsLength | rag_engine.py:132-141 | definition: `sum(len(w) + 1 for w in ws)`, the value of the counter `current_length` for the chunk `ws` |
| Chunker.Step | rag_engine.py:130-141 | definition: one iteration of the word loop; the word is appended, and once the counter of the extended chunk reaches `chunk_size` that chunk is flushed and its last `overlap` words kept |
| Chunker.Fold | rag_engine.py:130-141 | definition: `Step` over the section's words from left to right, starting with no chunks and an empty `current_chunk` |
| Chunker.WordChunks | rag_engine.py:130-147 | definition: the flushed chunks of the fold, then the leftover `current_chunk` when it is non-empty |
| Chunker.Render | rag_engine.py:135-147 | definition: one chunk per word list, carrying `source` and the words joined by single spaces |
| Chunker.LongSectionChunks | rag_engine.py:125-147 | definition: the rendered word chunks of the section's `split()` words |
| Chunker.SectionChunks | rag_engine.py:120-153 | definition: a section longer than `chunk_size` gives the joined word chunks; a shorter one its stripped text when that is non-empty; otherwise nothing |
| Chunker.ChunksOfSections | rag_engine.py:120-153 | definition: the chunks of each section in turn, concatenated in section order |
| Chunker.DocumentChunks | rag_engine.py:114-153 | definition: the chunks of the document's sections, each tagged with its file name |
| Chunker.AllChunks | rag_engine.py:114-153 | definition: the chunks of every section of every document, in document then section order |
| Chunker.SectionsRestore | rag_engine.py:118-122 | joining the sections (heading markers restored) with a newline gives back the document content: splitting loses nothing |
| Chunker.KeepOverlap | rag_engine.py:140 | `ws[-overlap:]` is a suffix of `ws` of length `min(overlap, len)` for positive overlap, all of `ws` for 0, and `len + overlap` (at least 0) words for negative overlap |
| Chunker.SplitLongSection | rag_engine.py:125-147 | the word loop with `current_chunk` and `current_length` yields exactly the chunks of the word-level fold; `current_length` stays the sum of `len(w) + 1` over `current_chunk` |
| Chunker.ChunkSection | rag_engine.py:120-153 | a section yields the long-section chunks when longer than `chunk_size`, else its stripped self when not blank, else nothing |
| Chunker.ChunkDocument | rag_engine.py:114-153 | a document yields the chunks of its sections in order |
| Chunker.ChunkDocuments | rag_engine.py:114-153 | the documents yield the chunks of each document in order |
| Chunker.WordChunksOverlap | rag_engine.py:134-141 | every chunk after the first starts with the last `overlap` words of the chunk before it |
| Chunker.WordChunksReassemble | rag_engine.py:130-147 | dropping each chunk's carried-over seed and concatenating gives back exactly the section's words, in order |
| Chunker.WordChunksCover | rag_engine.py:130-147 | every word of a long section appears in some chunk |
| Chunker.WordChunksThreshold | rag_engine.py:131-141 | every chunk but the last was flushed on the first word that took the counter (from its seed) to `chunk_size`; the last chunk is either flushed the same way or got no word once the counter (from its seed) reached `chunk_size` |
| Chunker.FlushOnLastWordRepeatsSeed | rag_engine.py:143-147 | when the last word triggers a flush whose kept overlap is non-empty, the final chunk is that overlap again and holds no word of its own |
| Chunker.SingleWordRepeated | rag_engine.py:130-147 | the single word `aaaa` with target 5 and overlap 50 gives the chunk `aaaa` twice |
| Chunker.WordChunksNonEmpty | rag_engine.py:130-147 | every chunk of a long section is a non-empty list of the section's words |
| Chunker.SectionChunksShape | rag_engine.py:125-153 | a section's chunks carry its source and are non-empty and trimmed; a long section's chunk contents re-split into the fold's word lists; a short section yields at most `section.strip()`, and nothing exactly when it is all whitespace |
| Chunker.ChunksOfSectionsShape | rag_engine.py:120-153 | every chunk of a document's sections carries the document's file name and has non-empty trimmed content |
| Chunker.AllChunksShape | rag_engine.py:114-153 | every chunk produced names the file of one of the documents and has non-empty content with no whitespace at either end |
| Chunker.SizeCanExceedTargetPlusOneWord | rag_engine.py:134-141 | counterexample to a size bound of target plus one word: words `aaa bbb c`, target 4, overlap 2 give four chunks, the third of 9 characters |
| Text.IsSpace | rag_engine.py:126 | definition: the code points Python's `str.isspace` accepts, the separators of `split()` and what `strip()` removes |
| Text.Words | rag_engine.py:126 | `split()`: every word is non-empty and holds no whitespace; by its definition, the maximal runs of non-whitespace characters in order |
| Text.SplitOn | rag_engine.py:118 | `split(sep)` gives at least one piece; by its definition, the text between successive leftmost occurrences of `sep` |
| Text.Join | rag_engine.py:137 | definition: `sep.join(xs)`, the items with `sep` between neighbours and nothing for an empty list |
| Text.Lower | rag_engine.py:210-214 | `lower()` keeps the length; by its definition, each ASCII capital becomes its small letter and every other character is kept |
| Text.WordsOfLower | rag_engine.py:210-214 | lower-casing commutes with splitting: the words of `s.lower()` are the words of `s`, each lower-cased |
| Text.WordsOfJoin | rag_engine.py:126-137 | re-splitting a chunk's `" ".join` of words gives back the same words |
| Text.JoinSplitOn | rag_engine.py:118 | `sep.join(s.split(sep)) == s` |
| Text.SplitOnPiecesFree | rag_engine.py:118 | no piece of `s.split(sep)` contains `sep` |
| Text.Strip | rag_engine.py:149-153 | `strip()` is the slice between the leading and trailing whitespace, has no whitespace at either end, and is empty exactly when the input is all whitespace |
| Text.StripIdempotent | rag_engine.py:149-153 | stripping twice is stripping once |
| Text.LowerNoUpper | rag_engine.py:210-214 | ASCII lower-casing leaves no upper-case letter and keeps every whitespace position |
| Retriever.WordSet | rag_engine.py:210-214 | definition: `set(s.lower().split())` |
| Retriever.WordSetMembers | rag_engine.py:210-214 | a string is in the word set exactly when it is one of the words of `s`, lower-cased |
| Retriever.Scores | rag_engine.py:210-216 | the score list has one entry per chunk; by its definition, entry `i` is the score of chunk `i` |
| Retriever.SortByScoreDescending | rag_engine.py:218 | definition: the scored pairs reordered by the ranking of their scores, the result of `sort(key=lambda x: x[0], reverse=True)` |
| Retriever.Ranking | rag_engine.py:218 | the ranking is a list of positions of the score list, as long as it; by its definition, each position is inserted after every earlier one with an equal or higher score |
| Retriever.PrefixLength | rag_engine.py:219 | the length of `xs[:k]` is at most `len(xs)`; by its definition, `k` capped at the length for `k >= 0`, else the length plus `k` (at least 0) |
| Retriever.FallbackIndices | rag_engine.py:218-219 | every position is a position of the chunk list; by its definition, the first `top_k` positions of the ranking |
| Retriever.FallbackRetrieval | rag_engine.py:209-219 | definition: the chunks at the first `top_k` positions of the ranking of the chunks' scores |
| Retriever.Score | rag_engine.py:210-215 | the score is at most the number of distinct words of the query and of the chunk |
| Retriever.ScoreChunks | rag_engine.py:210-216 | `scored_chunks` holds, for each chunk in order, its score and the chunk |
| Retriever.RetrieveFallback | rag_engine.py:209-219 | the scoring loop, the sort and the `[:top_k]` slice return exactly the specified fallback retrieval |
| Retriever.RankingIsStableSort | rag_engine.py:218 | the ranking is a permutation of the chunk positions ordered by non-increasing score, equal scores in original order |
| Retriever.RetrievalLength | rag_engine.py:219 | `min(top_k, len(chunks))` results for non-negative `top_k`, Python's slice length otherwise |
| Retriever.RetrievalSelection | rag_engine.py:213-219 | results are distinct chunks from the list, in non-increasing score order, ties in list order |
| Retriever.RetrievalIsTopK | rag_engine.py:213-219 | every chunk left out scores less than every chunk returned, or the same and comes later |
| Retriever.ZeroScoresKeepOrder | rag_engine.py:213-219 | when no chunk shares a word with the query, the first `top_k` chunks are returned in order |
| Retriever.HigherScoreComesFirst | rag_engine.py:213-219 | a chunk with a higher score is returned whenever a lower-scored one is, and ahead of it |
| Composer.Label | rag_engine.py:237 | definition: `f"[From {source}]:\n{content}"` |
| Composer.FormatContext | rag_engine.py:236-239 | definition: each chunk labelled `[From source]:` and a newline before its content, the labels joined by a blank line |
| Composer.Prompt | rag_engine.py:242-252 | definition: the fixed introduction, the mode text, the instructions, the context, the question and the answer cue, in that order |
| Composer.PromptPlacesParts | rag_engine.py:242-252 | the prompt starts with the introduction, mode text and instructions, ends with the question and the answer cue, and carries the context verbatim between them |
| Composer.Answer | rag_engine.py:254-263 | definition: the fallback text without a generator, else the generator's reply stripped, or `Error generating response: ` and the exception's message |
| Composer.FallbackText | rag_engine.py:265-282 | definition: the fixed message for no chunks, else the header, the blocks and the note |
| Composer.Block | rag_engine.py:278 | definition: `f"📄 **From {source}**:\n{snippet}\n\n"` with the 300-character snippet |
| Composer.Blocks | rag_engine.py:272-278 | definition: one block `📄 **From source**:`, a newline, the snippet and a blank line per chunk, in order |
| Composer.FormatContextOrder | rag_engine.py:236-239 | the context lists every retrieved chunk's label in retrieval order, separated by blank lines |
| Composer.FormatContextEmpty | rag_engine.py:236-239 | the context is empty exactly when nothing was retrieved |
| Composer.Snippet | rag_engine.py:274-276 | content of at most 300 characters is kept whole; longer content becomes its first 300 characters and `...` |
| Composer.ComposeFallback | rag_engine.py:265-282 | the `+=` loop returns exactly the fallback text: the fixed message for no chunks, else header, one block per chunk, note |
| Composer.FallbackTextShape | rag_engine.py:265-282 | the fallback text is the header, the blocks of the chunks before `k`, chunk `k`'s block, the blocks after it, and the note |
| Composer.BlocksAppend | rag_engine.py:272-278 | the blocks of two chunk lists in sequence are the blocks of each, concatenated |
| Composer.AnswerCases | rag_engine.py:254-263 | no generator: the fixed message for no chunks, else a text starting with the header and ending with the note; a reply is stripped; an exception gives `Error generating response: ` and its message |

## Left out

- The vector store (`_create_vector_store`, the ChromaDB branch of `_retrieve_relevant_chunks`): an external library. The model takes `_create_vector_store`'s fallback, which sets `self.collection` to `None`, so retrieval always uses keywords once the attribute exists.
- `_init_watsonx` and the watsonx SDK: the generator is a given `Option<string -> Reply>`; the model id, its parameters and `WATSONX_URL` are not modelled.
- Reading environment variables and `load_dotenv`: the credential values are parameters of `Engine.RagEngine.Create`.
- The directory walk and file reading in `load_documents` (`rglob`, `read_text`, per-file read errors): `LoadDocuments` receives the documents read successfully, in order.
- `_safe_print` and all console output: I/O.
- The `if __name__ == "__main__"` smoke run at the end of `rag_engine.py`: a script, not part of the engine.
- `app.py` (the Streamlit interface) and `voice_engine.py`: not part of this model.
- Text.Lower: lowers ASCII letters only, whereas Python's `str.lower` also lowers non-ASCII letters; queries and chunks whose shared words differ only in non-ASCII case score differently here.
- Unicode details of `split()` and `strip()` beyond the whitespace code points listed in `Text.IsSpace`: strings are sequences of code points with no normalisation.

## Findings

| source | as written | input that shows it | evidently intended | confidence | as-written member | corrected member |
|---|---|---|---|---|---|---|
| rag_engine.py:28-31 | `__init__` sets `self.vector_store = None` but never `self.collection`; only `_create_vector_store` assigns it, and `load_documents` returns at line 89 before calling it when the directory is missing | valid credentials, a missing knowledge-base directory, then `query("q")`: `if self.collection:` at line 194 raises `AttributeError` | `self.collection = None` in `__init__`, so `query` falls back to keyword retrieval on every engine | high; not executed | Engine.QueryWithoutKnowledgeBase | Engine.IntendedQueryResult |
