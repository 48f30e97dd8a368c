# Verified model of the PDF-chatbot ingestion and query core

This project models, in Dafny, the deterministic logic of a retrieval-augmented
question-answering system built on LangChain, Chroma and OpenAI. There are three
pieces:

- **Case organiser** (`scripts/organize-cases.ts`). `slugify` normalises a file
  name. `organize` scans a directory listing. It skips directories and names
  that do not end in `.pdf` (in any case). It moves every other file, under
  its slug, into the first case whose pattern list has a substring of the name.
  The listing is a sequence of `Entry(name, isDirectory)` values. The case map
  is an ordered sequence of `Case(name, patterns)` values. The moves and the
  unmatched names are returned instead of being performed or logged.
- **Vector-store operator** (`operators/chromaOperator.ts`). A lazily created
  singleton holds a Chroma collection handle. Its operations are `reset`,
  `addDocuments` (consecutive batches of 100, written one after another) and
  `ingestDirectory` (load, split, reset if asked, then add). The collection is a
  `VectorStore` object that logs every call it receives (`ResetCall`,
  `AddCall(batch)`). An oracle `accepts(callsSoFar, call)` decides whether each
  call succeeds or throws. Each operator method is proved equal to a pure step
  function (`ResetStep`, `AddStep`, `IngestStep`). The ordering and failure
  properties are proved about those functions.
- **Multi-agent query pipeline** (`scripts/multi-agent.ts`). Retrieval, answer
  and verifier agents run in sequence and record three traces. The similarity
  search and the language model are oracles passed in as functions. Every
  request made to them is returned in order. This makes the number of model
  calls, the short-circuit on an empty context and the prompt contents
  provable. The command-line entry point is `MultiAgent.Cli`.

Shared modules:

- `Wrappers`: `Option` and `Result`.
- `Documents`: the LangChain `Document` record.
- `Text`: the JavaScript string built-ins the core uses. These are
  `toLowerCase` on ASCII, `endsWith`, `includes`, `Array.join` and `trim` with
  ECMAScript's white-space and line-terminator set.

The configuration module `config/chroma.ts` throws when it is imported without
`COLLECTION_NAME` (config/chroma.ts:5-7). Imports run before the script body,
so in `scripts/multi-agent.ts` that throw comes before the empty-question guard.
The script's own `COLLECTION_NAME` check (scripts/multi-agent.ts:77-81) is
reached only once the import has succeeded, so it can never fail: its exit
branch (lines 78-80) never runs. `MultiAgent.Cli` models the import-time throw
as the first exit with status 1 and has no separate branch for that check.

## Model

| member | source | states |
|---|---|---|
| Text.ToLower | scripts/organize-cases.ts:10 | `toLowerCase` on ASCII: the length is kept, each letter `A`-`Z` becomes the matching `a`-`z`, no upper-case letter remains, and every other character is unchanged |
| Text.EndsWith | scripts/organize-cases.ts:28 | `endsWith(suffix)`: the string finishes with the suffix's characters; its use on the lowered name is characterised by `OrganizeCases.DecideSpec` and `OrganizeCases.PdfSlug` |
| Text.Join | scripts/multi-agent.ts:29 | `Array.join`: parts separated by the separator, `""` for no parts; its meaning is stated by `Text.JoinEmptyIff`, `Text.JoinContainsParts` and `Text.JoinSplit` |
| Text.Includes | scripts/organize-cases.ts:32 | `entry.includes(p)` is true exactly when `p` occurs at some position of `entry` |
| Text.Trim | scripts/multi-agent.ts:39 | `trim()` returns a slice of the input with no white space at either end, and only white space is removed around that slice |
| Text.TrimIdempotent | scripts/multi-agent.ts:39 | trimming a trimmed response changes nothing |
| Text.JoinEmptyIff | scripts/multi-agent.ts:29 | `join` with a non-empty separator gives `""` exactly for no parts or a single empty part |
| Text.JoinContainsParts | scripts/multi-agent.ts:29 | every part occurs in the joined string |
| Text.JoinSplit | scripts/multi-agent.ts:29 | joining keeps order: the first `k` parts joined, the separator, then the rest joined |
| OrganizeCases.Slugify | scripts/organize-cases.ts:8-13 | `slugify` as the three chained steps: lower-case, collapse runs, strip `_` at both ends; its properties are `OrganizeCases.SlugifyShape`, `OrganizeCases.SlugifyIdempotent` and `OrganizeCases.PdfSlug` |
| OrganizeCases.CollapseRuns | scripts/organize-cases.ts:11 | `replace(/[^a-z0-9]+/g, '_')`: empty exactly for the empty string; see `OrganizeCases.CollapseRunsNoDouble`, `OrganizeCases.CollapseRunsKeepsAlnums` and `OrganizeCases.SeparatorBecomesUnderscore` |
| OrganizeCases.TrimUnderscores | scripts/organize-cases.ts:12 | the second `replace`, which removes the leading and then the trailing run of `_`; see `OrganizeCases.TrimUnderscoresMakesSlug` |
| OrganizeCases.SlugifyShape | scripts/organize-cases.ts:8-13 | `slugify` output is a slug: only `[a-z0-9_]`, no `_` at either end, no `__`; deleting its `_` gives exactly the `[a-z0-9]` characters of the lower-cased name, in order |
| OrganizeCases.CollapseRunsNoDouble | scripts/organize-cases.ts:11 | replacing each maximal run of non-alphanumerics by one `_` never leaves two `_` in a row |
| OrganizeCases.CollapseRunsKeepsAlnums | scripts/organize-cases.ts:11 | that replacement keeps every letter and digit in order and adds only `_` |
| OrganizeCases.TrimUnderscoresMakesSlug | scripts/organize-cases.ts:12 | stripping leading and trailing `_` from a collapsed name yields a slug without losing a letter or digit |
| OrganizeCases.SeparatorBecomesUnderscore | scripts/organize-cases.ts:11 | every run of characters outside `[a-z0-9]` between two `[a-z0-9]` characters becomes exactly one `_`: the text on each side is collapsed on its own and the two are joined by a single `_` |
| OrganizeCases.SlugifyJoinsWords | scripts/organize-cases.ts:8-13 | two slugs joined by a run of separators (with no upper-case letter among them) slug to the two slugs joined by one `_`, so words are kept apart rather than glued together |
| OrganizeCases.SlugifyIdempotent | scripts/organize-cases.ts:8-13 | `slugify(slugify(s)) == slugify(s)` |
| OrganizeCases.PdfSlug | scripts/organize-cases.ts:35 | a name whose lower-case form ends in `.pdf`, with a letter or digit before the extension, slugs to a name without `.` that ends in `_pdf` |
| OrganizeCases.FirstMatch | scripts/organize-cases.ts:31-32 | returns the index of the first case, in map order, with a pattern that is a substring of the name; returns `None` exactly when no case has one |
| OrganizeCases.Decide | scripts/organize-cases.ts:27-45 | what `organize` does with one entry (skip, report unmatched, or move under its slug to the first matching case); characterised by `OrganizeCases.DecideSpec` |
| OrganizeCases.PlannedMoves | scripts/organize-cases.ts:24-45 | the moves, in directory order; characterised by `OrganizeCases.PlannedMovesMembership`, `OrganizeCases.MovedAtMostOnce` and `OrganizeCases.EachCandidateHandledOnce` |
| OrganizeCases.UnmatchedNames | scripts/organize-cases.ts:43-45 | the names reported with no case match, in directory order; counted by `OrganizeCases.EachCandidateHandledOnce` |
| OrganizeCases.DecideSpec | scripts/organize-cases.ts:27-45 | an entry is skipped exactly when it is a directory or its lower-cased name does not end in `.pdf`; a candidate is unmatched exactly when no case matches; otherwise it is moved, under its slug, into the first matching case |
| OrganizeCases.MovedName | scripts/organize-cases.ts:35 | the new name of a moved file is a slug with no `.`, and ends in `_pdf` when the stem has a letter or digit |
| OrganizeCases.PlannedMovesMembership | scripts/organize-cases.ts:24-45 | a move is made exactly when some entry of the listing is decided to be moved that way |
| OrganizeCases.EachCandidateHandledOnce | scripts/organize-cases.ts:30-45 | moves plus unmatched reports equal the number of candidate entries: each candidate is moved once or reported once, and nothing else is either |
| OrganizeCases.MovedAtMostOnce | scripts/organize-cases.ts:30-39 | in a listing with distinct names, no file is moved twice |
| OrganizeCases.Organize | scripts/organize-cases.ts:19-47 | the entry loop (with its `continue` filters) and the inner case loop (with `moved` and `break`) produce exactly the planned moves and the unmatched names, in directory order |
| ChromaOperator.Batches | operators/chromaOperator.ts:51-52 | the slices `docs.slice(i, i + 100)` for `i = 0, 100, ...`; characterised by `ChromaOperator.BatchesFlatten`, `ChromaOperator.BatchAt`, `ChromaOperator.BatchSizes` and `ChromaOperator.BatchCount` |
| ChromaOperator.BatchesFlatten | operators/chromaOperator.ts:51-53 | concatenating the batches gives back exactly the documents: nothing lost, nothing duplicated, order kept |
| ChromaOperator.BatchAt | operators/chromaOperator.ts:51-52 | batch `j` is the slice `docs[100 j .. min(100 j + 100, n))` |
| ChromaOperator.BatchSizes | operators/chromaOperator.ts:51-52 | every batch but the last has exactly 100 documents; the last has between 1 and 100 |
| ChromaOperator.BatchCount | operators/chromaOperator.ts:51 | there are `ceil(n / 100)` batches, none for no documents |
| ChromaOperator.TwoHundredFiftyDocuments | operators/chromaOperator.ts:51-53 | 250 documents are written as batches of 100, 100 and 50 |
| ChromaOperator.WriteBatches | operators/chromaOperator.ts:51-54 | the awaited writes one batch at a time, ending at the first refusal; characterised by `ChromaOperator.WriteBatchesLog` and `ChromaOperator.WriteBatchesStops` |
| ChromaOperator.WriteBatchesLog | operators/chromaOperator.ts:51-54 | the writes issue a prefix of the batches, in order; earlier calls in the log are kept |
| ChromaOperator.WriteBatchesStops | operators/chromaOperator.ts:51-54 | the writes succeed exactly when every batch is accepted; a refused batch is the last one issued, all earlier ones were accepted, and no later one is attempted |
| ChromaOperator.ResetStep | operators/chromaOperator.ts:46-48 | `reset()` on the store state: not initialised without a store, no call without an index, otherwise one reset call; tied to `ChromaOperator.Operator.Reset` |
| ChromaOperator.AddStep | operators/chromaOperator.ts:50-55 | `addDocuments(docs)` on the store state: nothing for no documents, otherwise `WriteBatches` of `Batches(docs)`; tied to `ChromaOperator.Operator.AddDocuments` |
| ChromaOperator.IngestStep | operators/chromaOperator.ts:63-77 | `ingestDirectory` on the store state: load, split, reset when asked, add; characterised by `ChromaOperator.IngestFailsEarly`, `ChromaOperator.IngestCallOrder` and `ChromaOperator.IngestResetsIffAsked` |
| ChromaOperator.IngestFailsEarly | operators/chromaOperator.ts:67-76 | a load or split failure is reported and leaves the store unreset and unwritten |
| ChromaOperator.IngestCallOrder | operators/chromaOperator.ts:73-76 | after a good load and split, the ingest issues first a reset (exactly when the flag is set and the collection has an index), then only writes for a prefix of the batches; a refused reset stops it before any write |
| ChromaOperator.IngestResetsIffAsked | operators/chromaOperator.ts:63-76 | a reset is issued exactly when asked (and an index exists), and only as the first call, before every write |
| ChromaOperator.IngestUninitialised | operators/chromaOperator.ts:73-76 | without an initialised store an ingest fails with "not initialized" unless it neither resets nor has documents to write |
| ChromaOperator.IngestKeepsStore | operators/chromaOperator.ts:63-77 | an ingest never creates or drops the store and only appends calls to its log |
| ChromaOperator.VectorStore.ResetIndex | operators/chromaOperator.ts:47 | `index?.reset()` issues one reset when the collection has an index and none otherwise |
| ChromaOperator.VectorStore.AddDocuments | operators/chromaOperator.ts:53 | one write of the batch, succeeding as the service answers |
| ChromaOperator.Operator.Init | operators/chromaOperator.ts:32-37 | on a reachable collection the operator holds a fresh store with no calls; on failure the field is unchanged |
| ChromaOperator.Operator.Store | operators/chromaOperator.ts:39-44 | the getter fails with "not initialized" exactly while the store is unset, and otherwise returns it |
| ChromaOperator.Operator.Reset | operators/chromaOperator.ts:46-48 | the store's new state and the outcome are those of `ResetStep` |
| ChromaOperator.Operator.AddDocuments | operators/chromaOperator.ts:50-55 | the loop stepping by 100 leaves the store in the state `AddStep` gives: batches written in order, stopping at the first refusal |
| ChromaOperator.Operator.IngestDirectory | operators/chromaOperator.ts:63-77 | load, split, optional reset (default on) and add leave the store as `IngestStep` gives |
| ChromaOperator.Registry.GetInstance | operators/chromaOperator.ts:23-30 | the first successful call registers a fresh, initialised operator; later calls return the same operator without initialising again; a failed init registers nothing |
| MultiAgent.RetrievalAgent | scripts/multi-agent.ts:26-30 | one search for `(question, 4)`, page contents joined with a blank line; characterised by the `Retrieval*` lemmas below |
| MultiAgent.AnswerAgent | scripts/multi-agent.ts:32-40 | the fixed sentence on an empty context, otherwise one model call and its trimmed reply; see `MultiAgent.AnswerShortCircuits` and `MultiAgent.AnswerCallsOnce` |
| MultiAgent.VerifierAgent | scripts/multi-agent.ts:42-46 | one model call on the verification prompt and its trimmed reply; see `MultiAgent.VerifierCallsOnce` |
| MultiAgent.Pipeline | scripts/multi-agent.ts:48-58 | retrieval, answer, verifier in order, stopping at the first rejection; a completed run is characterised by `MultiAgent.PipelineTraces` and `MultiAgent.PipelineRequests`, and each rejection by `MultiAgent.PipelineSearchFails`, `MultiAgent.PipelineAnswerFails` and `MultiAgent.PipelineVerifierFails` |
| MultiAgent.RetrievalRequest | scripts/multi-agent.ts:26-30 | retrieval makes one request, a similarity search for the question with `k = 4`, and fails exactly when the search fails |
| MultiAgent.RetrievalEmptyContext | scripts/multi-agent.ts:29 | the context is `""` exactly when the search found nothing or a single document with no text |
| MultiAgent.RetrievalKeepsPages | scripts/multi-agent.ts:29 | every page content found occurs in the context |
| MultiAgent.RetrievalKeepsOrder | scripts/multi-agent.ts:29 | the page contents appear in search order, separated by a blank line |
| MultiAgent.AnswerPromptHolds | scripts/multi-agent.ts:37 | the answer prompt contains the context and the question |
| MultiAgent.VerifyPromptHolds | scripts/multi-agent.ts:43 | the verification prompt contains the context, the question and the proposed answer |
| MultiAgent.AnswerShortCircuits | scripts/multi-agent.ts:33-35 | on an empty context the answer is the fixed no-context sentence and the model is not called |
| MultiAgent.AnswerCallsOnce | scripts/multi-agent.ts:37-39 | on a non-empty context the model is called once, on a prompt holding context and question, and the answer is its trimmed response |
| MultiAgent.VerifierCallsOnce | scripts/multi-agent.ts:42-46 | the verifier calls the model exactly once, whatever the answer, and returns its trimmed response |
| MultiAgent.Run | scripts/multi-agent.ts:48-62 | the run with its successive pushes produces exactly the outcome and request sequence of `Pipeline` |
| MultiAgent.PipelineTraces | scripts/multi-agent.ts:49-58 | a completed run has three traces, retrieval, answer and verifier in that order; the retrieval trace is the context or the placeholder; the answer and verifier agents get the retrieved context |
| MultiAgent.PipelineRequests | scripts/multi-agent.ts:51-57 | the search is the first request; then the answer's model call on the answer prompt (unless the context is empty), then, last, the verifier's call on the verification prompt for the answer the answer agent gave; every model prompt holds the retrieved context and the question |
| MultiAgent.PipelineEmptyContext | scripts/multi-agent.ts:52-57 | with nothing retrieved, the only model call is the verifier's, on the fixed no-context sentence |
| MultiAgent.PipelineSearchFails | scripts/multi-agent.ts:51-57 | a failed search ends the run with its error before any model call |
| MultiAgent.PipelineRequestList | scripts/multi-agent.ts:51-57 | once retrieval and the answer agent have succeeded, the requests are the search, the answer call unless the context is empty, and one verifier call on the answer given, whatever the verifier returns |
| MultiAgent.PipelineAnswerFails | scripts/multi-agent.ts:54-57 | a rejected answer-model call ends the run with that error; the requests are exactly the search and the answer call, so the verifier is never asked |
| MultiAgent.PipelineVerifierFails | scripts/multi-agent.ts:57-58 | a rejected verifier call ends the run with that error and no traces, after the search, the answer call (unless the context is empty) and the verifier call |
| MultiAgent.QuestionOf | scripts/multi-agent.ts:64 | `process.argv.slice(2).join(' ')`; see `MultiAgent.QuestionEmptyIff` |
| MultiAgent.QuestionEmptyIff | scripts/multi-agent.ts:64-66 | the question is empty exactly when there is no argument or one empty argument |
| MultiAgent.Cli | scripts/multi-agent.ts:64-86 | a missing collection name, an empty question or a missing API key exit with status 1 before any request; otherwise the run's requests are made, and the status is 0 with the traces logged exactly when the run completes |

## Left out

- Network services are not modelled, only their answers. These are the OpenAI
  model and embeddings, Chroma's `fromExistingCollection`, `similaritySearch`,
  `addDocuments` and `index.reset`. Each is an oracle function or a call log.
  Embedding vectors, the `embeddings` field of `ChromaOperator` and the Chroma
  URL are not represented.
- `RecursiveCharacterTextSplitter` (operators/chromaOperator.ts:68-72) is
  third-party code. It is an oracle parameter of `IngestDirectory`.
  `CHUNK_SIZE` and `CHUNK_OVERLAP` are imported there, but config/chroma.ts
  does not export them, so the model has no chunk parameters. Chunk size and
  overlap invariants are not stated.
- `DirectoryLoader` with `CustomPDFLoader` is PDF text extraction; utils/customPDFLoader is not part of this model. It is an oracle parameter of `IngestDirectory`.
- The file-system effects of `organize` are replaced by the returned moves and
  unmatched names. These are `readFile`, `JSON.parse` of the case map,
  `readdir`, `stat`, `mkdir` and `rename`. So are the default `docs` and
  `case-map.json` arguments. Failures of these calls are not modelled.
- Console output is not modelled. `MultiAgent.Cli` returns the traces it would log instead.
- ChromaOperator.Registry.GetInstance: only sequential calls are modelled. `instance` is assigned only after `await init()`, so concurrent first callers can each construct and initialise an operator.
- Text.ToLower: only ASCII `A`-`Z` are lower-cased. JavaScript's full Unicode case mapping, including mappings that change the length, is not modelled.
- `Object.entries` order: the case map is an ordered sequence. JavaScript lists integer-like keys first, and that reordering is not modelled.
- MultiAgent.Cli: the connection to the collection is opened at module load. Its failure is modelled as a search failure inside the run, which exits with status 1. An unhandled rejection before the guards run is not modelled.
- `next.config.js` and `scripts/ingest-data.ts` are not part of this model.
  The latter is a thin wrapper that calls `ingestDirectory` with the reset flag
  off when `--keep` is given.
- ChromaOperator.WriteBatchesStops: a failed batch is reported as a single
  `WriteRejected` error. The code rethrows the store's error without the batch
  index. The index of the failed batch can be read off the call log.
- MultiAgent.VerifierCallsOnce: whether the verifier returns the answer
  unchanged or "I don't know" depends on the language model's reply. The model
  only proves that its trimmed reply is returned.
