# DarkMatter semantic search, modelled in Dafny

DarkMatter is a space-biology publication explorer. This project models its core, which has three parts.

- **Ingestion** (`scripts/embed.ts`):
  - reads the `summary.json` rows;
  - splits each markdown document into chunks of at most 30000 UTF-8 bytes;
  - embeds the chunks and averages their vectors;
  - uploads the documents in groups of 32 through the `upsertMany` mutation.
- **Convex back end**:
  - the `documents` and `docEmbeddings` tables (`convex/schema.ts`);
  - the mutations `upsertMany` and `backfillMeta` and the query `list` (`convex/documents.ts`);
  - the action `vecSearch` with the internal query `fetchByEmbeddingIds` (`convex/search.ts`).
- **Backfill script** (`scripts/backfill.ts`):
  - lists the stored documents;
  - proposes missing metadata for each;
  - sends the updates in slices of 64.

The front end's data helpers are modelled as well:
- local search, related publications and statistics (`src/data.ts`);
- the filter state of the main view (`src/App.tsx`);
- the pagination arithmetic of the dataset list (`src/components/DatasetList.jsx`).

How the modules fit together:
- Pure code is written as functions and lemmas.
- Loops are methods, each proved equal to the function that specifies them.
- The Convex deployment is the class `Documents.DocumentStore`. Its methods are proved against the table functions of `DocumentTables`, and the properties of those functions are proved as lemmas.
- Things the model cannot see are passed in as parameters:
  - the embedding provider;
  - the vector index;
  - the `GOOGLE_API_KEY` environment value;
  - the React state.

Modules:
- Shared: `Wrappers`, `Sequences`, `Utf8`, `JsText`.
- Ingestion: `Chunker`, `Vectors`, `Metadata`, `Ingest`.
- Back end: `DocumentTables`, `Documents`, `Search`.
- Backfill: `Backfill`.
- Front end: `Publications`, `AppFilters`, `DatasetPaging`.

## Model

| member | source | states |
|---|---|---|
| Sequences.BatchesShape | scripts/embed.ts:49-53 | consecutive groups of `size`: they concatenate back to the input, there are ceil(n/size) of them, each is non-empty and at most `size`, and all but the last are full |
| Sequences.CeilDivBounds | src/components/DatasetList.jsx:38 | `Math.ceil(n / d)`: the least number of groups of `d` that together reach `n` |
| Sequences.BatchAt | scripts/embed.ts:51 | group `j` is `arr.slice(j*size, j*size+size)` |
| Sequences.JsSlice | scripts/backfill.ts:89 | `Array.prototype.slice` with clamped bounds: the plain slice in range, the tail past the end, empty when end ≤ start |
| Ingest.ChunkList | scripts/embed.ts:49-53 | the `chunk` loop returns exactly `Batches(arr, size)` |
| Ingest.UploadBatchesCover | scripts/embed.ts:176-179 | the upload loop makes ceil(files/32) rounds that together hold every file once, in order, round `b` being `files.slice(32b, 32b+32)` |
| Metadata.KeyOf | scripts/embed.ts:78 | a row's key is `id`, else `externalId`, else ""; `??` passes over a missing value only, not an empty one |
| Metadata.LastWithKey | scripts/embed.ts:75-90 | the last row with a given key, or none when no row has it |
| Metadata.MapOfLastWins | scripts/embed.ts:75-90 | the map holds exactly the non-empty keys that occur, each bound to the conversion of its last row |
| Metadata.EmptyIdSkipsRow | scripts/embed.ts:78-79 | a row whose `id` is "" is skipped even when it has an `externalId` |
| Metadata.ToMap | scripts/embed.ts:75-90 | the `toMap` loop computes `MapOf(items, conv)` |
| Backfill.BackfillMapLastWins | scripts/backfill.ts:43-51 | the backfill's `toMap` keeps, for each non-empty key that occurs, its last raw row |
| Ingest.MetaOf | scripts/embed.ts:80-87 | the `DocMeta` of a row: its key, its title or "", its authors or none when they are missing, `publication_date` before `publicationDate`, and its year and summary as they are |
| Ingest.MetaFor | scripts/embed.ts:186-193 | the stored metadata for a known stem; for an unknown stem, a default that uses the stem as id and title |
| Ingest.Payload | scripts/embed.ts:201-215 | the payload for a file: id, path and authors are copied; the title is the metadata title, or the id when that is empty; the embedding is the file's vector, or `[]` when there is none; each optional field is sent iff it is truthy, and then unchanged |
| Ingest.PayloadCarriesDocVector | scripts/embed.ts:199-207 | with the vectors `embedBatch` returns, the i-th file is uploaded with the mean embedding of its own text |
| Ingest.VectorAt | scripts/embed.ts:207 | `vectors[i]` exists exactly when `i` is within the vectors |
| Ingest.PayloadWithoutMeta | scripts/embed.ts:186-215 | a file without a summary row is uploaded under its stem as id and title, with no optional fields |
| Ingest.PayloadFromRow | scripts/embed.ts:75-90 | a summary row reaches the upload under its key, with its title (or the key when the title is empty); an empty `publication_date` makes the upload carry no date |
| Ingest.InputOf | scripts/embed.ts:201-218 | the `upsertMany` arguments for a payload always carry the path and never a `number` |
| Ingest.Inputs | scripts/embed.ts:201-218 | one `upsertMany` argument per payload, in order |
| Ingest.ReingestKeepsNumber | convex/documents.ts:51-77 | uploading a document again keeps its row and the `number` the backfill stored on it |
| Ingest.ShortDocVector | scripts/embed.ts:95 | a document within 30000 bytes is embedded in a single call, and that call's vector is its vector |
| Ingest.EmbedBatch | scripts/embed.ts:129-148 | one vector per text, in order; each is the mean of the embeddings of that text's chunks |
| Utf8.CharBytes | scripts/embed.ts:92 | UTF-8 encoding of one code point: 1-4 bytes, with valid lead and continuation bytes |
| Utf8.CharBytesDecode | scripts/embed.ts:92 | decoding a character's UTF-8 bytes gives back its code point |
| Utf8.TextBytes | scripts/embed.ts:92 | `textBytes(s)` is the length of the encoding: between `|s|` and `4|s|`, and 0 exactly for "" |
| Utf8.EncodeAppend | scripts/embed.ts:92 | encoding distributes over concatenation, so byte counts add |
| Utf8.AsciiBytes | scripts/embed.ts:92 | ASCII text has one byte per character |
| Chunker.Paragraphs | scripts/embed.ts:97 | `s.split(/\n{2,}/)` gives at least one piece, and no piece contains a blank line |
| Chunker.ParagraphsJoin | scripts/embed.ts:97-100 | joining the pieces with "\n\n" gives the text back when it has no run of three newlines |
| Chunker.SplitBounded | scripts/embed.ts:94-119 | text within the budget is returned whole; otherwise every chunk is non-empty and within the budget |
| Chunker.SplitCovers | scripts/embed.ts:97-117 | the groups hold every non-empty paragraph in order, and the slices of a hard-split paragraph concatenate to its bytes |
| Chunker.SplitGreedy | scripts/embed.ts:100-104 | a joined chunk is flushed only when the next paragraph would not have fit after it |
| Chunker.HardSplit | scripts/embed.ts:106-113 | the `while (start < bytes.length)` loop yields the byte slices of the paragraph's group |
| Chunker.SplitByBytes | scripts/embed.ts:94-119 | the splitter computes `Split(s, maxBytes)` |
| Chunker.PackParagraphs | scripts/embed.ts:96-118 | the paragraph loop and the final flush produce the chunks of `Finish(Run(paras))` |
| Chunker.FeedParagraph | scripts/embed.ts:99-115 | one pass of the loop turns a buffer and parts that track a splitter state into ones that track the state after the paragraph |
| Chunker.FlushBuffer | scripts/embed.ts:117 | pushing a non-empty buffer yields the chunks of the finished state |
| Vectors.Mean | scripts/embed.ts:121-127 | no vectors give `[]`; otherwise the result is as long as the first vector |
| Vectors.MeanOfCopies | scripts/embed.ts:121-127 | averaging n copies of a vector gives that vector |
| Vectors.MeanOfOne | scripts/embed.ts:121-127 | the mean of one vector is that vector |
| Vectors.MeanBounds | scripts/embed.ts:124-125 | each component of the mean lies between the least and the greatest value given for it, a missing value counting as 0 |
| Ingest.ChunkVectors | scripts/embed.ts:138-144 | one vector per chunk, the k-th being the provider's vector for the k-th chunk |
| Ingest.EmbedChunks | scripts/embed.ts:138-144 | the inner loop computes `ChunkVectors(chunks, embed)` |
| Vectors.Avg | scripts/embed.ts:121-127 | the array `avg` fills equals `Mean(vecs)` |
| DocumentTables.EmptyConsistent | convex/schema.ts:5-24 | an empty deployment satisfies the table invariant: unique keys, linked embeddings, ids below the allocator |
| DocumentTables.PatchThen | convex/documents.ts:117-133 | patching with two patches in turn equals patching with their combination |
| DocumentTables.UpsertEmbeddingEffect | convex/documents.ts:35-49 | the embedding half keeps the tables consistent, leaves documents and other keys' rows alone, and leaves the key's row, found or fresh, holding the new vector |
| DocumentTables.UpsertDocumentEffect | convex/documents.ts:51-77 | the document half keeps the tables consistent and the embeddings as they were, leaves other keys' documents alone, and makes the key's document its old or blank row patched with `base` |
| DocumentTables.UpsertOneConsistent | convex/documents.ts:23-78 | one upsert keeps the tables consistent, and the key's embedding row is the one it used |
| DocumentTables.UpsertOneFrame | convex/documents.ts:23-78 | one upsert leaves every row of other keys as it was |
| DocumentTables.UpsertAllGrows | convex/documents.ts:6-80 | `upsertMany` never removes a row or changes a row's key, and the allocator only grows |
| DocumentTables.UpsertAllUntouched | convex/documents.ts:6-80 | rows of keys not among the inputs are unchanged |
| DocumentTables.UpsertAllCovers | convex/documents.ts:6-80 | every key among the inputs has a document and an embedding row afterwards |
| DocumentTables.UpsertAllDocument | convex/documents.ts:30-77 | a given key's document is its prior document (or a blank row) patched with all of the key's inputs in order |
| DocumentTables.UpsertAllEmbedding | convex/documents.ts:40-49 | a given key's embedding row holds the last input's vector |
| DocumentTables.UpsertManyOutcome | convex/documents.ts:6-80 | per key: one linked document and embedding, the existing ones reused, with the last input's title, authors and vector |
| DocumentTables.UpsertManyOptionalFields | convex/documents.ts:51-71 | an optional field takes the last input's value when set there, and keeps the stored value when no input of the key sets it |
| DocumentTables.UpsertAllNewRows | convex/documents.ts:37-77 | a row is created only for a key among the inputs that had no row of that kind, so rows are never duplicated |
| DocumentTables.UpsertIdempotent | convex/documents.ts:6-80 | calling `upsertMany` twice with the same documents has the effect of one call |
| DocumentTables.UpdateFields | convex/documents.ts:117-132 | the patch never touches the embedding link, and is empty iff the update supplies no field |
| DocumentTables.BackfillOneEffect | convex/documents.ts:111-133 | an unknown key changes nothing; otherwise each supplied field is written, the others are kept, other documents and all embeddings are unchanged, and the tables stay consistent |
| DocumentTables.BackfillEmptyPatch | convex/documents.ts:133 | an update with no field leaves the tables unchanged |
| DocumentTables.BackfillAll | convex/documents.ts:95-136 | `backfillMeta` keeps the tables consistent and keeps the embeddings, the allocator, the set of rows, each row's key and each row's embedding link |
| DocumentTables.BackfillUntargeted | convex/documents.ts:111-134 | a document that no update names is unchanged |
| DocumentTables.BackfillUnknownKeys | convex/documents.ts:116 | updates whose keys name no document change nothing |
| DocumentTables.BackfillAllAppend | convex/documents.ts:111-134 | two calls in a row have the effect of one call with the concatenated updates |
| DocumentTables.ListBelowOrdered | convex/documents.ts:82-93 | the rows below an id come out in strictly increasing id order, and every document below that id has an entry |
| DocumentTables.ListEntries | convex/documents.ts:82-93 | `list` returns one entry per document, holding its id, key, title and number, in increasing id order |
| Documents.DocumentStore.constructor | convex/schema.ts:5-24 | a new deployment is empty and consistent |
| Documents.DocumentStore.UpsertMany | convex/documents.ts:6-80 | the mutation's loop leaves the state `UpsertAll(old state, docs)` and keeps the store consistent |
| Documents.DocumentStore.PutEmbedding | convex/documents.ts:35-49 | the embedding half of one iteration leaves the state `UpsertEmbedding(old state, d)` and returns the id `UpsertEmbId` |
| Documents.DocumentStore.PutDocument | convex/documents.ts:51-72 | the document half of one iteration leaves the state `UpsertDocument(old state, d, id)` |
| Documents.DocumentStore.PatchOne | convex/documents.ts:111-133 | one iteration of `backfillMeta` leaves the state `BackfillOne(old state, u)` |
| Documents.DocumentStore.BackfillMeta | convex/documents.ts:95-136 | the mutation's loop leaves the state `BackfillAll(old state, updates)` and keeps the store consistent |
| Documents.DocumentStore.FetchByEmbeddingIds | convex/search.ts:7-20 | the query returns `Fetch(state, ids)` and changes nothing |
| Documents.UpsertTwice | convex/documents.ts:6-80 | two identical uploads in a row leave the store as one does |
| Search.EffectiveLimit | convex/search.ts:41 | the limit lies in [1, 256]; the default is 10, a value in range is kept, and others are clamped |
| Search.EffectiveLimitStable | convex/search.ts:41 | clamping an already clamped limit changes nothing |
| Search.OwnerOf | convex/search.ts:12-15 | the document pointing at an embedding id, or none when no document points at it |
| Search.OwnerUnique | convex/search.ts:12-15 | in consistent tables at most one document points at an embedding row, so `.unique()` does not throw |
| Search.FetchAppend | convex/search.ts:11-17 | resolving `a + b` is resolving `a`, then `b` |
| Search.FetchOne | convex/search.ts:16 | an id resolves to its owner's row, its `_id` and fields, or is skipped when it has none |
| Search.FetchRepeated | convex/search.ts:11-17 | a repeated id yields its document again |
| Search.FetchAllOwned | convex/search.ts:11-17 | when every id has an owner, the k-th result is the owner of the k-th id, with its `_id` |
| Search.FetchMisses | convex/search.ts:16 | ids without an owner contribute nothing |
| Search.VecSearch | convex/search.ts:22-48 | fails with "GOOGLE_API_KEY missing" iff the key is absent or empty; otherwise returns the document rows, `_id` included, of the hits fetched with the clamped limit |
| Search.VecSearchHits | convex/search.ts:32-48 | with a key: at most one document per hit, and exactly the hits' owners, in hit order, when every hit has one |
| Backfill.Num | scripts/backfill.ts:66-67 | the number is present iff the title starts with three digits, and then it is those three characters |
| Backfill.Decimal | scripts/backfill.ts:53 | `n.toString()`: decimal digits without a leading zero |
| Backfill.Pad3Properties | scripts/backfill.ts:53 | `pad3(n)` is all digits, at least 3 long, exactly 3 long iff n < 1000, and reads back as n |
| Backfill.NumOfPad3 | scripts/backfill.ts:53-67 | for n < 1000, a title starting with `pad3(n)` has number `pad3(n)` |
| Backfill.IdKey | scripts/backfill.ts:68 | the lookup key is the number when present, else the document's key |
| Backfill.PickDate | scripts/backfill.ts:74 | corrected picker: a date is proposed iff either field is truthy, and it is the first truthy one, never "" |
| Backfill.Proposal | scripts/backfill.ts:71-77 | per field, exactly when the update carries it and with which value: title only for an untitled document, non-empty authors, the corrected date, a numeric year, a truthy summary, the number |
| Backfill.ProposalAsWritten | scripts/backfill.ts:71-77 | the script's update: the corrected proposal except that the date is taken with `??` |
| Backfill.PickDateDiffers | scripts/backfill.ts:74 | the script's picker and the corrected one differ exactly when `publication_date` is "" and `publicationDate` is truthy, and then the script proposes "" |
| Backfill.AsWrittenErasesDate | scripts/backfill.ts:74 | a concrete document whose stored date the script's update replaces by "" |
| Backfill.Plan | scripts/backfill.ts:64-80 | no more updates than documents, each carrying a field besides its key; under `Nullish` it is the script's plan, built with `ProposalAsWritten` |
| Backfill.ProposalByFields | scripts/backfill.ts:71-77 | under either date rule the update equals the corrected proposal apart from the date; `Nullish` takes the date with `??`, `FirstTruthy` takes the first truthy one |
| Backfill.PlanIsFilter | scripts/backfill.ts:64-80 | under either date rule, the plan is the proposals filtered to those that carry a field, in list order |
| Backfill.PlanUpdates | scripts/backfill.ts:64-80 | the script's planning loop, which takes the date with `??`, computes `Plan(Nullish, existing, meta)` |
| Backfill.SendBatches | scripts/backfill.ts:82-92 | no call when there are no updates, otherwise `Batches(updates, 64)` |
| Backfill.SendBatchesCover | scripts/backfill.ts:87-92 | the slices cover the updates in order: ceil(n/64) of them, slice j being `updates.slice(64j, 64j+64)` |
| Backfill.ApplyCalls | scripts/backfill.ts:88-92 | the `backfillMeta` calls one after another keep the tables consistent |
| Backfill.ApplyCallsFlatten | scripts/backfill.ts:88-92 | sending the updates in several calls has the effect of sending them all in one |
| Backfill.RunEffect | scripts/backfill.ts:55-92 | after a run under a date rule (the script's is `Nullish`), every listed document is patched with exactly the update proposed for it under that rule, and embeddings are untouched |
| Backfill.RunKeeps | scripts/backfill.ts:64-92 | after a run under either rule, a non-empty title is kept, a 3-digit title prefix sets the number, and the key and the embedding link are kept |
| Backfill.RunOutcome | scripts/backfill.ts:64-92 | after a run with the corrected date rule, a non-empty title is kept, a 3-digit title prefix sets the number, and no stored date becomes "" |
| JsText.Lower | src/data.ts:197 | lower-casing keeps the length and leaves no ASCII capital |
| JsText.LowerIdempotent | src/data.ts:197-203 | lower-casing twice is lower-casing once |
| JsText.ContainsIff | src/data.ts:200-203 | `includes` holds iff the query occurs at some position |
| JsText.TrimStart | src/App.tsx:43 | removes exactly the leading white space |
| JsText.TrimEnd | src/App.tsx:43 | removes exactly the trailing white space |
| JsText.TrimEmpty | src/App.tsx:43 | `trim()` is "" iff every character is white space |
| Publications.SearchPublications | src/data.ts:196-205 | the result is a subsequence of the publications |
| Publications.SearchExact | src/data.ts:196-205 | the result holds exactly the publications whose lowered title, abstract, some tag or category contains the lowered query, in order, each as many times as it occurs in the list |
| Publications.SearchEmptyQuery | src/data.ts:196-205 | the empty query returns every publication |
| Publications.FindById | src/data.ts:209 | `find` returns the first publication with the id, or none when no publication has it |
| Publications.Related | src/data.ts:208-212 | the related publications are a subsequence of the publications |
| Publications.RelatedExact | src/data.ts:208-212 | an unknown id gives `[]`; otherwise the result is exactly the publications listed as connections of the first match |
| Publications.RoundDiv | src/data.ts:230-232 | `Math.round(total / n)`: the result is within half of the quotient, halves rounding up |
| Publications.RoundDivNearest | src/data.ts:230-232 | the same bound, stated on real numbers |
| Publications.Categories | src/data.ts:234-237 | the keys of `categoryCount`, without repetition, in order of first occurrence |
| Publications.CategoriesExact | src/data.ts:234-237 | a category is a key iff some publication has it, iff its count is positive |
| Publications.TopOf | src/data.ts:239-241 | the head after the stable descending sort: an entry with the maximal count, the first such entry |
| Publications.Tally | src/data.ts:235-237 | one `forEach` step keeps the record equal to the per-category counts, with keys in first-occurrence order |
| Publications.TopCategory | src/data.ts:239-241 | the top category occurs, no category has a larger count, and it is the first with that count |
| Publications.GetStatistics | src/data.ts:223-250 | the `forEach` and summary compute `StatisticsOf(pubs, categoriesCount)` |
| Publications.StatisticsFacts | src/data.ts:223-250 | fails iff the list is empty; otherwise gives the count, the citation sum, the rounded mean, the given category count, and a top category of maximal count that comes first among the ties |
| AppFilters.ApplyFiltersExact | src/App.tsx:34-50 | the result is ordered like the list and holds exactly the publications in the category (any, for "all") that match a non-blank search, each as many times as it occurs in the list |
| AppFilters.WhitespaceSearchIsBlank | src/App.tsx:43 | a search made of white space filters like the empty search |
| AppFilters.HandleSearch | src/App.tsx:24-27 | the handler sets the query and keeps the category and the selection |
| AppFilters.HandleCategoryFilter | src/App.tsx:29-32 | the handler sets the category and keeps the query and the selection |
| AppFilters.HandlersKeepSynced | src/App.tsx:17-32 | the initial state and both handlers keep the shown list equal to the filter of the current query and category |
| AppFilters.ConnectedIds | src/App.tsx:52 | no connections without a selection, else the selection's connections |
| AppFilters.DisplayIsFiltered | src/App.tsx:53-54 | in a synced state, the displayed list is the filter of the current query and category, and is the full list when neither is set |
| DatasetPaging.PageSlice | src/components/DatasetList.jsx:32-37 | a page shows at most ten datasets |
| DatasetPaging.PagesCover | src/components/DatasetList.jsx:32-38 | pages 1..ceil(n/10) are the consecutive non-empty groups of ten that concatenate back to the list; a later page shows nothing |
| DatasetPaging.SummaryMatchesSlice | src/components/DatasetList.jsx:57-60 | for a page in range, "Showing a-b of n" names a non-empty range inside the list, as long as the page shown |
| DatasetPaging.PageButtons | src/components/DatasetList.jsx:143 | min(totalPages, 5) buttons |
| DatasetPaging.ButtonsWindow | src/components/DatasetList.jsx:143-153 | with at most five pages the buttons are 1..n; for a current page in range they are consecutive, in range, and include the current page |
| DatasetPaging.NavigationStaysInRange | src/components/DatasetList.jsx:132-176 | from a page in range, an enabled Previous or Next button and every page button lead to a page in range |

## Left out

- Reading files, walking the data directory, dotenv, logging, process exit and the Convex HTTP client are not modelled. The script steps are functions and methods over their inputs.
- The Gemini embedding calls are the parameter `embed`. The Convex vector index and its ranking are the parameter `vectorSearch`. `GOOGLE_API_KEY` is a parameter too.
- `Promise`/`await` ordering is not modelled. The upload rounds and the backfill calls run one after another, as the loops await them.
- Floating point: vector components are real numbers. Rounding and NaN are not modelled.
- Vectors.Mean: the divisions are exact reals, so IEEE rounding of the sums is not captured.
- Chunker.SplitByBytes: a hard-split slice is kept as its bytes. The `TextDecoder` that turns a slice cut inside a character into U+FFFD is not modelled.
- Chunker.ParagraphsJoin holds only for text without a run of three or more newlines, because the split collapses such runs.
- Chunker.SplitByBytes and Ingest.ChunkList: a size of zero or less would make the source loop forever, so the model requires a positive size.
- Utf8.TextBytes: strings are sequences of Unicode scalar values, so a lone UTF-16 surrogate, which `TextEncoder` writes as U+FFFD in 3 bytes, cannot occur in the model.
- JsText.Lower folds ASCII letters only. Unicode case mapping is not modelled.
- Search.EffectiveLimit takes an integer. A fractional `limit` is not modelled.
- Search.Fetch returns each document with its `_id`. The system field `_creationTime` is not modelled; ids are allocated in creation order instead.
- Search.Fetch's own contract states only the length bound. Its meaning is proved in FetchAppend, FetchOne, FetchAllOwned and FetchMisses.
- Backfill.Pad3Properties covers non-negative integers only. Negative and fractional arguments of `pad3` are not modelled.
- Backfill.Num: the optional `[_-]?` after the digits does not change the captured group, so it is not modelled.
- Backfill.Proposal: a `year` that is a non-integer number is not modelled, because years are integers here.
- Publications.TopOf assumes `Object.entries` returns keys in insertion order. Integer-like category names, which JavaScript lists first, are not modelled.
- Publications.StatisticsOf takes `Object.keys(categories).length` as the parameter `categoriesCount`, since the category colour table is data.
- The `list` query has no method of its own on `Documents.DocumentStore`. It is the function `DocumentTables.List` applied to `State()`.
- DatasetPaging: `currentPage` is not reset when the dataset list changes. A page past the last one shows nothing, as in the source.
- `src/App.tsx` rendering, the 3D galaxy, the knowledge-graph components and `src/services/apiService.js` are presentation or network code. They are not part of this model.

## Findings

| source | as written | input that shows it | evidently intended | confidence | as-written member | corrected member |
|---|---|---|---|---|---|---|
| scripts/backfill.ts:74 | the guard tests whether either date field is truthy, but the value is `publication_date ?? publicationDate`, which keeps an empty `publication_date` | a summary row with `publication_date: ""` and `publicationDate: "2021"` for a stored document dated "2021-05-01": the update carries "", and `backfillMeta` writes it because "" is not null | propose the first truthy date, so no stored date is ever overwritten with "" | not executed | Backfill.AsWrittenErasesDate | Backfill.RunOutcome |
