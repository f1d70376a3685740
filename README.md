# Retrieval and ingest core of a document question-answering app

This project models the server side of a small retrieval-augmented question-answering app.
- **Upload:** a plain-text file is cut into overlapping chunks. Each chunk is embedded and stored in a document table, with a three-way insertion fallback.
- **Chat:** a question is answered from the stored chunks that a five-tier search cascade retrieves.
- **Listing:** two listing endpoints page through the stored chunks and describe them.

The document store and the embedding and answer services are parameters of the model:
- `Search.Backend`, `Upload.Backend`, and the `fetch`, `remove`, `parse` and `generate` function parameters.

A store call answers with rows or fails (`Records.StoreOutcome`). A non-ok HTTP status and a thrown exception are the same failure.

Modules, one per file:

| module | file | models |
|---|---|---|
| `Text` | text.dfy | `split(' ')`, `join`, `substring(0, n) + '...'`, first-occurrence index |
| `Records` | records.dfy | the table row, `Option`, `Result`, the outcome of a store call |
| `Chunker` | chunker.dfy | `chunkText` (src/lib/utils.ts) |
| `Search` | search.dfy | `searchDocuments` (src/lib/search.ts) |
| `Upload` | upload.dfy | `POST` of src/app/api/upload/route.ts |
| `Chat` | chat.dfy | `POST` of src/app/api/chat/route.ts |
| `Documents` | documents.dfy | `GET` and `DELETE` of src/app/api/documents/route.ts |
| `Debug` | debug.dfy | `GET` of src/app/api/debug/route.ts |

Code that changes state step by step is written as methods. Most are proved equal to a specification function whose properties are proved as lemmas; `Documents.BuildListRequest` and `Debug.TallyEmbeddingTypes` are specified directly by the properties of their result:
- the chunker's cursor loop (`Chunker.ChunkText`);
- the cascade with its early returns (`Search.SearchDocuments`, `Search.RunCascade`) and its keyword loop (`Search.FindKeyword`);
- the ingest loop (`Upload.Upload`);
- the URL built by appending (`Documents.BuildListRequest`);
- the classifier that reassigns its two variables (`Documents.ClassifyEmbedding`);
- the tally `reduce` (`Debug.TallyEmbeddingTypes`).

The chat route is pure and is modelled as functions.

Numbers are represented as follows:
- **Thresholds** are `real`: chat passes 0.3 and 10, and the second vector tier uses 0.1. The search's own defaults (0.5 and 5) are never used by the routes and are not modelled.
- **Synthetic scores** are integers in hundredths: 70 − 10·i for the keyword tier and 40 − 5·i for the most-recent tier. They are stored as `real` in the row's `similarity`.
- **`Math.round`** of the success rate is modelled as the round-half-up of the exact quotient, not of its floating-point value; see `Upload.SuccessRate` under "Left out".

JavaScript truthiness is kept where the source relies on it:
- An empty message, filename, id, search string or embedding counts as missing (`Documents.Given`).

Behaviour of the code worth noting:
- **Search errors:** the search has no error of its own for an unreachable store. A store that fails on every call and a store with no matching rows both end in `no_results`.
- **Embedding failures during upload:** an embedding failure on one chunk is not skipped. It ends the whole upload with status 500, and the rows stored before it stay stored.
- **Keyword split:** keywords come from splitting on one space character, not on all whitespace.

## Model

| member | source | states |
|---|---|---|
| Text.Split | src/lib/search.ts:123 | `split(' ')` gives at least one piece and no piece contains the separator |
| Text.JoinSplit | src/lib/search.ts:123 | joining the pieces of a split with the separator gives the query back, so no character of the query is lost by the split |
| Text.JoinEmptyIff | src/app/api/chat/route.ts:27 | a join with a non-empty separator is empty exactly when there are no parts or a single empty part |
| Text.JoinContainsParts | src/app/api/chat/route.ts:27 | every part occurs in the joined string |
| Text.Preview | src/app/api/documents/route.ts:78 | `substring(0, n) + '...'` has length min(n, \|s\|) + 3, ends in `...`, and starts with a prefix of the text that is the whole text when it is short enough |
| Chunker.ChunksFrom | src/lib/utils.ts:12-19 | no chunks exactly when the cursor is at or past the end; every chunk is non-empty and at most `chunkSize` long; every chunk but the last has exactly `chunkSize` characters |
| Chunker.ChunkText | src/lib/utils.ts:8-22 | the cursor loop returns exactly `Chunks(text, chunkSize, overlap)`; it requires `overlap < chunkSize`, without which the cursor does not advance |
| Chunker.ChunkAt | src/lib/utils.ts:13-18 | chunk k is the slice from k·(chunkSize − overlap) to min(that + chunkSize, \|text\|), and it is the last chunk exactly when that slice reaches the end of the text |
| Chunker.ChunkBoundaries | src/lib/utils.ts:12-17 | non-empty text gives at least one chunk, the first chunk is a prefix of the text and the last chunk is a suffix of it |
| Chunker.ChunksOverlap | src/lib/utils.ts:18 | consecutive chunks share exactly `overlap` characters: the last `overlap` of chunk k are the first `overlap` of chunk k + 1 |
| Chunker.ReassembleChunksFrom | src/lib/utils.ts:12-19 | the chunks from any cursor, with each overlap dropped once, give back the text from that cursor on |
| Chunker.ChunksCoverText | src/lib/utils.ts:12-19 | the chunks cover the text without gaps: dropping the overlaps gives the text back |
| Chunker.ConcatChunksNoOverlap | src/lib/utils.ts:12-19 | with overlap 0, concatenating the chunks gives back the text |
| Chunker.ChunkExample | src/lib/utils.ts:8-22 | `"abcdefghij"` with size 4 and overlap 1 gives `["abcd", "defg", "ghij"]` |
| Search.LongWords | src/lib/search.ts:123 | `filter(word => word.length > 1)` keeps exactly the words longer than one character |
| Search.Keywords | src/lib/search.ts:123 | every keyword is longer than one character and contains no space |
| Search.KeywordsAreLongWords | src/lib/search.ts:123 | a string is a keyword exactly when it is a piece of `query.split(' ')` longer than one character |
| Search.LongWordsAppend | src/lib/search.ts:123 | the filter keeps the words' order and repeats: filtering a concatenation concatenates the filtered parts |
| Search.LongWordsSingle | src/lib/search.ts:123 | a single word is kept exactly when it is longer than one character; with `LongWordsAppend` this fixes the keyword list completely |
| Search.Rescored | src/lib/search.ts:142-145 | the rows are kept in order, and only each row's similarity changes, to the score of its position |
| Search.SyntheticScoresDecrease | src/lib/search.ts:178-181 | synthetic scores start at the tier's base, strictly decrease with position, and are not clamped (keyword scores are negative from position 8) |
| Search.FirstKeywordHit | src/lib/search.ts:126-160 | the keyword chosen is the first whose content match yields a row; when none is chosen, every keyword's match failed or was empty |
| Search.Cascade | src/lib/search.ts:44-203 | the response echoes the query and the count, and it has no rows exactly when its method is `no_results` |
| Search.Search | src/lib/search.ts:25-40 | an error is raised exactly when the query is empty or its embedding fails; the empty query raises the query error |
| Search.SearchDocuments | src/lib/search.ts:25-209 | the two early errors followed by the tiers return or raise exactly what `Search(query, threshold, count)` states |
| Search.RunCascade | src/lib/search.ts:44-203 | the tiers run in order with an early return on each hit, and they return exactly `Cascade(query, threshold, count, embedding)` |
| Search.FindKeyword | src/lib/search.ts:126-160 | the loop over the keywords leaves at exactly the keyword that `FirstKeywordHit` picks, or finds none when it picks none |
| Search.VectorHitIsFinal | src/lib/search.ts:62-73 | when the first vector match yields a row, that exact row list is returned with the caller's threshold and `rest_api_vector_search` |
| Search.TierCharacterization | src/lib/search.ts:44-203 | each of the five methods is reported exactly when every earlier tier failed or was empty and its own tier yielded a row |
| Search.LowThresholdTier | src/lib/search.ts:85-115 | the second tier runs only after the first missed, and reports threshold 0.1 and the rows of the 0.1 match whatever the caller asked |
| Search.KeywordTier | src/lib/search.ts:121-160 | the matched keyword is a word of the query longer than one character, every earlier keyword missed, and the rows are its match scored 0.70 − 0.10·i |
| Search.FallbackTier | src/lib/search.ts:162-194 | the most-recent tier is reached only after both vector matches and every keyword missed, and its rows are scored 0.40 − 0.05·i |
| Search.NoResultsTier | src/lib/search.ts:196-203 | `no_results` has no rows, the caller's threshold and the error message, whether the store failed or was empty |
| Search.ResponseEchoesRequest | src/lib/search.ts:67-72 | every response echoes the query and `match_count`; the threshold echoed is the caller's except on the 0.1 tier |
| Search.RecentRowsNeverEmpty | src/lib/search.ts:173-190 | when the most-recent query yields rows, the search returns at least one row |
| Upload.StoreChunk | src/app/api/upload/route.ts:42-137 | the strategy recorded is the first in the order RPC, direct insert, text fallback that the store accepts; none is recorded exactly when all three are refused |
| Upload.SuccessRate | src/app/api/upload/route.ts:146 | `Math.round(processed / total * 100)` in exact arithmetic: undefined exactly when there are no chunks, otherwise the integer nearest to the exact rate, rounding halves up |
| Upload.SuccessRateBounded | src/app/api/upload/route.ts:146 | the rate is at most 100, is 100 when every chunk was stored, and is 0 when none was |
| Upload.Upload | src/app/api/upload/route.ts:8-153 | the route's loop with `continue` after the first accepted strategy returns exactly `UploadSpec(file)`; `stored` is the route's `results`, including the rows recorded before an aborted upload |
| Upload.AbortIsFinal | src/app/api/upload/route.ts:37 | after an embedding failure, later chunks change nothing |
| Upload.StoredInChunkOrder | src/app/api/upload/route.ts:33-138 | at most one row per chunk, stored in chunk order, each with the file's name, its chunk's content and `chunk_index`, and the first strategy the store accepted |
| Upload.AbortedIffEmbeddingFailed | src/app/api/upload/route.ts:37 | the upload ends with status 500 exactly when some chunk's embedding failed |
| Upload.OnlyRejectedChunksSkipped | src/app/api/upload/route.ts:66-72 | without an embedding failure, a chunk is stored exactly when some strategy accepted it; a refused chunk does not stop the others |
| Upload.UploadSummary | src/app/api/upload/route.ts:140-147 | `chunks_processed` is the number of stored rows and at most `total_chunks`, which is the chunk count; the rate lies in 0..100, and is undefined only without chunks |
| Upload.MissingFileStoresNothing | src/app/api/upload/route.ts:13-15 | a request without a file is answered 400 and stores nothing |
| Chat.Contents | src/app/api/chat/route.ts:27 | the contents of the rows, in result order |
| Chat.Summaries | src/app/api/chat/route.ts:62-67 | `search_results` lists the rows in order with the same id, filename and similarity, and a 100-character preview |
| Chat.Chat | src/app/api/chat/route.ts:9-13 | the answer is 400 exactly when the message is missing or empty |
| Chat.MissingMessageRejected | src/app/api/chat/route.ts:11-13 | a missing or empty message is answered 400 whatever the search and generator do |
| Chat.AnswerReportsSearch | src/app/api/chat/route.ts:18-68 | an answer reports the search made with 0.3 and 10: `sources` is its row count, `search_method` its method, its rows in order; `context_used` holds exactly when there are several rows or one with non-empty content |
| Chat.ContextHoldsEveryRow | src/app/api/chat/route.ts:27 | every row's content appears in the context |
| Chat.AnswerIsGenerated | src/app/api/chat/route.ts:18-73 | `answer` is the generator's reply to the prompt built from the 0.3/10 search's rows; the route answers 500 exactly when the search raises or the generator throws |
| Chat.PromptSelection | src/app/api/chat/route.ts:30-49 | a non-empty context gives the prompt that opens with the documents heading and quotes context, message and answering instruction; an empty one gives the prompt with the message and the no-documents instruction |
| Documents.BuildListRequest | src/app/api/documents/route.ts:10-38 | `RequestFor`: defaults page 1 and limit 10, offset (page − 1)·limit, Range offset..offset + limit − 1, and a filename or content filter exactly when that parameter is given |
| Documents.PagesAdjoin | src/app/api/documents/route.ts:17-38 | for the requests of two consecutive pages: page 1 starts at row 0, each Range holds `limit` rows, and the next page's Range starts right after the previous one's |
| Documents.ClassifyEmbedding | src/app/api/documents/route.ts:56-72 | the classifier's reassignments give exactly `Classify(embedding)` |
| Documents.ClassifyRules | src/app/api/documents/route.ts:56-72 | `vector`, `vector_string`, `text` and `unknown` each hold exactly under their test; a dimension is given exactly for a bracketed value that parses as an array, and is its length |
| Documents.Describe | src/app/api/documents/route.ts:55-80 | every row is kept in order with its classification and a 200-character preview |
| Documents.TotalPages | src/app/api/documents/route.ts:87 | `Math.ceil(total / limit)`: the smallest page count whose pages hold every row; none when the limit is 0 |
| Documents.ListDocuments | src/app/api/documents/route.ts:7-95 | the request sent satisfies `RequestFor` (offset, Range and exactly the given filters); 500 exactly when the store fails; otherwise the described rows, the total (0 without a header), the page, the limit and the page count |
| Documents.Delete | src/app/api/documents/route.ts:98-108 | the answer is 400 exactly when neither a filename nor an id is given |
| Documents.DeleteTargetRule | src/app/api/documents/route.ts:106-116 | no target exactly without both parameters; the id wins when given, otherwise the filename |
| Documents.DeleteMessageFollowsFilename | src/app/api/documents/route.ts:141-143 | with both parameters one row is deleted by id, yet the message says every chunk of the file was deleted |
| Debug.TallyEmbeddingTypes | src/app/api/debug/route.ts:36-48 | a tag is a key of the tally exactly when some row carries it, with the number of such rows |
| Debug.TallyCoversEveryRow | src/app/api/debug/route.ts:34-48 | the three counts add up to `documents_fetched` |
| Debug.TagAgreesWithListing | src/app/api/debug/route.ts:37-44 | the tally's `vector` is the listing's `vector` or `vector_string`, `text` is `text`, and `none` is `unknown`, including a missing column |
| Debug.Filenames | src/app/api/debug/route.ts:35 | the filenames of the rows, in fetch order |
| Debug.Distinct | src/app/api/debug/route.ts:35 | `[...new Set(names)]` has no duplicates and holds exactly the names that occur |
| Debug.DistinctKeepsFirstOccurrenceOrder | src/app/api/debug/route.ts:35 | the distinct names are ordered by first occurrence |
| Debug.SampleDocuments | src/app/api/debug/route.ts:49-55 | the first min(3, n) rows in fetch order with their id, filename, date, 100-character preview and the `[`-prefix type |
| Debug.SampleTagDiffersFromTally | src/app/api/debug/route.ts:53 | every tallied `vector` is a sample `vector`, but an unterminated `[` and a missing column are tallied `none` and sampled `vector` and `text` |
| Debug.DebugStats | src/app/api/debug/route.ts:5-69 | 500 exactly when the fetch fails; otherwise the total, the fetched count, the distinct filenames, the tally and the samples of the fetched rows |

## Left out

- The React pages and components: rendering only.
- `cosineSimilarity` and `cn` in src/lib/utils.ts: floating point with no caller in the core, and a class-name helper.
- src/lib/openai.ts is not part of this model. `createEmbedding` is a parameter that may fail (`None`), and `generateResponse` is a parameter whose `None` stands for a thrown error.
- HTTP details: headers, URL encoding of filters, `JSON.stringify` of vectors, and how each strategy writes the embedding. The store's reply to each call is a parameter.
- `content-range` parsing: the total is given already parsed, as `None` when the header is absent. The `deleted_count` arithmetic of DELETE is not modelled.
- The diagnostic routes `db-check`, `search-test` and `embedding-test`: probes with no logic beyond logging.
- Timestamps and console logging.
- `parseInt` on the query string: `page` and `limit` arrive already parsed, and an absent or empty parameter takes the default.
- Floating point: thresholds and scores are exact; `0.7 - i * 0.1` in binary floating point is not reproduced bit for bit.
- The vector match's similarity values are opaque data passed through unchanged.
- A row whose `content` or `filename` is missing, and an embedding column that is not a string (`toString` of a number or object), are not modelled; content and filename are strings, the column is text or absent.
- `JSON.parse` is a parameter that classifies the text as an array of some length, another value, or invalid.
- Store calls are deterministic functions of their arguments: the same query gives the same answer within one request, and rows inserted by other requests meanwhile are not modelled.
- Chunker.ChunkText: requires `overlap < chunkSize`; with the source's unchecked arguments, `overlap >= chunkSize` and text longer than `chunkSize` the loop does not terminate, which the model does not represent (shorter text gives one chunk and stops).
- Upload.SuccessRate: rounds the exact quotient; the source rounds the double `processed / total * 100`, which falls just below a half for some pairs (23 of 40 gives 57.49999999999999, reported as 57%, where the model gives 58).
- Upload.Upload: a store reply that is ok but whose body fails to parse is caught like a refusal, so the row is in the store but not in `results`, and for the first two strategies the next strategy may store the chunk a second time; the model's `insert` answers one boolean for "accepted and reply parsed", and `stored` is `results`, not the store's contents.
- Strings: one `char` stands for one UTF-16 code unit, as JavaScript's `length`, `slice` and `substring` count; characters outside the Basic Multilingual Plane, which the source counts as two units and may split, are not modelled.
- The catch-all 500 of each route for errors other than those named here (a malformed request body, a failed `response.json()`).
