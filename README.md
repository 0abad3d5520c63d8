# PyGoRP core, modelled in Dafny

PyGoRP has two services. A Go (gin) backend serves CRUD endpoints for users, backed by a PostgreSQL `users` table. A Python (FastAPI) service runs mock text, image and ML analyses. This project models the logic of both and proves properties of the model:

- **Models** (`models.dfy`): the `User` record and the two request payloads. It includes the validity rules their binding tags define and the JSON binding step (`ShouldBindJSON`: decode, then validate). It also covers the positional scan of a result row into a `User`.
- **Strconv** (`strconv.dfy`): Go's `strconv.Atoi` as the handlers use it to read the `:id` path parameter, including the int64 range check, and `strconv.Itoa` as its inverse.
- **Store** (`store.dfy`): the users table as a class (`UsersTable`) with a row map, the id sequence and a clock. It has one method per SQL statement the handlers issue:
  - `SELECT … ORDER BY created_at DESC`
  - `SELECT … WHERE id`
  - `INSERT … RETURNING`, with the unique email constraint
  - `UPDATE … COALESCE … RETURNING`
  - `DELETE` and its rows-affected count
- **Handlers** (`handlers.dfy`): the five gin handlers. Each is a method that parses the id, binds the body, runs its statement and answers with a status and a payload. Store failures the statements do not explain (a lost connection) are boolean inputs. The list cursor's behaviour is a `CursorFault` input.
- **PyText** (`pytext.dfy`): the Python built-ins the AI service relies on: `str.lower`, `str.split()`, `" ".join`, `xs[:k]` and substring `in`. It proves how they fit together (split undoes a single-space join; lowering keeps word boundaries).
- **Analysis** (`analysis.dfy`): `analyze_sentiment` (counts and label), `extract_keywords`, `generate_summary`, and the try/except dispatch of the three POST endpoints. `extract_keywords` is an imperative counting loop over a map, followed by a stable sort and a slice.

The users-table invariant (`UsersTable.Valid`) covers three things:

- every row is keyed by its own id, and that id was already handed out by the sequence;
- emails are unique;
- creation times never decrease as ids grow.

Because of the last point, listing rows by id, largest first, is a valid `ORDER BY created_at DESC`. Every state-changing method preserves the invariant.

An update does not keep the stored value of a field the client leaves out:

- `UpdateUserRequest` has plain `string` fields, so JSON decoding turns an omitted field into `""`.
- The handler passes both strings as parameters, and a Go string is never SQL NULL.
- So `COALESCE($1, email)` always takes the parameter, and an omitted field is overwritten with `""` (`Handlers.UpdateParamsNeverNull`, `Handlers.UpdateUser`).

The same holds for a body that is the JSON literal `null`: Go's decoder accepts it and leaves both fields `""`, so it blanks both columns (`Models.NullBodyIsEmptyObject`).

A delete of a missing id answers 404 (`Handlers.DeleteUser`); an update of a missing id answers 500, because the `RETURNING` scan finds no row (`Handlers.UpdateUser`).

## Model

| member | source | states |
|---|---|---|
| Models.CreateValidIsUpdateValid | backend/internal/models/user.go:15-23 | every valid create payload is also a valid update payload |
| Models.EmptyUpdateAccepted | backend/internal/models/user.go:15-23 | the all-empty update passes validation while the all-empty create does not |
| Models.BindCreate | backend/internal/handlers/user.go:56-60 | binding succeeds iff the decoder accepts the body (an object or `null`) and the decoded request satisfies the create rules; the bound request carries exactly the body's email and name (a missing or null field reads as ""); a rejected body is a decode failure and an accepted one that breaks the rules a validation failure |
| Models.BindUpdate | backend/internal/handlers/user.go:84-88 | binding succeeds iff the decoder accepts the body (an object or `null`) and the decoded request satisfies the update rules; the bound request carries exactly the body's email and name (a missing or null field reads as ""); a rejected body is a decode failure and an accepted one that breaks the rules a validation failure |
| Models.NullBodyIsEmptyObject | backend/internal/handlers/user.go:84-88 | the body `null` binds like `{}`: an update request with both fields "", which passes validation, and a create that fails validation |
| Models.OmittedFieldIsEmptyString | backend/internal/models/user.go:20-23 | an update body that leaves a field out binds to exactly the same result as one that sends that field as "" |
| Models.CreateNeedsBothFields | backend/internal/models/user.go:15-18 | a create body missing either field fails validation |
| Models.RowOf | backend/internal/models/user.go:7-13 | a stored user's row has exactly the five columns every query lists |
| Models.ScanRowOf | backend/internal/handlers/user.go:24 | scanning a stored user's row into the five fields gives that user back |
| Models.ScanIsPositional | backend/internal/handlers/user.go:24 | a row scans into a user iff it is that user's row, column i in field i |
| Models.ScanRejectsNull | backend/internal/handlers/user.go:24-28 | a row with a NULL column never scans into a user |
| Strconv.Atoi | backend/internal/handlers/user.go:36-41 | a parsed id is within the int64 range and comes from a non-empty string ending in a digit |
| Strconv.AtoiItoa | backend/internal/handlers/user.go:37 | every int64 printed in decimal parses back to itself |
| Strconv.AtoiRejects | backend/internal/handlers/user.go:37-41 | a string with a non-digit character anywhere other than a leading sign does not parse |
| Strconv.AtoiRejectsEmptyAndBareSign | backend/internal/handlers/user.go:37-41 | "", "+" and "-" do not parse |
| Strconv.AtoiOutOfRange | backend/internal/handlers/user.go:37-41 | a decimal numeral outside int64 is rejected, not wrapped |
| Store.RowsByIdDescExact | backend/internal/handlers/user.go:14 | the id-descending listing holds exactly the stored rows below the bound, each once, ids strictly decreasing |
| Store.ByIdDescIsByCreatedDesc | backend/internal/handlers/user.go:14 | under the table invariant the id-descending listing has non-increasing created_at |
| Store.UsersTable.constructor | backend/internal/handlers/user.go:14 | a new table is empty, satisfies the invariant, and its sequence starts at 1 |
| Store.UsersTable.AdvanceClock | backend/internal/handlers/user.go:92 | the clock only moves forward, and rows and sequence are unchanged |
| Store.UsersTable.SelectById | backend/internal/handlers/user.go:44 | the lookup returns a row iff the id is stored, and then it returns that row |
| Store.UsersTable.SelectAllIsOrderedListing | backend/internal/handlers/user.go:14 | the listing holds every stored row exactly once and nothing else, ordered by created_at non-increasing |
| Store.UsersTable.Insert | backend/internal/handlers/user.go:63-66 | the sequence always advances; a duplicate email leaves the rows unchanged and returns nothing; otherwise exactly one row is added under the fresh id, with the given email and name and both timestamps at now |
| Store.UsersTable.Update | backend/internal/handlers/user.go:91-94 | a missing id or an email held by another row changes nothing and returns nothing; otherwise only that row changes: each column takes its parameter unless NULL, updated_at becomes now and created_at is kept |
| Store.UsersTable.Delete | backend/internal/handlers/user.go:112-118 | exactly the row with that id is removed, and the affected count is 1 if it existed and 0 otherwise |
| Handlers.GetUsers | backend/internal/handlers/user.go:13-33 | a query error gives 500 "Failed to fetch users"; a scan error gives 500 "Failed to scan user" with no data; a healthy cursor gives 200 with every stored row, nothing else, ordered by created_at non-increasing; a cursor that stops early gives 200 with a prefix of that listing |
| Handlers.GetUser | backend/internal/handlers/user.go:35-53 | an unparsable id gives 400 "Invalid user ID"; a stored id gives 200 with the stored row unchanged; a missing row or any query failure gives 404 "User not found" |
| Handlers.CreateUser | backend/internal/handlers/user.go:55-74 | a body that fails binding gives 400 and the table is unchanged; a store failure or duplicate email gives 500 "Failed to create user" and the rows are unchanged; otherwise exactly one row is added under a fresh id with the request's email and name, and it is returned with 201 |
| Handlers.UpdateParamsNeverNull | backend/internal/handlers/user.go:91-93 | the statement parameters are never NULL, so COALESCE always writes the request's strings, "" included |
| Handlers.UpdateUser | backend/internal/handlers/user.go:76-102 | an unparsable id gives 400 and a failed binding gives 400, the table untouched in both cases; a missing id, a store failure or an email of another row gives 500 "Failed to update user", not 404; otherwise only that row changes: it gets the request's email and name, updated_at now and its old created_at, and it is returned with 200 |
| Handlers.DeleteUser | backend/internal/handlers/user.go:104-125 | an unparsable id gives 400 with the rows untouched; a store failure gives 500; no affected row gives 404; otherwise exactly that row is removed and the answer is 200 "User deleted successfully" |
| Handlers.DeleteThenGet | backend/internal/handlers/user.go:104-125 | after a delete of a parsable id, reading that id gives 404, whether or not the row existed |
| Handlers.CreateReadDeleteScenario | backend/internal/handlers/user.go:55-125 | create gives 201 with a fresh id, a read gives back the same user, a delete gives 200, a second read gives 404, and the rows end as they began |
| PyText.Lower | ai-service/main.py:62 | lowering keeps the length and lowers each character on its own |
| PyText.Words | ai-service/main.py:91 | every element of the split is a non-empty run without whitespace |
| PyText.WordsEmptyIffBlank | ai-service/main.py:91 | the split is empty iff the text is empty or all whitespace |
| PyText.WordsSeparatedBySpace | ai-service/main.py:91 | text on either side of a whitespace character splits independently: the split of a + c + b is the split of a followed by the split of b, so words are maximal non-whitespace runs |
| PyText.WordsOfWord | ai-service/main.py:91 | a single word without whitespace splits into exactly itself |
| PyText.WordsKeepCharacters | ai-service/main.py:91 | the words, run together, are exactly the text's non-whitespace characters in order |
| PyText.Prefix | ai-service/main.py:98 | the slice is a prefix of its input, min(k, length) long for k >= 0 and what remains after dropping -k from the end for k < 0 |
| PyText.IsInfixAt | ai-service/main.py:63-64 | `p in s` holds iff p occurs at some index of s |
| PyText.WordsOfJoin | ai-service/main.py:113-118 | splitting a single-space join of words gives the same words back |
| PyText.JoinThenAppend | ai-service/main.py:113 | text appended after a join is glued to the last word |
| PyText.WordsOfLower | ai-service/main.py:91 | the words of the lowered text are the lowered words of the text |
| Analysis.CountPresent | ai-service/main.py:63-64 | the count of lexicon words present is at most the lexicon's length |
| Analysis.CountPresentIsSetSize | ai-service/main.py:63-64 | for a lexicon without repeats, the count is the number of distinct lexicon words occurring as substrings |
| Analysis.SentimentLabel | ai-service/main.py:59-74 | each count is the number of distinct lexicon words found as substrings of the lowered text, at most 6; the label is positive iff the positive count is larger, negative iff the negative count is larger, neutral iff they are equal |
| Analysis.KeyOrderMembers | ai-service/main.py:92-96 | after any number of loop steps, the dict's keys are exactly the words walked over that are longer than three characters |
| Analysis.OccurrencesPositive | ai-service/main.py:96 | a word's count over a prefix is positive iff the word occurs in that prefix |
| Analysis.KeyOrderDistinct | ai-service/main.py:92-96 | the dict's key order has no repeats |
| Analysis.CountCandidates | ai-service/main.py:92-96 | the loop leaves the candidate words as keys in order of first occurrence, each mapped to its number of occurrences in the word list |
| Analysis.SortByFreqDescPermutes | ai-service/main.py:98 | the sort is a permutation of the dict's items |
| Analysis.SortByFreqDescOrdered | ai-service/main.py:98 | the sort leaves frequencies non-increasing |
| Analysis.SortByFreqDescStable | ai-service/main.py:98 | for every frequency, the items of that frequency keep their original order |
| Analysis.FreqMap | ai-service/main.py:102 | the frequencies map has exactly the kept words as keys |
| Analysis.FreqMapValues | ai-service/main.py:102 | for distinct words, each key maps to its own item's frequency |
| Analysis.ExtractKeywords | ai-service/main.py:86-103 | the counting loop, sort and slice produce the keywords and frequencies that the ranked-entries definition gives |
| Analysis.FrequenciesItems | ai-service/main.py:91-96 | the dict's items are exactly the lowered words longer than three characters, each paired with its number of occurrences |
| Analysis.RankedItems | ai-service/main.py:86-98 | keywords number min(max_keywords, distinct candidates) for max_keywords >= 0 (so at most 5 by default); a negative max_keywords drops that many from the end; the kept items are dict items with distinct words |
| Analysis.KeywordsAreCountedWords | ai-service/main.py:91-102 | every keyword is a lowered split word longer than three characters, listed once, whose frequency is its number of occurrences; the frequencies map has no other keys |
| Analysis.KeywordsInFrequencyOrder | ai-service/main.py:98-101 | keywords come in non-increasing order of occurrence count |
| Analysis.KeywordsAreTopRanked | ai-service/main.py:98 | no candidate word left out occurs more often than any keyword |
| Analysis.KeywordTiesKeepFirstOccurrence | ai-service/main.py:92-98 | for each frequency, the kept items of that frequency are the first ones, in first-occurrence order, of all candidate words with that frequency |
| Analysis.SummaryFailsOnlyWithoutWords | ai-service/main.py:109-119 | the summary fails with "division by zero" exactly when the text has no words, that is when it is empty or all whitespace, and otherwise original_length is the word count |
| Analysis.ShortTextIsVerbatim | ai-service/main.py:110-111 | a text whose word count is within max_length is its own summary, verbatim |
| Analysis.LongTextIsTruncated | ai-service/main.py:112-118 | a longer text's summary is its first max_length words joined by single spaces plus "...", and its words are those words with "..." glued to the last |
| Analysis.SummaryLengthIsMin | ai-service/main.py:109-118 | for a text with words and max_length >= 1, summary_length is min(original_length, max_length) |
| Analysis.SummaryWithZeroMaxLength | ai-service/main.py:112-118 | with max_length 0 the summary is "..." and summary_length is 1 |
| Analysis.AnalyzeText | ai-service/main.py:132-164 | the answer is always HTTP 200; the body is "failed" iff the analysis type is unsupported or a summary is asked of an empty or all-whitespace text, with "400: Unsupported analysis type: …" or "division by zero" as its error; otherwise it is "completed" with the sentiment, keyword (max 5) or summary (max 100) result |
| Analysis.DefaultAnalysisTypes | ai-service/main.py:30-38 | a text request without analysis_type is a sentiment request, and an image request without it is a classification request, which completes |
| Analysis.AnalyzeImage | ai-service/main.py:166-205 | the answer is always HTTP 200; it is "completed" iff the type is "classification", and otherwise "failed" with "400: Unsupported analysis type: …" and no result |
| Analysis.MlPrediction | ai-service/main.py:207-255 | the answer is always HTTP 200; it is "completed" iff the model is "regression" or "classification", and otherwise "failed" with "400: Unknown model: …" and no result |

## Left out

- backend/main.go: routing, CORS, Gin mode, the port and database start-up are framework configuration; backend/main.go is not part of this model.
- The `database` package is not part of this model. The users table stands in for it, and connection pooling, transactions and concurrent requests are not modelled.
- Store failures and cursor faults are inputs (`storeFails`, `CursorFault`). The model does not say when a real database fails.
- The e-mail syntax check of the validator library is the parameter `isEmail`. The text of binding errors (`err.Error()`) is reduced to `BindFailure`.
- Models.BindCreate, Models.BindUpdate: a body that is well-formed JSON but gives a field the wrong type is folded into `Malformed`. JSON decoding itself (bytes to fields) is not modelled.
- Handlers.GetUsers: Go encodes an empty `users` slice as JSON `null`, not `[]`. The model returns an empty sequence, and JSON encoding is not modelled.
- Store.UsersTable.SelectAllByCreatedDesc: rows with equal `created_at` come out id-descending. SQL leaves their order unspecified, so this is one of the orders the statement permits.
- Store.UsersTable.Insert: `created_at`/`updated_at` come from the schema's defaults, which are not shown. The model sets both to the store's clock.
- Handlers.DeleteUser: ids are int64 as `strconv.Atoi` returns them. If the id column is 32-bit, an id beyond its range makes the statement itself fail, and such a database would answer 500 where the model answers 404. The schema is not part of this model.
- Wall-clock time is the field `now`, which only moves forward (`AdvanceClock`). Real `NOW()` values and time zones are not modelled.
- PyText.Lower: lowers ASCII letters only. Python's `str.lower` also lowers other scripts, and that case mapping is not modelled.
- Analysis.AnalyzeSentiment: the floating-point `confidence` and `scores` are left out. Only the label and the two counts are modelled.
- Analysis.GenerateSummary: the floating-point `compression_ratio` is left out. Its division by zero on a wordless text, which raises the error, is kept.
- Analysis.AnalyzeText, Analysis.AnalyzeImage, Analysis.MlPrediction: the following are left out of the answers:
  - float fields: `confidence`, `processing_time`, and the constant confidences, importances and probabilities of the image and ML mocks;
  - `request_id`, which is built from a timestamp;
  - logging;
  - `asyncio.sleep`.
- FastAPI request validation (a missing `text`, `model_name` or `input_data` gives 422 before the endpoint runs) is framework code and is not modelled. `options`, `input_data` and `parameters` are never read by the endpoints.
- The error text of a caught `HTTPException` follows Starlette's `"<status>: <detail>"` form, which depends on the Starlette version.
- `/health`, `/api/v1/models` and the `uvicorn` start-up return constants or configure the process and carry no logic.
