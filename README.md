# Word lifecycle of language-app-node, in Dafny

language-app-node is a Node/Express application for learning English vocabulary. A user uploads
pictures, PDFs or text files; the words detected in them are cleaned, counted and stored in the
user's Firestore collection with a priority. Stored words are then handed out in learning sets
(words not seen yet) and in tests (words seen but not learnt). A submitted test is graded: the
first half of the answers translate English to Polish, the second half Polish to English. Each
graded word gets its test counter incremented and is marked learnt when answered correctly, and
the results are saved and shown to the user.

This project models that lifecycle:

- `Upload` covers `controllers/upload.js`: `sanitizeData` (shift, normalise, sort, filter and
  count), `detectTextFromTextFile` and the `filetypes` table with the per-file dispatch check.
- `Store` covers the store half of `database.js`: the user document, its `wordAmount` counter and
  `name`, the `words` and `tests` collections, and `saveWords`, `saveTest`, `updateWord`,
  `updateWords`, `getWordAmount`, `updateWordAmount` and `checkIfWordExists`. The store is the
  class `UserStore`, whose methods update its fields in place.
- `Selection` covers `getRandomInt` and the two generators, `generateTestQuestions` and
  `generateWordsForLearning`. They share a do-while loop that draws document indexes by
  rejection sampling. `Math.random()` enters as an oracle, a sequence of draws.
- `Grading` covers the grading loops that `api/tests.js` and `controllers/tests.js` share. They
  are two loops over the answers with the bounds written as a `Plan`.
- `TestsApi` covers `getNewTest` and `saveTest` of `api/tests.js`.
- `TestsController` covers `parseDate`, `showNewTest` and `saveTest` of `controllers/tests.js`,
  with the express session as the class `Session`.
- `LearningApi` covers both handlers of `api/learning.js`.
- `Js`, `Http`, `Strings` and `Wrappers` hold shared pieces:
  - JavaScript objects with their key order;
  - the `undefined`/`null`/`true` signals;
  - replies;
  - the string operations JavaScript provides (`\s`, `toLowerCase` on the ASCII, Latin-1 and
    Polish capitals, code-unit order,
    `split`);
  - `Option`.

Four defects of the code as written are listed under "## Findings". Each one is modelled twice:
once as written, with a lemma that exhibits it, and once corrected. The store methods, the
generators and the handlers follow the code as written: the existence check is never true, the
draw starts at index 1, the grading loops stop before the last answer, and the shortage check
of the test page compares with `undefined`. The corrected definitions appear in the lemmas that
state the evidently intended behaviour. Where the code and its documentation disagree, the
model follows the code. For example:

- the learning API asks for 20 words when `amount` is absent (the generator's default
  parameter), not the 24 its comment announces;
- the 404 branches of `getNewTest` and of the learning handler never run, because
  `generateTestQuestions` and `generateWordsForLearning` never reject;
- the per-word 404 of the API `saveTest` runs only for a key that is not a valid document id,
  which this model does not cover (see "## Left out"). For any other key `updateWord` only logs
  a failed update and does not reject.

## Model

| member | source | states |
|---|---|---|
| Strings.ToLower | api/tests.js:115 | `toLowerCase` keeps the length, maps each upper-case letter to lower case and leaves digits, lower-case letters and spaces alone |
| Strings.SortAscending | controllers/upload.js:105-109 | the comparator sort yields an ascending sequence that is a permutation of its input |
| Strings.LessTotal | controllers/upload.js:105-109 | the comparator's order is total: of two different strings one is less |
| Strings.LessTransitive | controllers/upload.js:105-109 | the comparator's order is transitive |
| Strings.JoinSplit | controllers/upload.js:226 | joining the pieces of `split(sep)` with `sep` gives back the text |
| Strings.SplitMany | controllers/tests.js:16 | `split(sep)` yields at least two pieces exactly when the text contains `sep`. |
| Upload.Normalise | controllers/upload.js:104 | a normalised description holds only spaces, lower-case letters and digits, never two spaces in a row |
| Upload.NormaliseAll | controllers/upload.js:103-105 | the `map` normalises every entry and keeps their number and order |
| Upload.KeepCount | controllers/upload.js:114-115 | the filter keeps every occurrence of an entry that is not empty, not one character long and has no digit, and drops every other |
| Upload.CountedAreValidKeys | controllers/upload.js:114-118 | every counted entry is a valid key: at least two characters, only lower-case letters and spaces, never two spaces in a row |
| Upload.Priorities | controllers/upload.js:100-125 | the result has a key exactly for each counted entry, and each priority is at least 1 |
| Upload.SanitizeData | controllers/upload.js:100-125 | the counting loop yields exactly `Priorities(data)`; its `uniques` are strictly ascending and are the result's keys; the priorities add up to the number of counted entries |
| Upload.CountSorted | controllers/upload.js:111-122 | over a sorted input, the loop's `uniques` and counts tally the kept entries |
| Upload.TallyNew | controllers/upload.js:116-118 | a new entry is pushed to `uniques` with priority 1, and the tally and the ascending order are kept |
| Upload.TallyRepeat | controllers/upload.js:119-120 | a repeated entry increments its priority and keeps the tally |
| Upload.SortedCounted | controllers/upload.js:103-109 | sorting before filtering changes neither which entries are counted nor how often |
| Upload.TallyComplete | controllers/upload.js:100-125 | a complete tally of the sorted, filtered entries is `Priorities(data)` and sums to their number |
| Upload.ReplaceLineBreaks | controllers/upload.js:226 | after replacing line breaks no `\n` or `\r` remains |
| Upload.Tokens | controllers/upload.js:226 | no token holds a space or a line break |
| Upload.TokensRejoin | controllers/upload.js:226 | joining the tokens with spaces gives the text with its line breaks replaced |
| Upload.TokensAfterFirst | controllers/upload.js:226 | the text's first token is the text before its first space |
| Upload.DetectTextFromTextFile | controllers/upload.js:225-231 | a text file's words are counted exactly as `sanitizeData` counts its tokens |
| Upload.TextFirstTokenDropped | controllers/upload.js:101 | the first word of a text file is dropped by the `shift` and never counted |
| Upload.Rejected | controllers/upload.js:319-322 | the rejected files are exactly the given files whose mimetype is not in `filetypes` |
| Upload.Supported | controllers/upload.js:47-64 | the supported files are exactly the given files whose mimetype is in `filetypes` |
| Upload.EveryFileRejectedOrSupported | controllers/upload.js:312-322 | each file is either rejected or supported |
| Upload.CheckFileTypes | controllers/upload.js:312-325 | the upload loop reports `Niepoprawny format pliku` for each unsupported file, in order, and passes every supported file on with its extension and detector |
| Upload.CheckedReject | controllers/upload.js:319-322 | an unsupported file adds its error and nothing else |
| Upload.CheckedAccept | controllers/upload.js:325 | a supported file is passed on with its `filetypes` entry and adds no error |
| Store.Apply | database.js:249-251 | a Firestore update keeps the id, translation and dates, and the increment adds one test appearance |
| Store.ApplyPriority | database.js:83 | an update naming only the priority changes only the priority |
| Store.SaveStep | database.js:59-86 | saving one word leaves it stored and keeps every other word stored |
| Store.SaveAll | database.js:50-89 | after the documented `saveWords` the stored words are the old ones plus every incoming key |
| Store.SaveAllConsistent | database.js:50-89 | `saveWords` keeps the ids `1..wordAmount` on distinct stored words, one per word |
| Store.SaveAllCounter | database.js:62-63 | the counter only grows, by one for each word created |
| Store.SaveExistingMergesPriority | database.js:81-84 | saving a stored word only adds the incoming priority to its stored priority |
| Store.SaveAbsentCreates | database.js:62-76 | saving an absent word creates it with the next id, the incoming translation and priority, and fresh flags |
| Store.SaveAllEffect | database.js:50-89 | with the documented check and distinct keys, a stored word has its priority raised by its count, an absent word is created with its data and a new id above the old counter, and every other word stays |
| Store.SaveTwiceAddsPriorityTwice | database.js:50-89 | uploading the same batch again, with the documented check, creates nothing and leaves the counter: each word of the batch has its priority raised once more by its count, every other word stays |
| Store.SaveAllShipped | database.js:50-89 | with the shipped existence check, every saved entry advances the counter |
| Store.ShippedCheckIfWordExists | database.js:296-298 | the shipped check reads `exists` on a promise, so it is never true |
| Store.ShippedSaveResetsStoredWord | database.js:59-76 | as shipped, saving a stored word replaces its record with a fresh one under a new id, and the store is no longer consistent |
| Store.SaveAllShippedEffect | database.js:50-89 | as shipped, with distinct keys, the `i`-th entry is written as a new record with id `wordAmount + i + 1`, stored before or not, and every other word stays |
| Store.CreateKeepsIds | database.js:62-76 | writing a record with the next id keeps the ids distinct and within the counter |
| Store.SaveAllShippedDistinctIds | database.js:50-89 | as shipped, `saveWords` still keeps the ids distinct and within the counter |
| Store.UpdateOne | database.js:249-251 | updating a word never adds or removes a stored word |
| Store.MarkAllAppeared | database.js:262-266 | `updateWords` never adds or removes a stored word |
| Store.MarkAllAppearedEffect | database.js:262-266 | every listed stored word gets `appeared` set; unlisted words are untouched |
| Store.MarkAllAppearedConsistent | database.js:262-266 | marking words as appeared keeps the store consistent |
| Store.SubEntries | database.js:115-120 | the saved test's `words` sub-collection has one document per graded word |
| Store.SubEntriesHoldAnswers | database.js:115-120 | each graded word's document holds its translation and the user's answer |
| Store.UserStore.GetWordAmount | database.js:274-276 | `getWordAmount` returns the stored counter |
| Store.UserStore.UpdateWordAmount | database.js:285-287 | `updateWordAmount` sets the counter and, writing with `set`, drops the document's `name` |
| Store.UserStore.UpdateWord | database.js:249-251 | `updateWord` applies the update to a stored word; the failed update of a missing word is only logged and changes nothing |
| Store.UserStore.UpdateWords | database.js:262-266 | `updateWords` marks every listed stored word as appeared |
| Store.UserStore.SaveWords | database.js:50-89 | the loop, with the shipped existence check, leaves the words and counter `SaveAllShipped` describes, drops `name` once the counter is written, keeps the tests, and keeps the ids distinct and within the counter |
| Store.UserStore.SaveEntry | database.js:59-86 | given the existence check's answer, one iteration creates the word with the next id and writes the counter back (dropping `name`), or raises the stored priority; as `SaveStep` describes |
| Store.UserStore.SaveTest | database.js:101-121 | `saveTest` appends one record with the points, the maximum, both dates and the words sub-collection |
| Selection.GetRandomInt | database.js:36-40 | the result lies in `[min, max)` when `max > min`, else in `[max, min]` |
| Selection.GetRandomIntReaches | database.js:36-40 | every value of `[min, max)` can be drawn |
| Selection.Qualifying | database.js:138-141 | the queried documents are exactly the stored words, not learnt, with the given `appeared` flag |
| Selection.Target | database.js:155-161 | the do-while runs at least once, so a completed loop holds at least one index and at least `amount` |
| Selection.Draw | database.js:155-161 | the do-while from a given state: it never drops an index, never holds more than `Target(amount)`, and ends `Complete` only holding exactly that many |
| Selection.DrawFacts | database.js:155-161 | the loop keeps its indexes distinct and in range, only adds to them, completes exactly when it holds `Target(amount)`, and never reads a missing document when drawing inside the documents |
| Selection.DistinctBounded | database.js:157-158 | distinct indexes from a range number at most its width |
| Selection.DrawCompletesOnlyWithRoom | database.js:155-161 | the loop can complete only when the range it draws from holds `Target(amount)` indexes |
| Selection.DrawCompletesWithRoom | database.js:155-161 | with enough room, the draws `0, 1, …` complete the loop with the indexes `low, low+1, …` |
| Selection.PickedKeys | database.js:159 | the picked keys are the ids of the picked documents, in pick order |
| Selection.Entries | database.js:159 | the filled object's keys are the picked keys in insertion order |
| Selection.EntriesPush | database.js:159 | assigning a new document's translation appends its key |
| Selection.PickPushes | database.js:157-159 | pushing a new index keeps the picks valid and adds its document's entry to the object |
| Selection.SelectDistinct | database.js:155-161 | the do-while leaves exactly the object and the ending that `Selected` describes |
| Selection.SelectedKeys | database.js:155-161 | the filled object holds distinct document keys with their translations, at most `Target(amount)` of them, and exactly that many when the loop completed |
| Selection.GenerateTestQuestions | database.js:132-170 | the generator returns `TestQuestions` drawing from index 1, as `getRandomInt(1, documents.size)` does |
| Selection.GenerateWordsForLearning | database.js:178-214 | the generator returns `WordsForLearning` drawing from index 1, as `getRandomInt(1, documents.size)` does |
| Selection.TestQuestions | database.js:132-170 | the generator's answer: `null` exactly when fewer than `amount` words qualify, otherwise (if the loop completes) an object of drawn words |
| Selection.WordsForLearning | database.js:178-214 | the generator's answer: `true` exactly when fewer than 20 words are unseen, otherwise (if the loop completes) an object of drawn words |
| Selection.TestQuestionsContents | database.js:132-170 | a test is `null` exactly when fewer than `amount` words qualify; a completed test holds `Target(amount)` distinct qualifying words with their translations, and then `dateCreated` |
| Selection.WordsForLearningContents | database.js:178-214 | a learning set is `true` exactly when fewer than 20 words qualify, never `null`, and otherwise holds distinct unseen words |
| Selection.ShippedTestNeverCompletes | database.js:156 | as shipped, when exactly `amount >= 2` words qualify, no sequence of draws ever completes the test |
| Selection.IntendedTestCompletes | database.js:151-161 | drawing from index 0, any `1 <= amount <= size` can be completed |
| Selection.ShippedNeverPicksFirst | database.js:156 | as shipped, the first document the query returns is never picked |
| Selection.LearningBeyondQualifyingNeverCompletes | database.js:196-206 | the learning gate checks 20, not `amount`, so asking for more words than qualify loops forever |
| Selection.ShippedLearningExactNeverCompletes | database.js:201 | as shipped, when at least 20 and at most `amount` words are unseen (20 of them with the default 20), no sequence of draws ever completes the learning set |
| Grading.ForwardEnd | api/tests.js:111 | the first loop stops at the least `i` with `2i >= n-1` |
| Grading.AsWritten | api/tests.js:111-135 | the loops as written grade `n-1` answers, the first loop's share coming first |
| Grading.Intended | api/tests.js:135 | with the bound `answers.length` the loops grade all `n` answers |
| Grading.Throws | api/tests.js:113-139 | a pass throws a TypeError once its index passes the test's keys, since `keys[i]` is then undefined |
| Grading.Graded | api/tests.js:111-153 | a pass grades at most its planned number of entries, and all of them exactly when it does not throw |
| Grading.CleanAnswers | api/tests.js:75-76 | the trim-and-escape loop cleans each answer in place |
| Grading.GradedUpTo | api/tests.js:111-153 | the loops grade one entry per index |
| Grading.GradedUpToEntries | api/tests.js:111-153 | the entry at index `i` grades the `i`-th key against the `i`-th answer: against the translation in the first loop, against the word in the second |
| Grading.Points | api/tests.js:121 | the points never exceed the number of graded words |
| Grading.PointsAllCorrect | api/tests.js:121 | all points are scored exactly when every graded word is correct |
| Grading.ApplyGrades | api/tests.js:116-126 | grading never adds or removes a stored word |
| Grading.GradedUpdateEffect | api/tests.js:116-126 | a graded word gets one more test appearance; a correct one is also marked learnt with the finish date |
| Grading.GradesEffect | api/tests.js:111-153 | each graded stored word gets its graded update; words not in the test are untouched |
| Grading.GradedDistinct | api/tests.js:128 | the graded entries have distinct keys |
| Grading.GradeAnswers | api/tests.js:111-153 | the two loops grade the entries `Graded` describes, score `Points`, apply the graded updates to the store, and throw exactly when they run past the test's keys |
| Grading.GradeTranslations | api/tests.js:111-129 | the first loop grades the forward entries against the translations |
| Grading.GradeWords | api/tests.js:135-153 | the second loop grades the remaining entries against the words |
| Grading.GradeNext | api/tests.js:112-128 | one iteration grades answer `i` against the translation or the word, extends the graded entries by it, scores it and applies its update to the store |
| Grading.GradedUpToAgree | api/tests.js:111-153 | grading up to `m` reads only the first `m` answers |
| Grading.LastAnswerNeverGraded | api/tests.js:135 | as written, the last answer is never graded: at most `n-1` entries, fewer than `maxPoints` points, and the same grades whatever the last answer is |
| Grading.LastAnswerIgnored | api/tests.js:135-153 | a pass whose second loop stops before the last answer grades the same whatever that answer is |
| Grading.IntendedGradesAll | api/tests.js:135 | with the bound `n`, every answer is graded against its key in order, and full points mean every answer is correct |
| Grading.AsWrittenGrades | api/tests.js:111-153 | as written, a pass that does not throw grades every answer but the last, each against its key in order, and scores fewer points than there are answers |
| Grading.LastWordUntouched | api/tests.js:135 | as written, the word of the last answer is not updated |
| Grading.GradingSkipsLaterKeys | api/tests.js:111-153 | grading the first `m` answers leaves the stored word of every later key as it was |
| Grading.FourWordTest | api/tests.js:111-153 | the four-word test is a well-formed object |
| Grading.FourRightAnswers | api/tests.js:111-153 | four right answers score 3 as written and 4 with the intended bound |
| TestsController.ParseDateThrows | controllers/tests.js:15-21 | `parseDate` fails exactly when the text has no `T` |
| TestsController.ParseDateIso | controllers/tests.js:15-21 | an ISO date `Y-M-DTh:m:…` is rendered `D-M-Y h:m` |
| TestsController.DatePieces | controllers/tests.js:17 | the date half `Y-M-D` splits at `-` into its three pieces |
| TestsController.TimePieces | controllers/tests.js:18 | the time half `h:m:rest` splits at `:` into the hour, the minutes and the pieces of the rest |
| TestsController.ParseDate | controllers/tests.js:15-21 | `parseDate` reassembles the date half split at `-` and the time half split at `:` as `D-M-Y h:m`, and fails when there is no time half |
| TestsController.ShowNewTest | controllers/tests.js:32-53 | the page and the session test are the ones `NewTestOutcome` gives for the test generated from index 1, compared against `undefined` as shipped |
| TestsController.NewTestOutcome | controllers/tests.js:34-52 | without a login the index page; the session's test changes only when the test page is rendered without an error, and then to the generated test; nothing is rendered only while the generator runs |
| TestsController.ShippedShortageStoresNull | controllers/tests.js:45-47 | as shipped, wherever the draw starts, a shortage renders the test page without error and stores `null` in the session |
| TestsController.IntendedShortageReported | controllers/tests.js:45-50 | compared against `null`, wherever the draw starts, the shortage message is shown exactly when fewer than 24 words qualify, and only a real test is stored |
| TestsController.SaveTest | controllers/tests.js:64-156 | without a login the index page is shown and nothing changes; otherwise the page, the graded updates and the saved record are the ones `SaveOutcome` gives with the loops as written, and the session's test is cleared only when a page is rendered: a save that throws leaves the stored session as it was |
| TestsController.SaveOutcome | controllers/tests.js:79-155 | a session test that is not an object renders nothing and grades nothing; a record is saved exactly when the test is an object and the grading loops do not run past its keys; a results page shows the graded words that were saved; a saved record scores at most its `maxPoints`, the number of answers |
| TestsController.MissingDateSavedThenThrows | controllers/tests.js:94-150 | a test without `dateCreated` is graded and saved with `undefined` as its start date, and then `parseDate` throws, so no page is rendered |
| TestsController.ResultsScoreAnswers | controllers/tests.js:94-155 | a results page reports `maxPoints` equal to the number of answers, every answer but the last graded against its key in order, fewer points than `maxPoints`, and the last answer's word left unchanged |
| TestsController.NoTestNoChange | controllers/tests.js:79-100 | without a test in the session the save throws before anything changes |
| TestsApi.GetNewTest | api/tests.js:22-45 | without a uid the reply is 400; otherwise it is the reply `TestReply` gives for the test generated from index 1, as shipped |
| TestsApi.TestReply | api/tests.js:34-44 | no reply while the generator runs; 409 exactly when it answers `null`; otherwise 200 |
| TestsApi.GetNewTestStatuses | api/tests.js:40-44 | wherever the draw starts, the reply is 409 exactly when fewer than `amount` words qualify, and otherwise 200 with a test object and no errors |
| TestsApi.ShippedExactAmountNeverReplies | api/tests.js:33-44 | as shipped, when exactly `amount >= 2` words qualify, no reply is ever sent |
| TestsApi.SaveTest | api/tests.js:55-162 | the four 400s in order, then the reply, the graded updates and the saved record that `SubmitOutcome` gives with the loops as written |
| TestsApi.SubmitOutcome | api/tests.js:71-161 | a 200 is sent exactly when a record is saved; that record holds the graded words and at most `maxPoints`, the number of answers; a test without `dateCreated` grades and saves nothing |
| TestsApi.SubmitReportsGrades | api/tests.js:89-161 | a 200 reports every answer but the last graded against its key in order, `maxPoints` equal to the number of answers, fewer points than that, the last answer's word left unchanged, and the same results it saved |
| LearningApi.GetNewSetOfWordsForLearning | api/learning.js:17-41 | without a uid the reply is 400; otherwise it is the reply for the set generated from index 1, as shipped |
| LearningApi.RequestedAmount | api/learning.js:21 | the text `'undefined'` asks for 24 words, a given number for itself, and an absent field for the generator's default of 20 (database.js:178) |
| LearningApi.LearningReply | api/learning.js:30-40 | no reply while the generator runs; 409 exactly when it answers `null`; otherwise 200 |
| LearningApi.LearningNeverConflicts | api/learning.js:36-40 | wherever the draw starts, the 409 is never sent: a shortage is answered 200 with `wordData: true` |
| LearningApi.ReportsEmpty | api/learning.js:66-73 | there are no errors exactly when every listed word passes the check |
| LearningApi.ReportsName | api/learning.js:66-73 | each failing word is reported, and each report names a failing word |
| LearningApi.Reports | api/learning.js:66-73 | the existence loop reports at most one error per listed word |
| LearningApi.SaveSetOfWordsAsAppeared | api/learning.js:51-81 | the 400s, then, with the shipped check, one error per listed word with status 409; so a non-empty list is always answered 409 and marks nothing, and only an empty list is answered 200 |
| LearningApi.AllOrNothing | api/learning.js:66-78 | with the documented check, either every listed word is stored and all are marked, nothing else changing, or nothing changes and a missing word is reported |
| LearningApi.ShippedRejectsEveryList | api/learning.js:66-73 | as shipped, every non-empty list is rejected with one error per word |
| LearningApi.ShippedReportsAll | api/learning.js:66-73 | under the shipped check each listed word yields its own error, in order |

## Left out

- Image text detection (Vision), PDF reading, the storage bucket, translation (Translate) and
  the socket messages of `controllers/upload.js` are left out. They are I/O and foreign
  services. The dispatch check hands each supported file to its detector by name.
- Rendering templates, authentication, profiles and statistics (`getStats` and the other
  profile queries) are left out. They are outside the word lifecycle.
- Dates: `new Date()` is a parameter (`now`, `finish`), and timestamps are kept as their ISO
  strings. The `Date` objects `saveWords` and `saveTest` build from them are not modelled: a
  saved record holds the text handed to `new Date`. Both `saveTest` handlers rest on one
  premise: the store's `set` accepts whatever `new Date(...)` yields, an Invalid Date included.
  Whether the Firestore client rejects an Invalid Date instead is not modelled.
- The order in which Firestore returns a query's documents is a parameter (`docs`).
- `Math.random()` is an oracle sequence of draws. A loop that runs out of draws reports that
  it has not finished within them.
- express-validator's `trim().escape()` is the parameter `clean`.
- A missing user document (a `uid` that names no user) is not modelled.
- Object keys that look like integers are ordered first by `Object.keys`; the model keeps plain
  insertion order. A test key spelled literally `undefined` is not modelled.
- Answers and values that are not strings are not modelled. Neither is an `amount` given as a
  non-numeric string.
- Store.UserStore.UpdateWord: a key that is not a valid Firestore document id (empty, or
  holding `/`) makes `doc()` throw, so `updateWord` rejects. This is not modelled: every key is
  taken to name a document, and the update of a missing one is only logged. The per-word 404
  of the API `saveTest` is therefore not reached in the model.
- Concurrency and interleaving between requests are not modelled. `updateWord` does not await
  its update; the model applies it at once.
- `toLowerCase` is modelled for the ASCII, Latin-1 and Polish capitals. Other Unicode case
  mappings are not modelled (for example `İ`, which lower-cases to two code units). The `\s`
  class is modelled in full.
- Routing is left out. As mounted, `GET /` of the tests API has no `:uid` parameter, so it
  always answers 400. That is the reply `TestsApi.GetNewTest` gives for an absent uid.
- TestsController.SaveTest: for a session test without `dateCreated`, `results.dateStarted` is
  `undefined`, carried as the text `undefined`. Under the premise above, the record is saved
  (its date an Invalid Date), and then `parseDate` throws. A session test equal to `true` is
  treated as one that throws before grading.
- TestsApi.SaveTest: the saved record keeps the parsed `D-M-Y h:m` texts that the code passes
  to `saveTest`, not the `Date` objects built from them. JavaScript engines' fallback parsing
  (V8's, for one) reads `NN-NN-YYYY hh:mm` month first. So a day of 13 or more gives an Invalid
  Date, and a day from 1 to 12 swaps day and month in the stored date. Under the premise
  above, the save succeeds either way, and 200 is sent.

## Findings

| source | as written | input that shows it | evidently intended | confidence | as-written member | corrected member |
|---|---|---|---|---|---|---|
| database.js:296-298 | `checkIfWordExists` reads `exists` on the promise `get()` returns, so it is always `undefined`. `saveWords` then re-creates every stored word under a new id, and the learning API rejects every list. | a stored word `cat` uploaded again; the list `["cat"]` sent to the learning API | whether the word is stored | not executed | Store.ShippedSaveResetsStoredWord, LearningApi.ShippedRejectsEveryList | Store.SaveAllConsistent, Store.SaveAllEffect, LearningApi.AllOrNothing |
| api/tests.js:135 | the second grading loop stops at `answers.length - 1`, so the last answer is never graded and `maxPoints` cannot be reached (likewise controllers/tests.js:133) | a four-word test answered correctly scores 3 of 4 | grade every answer, up to `answers.length` | not executed | Grading.LastAnswerNeverGraded, Grading.AsWrittenGrades | Grading.IntendedGradesAll |
| database.js:156 | `getRandomInt(1, documents.size)` never draws index 0, so the first document is never picked (likewise database.js:201) | exactly 24 qualifying words and a test of 24: the do-while never ends | draw from `[0, documents.size)` | not executed | Selection.ShippedTestNeverCompletes, Selection.ShippedLearningExactNeverCompletes, Selection.ShippedNeverPicksFirst | Selection.IntendedTestCompletes |
| controllers/tests.js:45 | the shortage check compares with `undefined`, but the generator returns `null` | fewer than 24 qualifying words: the test page shows no error, `null` is stored in the session, and saving then throws | compare with `null` | not executed | TestsController.ShippedShortageStoresNull | TestsController.IntendedShortageReported |
