# RIASEC major recommendation: a verified model

The system recommends a university major from a RIASEC personality profile.
RIASEC names six trait letters: Realistic, Investigative, Artistic, Social,
Enterprising and Conventional. A user answers a 30-item picture quiz. Every
option of an item stands for one letter.

The backend does the following:
- validates and stores the answers in a relational database (users, item
  responses, recommendations, questions);
- recounts the scores from the stored rows inside one transaction;
- builds the six-letter profile;
- ranks a catalog of majors against it and stores the top ten.

Beside the database it keeps two small JSON-file stores: quiz results by
user name, and credentials and verification codes by e-mail address. The
frontend adds a scoring hook, the API URL builder and the e-mail history of
the login form.

The model has one module per source file:

| module | source |
|---|---|
| `Validators` | `backend/src/models/validators.js` |
| `Questions` | `questionsModel.js` |
| `Responses` | `responsesModel.js` |
| `Users` | `usersModel.js` |
| `Submission` | `quizPersistenceService.js` |
| `QuizTransaction` | the `withTransaction` wrapper of `db.js` around `saveQuizSubmission` |
| `Store` | the database of `db.js` |
| `Majors` | `majorService.js` |
| `RiasecItems` | `riasecItems.js` |
| `UserStore` | `userStore.js` |
| `AuthStore` | `authStore.js` |
| `Server` | the register and recommend routes of `server.js` |
| `ScoringHook` | `frontend/src/hooks/useRiasecScoring.ts` |
| `Config` | `frontend/src/config.ts` |
| `LoginForm` | the e-mail helpers of `frontend/src/components/LoginForm.tsx` |

Five modules hold shared definitions:
- `Common`: `Option`, `Result`, and `Raw` for loosely typed numeric input.
- `Text`: trimming, ASCII case mapping, split and join, decimal strings.
- `Riasec`: letters, score records, and the ranking of letters by score.
- `Sorting`: an insertion sort by a strict order. It is sorted for any strict order, and stable for a strict weak order.
- `Store`: the database tables.

Objects that the source updates in place are classes with `modifies`
frames:
- the database connection (`Store.Database`);
- the image rotator of the item catalog;
- the major catalog;
- the user and credential caches.

Each model function is an operation that only computes a value. The
database tables are maps keyed by their primary keys. Response times are
integer hundredths of a second. Major scores are integers scaled by 60, so
the profile weights 1, 1/2, …, 1/6 become 60, 30, 20, 15, 12, 10.

## Model

| member | source | states |
|---|---|---|
| Validators.AssertNonEmptyString | backend/src/models/validators.js:21-30 | accepts exactly a string whose trimmed form is non-empty and, when a maximum is given, at most that long; returns the trimmed form |
| Validators.NonEmptyStringIdempotent | backend/src/models/validators.js:21-30 | a value the validator returned is accepted again and returned unchanged |
| Validators.AssertScore | backend/src/models/validators.js:32-38 | accepts exactly a parsed integer that is not negative, and returns it |
| Validators.AssertProfile | backend/src/models/validators.js:40-57 | accepts exactly the text whose trimmed, upper-cased form holds each RIASEC letter once; returns that form |
| Validators.ProfileAccepted | backend/src/models/validators.js:40-57 | every permutation of the six letters is accepted as itself |
| Validators.AssertOptionsString | backend/src/models/validators.js:59-74 | accepts exactly the text whose trimmed, upper-cased form is three distinct RIASEC letters separated by commas; returns that form |
| Validators.CheckOptionParts | backend/src/models/validators.js:61-73 | the split, three-parts, letter and distinctness checks pass exactly on the "X,Y,Z" shape, and give the text back |
| Validators.OptionsAccepted | backend/src/models/validators.js:59-74 | a stored options string passes the validator unchanged |
| Validators.AssertQuestionId | backend/src/models/validators.js:76-86 | accepts exactly the texts that normalise to one of Q01 … Q30 |
| Validators.CheckQuestionKey | backend/src/models/validators.js:80-85 | a normalised id passes exactly when it is the key of a question from 1 to 30 |
| Validators.QuestionKeyInjective | backend/src/models/validators.js:76-86 | different question numbers have different keys |
| Validators.QuestionKeyAccepted | backend/src/models/validators.js:76-86 | every key Q01 … Q30 is accepted as itself and is already in normal form |
| Validators.AssertChosenPosition | backend/src/models/validators.js:88-94 | accepts exactly a parsed integer from 1 to 3 |
| Validators.Hundredths | backend/src/models/validators.js:96-102 | the result is the input in hundredths, rounded to the nearest one |
| Validators.AssertResponseTimeSec | backend/src/models/validators.js:96-102 | accepts exactly a parsed number from 0 to 600 seconds, and returns it rounded to hundredths, so at most 60000 |
| Validators.ResponseTimeStable | backend/src/models/validators.js:96-102 | a stored time in hundredths passes the validator unchanged |
| Validators.AssertChosenCodeInOptions | backend/src/models/validators.js:104-116 | an accepted code is the normalised input and is a single RIASEC letter |
| Validators.ChosenCodeInShapedOptions | backend/src/models/validators.js:104-116 | against stored options, a code is accepted exactly when it names one of their three letters |
| Validators.AssertGender | backend/src/models/validators.js:118-126 | accepts exactly the text whose trimmed, lower-cased form is a known gender, and returns that form |
| Validators.GenderIdempotent | backend/src/models/validators.js:118-126 | a normalised gender is accepted again unchanged |
| Validators.AssertEducationLevel | backend/src/models/validators.js:128-138 | accepts exactly the text whose lower-cased trimmed form is a known level and returns it trimmed with its case as given; anything else fails with the message listing every accepted level |
| Validators.EducationLevelKeepsCase | backend/src/models/validators.js:128-138 | any trimmed spelling of a known level is stored as typed, capitals included |
| Validators.BachelorKeepsCase | backend/src/models/validators.js:128-138 | "Bachelor" is accepted and keeps its capital |
| Validators.AssertSubject | backend/src/models/validators.js:140-153 | an empty optional subject is None; otherwise the trimmed text is accepted exactly when it has 1 to 30 characters and matches the letter pattern |
| Validators.SubjectIdempotent | backend/src/models/validators.js:140-153 | an accepted subject is accepted again unchanged |
| Validators.AssertSatisfactionScore | backend/src/models/validators.js:155-161 | accepts exactly a parsed integer from 1 to 5 |
| Validators.QuestionKey | backend/src/models/questionsModel.js:69 | `Q` followed by the two-digit number: three characters below 100 |
| Riasec.ScoreRecord.Bump | frontend/src/hooks/useRiasecScoring.ts:22-24 | one more point for the letter, every other count unchanged |
| Riasec.PrecedesTotal | backend/src/services/quizPersistenceService.js:58-67 | the ranking order with a tie rule is total: of two different letters exactly one comes first |
| Riasec.ChainSorted | backend/src/services/quizPersistenceService.js:58-67 | a string in which each letter precedes the next is sorted |
| Riasec.SortLetters | backend/src/services/quizPersistenceService.js:58-67 | the sort is a permutation of its input |
| Riasec.Insert | backend/src/services/quizPersistenceService.js:58-67 | inserting one letter adds exactly that letter to the string |
| Riasec.InsertSorted | backend/src/services/quizPersistenceService.js:58-67 | inserting a new letter into a sorted string keeps it sorted |
| Riasec.SortLettersSorted | backend/src/services/quizPersistenceService.js:58-67 | sorting distinct letters gives a string in ranking order |
| Riasec.RankLettersIsProfile | backend/src/services/quizPersistenceService.js:58-67 | ranking the six letters by score gives a profile, a permutation of RIASEC, in ranking order |
| Riasec.RankLettersNonIncreasing | backend/src/services/quizPersistenceService.js:58-67 | the scores along a ranked profile never increase |
| Riasec.SortedUnique | backend/src/services/quizPersistenceService.js:58-67 | two sorted strings that are permutations of each other are equal |
| Riasec.RankLettersUnique | backend/src/services/quizPersistenceService.js:58-67 | the ranked profile is the only permutation of RIASEC that is sorted |
| Riasec.TieRuleIrrelevantWhenDistinct | backend/src/services/quizPersistenceService.js:58-67 | when all six scores differ, both tie rules give the same profile |
| Riasec.CardOfDistinct | backend/src/models/validators.js:51-56 | a string has no repeated letter exactly when its set of letters is as large as the string |
| RiasecItems.MatrixWellFormed | backend/src/riasecItems.js:18-49 | the matrix has 30 rows of three distinct RIASEC letters |
| RiasecItems.Code | backend/src/riasecItems.js:101-111 | the letter of each option is a RIASEC letter |
| RiasecItems.OptionId | backend/src/riasecItems.js:107 | an option id is the item number followed by a, b or c |
| RiasecItems.PromptCycles | backend/src/riasecItems.js:105 | the prompts repeat every six items, and each prompt ends with its own item number |
| RiasecItems.FallbackUrl | backend/src/riasecItems.js:79-80 | the fallback is empty or the first image of some pool |
| RiasecItems.FirstImage | backend/src/riasecItems.js:79-80 | a non-empty result is the first image of that letter's pool |
| RiasecItems.ImageRotator.constructor | backend/src/riasecItems.js:78-89 | one pool per letter, every counter at zero, the fallback taken from the pools |
| RiasecItems.ImageRotator.GetNextImage | backend/src/riasecItems.js:91-99 | the image and the new counters are one round-robin step (`NextImage`): the pool entry at the letter's counter modulo the pool size, with only that counter advanced; the fallback and no change for a missing or empty pool |
| RiasecItems.ImageRotator.BuildOptions | backend/src/riasecItems.js:106-111 | three options with ids `<n>a`, `<n>b`, `<n>c`, the row's letters in order and their descriptions; their images and the counters afterwards are those of drawing the row's letters in order (`Draw`) |
| RiasecItems.ImageRotator.BuildItem | backend/src/riasecItems.js:101-113 | the item at an index has id index + 1, its cycled prompt and its row's options; its images and the counters afterwards are the draw for its row |
| RiasecItems.ImageRotator.BuildItems | backend/src/riasecItems.js:101-113 | the 30 items in matrix order, each shaped from its row with an image from the pool of each letter; item k's images are the draw for its row from the counters the first k items left, and the counters end as after all 30 rows (the predicate `ItemsBuilt` holds for all 30) |
| RiasecItems.DrawCounter | backend/src/riasecItems.js:91-99 | after a run of draws, a letter with a non-empty pool has its counter advanced by the number of draws for it; any other counter stays |
| RiasecItems.DrawCounters | backend/src/riasecItems.js:91-99 | the same for every counter at once |
| RiasecItems.DrawLast | backend/src/riasecItems.js:91-99 | the last image drawn is the pool entry after all earlier draws of the same letter |
| RiasecItems.DrawRoundRobin | backend/src/riasecItems.js:91-99 | every image drawn is the pool entry at the starting counter plus the number of earlier draws of its letter, modulo the pool size: a round-robin per letter |
| RiasecItems.DrawRoundRobinAt | backend/src/riasecItems.js:91-99 | image i of a draw is the pool entry of its letter at the starting counter plus the number of times that letter occurs before position i, modulo the pool size |
| RiasecItems.DrawAppend | backend/src/riasecItems.js:101-113 | drawing for two runs of letters one after the other is drawing for the joined run |
| RiasecItems.CountersBefore | backend/src/riasecItems.js:101-113 | the counters after the first k items keep the keys of the starting counters |
| RiasecItems.CountersBeforeIsDraw | backend/src/riasecItems.js:101-113 | drawing row by row leaves the counters that one draw over the first k rows laid end to end leaves |
| Store.Database.constructor | backend/src/db.js:95-100 | a freshly migrated database has four empty tables |
| Store.Database.Restore | backend/src/db.js:110-112 | a rollback puts every table back as it was |
| Store.OptionAt | backend/src/models/responsesModel.js:25-26 | the letter at a 1-based position of stored options is a RIASEC letter |
| Sorting.SortBy | backend/src/majorService.js:75 | the sort is a permutation of its input |
| Sorting.InsertBy | backend/src/majorService.js:75 | inserting one element adds exactly that element |
| Sorting.InsertBySorted | backend/src/majorService.js:75 | for a strict order, inserting into a sorted sequence keeps it sorted |
| Sorting.SortBySorted | backend/src/majorService.js:75 | for a strict order, no element of the result sorts before an earlier one |
| Sorting.InsertByTies | backend/src/majorService.js:75 | for a strict weak order, inserting into a sorted sequence places the new element after every element tied with it |
| Sorting.SortByStable | backend/src/majorService.js:75 | for a strict weak order the sort is stable: the elements tied with any value appear in the result in their input order |
| Questions.ValidateQuestion | backend/src/models/questionsModel.js:6-7 | a question is accepted exactly when its id and its options pass their validators; the normalised pair is returned, or the id's error first |
| Questions.StoredQuestionRevalidates | backend/src/models/questionsModel.js:6-7 | a stored question passes validation unchanged |
| Questions.CreateQuestion | backend/src/models/questionsModel.js:4-11 | a valid question with a new id is inserted; an invalid one or a duplicate key changes nothing; the table stays valid |
| Questions.UpsertQuestion | backend/src/models/questionsModel.js:13-26 | a valid question is written under its id, replacing any old options; the table stays valid |
| Questions.GetQuestionById | backend/src/models/questionsModel.js:28-32 | a valid id finds its stored options, or none when absent |
| Questions.UpsertThenGet | backend/src/models/questionsModel.js:13-32 | after an upsert the question reads back by its raw or normalised id |
| Questions.UpdateQuestionOptions | backend/src/models/questionsModel.js:39-49 | the options of an existing question are replaced; a missing one gives "Question … not found" and no change |
| Questions.DeleteQuestion | backend/src/models/questionsModel.js:51-56 | the id is removed, and the result says whether it was present |
| Questions.QuestionBeforeStrictOrder | backend/src/models/questionsModel.js:36 | ordering by question id is a strict order |
| Questions.QuestionBeforeWeakOrder | backend/src/models/questionsModel.js:36 | ordering by question id is a strict weak order: questions it does not separate share their id |
| Questions.ListQuestions | backend/src/models/questionsModel.js:34-37 | every stored question exactly once, by id ascending |
| Questions.CollectQuestions | backend/src/models/questionsModel.js:36 | the scan yields every stored question, once each |
| Questions.RowKey | backend/src/models/questionsModel.js:69 | row i gets the key of question i + 1 |
| Questions.CheckRow | backend/src/models/questionsModel.js:65-71 | a row that is missing or not three cells gives the row-index error; otherwise the row is accepted when its joined options pass and its index is within 30 |
| Questions.CheckRows | backend/src/models/questionsModel.js:64-72 | each matrix row is checked with its own index |
| Questions.SeedQuestionsFromCategoryMatrix | backend/src/models/questionsModel.js:58-75 | an empty matrix is refused; rows are upserted in order up to the first bad one, whose error is returned; on success the full question list comes back in id order |
| Questions.SeedStops | backend/src/models/questionsModel.js:64-68 | after the first bad row nothing more is written |
| Questions.SeedStoresChecked | backend/src/models/questionsModel.js:64-72 | after an error-free seed, each row is stored under its key, other ids keep their options, and the key set grows by exactly the row keys |
| Questions.SeedStoresRows | backend/src/models/questionsModel.js:58-75 | the same for raw matrix rows: at most 30 rows, each stored as its validated options |
| Questions.SeedWellFormed | backend/src/models/questionsModel.js:64-72 | a matrix of at most 30 well-formed rows seeds without error |
| Questions.SeedCategoryMatrix | backend/src/models/questionsModel.js:58-75 | seeding the catalog's own matrix succeeds and stores "X,Y,Z" from each row's letters |
| Questions.RowOptionsShaped | backend/src/models/questionsModel.js:70 | a well-formed row joins to "X,Y,Z" |
| Questions.AcceptedKeyFixed | backend/src/models/questionsModel.js:69 | the key of question m is accepted exactly for m from 1 to 30, and unchanged |
| Questions.KeyNormal | backend/src/models/questionsModel.js:69 | a generated key is already trimmed and upper-case |
| Responses.NormalizeId | backend/src/models/responsesModel.js:4-18 | an id is accepted exactly when its trimmed form is non-empty, and that form is returned |
| Responses.ValidateChoice | backend/src/models/responsesModel.js:21-29 | the options, position and code are accepted exactly when the options are well shaped, the position is 1 to 3, and the code is the letter at that position |
| Responses.CheckChosenCode | backend/src/models/responsesModel.js:23-29 | the code must equal the letter at the chosen position |
| Responses.ValidateIds | backend/src/models/responsesModel.js:32-38 | the response id, user id, question id and time are accepted exactly when each passes its check, and come back normalised |
| Responses.ValidateResponsePayload | backend/src/models/responsesModel.js:20-40 | a payload is accepted exactly when its choice and its ids pass; the result holds the normalised fields and is valid |
| Responses.ToRow | backend/src/models/responsesModel.js:46-51 | the stored row is valid exactly when the data is, and it carries the creation time |
| Responses.RevalidateRow | backend/src/models/responsesModel.js:20-40 | a stored row validates again to its own fields |
| Responses.InsertResponse | backend/src/models/responsesModel.js:42-54 | a valid payload with a new id yields a valid row; an existing id or an invalid payload is refused |
| Responses.CreateResponse | backend/src/models/responsesModel.js:42-54 | the row is inserted under its id exactly when the insert succeeds; otherwise the table is unchanged |
| Responses.GetResponseById | backend/src/models/responsesModel.js:70-74 | a non-blank id finds the row stored under its trimmed form, or none |
| Responses.CreateThenGetResponse | backend/src/models/responsesModel.js:42-74 | a created response reads back by its raw and its stored id |
| Responses.ValidateAll | backend/src/models/responsesModel.js:63-66 | every row of a bulk request is validated in place |
| Responses.CreateResponsesBulk | backend/src/models/responsesModel.js:56-68 | the rows are inserted one by one, stopping at the first failure with its error; other tables are untouched |
| Responses.BulkInsertSnoc | backend/src/models/responsesModel.js:63-67 | one more row either keeps an earlier error, adds its own error, or appends and stores its row |
| Responses.BulkInsertStopsAtError | backend/src/models/responsesModel.js:63-67 | after an error, the remaining rows change nothing |
| Responses.BulkInsertKeepsExisting | backend/src/models/responsesModel.js:56-68 | rows stored before the bulk insert stay as they were |
| Responses.BulkInsertOk | backend/src/models/responsesModel.js:56-68 | a successful bulk insert returns one row per payload, each built from its validated data |
| Responses.BulkInsertStores | backend/src/models/responsesModel.js:56-68 | every returned row had a new id and is stored under it |
| Responses.BulkInsertKeys | backend/src/models/responsesModel.js:56-68 | the keys afterwards are the old keys plus the ids of the created rows |
| Responses.BulkInsert | backend/src/models/responsesModel.js:56-68 | no stored row is removed, whether the bulk insert succeeds or stops at an error |
| Responses.InsertValidated | backend/src/models/responsesModel.js:42-54 | the insert succeeds exactly for valid data whose id is new, and stores the row built from it |
| Responses.UpdateOutcome | backend/src/models/responsesModel.js:82-107 | a successful update yields a valid row |
| Responses.MergeResponse | backend/src/models/responsesModel.js:89-97 | the stored response, user and question ids are kept whatever the update; given options win, missing ones keep the stored options |
| Responses.UpdateResponse | backend/src/models/responsesModel.js:82-107 | the re-validated row replaces the stored one; a failure changes nothing |
| Responses.UpdateKeepsIds | backend/src/models/responsesModel.js:84-104 | a missing id gives "Response not found"; an update keeps the response id, user, question and creation time |
| Responses.EmptyUpdateIsIdentity | backend/src/models/responsesModel.js:89-97 | an update with no fields gives back the stored row unchanged |
| Responses.DeleteResponse | backend/src/models/responsesModel.js:109-114 | a non-blank id is removed, and the result says whether it was present |
| Responses.ResponseBeforeStrictOrder | backend/src/models/responsesModel.js:79 | newest first, then by question id, is a strict order |
| Responses.ResponseBeforeWeakOrder | backend/src/models/responsesModel.js:79 | the row order is a strict weak order: rows it does not separate share their creation time and question id |
| Responses.ListResponsesByUserId | backend/src/models/responsesModel.js:76-80 | a blank user id is refused; otherwise every row of the user appears exactly once, newest first |
| Responses.CollectUserRows | backend/src/models/responsesModel.js:79 | the scan yields each of the user's rows once |
| Responses.DistinctCard | backend/src/models/responsesModel.js:79 | a sequence without repeats has as many members as elements |
| Users.ValidateScores | backend/src/models/usersModel.js:4-13 | the six scores are accepted exactly when each parses to a non-negative integer |
| Users.ValidateGender | backend/src/models/usersModel.js:28 | a null or empty gender is None; otherwise it must be a known gender, stored lower-case |
| Users.ValidateEducationLevel | backend/src/models/usersModel.js:29 | a null or empty level is None; otherwise it must be a known level, stored trimmed |
| Users.ValidateSubject1 | backend/src/models/usersModel.js:30 | a null or empty subject is None; otherwise it must be 1 to 30 characters matching the pattern |
| Users.ValidateSubject2 | backend/src/models/usersModel.js:31 | a blank second subject is None; otherwise the same rule as the first |
| Users.ValidateProfile | backend/src/models/usersModel.js:34 | no profile means "RIASEC"; a given one must pass the profile validator; the result is always a profile |
| Users.ValidateChosenMajor | backend/src/models/usersModel.js:35 | a null or empty major is None; otherwise the trimmed text, non-blank and at most 150 characters |
| Users.ValidateSatisfaction | backend/src/models/usersModel.js:36 | a null or empty score is None; a given one must be an integer from 1 to 5 |
| Users.ValidatePersonal | backend/src/models/usersModel.js:26-31 | the name and profile fields pass exactly when each field validator passes; the result holds their outputs and is valid |
| Users.ValidateQuiz | backend/src/models/usersModel.js:32-36 | the quiz fields pass exactly when each validator passes; missing scores are all zero |
| Users.ValidateFields | backend/src/models/usersModel.js:25-49 | a payload's fields pass exactly when both halves do; the result is valid |
| Users.AssertFinalizedQuizData | backend/src/models/usersModel.js:15-23 | finalized data must have scores adding up to 30 and a profile; otherwise the sum error names the total |
| Users.ValidateUserPayload | backend/src/models/usersModel.js:25-56 | a payload passes exactly when its fields do and, when finalisation is required, the scores add up to 30 |
| Users.GetUserRecordById | backend/src/models/usersModel.js:91-96 | a valid id finds the record stored under its trimmed form, or none |
| Users.CreateOutcome | backend/src/models/usersModel.js:58-89 | a record is created exactly when the payload and the id pass and the id is new; it holds the validated fields and the creation time |
| Users.CreateUserRecord | backend/src/models/usersModel.js:58-89 | the created record is inserted under its id; a refusal changes nothing |
| Users.CreateThenGet | backend/src/models/usersModel.js:58-96 | a created record reads back by its id; the table stays valid and gains exactly that key |
| Users.Coalesce | backend/src/models/usersModel.js:114-123 | `a ?? b` is null only when both are |
| Users.MergeScore | backend/src/models/usersModel.js:124-129 | a merged score is always present: the nested score, else the flat one, else the stored one |
| Users.UpdateOutcome | backend/src/models/usersModel.js:106-175 | a missing record gives "User record not found"; a success keeps the record's id and creation time and holds valid fields |
| Users.MergeUser | backend/src/models/usersModel.js:113-131 | a given first name or profile wins over the stored one, a missing one keeps it; the merge always carries a profile, so the finalised-quiz check always applies |
| Users.ShouldRequireFinalized | backend/src/models/usersModel.js:133 | the finalised-quiz check applies when a profile, a chosen major or a satisfaction score is present; `MergeUser` shows a merge always has a profile |
| Users.UpdateUserRecord | backend/src/models/usersModel.js:106-175 | the re-validated record replaces the stored one; a failure changes nothing |
| Users.EmptyUpdate | backend/src/models/usersModel.js:133-134 | an empty update returns the stored record when its scores add up to 30, and the sum error otherwise |
| Users.UpdateNeedsThirty | backend/src/models/usersModel.js:133-134 | whatever it carries, a successful update leaves scores adding up to 30 |
| Users.UpdateKeepsUnmentioned | backend/src/models/usersModel.js:113-131 | every field the update leaves out keeps its stored value |
| Users.PersonalKept | backend/src/models/usersModel.js:113-119 | profile fields left out of an update re-validate to their stored values |
| Users.QuizKept | backend/src/models/usersModel.js:120-131 | quiz fields left out of an update re-validate to their stored values |
| Users.UpdateAppliesGiven | backend/src/models/usersModel.js:120-128 | scores given under `scores` win and are stored; a given profile is stored normalised |
| Users.QuizApplied | backend/src/models/usersModel.js:120-128 | the same, for the quiz half of the merged payload |
| Users.UpdateKeepsValid | backend/src/models/usersModel.js:106-175 | an update keeps the table valid, and the record reads back |
| Users.StoredRevalidates | backend/src/models/usersModel.js:113-131 | a stored record merged with no changes validates to its own fields |
| Users.PersonalRevalidates | backend/src/models/usersModel.js:113-119 | the same, for the profile fields |
| Users.QuizRevalidates | backend/src/models/usersModel.js:120-131 | the same, for the quiz fields |
| Users.GenderFixed | backend/src/models/usersModel.js:28 | a stored gender passes unchanged |
| Users.EducationFixed | backend/src/models/usersModel.js:29 | a stored level passes unchanged |
| Users.SubjectFixed | backend/src/models/usersModel.js:30-31 | a stored subject passes unchanged |
| Users.MajorFixed | backend/src/models/usersModel.js:35 | a stored major passes unchanged |
| Users.ProfileFixed | backend/src/models/usersModel.js:34 | a stored profile passes unchanged |
| Users.DeleteUserRecord | backend/src/models/usersModel.js:177-183 | a valid id is removed, and the result says whether it was present |
| Users.CountFollowsCreateAndDelete | backend/src/models/usersModel.js:185-189 | a create adds one to the count, deleting a present id takes one away, and deleting an absent id changes nothing |
| Users.ListLimit | backend/src/models/usersModel.js:100 | the page size is the parsed limit clamped to 1 … 500, and 100 when it is absent or 0 |
| Users.ListOffset | backend/src/models/usersModel.js:101 | the offset is the parsed value when it is not negative, and 0 otherwise |
| Majors.NormalizeLetter | backend/src/majorService.js:79-83 | a non-blank code becomes its first trimmed character upper-cased; a blank one becomes empty |
| Majors.CodesOf | backend/src/majorService.js:89-92 | each code is one character that is not white space |
| Majors.CodesOfAppend | backend/src/majorService.js:89-92 | the codes of a concatenation are the codes of its parts |
| Majors.CodesOfChar | backend/src/majorService.js:89-92 | a space gives no code; any other character gives its upper-case form |
| Majors.ParseRow | backend/src/majorService.js:85-94 | the major's name is the trimmed first cell, with at most one code per character of the second |
| Majors.ParseRows | backend/src/majorService.js:21-24 | each sheet row is parsed in order |
| Majors.KeepMajors | backend/src/majorService.js:24 | keeps exactly the majors with a name and codes |
| Majors.CatalogFromRows | backend/src/majorService.js:21-24 | every catalog entry has a name and codes |
| Majors.CatalogMembersParsed | backend/src/majorService.js:21-24 | every catalog entry is a parsed data row below the header |
| Majors.CatalogKeepsRow | backend/src/majorService.js:21-24 | every parsed data row with a name and codes is in the catalog |
| Majors.KeepRiasec | backend/src/majorService.js:38-39 | only RIASEC letters survive |
| Majors.SanitizeProfile | backend/src/majorService.js:37-41 | the cleaned profile holds at most six RIASEC letters |
| Majors.KeepRiasecFixed | backend/src/majorService.js:38-39 | a string of RIASEC letters is kept whole |
| Majors.SanitizeProfileFixed | backend/src/majorService.js:37-41 | a profile is its own cleaned form |
| Majors.SanitizeProfileIdempotent | backend/src/majorService.js:37-41 | cleaning twice is cleaning once |
| Majors.LastWeight | backend/src/majorService.js:45-51 | a letter has a positive weight exactly when it is in the profile, at most the top weight |
| Majors.SumWeights | backend/src/majorService.js:53-62 | the total is at most the top weight per code |
| Majors.ScoreMajor | backend/src/majorService.js:35-65 | the loop computes the major's score for the profile |
| Majors.BuildWeightMap | backend/src/majorService.js:45-51 | the map holds exactly the profile's letters, each with its last position's weight |
| Majors.NoLettersScoreZero | backend/src/majorService.js:36-43 | a profile without RIASEC letters scores every major 0 |
| Majors.SumWeightsAppend | backend/src/majorService.js:53-62 | the sum over concatenated codes adds up |
| Majors.MajorScoreAppend | backend/src/majorService.js:53-62 | a major's score is additive over its codes |
| Majors.MajorScore | backend/src/majorService.js:35-65 | no profile gives 0, and each code adds at most the top weight |
| Majors.ProfileLetterWeight | backend/src/majorService.js:10 | in a profile without repeats, the i-th letter weighs the i-th weight |
| Majors.CodeWeightOfLetter | backend/src/majorService.js:56-60 | a one-letter code weighs its letter's weight |
| Majors.NormalizeUpperLetter | backend/src/majorService.js:79-83 | an upper-case letter normalises to itself |
| Majors.ExampleScores | backend/src/majorService.js:35-65 | with profile RIASEC, codes R and I score 1 + 1/2 and code C scores 1/6 |
| Majors.RepeatedLetterOverwrites | backend/src/majorService.js:46-51 | a repeated letter keeps the weight of its last position |
| Majors.RanksBeforeStrictOrder | backend/src/majorService.js:75 | higher score first, then by name, is a strict order |
| Majors.RanksBeforeWeakOrder | backend/src/majorService.js:75 | the ranking order is a strict weak order: entries it does not separate share their score and name |
| Majors.ScoreAll | backend/src/majorService.js:70-74 | each catalog entry is scored in place |
| Majors.RankMajorsSorted | backend/src/majorService.js:75 | the ranking is a permutation of the scored catalog in ranking order |
| Majors.RankMajorsStable | backend/src/majorService.js:75 | the ranking is stable, as JavaScript's sort is: entries with the same score and name keep their catalog order |
| Majors.RankMajors | backend/src/majorService.js:70-75 | the ranking holds one entry per catalog major |
| Majors.SafeLimit | backend/src/majorService.js:69 | for a positive finite limit, the smaller of its floor and the catalog size; otherwise the smaller of the default 15 and the catalog size; at least 1 for a limit of 1 or more and a non-empty catalog |
| Majors.TopPrefix | backend/src/majorService.js:76 | no major left out of a top prefix ranks before one kept |
| Majors.MajorCatalog.constructor | backend/src/majorService.js:9 | the catalog starts empty |
| Majors.MajorCatalog.Load | backend/src/majorService.js:13-27 | loading replaces the catalog with the majors parsed from the sheet rows |
| Majors.MajorCatalog.GetRecommendations | backend/src/majorService.js:68-77 | as many majors as the safe limit: exactly the first entries of the full ranking, in ranking order, a sub-multiset of the scored catalog, none outranked by a major left out |
| Majors.MajorCatalog.GetAllMajors | backend/src/majorService.js:30-32 | the whole catalog, in catalog order |
| Submission.ToUpperLetter | backend/src/services/quizPersistenceService.js:9-14 | the trimmed, upper-cased text when it is one RIASEC letter, else empty |
| Submission.ExtractPosition | backend/src/services/quizPersistenceService.js:16-23 | the position of the last character a, b or c (any case); any other id is refused with its error |
| Submission.ExtractOptionId | backend/src/services/quizPersistenceService.js:16-23 | the catalog's option ids read back as their positions |
| Submission.AnswerFor | backend/src/services/quizPersistenceService.js:25-30 | the answer under the numeric key wins over the one under the Q key |
| Submission.AnswerPosition | backend/src/services/quizPersistenceService.js:185-196 | a skipped answer means position 1; an answer not prefixed by its item number is refused; otherwise the position of its suffix |
| Submission.Skipped | backend/src/services/quizPersistenceService.js:187 | only the empty id or a four-letter "pass" in any case counts as skipped |
| Submission.AnswerOptionId | backend/src/services/quizPersistenceService.js:185-196 | an option id of the item gives its own position |
| Submission.PrefixOnly | backend/src/services/quizPersistenceService.js:189-194 | only the prefix is checked, so "12b" counts as item 1, position 2 |
| Submission.ForeignAnswerRefused | backend/src/services/quizPersistenceService.js:189-194 | an option id of another item is refused |
| Submission.ResponseHundredths | backend/src/services/quizPersistenceService.js:32-45 | a positive time comes from a given, parsed entry |
| Submission.ResponseTime | backend/src/services/quizPersistenceService.js:32-45 | the time is never negative |
| Submission.ResponseTimeUnclamped | backend/src/services/quizPersistenceService.js:32-45 | a time over 600 seconds is passed through unclamped, so the validator later refuses it |
| Submission.ResponseTimeKeepsHundredths | backend/src/services/quizPersistenceService.js:32-45 | a time given in hundredths is kept exactly |
| Submission.EnsureTotalThirty | backend/src/services/quizPersistenceService.js:51-56 | the scores pass exactly when they add up to 30; otherwise the error names the total |
| Submission.BuildProfile | backend/src/services/quizPersistenceService.js:58-67 | the result is a profile sorted by score, ties alphabetical |
| Submission.BuildProfileOrdered | backend/src/services/quizPersistenceService.js:58-67 | scores never increase along the profile, and it is the only sorted permutation of RIASEC |
| Submission.AllRealisticProfile | backend/src/services/quizPersistenceService.js:58-67 | 30 points on R give "RACEIS" |
| Submission.EvenProfile | backend/src/services/quizPersistenceService.js:58-67 | equal scores give "ACEIRS" |
| Submission.ToOptionalText | backend/src/services/quizPersistenceService.js:97-102 | a blank text gives null; otherwise a prefix of the trimmed text, cut to the maximum length |
| Submission.OptionalTextCutLeavesSpace | backend/src/services/quizPersistenceService.js:97-102 | cutting can leave a trailing space |
| Submission.QuestionOptionRows | backend/src/services/quizPersistenceService.js:89-95 | 30 rows, each with well-shaped options |
| Submission.ItemOptions | backend/src/services/quizPersistenceService.js:89-95 | the options of an item are well shaped |
| Submission.RowOptionsOfMatrix | backend/src/services/quizPersistenceService.js:89-95 | the rows carry the same options as the seeded questions |
| Submission.RowForShape | backend/src/services/quizPersistenceService.js:181-211 | an item's row is built exactly when its answer gives a position; it holds that position's letter and the item's time |
| Submission.RowForPosition | backend/src/services/quizPersistenceService.js:181-211 | with a known position, the built row is the expected one |
| Submission.ChosenRowExpected | backend/src/services/quizPersistenceService.js:197-211 | the row for a position and time is the expected one |
| Submission.AnswerRows | backend/src/services/quizPersistenceService.js:177-212 | a fully answered quiz gives 30 rows |
| Submission.ChosenCode | backend/src/services/quizPersistenceService.js:197-198 | the chosen code is the letter at the chosen position |
| Submission.ExpectedRowValidates | backend/src/services/quizPersistenceService.js:199-219 | an item's row passes response validation exactly when its time is at most 600 seconds, and is stored as built |
| Submission.ExpectedCode | backend/src/services/quizPersistenceService.js:197-198 | the code stored for an item is the matrix letter of the chosen option |
| Submission.BuildResponseRows | backend/src/services/quizPersistenceService.js:177-212 | 30 rows exactly when every item's answer gives a position; otherwise the first refused item's error |
| Submission.AnsweredUpToAll | backend/src/services/quizPersistenceService.js:181-196 | the items answered so far are exactly those whose answer gives a position |
| Submission.WithoutUserResponsesKeeps | backend/src/services/quizPersistenceService.js:218 | deleting the user's responses keeps exactly everyone else's |
| Submission.WithoutUserResponses | backend/src/services/quizPersistenceService.js:218 | the rows left are stored rows, unchanged, of other users |
| Submission.HasAttempt | backend/src/services/quizPersistenceService.js:146-158 | true exactly when the user's id is among the user ids of the recommendation table |
| Submission.DeleteUserResponses | backend/src/services/quizPersistenceService.js:218 | the response table afterwards is the table without the user's rows |
| Submission.WithoutUserRecommendationsKeeps | backend/src/services/quizPersistenceService.js:245 | deleting the user's recommendations keeps exactly everyone else's |
| Submission.NoAttemptNothingDeleted | backend/src/services/quizPersistenceService.js:245 | a user without recommendations loses nothing |
| Submission.DeleteUserRecommendations | backend/src/services/quizPersistenceService.js:245 | the table afterwards is the table without the user's rows |
| Submission.StoreRecommendations | backend/src/services/quizPersistenceService.js:246-260 | the top majors are inserted in order |
| Submission.RecommendationsAfter | backend/src/services/quizPersistenceService.js:246-260 | the insert loop leaves every row of other users as it was |
| Submission.RecommendationKeys | backend/src/services/quizPersistenceService.js:246-260 | the new keys are the user's ranks whose major name is not blank |
| Submission.RecommendationRows | backend/src/services/quizPersistenceService.js:246-260 | each non-blank major is stored at its rank with its trimmed name and score |
| Submission.RecommendationsKeepOthers | backend/src/services/quizPersistenceService.js:246-260 | other users' recommendations are kept |
| Submission.CodeGroups | backend/src/services/quizPersistenceService.js:69-77 | one group per chosen code of the user, with the number of rows carrying it |
| Submission.WithScore | backend/src/services/quizPersistenceService.js:80-84 | sets one letter's count, every other count unchanged |
| Submission.ComputeScoresFromStoredResponses | backend/src/services/quizPersistenceService.js:69-87 | the counts read from the groups, in any group order, checked to add up to 30 |
| Submission.NoGroupsRead | backend/src/services/quizPersistenceService.js:78 | before reading any group all counts are zero |
| Submission.GroupRead | backend/src/services/quizPersistenceService.js:79-86 | reading one more group keeps the counts consistent with the groups read |
| Submission.GroupGivesCount | backend/src/services/quizPersistenceService.js:69-87 | when the codes are letters, each letter's count is the number of the user's rows with it |
| Submission.GroupsGiveCounts | backend/src/services/quizPersistenceService.js:69-87 | the recounted scores are the stored tally |
| Submission.DisplayName | backend/src/services/quizPersistenceService.js:110-117 | the first given name wins, trimmed and cut to 50; a name of spaces alone gives empty; the fallback when nothing is given |
| Submission.PrepareUser | backend/src/services/quizPersistenceService.js:105-143 | a blank account id is refused; otherwise the trimmed id with the optional fields and a validated satisfaction score |
| Submission.QuizUpdateStores | backend/src/services/quizPersistenceService.js:235-243 | a successful quiz update stores the recounted scores and their profile |
| Submission.StoredAnswerRows | backend/src/services/quizPersistenceService.js:218-222 | the rows the bulk insert creates are the expected answer rows |
| Submission.BulkReplaces | backend/src/services/quizPersistenceService.js:218-219 | delete and then insert replaces exactly the user's responses |
| Submission.StoreAnswers | backend/src/services/quizPersistenceService.js:177-222 | an unanswerable submission changes nothing; success stores exactly the 30 expected rows in place of the user's old ones |
| Submission.ReplacedCodesAreLetters | backend/src/services/quizPersistenceService.js:218-222 | after the replacement every code of the user is a letter |
| Submission.AnswerRowsLetters | backend/src/services/quizPersistenceService.js:197-211 | each answer row carries the chosen letter |
| Submission.ChosenLetter | backend/src/services/quizPersistenceService.js:197-198 | each item's chosen letter is a RIASEC letter |
| Submission.ChosenLetters | backend/src/services/quizPersistenceService.js:181-211 | one chosen letter per item, 30 in all |
| Submission.TallyTotal | backend/src/services/quizPersistenceService.js:224 | tallying n letters gives n points |
| Submission.LetterIdsCount | backend/src/services/quizPersistenceService.js:69-87 | the number of rows with a letter is that letter's tally |
| Submission.ReplacedLetterIds | backend/src/services/quizPersistenceService.js:218-224 | after replacement the user's rows with a letter are the new rows with it |
| Submission.StoredLetterCount | backend/src/services/quizPersistenceService.js:218-224 | the stored count of each letter is its tally among the answers |
| Submission.StoredTallyOfAnswers | backend/src/services/quizPersistenceService.js:218-224 | the stored tally is the tally of the chosen letters |
| Submission.AnswerIdsDistinct | backend/src/services/quizPersistenceService.js:204 | the 30 response ids are different |
| Submission.ResponseIdsDiffer | backend/src/services/quizPersistenceService.js:204 | two items never share a response id |
| Submission.RecountOfAnswers | backend/src/services/quizPersistenceService.js:224 | the recount adds up to 30 and equals the tally of the answers |
| Submission.TopMajorsBest | backend/src/services/quizPersistenceService.js:226-233 | ten majors, or all when there are fewer, in ranking order, none outranked by one left out |
| Submission.TopMajors | backend/src/services/quizPersistenceService.js:226-233 | ten majors, or all of them when there are fewer |
| Submission.GetOrCreateOutcome | backend/src/services/quizPersistenceService.js:159-175 | the user found or created has the prepared id |
| Submission.GetOrCreateTooLong | backend/src/services/quizPersistenceService.js:159 | an id over 128 characters fails the lookup |
| Submission.GetOrCreateExisting | backend/src/services/quizPersistenceService.js:159-160 | an existing user is returned as stored |
| Submission.GetOrCreateNew | backend/src/services/quizPersistenceService.js:160-175 | a new user is created from the prepared fields, without finalisation |
| Submission.GetOrCreateUser | backend/src/services/quizPersistenceService.js:159-175 | only a newly created user is added to the table |
| Submission.WithUser | backend/src/services/quizPersistenceService.js:159-175 | the users table once the user's record exists: every earlier record kept, at most the user's id added |
| Submission.RecountLetterRows | backend/src/services/quizPersistenceService.js:224 | the recount is the stored tally, checked to add up to 30 |
| Submission.RecordQuizResult | backend/src/services/quizPersistenceService.js:235-243 | the outcome is the merge-and-revalidate update of the user's record with the prepared fields, the scores and the profile built from them; on success that record, and only it, is replaced |
| Submission.UserRowUpdatedFrame | backend/src/services/quizPersistenceService.js:235-243 | the quiz update adds no key, keeps every other record, and keeps the user's id and creation time |
| Submission.UserRowUpdatedStores | backend/src/services/quizPersistenceService.js:235-243 | after the quiz update the user's record holds the scores and the profile built from them |
| Submission.ReplaceRecommendations | backend/src/services/quizPersistenceService.js:245-260 | the user's recommendations are replaced by the given top list |
| Submission.RecordRecount | backend/src/services/quizPersistenceService.js:224-243 | the recount is the stored tally; the user's record, and no other, becomes its merge with the tally and the profile built from it |
| Submission.RecommendFor | backend/src/services/quizPersistenceService.js:226-260 | the user's recommendations become the top ten for the profile of the scores |
| Submission.ReadBack | backend/src/services/quizPersistenceService.js:262 | the user as stored, or none |
| Submission.FinishAttempt | backend/src/services/quizPersistenceService.js:224-267 | the recount is merged into the user's record alone with its profile, its top ten is stored, and the stored user comes back |
| Submission.CompleteAttempt | backend/src/services/quizPersistenceService.js:177-267 | a success records the whole attempt: 30 rows replacing the user's old ones, the user's record and no other merged with the tally and profile, the top ten stored |
| Submission.RunSubmission | backend/src/services/quizPersistenceService.js:145-268 | a user who already has recommendations is refused; a success creates the user's record if missing and records the whole attempt, touching no other user's record |
| QuizTransaction.InTransaction | backend/src/db.js:102-119 | a failure rolls every table back; a success records the attempt on the user's record (created if missing), no other user's record, and leaves the questions alone |
| QuizTransaction.SaveQuizSubmission | backend/src/services/quizPersistenceService.js:104-269 | a refused account or a repeated attempt changes nothing and says why; a success records the attempt on the user's record (created if missing) and no other |
| UserStore.KeyCollision | backend/src/userStore.js:40-41 | two different name pairs can share a key, because "\|" may appear inside a name |
| UserStore.KeyIgnoresCaseAndSpace | backend/src/userStore.js:36-42 | the key ignores surrounding spaces and letter case |
| UserStore.FirstIndex | backend/src/userStore.js:56-57 | the first position holding the key, or none when no position does |
| UserStore.FindByKey | backend/src/userStore.js:56-57 | the first user with the key, or none when no user has it |
| UserStore.FindById | backend/src/userStore.js:73-75 | the first user with the id, or none when no user has it |
| UserStore.Prepended | backend/src/userStore.js:97-102 | the new result goes in front of the old ones; the user is otherwise unchanged |
| UserStore.CreatedIsFound | backend/src/userStore.js:58-68 | a user added under a new key is found under it |
| UserStore.RecordKeepsLookup | backend/src/userStore.js:85-105 | recording a result keeps the user findable, puts the result first, and leaves other users alone |
| UserStore.UserCache.constructor | backend/src/userStore.js:44-47 | the cache starts with no users |
| UserStore.UserCache.GetOrCreateUser | backend/src/userStore.js:49-71 | blank names are refused; an existing key returns that user; otherwise a new user is appended; the user is findable by id |
| UserStore.UserCache.GetUserById | backend/src/userStore.js:73-75 | the first user in the list with the id, or none exactly when no user has it |
| UserStore.UserCache.GetUserResults | backend/src/userStore.js:77-83 | "User not found" exactly when no user has the id; otherwise the results of the first user with it |
| UserStore.NormalizeKey | backend/src/userStore.js:40-42 | the trimmed name and surname joined by "|", lower-cased: no upper-case letter, the bar right after the name |
| UserStore.UserCache.RecordUserResult | backend/src/userStore.js:85-105 | a missing user gives "User not found" and no change; otherwise the stored result is put first in that user's results |
| AuthStore.OrDefault | backend/src/authStore.js:52 | a given non-empty value, else the default |
| AuthStore.CredentialOf | backend/src/authStore.js:48-56 | the credential keeps the user id and password, and is verified now unless a time is given |
| AuthStore.VerificationOf | backend/src/authStore.js:62-72 | the verification keeps the code, password and expiry, counts given attempts (0 by default), and is created now unless a time is given |
| AuthStore.Incremented | backend/src/authStore.js:74-80 | one more attempt, everything else kept |
| AuthStore.IncrementsCount | backend/src/authStore.js:74-80 | n increments add n attempts and keep the code and expiry |
| AuthStore.AuthCache.constructor | backend/src/authStore.js:39-42 | the store starts empty |
| AuthStore.AuthCache.GetCredential | backend/src/authStore.js:44-46 | the stored credential, or none exactly when the address has none |
| AuthStore.AuthCache.SaveCredential | backend/src/authStore.js:48-56 | the credential is stored under the address, replacing any old one, and reads back |
| AuthStore.AuthCache.GetVerification | backend/src/authStore.js:58-60 | the stored verification, or none exactly when the address has none |
| AuthStore.AuthCache.SaveVerification | backend/src/authStore.js:62-72 | the verification is stored under the address and reads back |
| AuthStore.AuthCache.IncrementVerificationAttempt | backend/src/authStore.js:74-80 | a pending verification gets one more attempt; without one nothing changes |
| AuthStore.AuthCache.ClearVerification | backend/src/authStore.js:82-87 | the address's verification is removed |
| Server.Any | backend/src/server.js:24 | some character has the property |
| Server.IndexOf | backend/src/server.js:24 | the first position of the character, or none |
| Server.ValidEmailMatches | backend/src/server.js:24 | every address the check accepts matches the pattern |
| Server.PatternValid | backend/src/server.js:24 | every string of the pattern's shape is accepted |
| Server.IsValidEmailMatchesPattern | backend/src/server.js:24 | the check accepts exactly the strings the pattern matches |
| Server.IsValidEmail | backend/src/server.js:24 | an accepted address has no white space, contains "@" and does not start with it |
| Server.IsStrongPassword | backend/src/server.js:25-33 | a string of at least 8 characters with an upper-case letter, a digit and a symbol |
| Server.NormalizeEmailIdempotent | backend/src/server.js:35 | normalising twice is normalising once |
| Server.NormalizeEmail | backend/src/server.js:35 | the normalised address is no longer than the input and has no upper-case letter |
| Server.LocalPartBeforeAt | backend/src/server.js:38 | the local part has no "@" and is where the address starts |
| Server.Collapse | backend/src/server.js:39 | runs of other characters become single spaces; the start is kept when it is a word character |
| Server.CollapseKeepsWordChars | backend/src/server.js:39 | the letters and digits are kept in order |
| Server.NormalizedShape | backend/src/server.js:39 | the trimmed, collapsed local part is well spaced |
| Server.NonEmpty | backend/src/server.js:40 | only non-empty parts are kept, and none are dropped when none are empty |
| Server.SplitSingleSpaces | backend/src/server.js:40 | splitting a well-spaced string gives non-empty words of letters and digits |
| Server.ToNameParts | backend/src/server.js:37-44 | the name and the surname are never empty |
| Server.NamePartsOf | backend/src/server.js:41-42 | the name and the surname are never empty |
| Server.ToNamePartsMeaning | backend/src/server.js:37-44 | no words give "User Account"; one word gives it with "Account"; otherwise name and surname rejoin to the normalised local part |
| Server.WellSpacedNameParts | backend/src/server.js:40-42 | the same, for the words of any well-spaced string |
| Server.NamePartsNotBlank | backend/src/server.js:37-44 | the name parts pass the user store's blank-name check |
| Server.RecommendProfile | backend/src/server.js:155-162 | a missing profile and a profile without RIASEC letters are refused with their errors; otherwise the cleaned profile |
| Server.RegisterCheck | backend/src/server.js:92-105 | invalid input exactly when the address or password is missing, empty or not an address; a weak password exactly when the input is well formed but the password is not strong; already registered exactly when both pass and the normalised address is known; otherwise accepted, giving the normalised address |
| Server.Enrol | backend/src/server.js:107-110 | the user found by normalised name is returned with the table unchanged, or a new user with the trimmed names is appended; a credential pointing at that user is stored under the address |
| Server.Register | backend/src/server.js:90-115 | a refused registration changes nothing; an accepted one stores a credential for the normalised address and finds or appends the user named from the address, as in `Enrol` |
| ScoringHook.NormalizeLetter | frontend/src/hooks/useRiasecScoring.ts:7-13 | a one-character text whose upper case is a RIASEC letter gives that letter, else none |
| ScoringHook.AddCode | frontend/src/hooks/useRiasecScoring.ts:18-29 | the record is either unchanged or has one more point for the upper-cased first character of the code, a RIASEC letter |
| ScoringHook.SortScores | frontend/src/hooks/useRiasecScoring.ts:33-37 | the entries of the ranked letters; that they hold each letter once with its count, highest first, ties in R I A S E C order, is `SortScoresOrdered` |
| ScoringHook.Reset | frontend/src/hooks/useRiasecScoring.ts:31 | reset scores total zero |
| ScoringHook.ResetClears | frontend/src/hooks/useRiasecScoring.ts:4 | every count is zero after a reset, as for no codes |
| ScoringHook.AddCodeCounts | frontend/src/hooks/useRiasecScoring.ts:18-29 | a code adds one to the letter of its first character; any other code changes nothing |
| ScoringHook.AddCodeTotal | frontend/src/hooks/useRiasecScoring.ts:18-29 | the total grows by one exactly for a code starting with a RIASEC letter |
| ScoringHook.TallyCounts | frontend/src/hooks/useRiasecScoring.ts:18-29 | each letter's count is the number of codes starting with it |
| ScoringHook.Entries | frontend/src/hooks/useRiasecScoring.ts:34-35 | one entry per letter, carrying the letter's score |
| ScoringHook.LettersOf | frontend/src/hooks/useRiasecScoring.ts:44-46 | the letters of the entries in order |
| ScoringHook.EntriesOrdered | frontend/src/hooks/useRiasecScoring.ts:33-37 | for a sorted profile, one entry per letter, scores never increasing, ties in R I A S E C order |
| ScoringHook.SortScoresOrdered | frontend/src/hooks/useRiasecScoring.ts:33-37 | the sorted entries hold each letter once with its score, highest first, ties in R I A S E C order |
| ScoringHook.GetProfileString | frontend/src/hooks/useRiasecScoring.ts:41-49 | the result is a profile sorted by score, ties in R I A S E C order |
| ScoringHook.GetProfileStringUnique | frontend/src/hooks/useRiasecScoring.ts:41-49 | it is the only such permutation |
| ScoringHook.TieRulesDiffer | frontend/src/hooks/useRiasecScoring.ts:34-36 | for equal scores the frontend gives "RIASEC" while the backend gives "ACEIRS" |
| ScoringHook.ProfilesAgreeWithoutTies | frontend/src/hooks/useRiasecScoring.ts:41-49 | when all scores differ, frontend and backend build the same profile |
| Config.StripTrailingSlashes | frontend/src/config.ts:3 | the result is the input without its trailing slashes |
| Config.StripTrailingSlashesIdempotent | frontend/src/config.ts:3 | stripping twice is stripping once |
| Config.ApiBase | frontend/src/config.ts:1-3 | a blank, "undefined" or "null" setting (after trimming) gives no base; otherwise the trimmed setting with exactly its trailing slashes removed, never ending in "/" |
| Config.ApiBaseExample | frontend/src/config.ts:1-3 | concrete settings: a plain base is kept, trailing slashes are cut, "null" and an unset variable give no base |
| Config.OnlySlashesGiveNoBase | frontend/src/config.ts:1-3 | a setting of slashes alone gives no base |
| Config.NormalizePath | frontend/src/config.ts:7 | the path starts with "/", which is added only when missing |
| Config.NormalizePathIdempotent | frontend/src/config.ts:7 | normalising twice is normalising once |
| Config.BuildApiUrlSplits | frontend/src/config.ts:6-13 | the URL is the normalised path, preceded by the base outside development |
| Config.BuildApiUrl | frontend/src/config.ts:6-13 | the URL always ends with the path, given a leading "/" when it lacks one |
| Config.SingleSlashAtJoin | frontend/src/config.ts:12 | base and path meet at exactly one "/" |
| LoginForm.LooksLikeEmail | frontend/src/components/LoginForm.tsx:22 | the trimmed value matches the e-mail pattern |
| LoginForm.Kept | frontend/src/components/LoginForm.tsx:30 | a kept entry is a non-empty normalised address |
| LoginForm.KeepAddresses | frontend/src/components/LoginForm.tsx:30 | every kept entry is a non-empty normalised address |
| LoginForm.KeepAddressesMembers | frontend/src/components/LoginForm.tsx:30 | an address is kept exactly when some string entry normalises to it |
| LoginForm.KeepAddressesAppend | frontend/src/components/LoginForm.tsx:30 | filtering a concatenation filters each part |
| LoginForm.ParseEmailHistory | frontend/src/components/LoginForm.tsx:24-34 | an unreadable history is empty; every entry is a non-empty normalised address |
| LoginForm.Without | frontend/src/components/LoginForm.tsx:108 | exactly the other entries remain |
| LoginForm.WithoutKeepsOrder | frontend/src/components/LoginForm.tsx:108 | the remaining entries keep their order, and stay without repeats |
| LoginForm.RememberEmail | frontend/src/components/LoginForm.tsx:104-112 | a blank address leaves the history unchanged |
| LoginForm.RememberEmailFront | frontend/src/components/LoginForm.tsx:105-108 | the address goes first, once, followed by the earlier entries without it, in their order, at most ten in all |
| LoginForm.RememberEmailWellFormed | frontend/src/components/LoginForm.tsx:104-112 | the history stays non-empty, normalised addresses without repeats |
| LoginForm.Matching | frontend/src/components/LoginForm.tsx:72 | exactly the saved addresses containing the query |
| LoginForm.MatchingKeepsOrder | frontend/src/components/LoginForm.tsx:72 | matches keep their order, and an empty query keeps all |
| LoginForm.EmailSuggestions | frontend/src/components/LoginForm.tsx:69-74 | at most ten suggestions |
| LoginForm.EmailSuggestionsMeaning | frontend/src/components/LoginForm.tsx:69-74 | exactly the first ten (or all, when fewer) saved addresses containing the normalised input, in their saved order; all saved addresses match an empty input |
| LoginForm.ValidUsernameNotEmail | frontend/src/components/LoginForm.tsx:223 | a valid username never looks like an e-mail address |
| LoginForm.ValidUsername | frontend/src/components/LoginForm.tsx:223 | an accepted username has at least three characters and no "@" once trimmed |

## Left out

- File persistence of the user and credential stores is left out. The caches start empty, and the JSON files are neither read nor written.
- `randomUUID()`, `Date.now()` and `new Date().toISOString()` are parameters.
- The transaction queue of `withTransaction` is left out. Concurrent transactions are not modelled; a single transaction runs at a time.
- The database schema file is not part of this model. Only primary keys are modelled. Foreign keys and column types are left out.
- A duplicate primary key fails with the sqlite3 driver's text (`SQLITE_CONSTRAINT: UNIQUE constraint failed: <table>.<column>`). The driver's error code and any other engine error are left out.
- `Number.parseInt` and `Number.parseFloat` are abstracted as `Raw` values. An input is missing, blank, or given with its parsed value or none; the digit-prefix parsing itself is left out.
- Case mapping covers ASCII letters only. JavaScript's `toUpperCase` also maps letters such as 'ı' and 'ſ'.
- `\p{L}` is the parameter `isLetter`.
- String length counts characters, not UTF-16 code units.
- `localeCompare` is ordinal (code point) order.
- Floating-point arithmetic is left out. Major scores are exact integers scaled by 60, and `toFixed(2)` on stored recommendation scores is left out.
- Response times are exact hundredths.
- The length checks of quizPersistenceService.js:214-216 and 220-222 are left out. They cannot fail: they are 30 by construction.
- Submission.ComputeScoresFromStoredResponses: the order of the `GROUP BY` rows is not fixed. The result is stated for any order in which the groups are read.
- `listUserRecords`: only the limit and offset clamps are modelled. The page and its `ORDER BY created_at DESC` are left out, because records created in the same millisecond have no defined order.
- Majors.MajorCatalog.GetAllMajors: values stand for the copied array, so aliasing is not modelled.
- The XLSX reading of `loadMajorsFromWorkbook` is left out. The sheet arrives as rows of cells.
- The directory listing and file-name sort of `buildImagePools` are left out. The pools are a constructor parameter.
- UserStore.UserCache.GetUserById: returns a value, while the source returns the live object that `recordUserResult` then mutates. The mutation is modelled in `RecordUserResult`.
- Server.Register: a non-string email or password is `None`. Users whose addresses give the same name parts share one user record, as in the source.
- Only `/api/auth/register` and `/api/recommend` among the Express routes are modelled. Login, verification, password reset, Google sign-in, quiz submission plumbing, HTTP status codes, CORS and logging are left out.
- React state, `useMemo`/`useCallback`, `localStorage` and `JSON.parse` are left out. The history arrives as an already parsed list, or none when unreadable.
- `import.meta.env.DEV` and `VITE_API_BASE` are parameters.
- ScoringHook.Reset: takes and returns a score record instead of setting hook state. `getSortedProfile` is `SortScores` on the current record.
- Config.ApiBase: is not idempotent, since "undefined/" gives "undefined". No idempotence is claimed; the single slash at the join is proved instead.
