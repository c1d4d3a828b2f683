# MindSpark quiz scoring core, modelled in Dafny

This project models the quiz application's scoring pipeline and the small validators and list
operations around it, and proves properties of each:

- **Quiz generation and submission** (`QuizViews`). The database is an in-memory `Database`
  class. `generate_quiz_view` is a loop that stores each generated question with `order = i + 1`.
  `submit_quiz_view` creates a score-0 attempt, writes one answer row per question, then stores
  the score and the integer percentage and refreshes the user's profile. Also modelled:
  `register_view`'s three rejection checks and `theme_delete`'s guards.
- **Stored entities and profile statistics** (`QuizModels`): `Question.options`, the
  `correct_option` choices (an invariant of the stored questions), and `UserProfile.update_stats`. The statistics are given by a pure
  specification (`Refreshed`), and the class method is proved to implement it.
- **Post-processing of the AI response** (`GeminiService`): the bracket fallback applied to the
  raw text, and the truncate-then-filter validation loop. The loop follows Python's semantics
  for `key in q`, `len` and chained comparisons on arbitrary JSON values.
- **Theme form cross-field check** (`ThemeForms`): `ThemeCustomizationForm.clean` with its
  opacity loop and its two font-size checks. Each error goes through `add_error`, which records
  the message and removes the field from the cleaned data.
- **Browser account store** (`StorageService`): `saveUser`, `updateUser`, `login`, `logout` and
  `addQuizResult`. These work over a users list and a session-user slot, kept as two fields of
  `LocalStore`.
- **Result card** (`ResultCard`): the performance band for a score percentage, and the
  correct/incorrect split.
- **Profile page** (`UserProfileComponent`): `getAvatarUrl`, the preview address, and
  `handleSubmit`, which chooses the changed fields and updates the page state for each outcome.

`Wrappers` holds the shared `Option` and `Result` types. `FrontendTypes` holds the front end's `User` and `QuizResult` records (`types.ts`), and `Text` holds the prefix and suffix tests on strings.

Three behaviours of the code that are easy to miss:

- `generate_quiz_questions` truncates the parsed list to `count` *before* it validates the
  items. An invalid item among the first `count` therefore fails the call even when valid items
  follow (`GeminiService.TruncationBeforeFiltering`).
- `clean` returns the same dictionary that `add_error` removes fields from. So the returned
  cleaned data is unchanged only when no check fails (`ThemeForms.CleanedKeepsValues`).
- `submit_quiz_view` does not run in a transaction, and `settings.py` has no
  `ATOMIC_REQUESTS`. A posted answer that is not a number makes `int()` raise in the middle of
  the loop. So does one outside the signed 64-bit range of SQLite's INTEGER column: Python's
  `sqlite3` raises `OverflowError` when the row is inserted (the project's database is SQLite).
  The score-0 attempt and the rows written so far then stay stored
  (`QuizViews.Database.SubmitQuiz`).

## Model

| member | source | states |
|---|---|---|
| QuizModels.Options | backend/quiz/models.py:55-57 | `Question.options` always has four entries: option a, b, c, d in that order |
| QuizModels.MaxOf | backend/quiz/models.py:105 | the maximum is at least every element and is one of them |
| QuizModels.UserAttempts | backend/quiz/models.py:101 | a user's attempts are exactly the stored attempts with that user id |
| QuizModels.UserAttemptsCounts | backend/quiz/models.py:101 | each of the user's attempts is listed as many times as it is stored, and no other attempt is listed |
| QuizModels.UserAttemptsAppend | backend/quiz/models.py:101 | over two stored blocks, the user's attempts are those of the first block followed by those of the second, so stored order is kept |
| QuizModels.UserAttemptsSnoc | backend/quiz/models.py:101 | a newly stored attempt of the user comes last among the user's attempts; another user's attempt is not listed |
| QuizModels.Percentages | backend/quiz/models.py:104-105 | one percentage per attempt, position by position |
| QuizModels.SumAtMostCountTimesBound | backend/quiz/models.py:104 | a sum of values each at most `hi` is at most count times `hi` |
| QuizModels.SumAtLeastCountTimesBound | backend/quiz/models.py:104 | a sum of values each at least `lo` is at least count times `lo` |
| QuizModels.DivideBelow | backend/quiz/models.py:104 | the true division of the sum by a positive count stays under a bound when the sum is under count times that bound |
| QuizModels.MeanAtMostMax | backend/quiz/models.py:104-105 | the average percentage never exceeds the best percentage |
| QuizModels.Refreshed | backend/quiz/models.py:99-106 | with no attempts the stats are untouched; otherwise the count is the attempt count, the average is the sum of the percentages divided by the count, the best is the maximum (at least every percentage and one of them), and average ≤ best |
| QuizModels.RefreshedIdempotent | backend/quiz/models.py:99-106 | recomputing a second time from the same history changes nothing |
| QuizModels.RefreshedWithinPercentRange | backend/quiz/models.py:103-105 | when every attempt's percentage is within 0..100, so are the average and the best |
| QuizModels.UserProfile.UpdateStats | backend/quiz/models.py:99-106 | the profile's three columns become `Refreshed` of their old values and the percentages of this user's attempts; the other fields stay |
| QuizViews.QuestionRowRoundTrip | backend/quiz/views.py:109-120 | a stored row gives back the generated options as `options`, the generated `correct_index` as `correct_option`, and the given order |
| QuizViews.QuizQuestions | backend/quiz/views.py:156 | a quiz's questions are exactly the stored rows that carry its id |
| QuizViews.QuizQuestionsAppend | backend/quiz/views.py:156 | the questions of a quiz over two stored blocks are the questions in the first block followed by those in the second |
| QuizViews.QuizQuestionsAllOf | backend/quiz/views.py:156 | a block whose rows all belong to the quiz is its own selection |
| QuizViews.QuizQuestionsNoneOf | backend/quiz/views.py:156 | a block with no row of the quiz selects nothing |
| QuizViews.FreshQuizQuestions | backend/quiz/views.py:101-120 | rows written for a new quiz id are exactly that quiz's questions, in the order written |
| QuizViews.Database.GenerateQuiz | backend/quiz/views.py:100-120 | a new quiz is appended; the i-th generated question is stored with the next row id and `order = i + 1`, with its options and correct index; the quiz's questions are exactly these rows in generation order; earlier rows and other tables stay; every stored answer stays one of the four choices 0..3 |
| QuizViews.Database.WriteQuestions | backend/quiz/views.py:108-120 | the question loop appends one row per generated item: the `idx`-th item gets the next row id, the new quiz id and `order = idx + 1`; earlier rows and the other tables stay; every row names an existing quiz and has its correct option in 0..3 |
| QuizViews.FirstUnreadable | backend/quiz/views.py:156-171 | the position of the first question whose posted value cannot be stored, being not a number or outside the signed 64-bit range; every earlier question is readable |
| QuizViews.FirstUnreadableAt | backend/quiz/views.py:156-160 | a question that is the first unreadable one is the one `FirstUnreadable` finds |
| QuizViews.GradeSnoc | backend/quiz/views.py:156-179 | grading one more question appends exactly that question's row |
| QuizViews.GradeOneRowPerQuestion | backend/quiz/views.py:156-179 | one row per question, in question order: an unanswered question gets -1 and is incorrect; an answered one records the posted value, and it is correct iff that value equals `correct_option` (an out-of-range value such as 9 is just incorrect) |
| QuizViews.ReadablePrefix | backend/quiz/views.py:156-160 | every question before the first unreadable one is readable |
| QuizViews.RowsOfAttempt | backend/quiz/views.py:166-179 | every graded row belongs to its attempt |
| QuizViews.CorrectCountBounds | backend/quiz/views.py:163-183 | the score is at most the number of rows; it equals it iff every row is correct, and it is 0 iff none is |
| QuizViews.ScorePercentageBounds | backend/quiz/views.py:182 | for 0 ≤ score ≤ total the percentage is within 0..100; all correct gives 100 and none correct gives 0 |
| QuizViews.AllCorrectFullMarks | backend/quiz/views.py:156-183 | when every question is answered with its correct option the score is the question count and the percentage 100 |
| QuizViews.NothingAnsweredScoresZero | backend/quiz/views.py:172-183 | when nothing is posted the score and the percentage are 0 |
| QuizViews.FourQuestionScenario | backend/quiz/views.py:156-183 | a worked case: four questions answered right, right, with the out-of-range 9, and not at all give score 2 and 50% with no error |
| QuizViews.Database.WriteAnswerRows | backend/quiz/views.py:156-179 | the loop writes the graded rows up to the first value that is not a number or does not fit 64 bits, counts the correct ones, and reports whether it reached the end |
| QuizViews.Database.RecordAttempt | backend/quiz/views.py:143-186 | a score-0 attempt is created, then one row per question; on success the attempt stores the question count, the number of correct rows and the integer percentage; an answer that is not a number or does not fit 64 bits leaves the score-0 attempt and the rows written before it; the quiz tables stay valid, every attempt keeping a score within its question count and the percentage computed from them |
| QuizViews.Database.SubmitQuiz | backend/quiz/views.py:137-193 | a missing or foreign quiz changes nothing; otherwise one row per question, and the attempt stores the question count, the number of correct rows and the integer percentage, and the profile stats become `Refreshed` of the old stats over the user's attempts, which are the earlier ones followed by the new attempt, with admin flag and avatar kept, and the average and best scores within 0..100; an answer that is not a number or does not fit 64 bits leaves the score-0 attempt and the rows written before it, with the profile untouched |
| QuizViews.QuestionRow | backend/quiz/views.py:110-119 | the row `Question.objects.create` writes: the question text, options 0..3 as columns a..d, the correct index as `correct_option`, the explanation and the order |
| QuizViews.AnswerRow | backend/quiz/views.py:157-179 | the row for one question: the posted value and whether it equals `correct_option`, or -1 and incorrect when nothing was posted |
| QuizViews.Grade | backend/quiz/views.py:156-179 | the rows of the grading loop, one `AnswerRow` per question in question order |
| QuizViews.CorrectCount | backend/quiz/views.py:161-164 | `correct_count`: the number of rows marked correct |
| QuizViews.ScorePercentage | backend/quiz/views.py:182 | the floor of `score * 100 / total` when there are questions, and 0 otherwise |
| QuizViews.GradedScoreBound | backend/quiz/views.py:156-183 | the score of a fully graded quiz is at most its question count |
| QuizViews.SixtyFourBitAnswerBoundary | backend/quiz/views.py:160-171 | 2^63 posted as an answer stops grading at its question; 2^63 - 1 is stored as an incorrect answer |
| QuizViews.GradedAttemptValid | backend/quiz/views.py:147-179 | storing an attempt with a valid score and the rows graded before the first unstorable answer keeps the quiz tables valid |
| QuizViews.StoredPercentagesInRange | backend/quiz/models.py:101-105 | in a valid attempt table every percentage the profile refresh reads is within 0..100 |
| QuizViews.RegistrationError | backend/quiz/views.py:29-41 | the rejection is mismatched passwords first, then an existing username, then an existing email, each exactly when the earlier checks pass |
| QuizViews.RegistrationKeepsAccountsUnique | backend/quiz/views.py:33-43 | accepting a registration keeps usernames and emails unique, and the same username is refused afterwards |
| QuizViews.Database.Register | backend/quiz/views.py:21-43 | a rejected registration creates no account; an accepted one appends exactly one |
| QuizViews.AttemptWrittenValid | backend/quiz/views.py:147-186 | an attempt with the next id on an existing quiz, plus answer rows naming it, keeps the quiz tables valid: attempts and answers keep referring to existing rows |
| QuizViews.FindTheme | backend/quiz/views.py:359 | the theme lookup returns a position holding that id, or reports that no theme has it |
| QuizViews.RemoveTheme | backend/quiz/views.py:366 | deleting removes exactly the themes with that id |
| QuizViews.UniqueThemeIdsTail | backend/quiz/views.py:366 | the themes after the first still have unique ids, none equal to the first one's |
| QuizViews.ConsUniqueTheme | backend/quiz/views.py:366 | a theme whose id no theme of a unique list has can be put in front and keeps ids unique |
| QuizViews.RemoveThemeKeepsUnique | backend/quiz/views.py:366 | deleting keeps theme ids unique |
| QuizViews.Database.DeleteTheme | backend/quiz/views.py:353-368 | non-admins are refused, an unknown id is not found, an active theme is refused and kept; only an inactive theme is deleted, and every active theme survives every outcome |
| QuizViews.Database.DropTheme | backend/quiz/views.py:366 | the themes become exactly those with another id, still with unique ids; no other table changes |
| QuizViews.QuizAppendValid | backend/quiz/views.py:101-106 | a new quiz takes the next id |
| QuizViews.QuestionAppendValid | backend/quiz/views.py:110-120 | a new question that refers to an existing quiz and has its correct option in 0..3 keeps the question table valid |
| QuizViews.AttemptsAppendValid | backend/quiz/views.py:147-153 | a new attempt takes the next id, refers to an existing quiz, and has a score within its question count with the percentage computed from them |
| QuizViews.AnswersAppendValid | backend/quiz/views.py:166-179 | answer rows refer to an existing attempt |
| GeminiService.FallbackText | backend/quiz/gemini_service.py:86-92 | the raw text with `[` put in front when it does not start with one and `]` appended when it does not end with one |
| GeminiService.FallbackTextBracketed | backend/quiz/gemini_service.py:86-92 | the fallback text starts with `[` and ends with `]`, and text that already has both is unchanged |
| GeminiService.ExtractJsonText | backend/quiz/gemini_service.py:82-92 | the regex match is used when there is one, otherwise the fallback text; either way the text is bracketed |
| GeminiService.PyPrefix | backend/quiz/gemini_service.py:99-107 | Python's `s[:n]` is a prefix of `s`, of length `min(n, len(s))` for `n ≥ 0` |
| GeminiService.AllPresentOnObject | backend/quiz/gemini_service.py:100 | on a JSON object, the `all(key in q ...)` test is true exactly when every key is in the object |
| GeminiService.CheckItemKeepsWellFormed | backend/quiz/gemini_service.py:100-102 | an item is kept iff it is an object with all four keys, four options and `0 ≤ correct_index ≤ 3` |
| GeminiService.Candidates | backend/quiz/gemini_service.py:99 | `questions[:count]`: a list or a string is sliced with Python's meaning of `count`, a string into one-character items; any other JSON value cannot be sliced |
| GeminiService.CheckItem | backend/quiz/gemini_service.py:100-102 | an item is kept when it has the four keys, four options and a `correct_index` within 0..3; it is dropped when a test is false; it raises when a test meets a value it cannot apply to |
| GeminiService.Kept | backend/quiz/gemini_service.py:98-102 | the kept items are no more than the candidates, and each passes the check |
| GeminiService.KeptKeepsEveryPassing | backend/quiz/gemini_service.py:98-102 | every candidate that passes the check is among the kept items |
| GeminiService.KeptIsSubsequence | backend/quiz/gemini_service.py:98-102 | the kept items are an order-preserving subsequence of the candidates |
| GeminiService.KeptAllWhenAllKept | backend/quiz/gemini_service.py:98-102 | when every candidate passes, all are kept |
| GeminiService.ValidationOutcome | backend/quiz/gemini_service.py:98-107 | the outcome of validation on a parsed value |
| GeminiService.ValidateQuestions | backend/quiz/gemini_service.py:97-107 | the loop over the first `count` candidates returns `ValidationOutcome` |
| GeminiService.GenerateQuizQuestions | backend/quiz/gemini_service.py:80-112 | text the parser rejects fails as malformed JSON; otherwise the outcome is `ValidationOutcome`; on success there are exactly `count` items, each well formed |
| GeminiService.SuccessIsExactlyCount | backend/quiz/gemini_service.py:104-107 | a success returns exactly `count` items, each well formed, as an order-preserving subsequence of the parsed list |
| GeminiService.TooFewKeptFails | backend/quiz/gemini_service.py:104-105 | fewer than `count` kept items is a failure |
| GeminiService.OnlyFirstCountMatter | backend/quiz/gemini_service.py:99 | items past the first `count` never affect the outcome |
| GeminiService.FirstCountOfWellFormed | backend/quiz/gemini_service.py:98-107 | with at least `count` well-formed items the result is the first `count` of them |
| GeminiService.TruncationBeforeFiltering | backend/quiz/gemini_service.py:99 | with `count = 1`, `[bad, good]` fails while `[good, bad]` succeeds |
| ThemeForms.CleanErrors | backend/quiz/forms.py:274-287 | the errors `clean` raises, in order: the opacity loop's, then the base font's, then the heading font's |
| ThemeForms.Record | backend/quiz/forms.py:278-287 | each `add_error` appends its message to its field's list, in the order raised |
| ThemeForms.CleanedAfter | backend/quiz/forms.py:271-289 | the returned cleaned data is the starting data without every field that received an error |
| ThemeForms.OpacityErrors | backend/quiz/forms.py:275-278 | the opacity loop raises no more errors than there are fields, each on a listed field with the opacity message |
| ThemeForms.FlaggedAppend | backend/quiz/forms.py:271-289 | the fields flagged by two runs of checks are those flagged by either |
| ThemeForms.RecordAppend | backend/quiz/forms.py:271-289 | recording two runs of errors is recording the first and then the second: errors accumulate |
| ThemeForms.OpacityFieldsDistinct | backend/quiz/forms.py:275 | the five opacity field names are distinct |
| ThemeForms.OpacityStep | backend/quiz/forms.py:275-278 | one more pass of the loop appends that field's error, and the field was not flagged by the earlier passes |
| ThemeForms.OpacityErrorsIff | backend/quiz/forms.py:275-278 | a listed field is flagged by the loop iff it holds a value outside 0..100 |
| ThemeForms.CleanFlagged | backend/quiz/forms.py:271-289 | the fields `clean` flags are those of the opacity loop, then the base size, then the heading size: no check stops the others |
| ThemeForms.OpacityFlaggedIff | backend/quiz/forms.py:275-278 | an opacity field gets an error iff it holds a value outside 0..100; an absent value gets none |
| ThemeForms.BaseFontFlaggedIff | backend/quiz/forms.py:281-283 | `font_size_base` gets an error iff it is present, non-zero and outside 12..24 |
| ThemeForms.HeadingFontFlaggedIff | backend/quiz/forms.py:285-287 | `font_size_heading` gets an error iff it is present, non-zero and outside 24..64 |
| ThemeForms.OtherFieldsNeverFlagged | backend/quiz/forms.py:271-289 | no other field ever gets an error |
| ThemeForms.ZeroBaseFontPasses | backend/quiz/forms.py:281-283 | a base font size of 0 passes and stays in the cleaned data, although it is outside 12..24 |
| ThemeForms.CleanedDataInRange | backend/quiz/forms.py:271-289 | every checked field left in the cleaned data holds a value its check accepts |
| ThemeForms.CleanedKeepsValues | backend/quiz/forms.py:271-289 | the result keeps every unflagged field with its value and nothing else |
| ThemeForms.OpacityErrorsNone | backend/quiz/forms.py:275-278 | with every listed field in range the loop raises nothing |
| ThemeForms.CleanIsIdempotent | backend/quiz/forms.py:271-289 | cleaning the cleaned data raises nothing and removes nothing |
| ThemeForms.ThemeCustomizationForm.AddError | backend/quiz/forms.py:278 | the message is appended to the field's error list and the field leaves the cleaned data |
| ThemeForms.ThemeCustomizationForm.CheckOpacity | backend/quiz/forms.py:276-278 | one pass of the loop records the opacity error iff the value is out of range |
| ThemeForms.ThemeCustomizationForm.CheckOpacities | backend/quiz/forms.py:275-278 | the loop leaves exactly the errors and removals of `OpacityErrors` |
| ThemeForms.ThemeCustomizationForm.CheckFontSize | backend/quiz/forms.py:281-287 | a font-size check records its error iff the size is present, truthy and out of range |
| ThemeForms.ThemeCustomizationForm.Clean | backend/quiz/forms.py:271-289 | the errors become those of `CleanErrors` recorded in order, the cleaned data loses exactly the flagged fields, and the result is that same cleaned data |
| StorageService.IndexOfId | services/storageService.ts:20 | `findIndex(u => u.id === id)`, the first position holding that id |
| StorageService.IndexOfCredentials | services/storageService.ts:39 | `find(u => u.email === email && u.password === password)`, the first position matching both |
| StorageService.FirstIndex | services/storageService.ts:20 | `findIndex`/`find`: a position whose element satisfies the test with none before it, or none at all |
| StorageService.IndexOfIdMeans | services/storageService.ts:20 | the id lookup finds the first user with that id, or reports that none has it |
| StorageService.IndexOfCredentialsMeans | services/storageService.ts:39 | the login lookup finds the first user whose email and password both match, or reports that none does |
| StorageService.ReplacedById | services/storageService.ts:18-23 | replacing by id keeps the list's length and every position other than the first match, and puts the updated user at the first match |
| StorageService.ReplacedByIdIdempotent | services/storageService.ts:18-23 | updating twice with the same user is updating once |
| StorageService.ReplacedByIdFinds | services/storageService.ts:18-23 | after an update, the id lookup finds the new record at the same position |
| StorageService.SavedUserCanLogIn | services/storageService.ts:12-45 | after `saveUser` a login with that user's credentials succeeds; it returns the new user unless an earlier user has the same credentials |
| StorageService.WithResult | services/storageService.ts:56 | the result is put at the front of the history |
| StorageService.LocalStore.SaveUser | services/storageService.ts:12-16 | the user is appended, earlier users and the session stay |
| StorageService.LocalStore.UpdateUser | services/storageService.ts:18-30 | the first user with the id is replaced; the session copy is replaced only when it has that id; an unknown id changes nothing |
| StorageService.LocalStore.Login | services/storageService.ts:37-45 | succeeds iff some user has both credentials; the first such user is returned and stored as the session; a failed login keeps any earlier session |
| StorageService.LocalStore.Logout | services/storageService.ts:47-49 | the session is cleared and the users stay |
| StorageService.LocalStore.AddQuizResult | services/storageService.ts:51-67 | an unknown id changes nothing and returns none; otherwise that user's history gains the result at the front, and the updated user is returned and stored as the session only when it is the session user |
| StorageService.AddQuizResultTouchesOneUser | services/storageService.ts:52-57 | recording a result changes one user only, whose new history is the result followed by the old history |
| ResultCard.BandOf | components/ResultCard.tsx:50-55 | the `if` chain read top to bottom: exactly 100, then 80, 60 and 40 and up, else the last band |
| ResultCard.PerformanceMessage | components/ResultCard.tsx:49-56 | the text and colour of the band the percentage falls in |
| ResultCard.BandRanges | components/ResultCard.tsx:49-56 | exactly 100 is Perfect, otherwise 80 and up is Excellent, 60–80 Good Job, 40–60 Keep Practicing, below 40 Room for Improvement |
| ResultCard.MessageTextsDistinct | components/ResultCard.tsx:51-55 | the five texts are different, so each band has its own message |
| ResultCard.ColorRanges | components/ResultCard.tsx:51-55 | green from 80 up, amber from 40 to below 80, red below 40 |
| ResultCard.BandMonotoneUpTo100 | components/ResultCard.tsx:49-56 | up to 100, a higher percentage never gets a worse band |
| ResultCard.AboveHundredIsNotPerfect | components/ResultCard.tsx:51-52 | 101 gets Excellent, below the Perfect of 100: the band order breaks above 100 |
| ResultCard.ChartSplit | components/ResultCard.tsx:18-21 | the correct and incorrect slices sum to the question count |
| ResultCard.SplitNonNegativeIff | components/ResultCard.tsx:18-21 | the incorrect slice is non-negative iff correct ≤ total, and zero iff all are correct |
| UserProfileComponent.AvatarUrl | components/UserProfile.tsx:97-101 | no path or an empty one gives none; a path starting with `http` is kept; any other path gets the `http://localhost:8000` prefix; any result starts with `http` and ends with the path |
| UserProfileComponent.AvatarUrlIdempotent | components/UserProfile.tsx:97-101 | resolving an address a second time changes nothing |
| UserProfileComponent.PreviewUrl | components/UserProfile.tsx:27-36 | the preview is none exactly for a missing or empty avatar |
| UserProfileComponent.PreviewAgreesOnRelativePaths | components/UserProfile.tsx:97-101 | the preview (line 27) and `getAvatarUrl` agree on relative paths and differ on paths that start with `http` |
| UserProfileComponent.Changes | components/UserProfile.tsx:57-61 | the entries appended, in order: name and email when they differ from the user's, the password when non-empty, the avatar when a file was chosen |
| UserProfileComponent.ProfileEditor.CollectChanges | components/UserProfile.tsx:57-61 | the four conditional appends build exactly `Changes` of the form, the user and the chosen file |
| UserProfileComponent.ChangesKeysIff | components/UserProfile.tsx:57-61 | `first_name` is sent iff the name changed, `email` iff it changed, `password` iff it is non-empty, `avatar` iff a file was chosen, and nothing else is sent |
| UserProfileComponent.ChangesHead | components/UserProfile.tsx:57-61 | each changed field's entry carries its new value |
| UserProfileComponent.NoChangesIff | components/UserProfile.tsx:57-64 | nothing is sent exactly when nothing changed |
| UserProfileComponent.Merged | components/UserProfile.tsx:72-79 | the user handed on takes id, name, email and avatar from the reply and the role from `is_admin`, and keeps the password and history |
| UserProfileComponent.ProfileEditor.Submit | components/UserProfile.tsx:51-94 | with no changes no request is sent and editing closes; otherwise the changes are sent; a success hands on the merged user, closes editing, clears the password and the chosen file; a failure shows the message, or the default one when it is empty; loading always ends |

## Left out

- The call to the generative model, the prompt text, `re.search` and `json.loads` are left out. The regex match and the parser are parameters of `GeminiService.GenerateQuizQuestions`. `json.loads` is a function from text to an optional JSON value.
- `response.text.strip()` is not modelled. The fallback works on the text it is given.
- The broad `except Exception` of `generate_quiz_questions` maps every error to one `ValueError`. The model keeps the distinct causes in `GenerationError` instead of one message string.
- The Django ORM is left out: queries, `get_or_create`, `save()`, the post-save profile signal and password hashing. Tables are sequences in `QuizViews.Database`.
- `QuizViews.QuizQuestions`: a quiz's questions come back in storage order. Django orders them by `order`. The two coincide for quizzes created by `generate_quiz_view`, which stores rows in `order` sequence. Quizzes whose rows were written out of order are not modelled.
- `QuizViews.ScorePercentage`: the code computes `int((c / t) * 100)` in floating point. The model uses the exact integer floor `(c * 100) / t`. Rounding in the double arithmetic makes them differ for some inputs: 29 of 100 gives 28 in doubles. Floating point is not modelled.
- `QuizModels.Refreshed`: `average_score` is an exact real, not a double.
- `QuizViews.Database.GenerateQuiz`: only the success path is modelled. In the code the quiz row is created before the question loop inside `try/except Exception`. An item that passed the validator can still fail at `Question.objects.create`: a `null` question text violates NOT NULL, and `options` given as a four-key object raises `KeyError` at `['options'][0]`. The quiz row and the earlier question rows then stay. The hand-off from the validated JSON items to typed `QuestionData` is not modelled either: `QuestionData` has typed fields, and its `correctIndex` being 0..3 is a precondition, as the validator guarantees (`GeminiService.CheckItemKeepsWellFormed`). Django's integer coercion of a float or boolean `correct_index` is not modelled.
- The GET branches of the views are left out: redirects, templates, flash messages, login and session handling, and `create_user` failures. Form values are taken as present: a missing POST field (`None`) is not modelled.
- `QuizViews.Database.SubmitQuiz`: the row written by `get_or_create` for a profile that does not exist yet is not modelled. The caller passes the user's profile.
- Serializer limits (`count` between 3 and 20) are not modelled. Any integer `count` is accepted, a negative one with Python's slice meaning.
- `SiteTheme` activation and the one-active-theme rule are not part of this model. Only the delete guard is.
- `ThemeForms`: the per-field cleaning that runs before `clean` is not modelled. Its outcome is the form's starting state. A value is absent or an integer; other field types are not modelled because `clean` never reads them.
- `StorageService`: the JSON round trip through `localStorage` is taken to be the identity. `getUsers` on an empty store gives the empty list, which is the constructor's state.
- `UserProfileComponent.ProfileEditor.Submit`: the HTTP request is not made. The server's reply is a parameter. `toString()` on the returned id is taken as already applied. React's asynchronous state updates are modelled as plain assignments. The avatar file is represented by its name.
- The other React components, `apiService.ts`, `App.tsx` and its rounding, the homepage models, management commands and scripts are not part of this model.
