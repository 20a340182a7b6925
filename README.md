# ContextWizard core, modelled in Dafny

ContextWizard is a GitHub pull-request bot backend. It receives one review
event: an inline review comment, a submitted review, a conversation comment
or an explicit "wizard" full-review command. It has a language model
classify the commenter's intent and posts one follow-up comment. That
comment is one of:

- a short fenced code suggestion;
- a clarified restatement of a vague question;
- a clarified change request with a suggestion;
- a debug note with the classification;
- an autonomous full review.

Separately, it keeps a small table of pending comments keyed by an opaque
code. Each row carries an expiry time, and a poller asks for the rows that
have expired.

This project models that core and proves its properties. It has one Dafny
module per source file, plus shared modules:

- `Wrappers`: `Option`, `Result`, a raised exception.
- `Text`: the Python string builtins the code relies on, over ASCII.
- `Models`: the payload and schema records.
- `Config`: the constants.
- `Helpers`: `helpers.py`. This covers clipping, the fenced-block extractor and the language-model context. The context is built by a method with loops and proved equal to its specification function.
- `GeminiClient`: the transient-error test and the retry wrapper.
  - The wrapper is a specification function over the outcome of each attempt.
  - A loop method follows the source, for any transient test; `CallWithRetry` runs it with `_is_transient_gemini_error`. Its ensures ties it to that function.
  - The method also returns the pauses it would sleep. A negative pause ends the run with the `ValueError` that `time.sleep` raises.
- `Formatting`: the three comment formatters.
- `CodeGeneration`: the suggestion and wizard services. Each is one attempt function run through the retry wrapper.
- `Analyze`: the decision tree of `analyze_review`.
  - The five model steps are given as their outcomes.
  - It returns the chosen comment as a `Rendering` (which formatter, with what arguments) plus the trace of steps invoked.
  - `Render` turns a rendering into the posted text.
- `PendingComments`: the table.
  - It is a class over `map<string, PendingComment>`.
  - `Create` and `Delete` change the map in place.
  - `Get` and `GetExpired` only read it.
  - Each method is proved against a specification function on maps. The lemmas relate those functions.
  - A row whose integer field does not fit SQLite's signed 64-bit INTEGER is refused with the uncaught `OverflowError`.
- `DraftApp`: `a.py`, the single-file draft of the backend. Its create validates the expiry window before inserting.

## Model

| member | source | states |
|---|---|---|
| Helpers.Clip | backend/utils/helpers.py:16-20 | absent or empty text gives ""; text of at most n characters is returned unchanged; longer text is its first n characters followed by the truncation marker; the result is never longer than n plus the marker |
| Helpers.ClipIdempotent | backend/utils/helpers.py:16-20 | clipping an already clipped text with the same limit changes nothing |
| Helpers.TagEndIsTheOnlyNewline | backend/utils/helpers.py:27 | after an opening fence the language tag decides where the newline of a match must be; no other newline position can start the body |
| Helpers.MatchEndAt | backend/utils/helpers.py:27 | the lazy `.*?`: from a given start it finds a match end when one exists, and the shortest one |
| Helpers.FirstMatch | backend/utils/helpers.py:27 | `re.search`: the leftmost start at which the fenced pattern matches, with its shortest end |
| Helpers.ExtractFirstFencedCodeBlock | backend/utils/helpers.py:22-35 | the result always begins with a code fence; empty input gives the empty diff block |
| Helpers.MatchIsTrimmed | backend/utils/helpers.py:27-29 | a match starts and ends with a fence, so the `.strip()` applied to it changes nothing |
| Helpers.ExtractReturnsFirstMatch | backend/utils/helpers.py:27-29 | when the pattern matches, the result is exactly the leftmost, shortest match |
| Helpers.ExtractWithoutMatch | backend/utils/helpers.py:31-35 | without a match, the result is the stripped text from the first fence on, or the whole stripped text wrapped in a fence when there is no fence |
| Helpers.EventSection | backend/utils/helpers.py:50-102 | the event section is empty exactly for an unknown kind without comment or review text, and otherwise starts with that event's heading |
| Helpers.AppendInlineBlock | backend/utils/helpers.py:104-110 | the inline-comment loop appends exactly the inline block: nothing without comments, otherwise the intro and the lines of the first five |
| Helpers.AppendFilesBlock | backend/utils/helpers.py:112-120 | the file loop appends exactly the file block: nothing without files, otherwise the count line and the entries of the first six |
| Helpers.LlmContext | backend/utils/helpers.py:37-122 | the context neither starts nor ends with whitespace |
| Helpers.BuildLlmContext | backend/utils/helpers.py:37-122 | the string the loops build equals the context specification, which clips each field at its configured limit |
| Helpers.OpeningIgnoresLists | backend/utils/helpers.py:39-102 | the header and the event section do not depend on the inline-comment and file lists |
| Helpers.ContextListsAtMostFiveComments | backend/utils/helpers.py:104-110 | only the first five inline comments reach the context |
| Helpers.ContextListsAtMostSixFiles | backend/utils/helpers.py:112-120 | two file lists of the same length that agree on their first six files give the same context |
| Helpers.ContextReportsFileCount | backend/utils/helpers.py:112-114 | a non-empty file list puts its full count, not the six shown, in the context |
| GeminiClient.IsTransientError | backend/services/gemini_client.py:25-34 | an error is transient exactly when one of the twenty markers occurs in its lowercased message |
| GeminiClient.AnyMarkerIn | backend/services/gemini_client.py:34 | true exactly when one of the markers occurs in the message |
| GeminiClient.TransientIffMarker | backend/services/gemini_client.py:25-34 | an error is transient exactly when one of the twenty markers occurs in its lowercased message |
| GeminiClient.TransientIgnoresCase | backend/services/gemini_client.py:27 | upper-casing the message does not change whether the error is transient |
| GeminiClient.MarkerMakesTransient | backend/services/gemini_client.py:28-34 | any marker found anywhere in the lowercased message makes the error transient |
| GeminiClient.RetryFrom | backend/services/gemini_client.py:62-88 | from attempt k on, whatever the transient test: the number of calls lies between k and the attempt cap; the outcome is that of the last call; every earlier call failed transiently; a failure is returned only when it is not transient or the cap is reached |
| GeminiClient.Retry | backend/services/gemini_client.py:36-88 | at least one call and at most `max(1, max_attempts)` calls; the outcome returned is the last call's; a failure is raised only when `_is_transient_gemini_error` rejects it or the attempts are used up |
| GeminiClient.RetryEndsAt | backend/services/gemini_client.py:65-81 | a run stops at the first success or non-transient failure, returning that attempt's outcome |
| GeminiClient.RetryExhausts | backend/services/gemini_client.py:77-81 | when every call fails transiently, exactly the capped number of calls is made and the last failure is raised |
| GeminiClient.DelayBefore | backend/services/gemini_client.py:63-87 | the delay starts at `max(0, initial_delay)`, never exceeds the cap after the first retry, and never goes negative under a non-negative cap |
| GeminiClient.NextDelay | backend/services/gemini_client.py:87 | the grown delay never exceeds the cap, is either the cap or one and a half times `max(delay, 0.05)`, and never shrinks a delay already within the cap |
| GeminiClient.BasePause | backend/services/gemini_client.py:83 | the pause before jitter never exceeds the maximum delay, and is not negative under a non-negative cap |
| GeminiClient.PausesGrow | backend/services/gemini_client.py:83-87 | the pause before jitter never shrinks from one retry to the next |
| GeminiClient.CapIsSticky | backend/services/gemini_client.py:87 | once the delay reaches the maximum it stays there |
| GeminiClient.PauseBounded | backend/services/gemini_client.py:83 | with a jitter draw in `[0, max(0, jitter)]`, a pause lies between 0 and the maximum delay plus that jitter |
| GeminiClient.AppendPause | backend/services/gemini_client.py:83-85 | recording the next pause keeps the record equal to the pauses the schedule prescribes |
| GeminiClient.RetryLoop | backend/services/gemini_client.py:62-88 | for any transient test: it stops no later than the retry specification; where it stops with it, it returns the same outcome; it stops earlier only with the `ValueError` of `time.sleep`, at the first negative pause; every sleep before that is the prescribed, non-negative pause |
| GeminiClient.CallWithRetry | backend/services/gemini_client.py:36-88 | the loop returns the outcome and call count of `Retry` unless a pause is negative, in which case `time.sleep`'s `ValueError` ends the run at that attempt; with a non-negative maximum delay and non-negative draws it returns exactly `Retry`'s outcome and call count; it sleeps once before each retry, by the prescribed pause |
| GeminiClient.NegativeCapBreaksFirstPause | backend/services/gemini_client.py:83-85 | a negative maximum delay with a small draw makes the first pause negative, so the sleep raises |
| Models.CategoryName | backend/models/gemini_schemas.py:7-14 | each category's wire name is upper-case letters and underscores |
| Formatting.Shorten | backend/utils/formatting.py:19 | text within the limit is kept; longer text is cut to the limit and ends in an ellipsis |
| Formatting.QuoteLine | backend/utils/formatting.py:19 | the quote starts with "> " and every newline in it is followed by "> " |
| Formatting.QuoteLineRoundTrip | backend/utils/formatting.py:19 | undoing the `"\n" -> "\n> "` replacement recovers the quoted text |
| Formatting.FormatConf | backend/utils/formatting.py:16 | the confidence is printed as one digit, a point and two digits |
| Formatting.FormatConfRoundTrip | backend/utils/formatting.py:16 | reading the printed confidence back gives its rounded hundredths |
| Formatting.TitlesStartTrimmed | backend/utils/formatting.py:14-34 | both titles start with a non-space character, so the final strip leaves the start alone |
| Formatting.FormatDebugComment | backend/utils/formatting.py:7-23 | the final `.strip()` removes nothing: the comment is the eight lines joined as they are |
| Formatting.CategoryNameInjective | backend/models/gemini_schemas.py:7-14 | distinct categories have distinct names |
| Formatting.CategoryLinesAgree | backend/utils/formatting.py:15 | two texts with a category line at the same place are equal only if the categories are |
| Formatting.DebugCommentDeterminesCategory | backend/utils/formatting.py:13-23 | two debug comments for the same event are equal only if their categories are equal |
| Formatting.DebugCommentQuotesOriginal | backend/utils/formatting.py:9-23 | the comment ends with the quoted original, cut at 500 characters, then the footer, and the quote can be undone |
| Formatting.FormatClarificationQuestionComment | backend/utils/formatting.py:25-45 | the final strip can only trim trailing whitespace of the quoted rewrite; everything before it is kept |
| Formatting.QuestionHeadStart | backend/utils/formatting.py:33-42 | the clarification comment starts with a non-space character |
| Formatting.ClarificationShowsRewrite | backend/utils/formatting.py:42-45 | a rewrite that does not end in whitespace appears in full, quoted line by line, at the end of the comment |
| Formatting.FormatBadChangeWithSuggestionComment | backend/utils/formatting.py:47-59 | the clarified request, then the heading, then the stripped suggestion; a blank suggestion leaves the comment ending at the heading |
| Formatting.BadChangeStrip | backend/utils/formatting.py:53-59 | stripping the three joined lines trims at most the newline before a blank last line |
| CodeGeneration.ReviewerComment | backend/services/code_generation.py:31 | the first non-empty of override, comment body and review body, stripped, or "" |
| CodeGeneration.SuggestionFromReply | backend/services/code_generation.py:68 | every reply gives a fenced block; a reply without text gives the empty diff block |
| CodeGeneration.SuggestionAttempt | backend/services/code_generation.py:62-68 | an attempt succeeds exactly when the model call does, with the extracted block; otherwise it fails with the model's error |
| CodeGeneration.GenerateCodeSuggestion | backend/services/code_generation.py:14-70 | a suggestion is a fenced block taken from the reply of the attempt at which the retry stopped, after at most the configured number of calls |
| CodeGeneration.MissingReplyGivesEmptyDiff | backend/services/code_generation.py:68-70 | a first attempt that answers without text yields the empty diff block after that one call |
| CodeGeneration.SuggestionIgnoresClassification | backend/services/code_generation.py:14-32 | the classification argument plays no part in the suggestion |
| CodeGeneration.WizardFromReply | backend/services/code_generation.py:128-131 | the review is the stripped reply, or the fixed no-issues sentence when that is empty; never empty |
| CodeGeneration.WizardAttempt | backend/services/code_generation.py:114-131 | an attempt succeeds exactly when the model call does, with a non-empty review |
| CodeGeneration.RunWizardFullReview | backend/services/code_generation.py:72-133 | a successful review is non-empty and comes from the attempt at which the retry stopped |
| CodeGeneration.FirstWizardReplyIsReturned | backend/services/code_generation.py:112-133 | when the first attempt answers, the run ends after that one call with its processed reply; no text gives the no-issues sentence |
| CodeGeneration.WizardReviewIsTrimmed | backend/services/code_generation.py:128-131 | the review neither starts nor ends with whitespace |
| Analyze.WizardError | backend/routes/analyze.py:62 | the error comment is the fixed lead followed by the first 200 characters of the error message (all of it when shorter) |
| Analyze.ClassificationFailed | backend/routes/analyze.py:86-92 | a classifier failure stands in as UNKNOWN, needing a reply, no clarification, confidence 0 |
| Analyze.StepFailed | backend/routes/analyze.py:112-118 | a failed step stands in as UNKNOWN with confidence 0, its reason the prefix followed by the first 160 characters of the error message (all of it when shorter) |
| Analyze.Respond | backend/routes/analyze.py:100-160 | a classified event's branch always starts with the classifier and follows one of the allowed step sequences |
| Analyze.AnalyzeReview | backend/routes/analyze.py:47-160 | the steps form an allowed sequence; no step, or only the wizard, runs exactly for a wizard command or a review with inline comments |
| Analyze.AnalyzeReviewComment | backend/routes/analyze.py:47-160 | a review with inline comments gets the empty comment; a failed wizard review gets the error comment |
| Analyze.WizardCommandSkipsClassifier | backend/routes/analyze.py:48-64 | a wizard command runs only the wizard and posts its review or its error |
| Analyze.WizardReviewIsFramed | backend/routes/analyze.py:48-60 | a wizard review is posted between the banner and the disclaimer |
| Analyze.WizardReplyIsPostedInBanner | backend/routes/analyze.py:48-60 | with the wizard step served by the review service, the first reply is posted stripped inside the banner, and an empty reply posts the no-issues sentence there |
| Analyze.Render | backend/routes/analyze.py:53-160 | a silent rendering posts nothing; a wizard review starts with the banner and ends with the disclaimer; a wizard failure starts with the error lead; a suggestion posts its block unchanged |
| Analyze.ReviewWithInlineCommentsIsSkipped | backend/routes/analyze.py:75-77 | a review whose inline count is positive is answered with nothing; one with no or zero count is classified |
| Analyze.ClassifierFailureGivesUnknown | backend/routes/analyze.py:81-93 | a classifier failure posts the stand-in debug note after only the classifier step |
| Analyze.ClassifiedOutcomes | backend/routes/analyze.py:104-144 | a confident good change posts the suggestion; a confident bad question posts the clarification; a confident bad change posts the clarified request with the suggestion made for it |
| Analyze.DebugForTheRest | backend/routes/analyze.py:95-160 | every other classified event gets the debug note of its own classification after the classifier alone: a non-reviewable kind, praise, good questions, unknowns, and anything below its threshold |
| Analyze.StepFailureGivesUnknown | backend/routes/analyze.py:111-153 | a failing good-change suggestion, question clarification, change clarification, or suggestion after a successful change clarification posts the debug note of an UNKNOWN stand-in with that step's prefix, after exactly the steps taken |
| Analyze.SuggestFollowsClarification | backend/routes/analyze.py:104-144 | the suggestion step runs without an override only for a confident good change, and with one only after a successful change clarification, with its request |
| Analyze.GoodChangeThresholdInclusive | backend/routes/analyze.py:105 | at exactly 0.7 a good change is acted on; below it, only the debug note is posted |
| Analyze.ActingIsMonotoneInConfidence | backend/routes/analyze.py:105-137 | raising the confidence of a category never turns acting into not acting |
| Analyze.BlocksComeFromSuggest | backend/routes/analyze.py:104-144 | any code block posted is exactly what the suggestion step returned for the override it was given |
| Analyze.PostedSuggestionsAreFenced | backend/routes/analyze.py:104-144 | with the suggestion service behind the step, every posted code block starts with a fence |
| PendingComments.Insert | backend/database/pending_comments.py:13-36 | an integer field outside 64 bits raises the uncaught `OverflowError`; otherwise a new code adds exactly that row and keeps every other, and an existing code is a 409 "Code already exists" |
| PendingComments.Lookup | backend/database/pending_comments.py:38-57 | a stored code gives the row filed under it; any other code is a 404 "Code not found" |
| PendingComments.Remove | backend/database/pending_comments.py:59-70 | a stored code is removed and every other row is kept; a missing code is a 404 |
| PendingComments.Expired | backend/database/pending_comments.py:78-82 | every stored row with expiry at or before now is selected, and only stored rows with such an expiry are |
| PendingComments.ExpiredIff | backend/database/pending_comments.py:78-82 | a row is selected exactly when it is stored and its expiry is at or before now |
| PendingComments.CollectExpired | backend/database/pending_comments.py:84-96 | the loop collects exactly the expired rows, each once |
| PendingComments.PendingCommentStore.constructor | backend/database/connection.py:10-28 | on a fresh database file the table starts empty |
| PendingComments.PendingCommentStore.Create | backend/database/pending_comments.py:13-36 | on success the table gains exactly the row and the reply is created with the code; on an overflowing field or a conflict the table is unchanged and the `OverflowError` or the 409 is raised; the code stays the key of its row |
| PendingComments.PendingCommentStore.Get | backend/database/pending_comments.py:38-57 | returns the stored row or the 404, changing nothing |
| PendingComments.PendingCommentStore.Delete | backend/database/pending_comments.py:59-70 | on success only that row goes and the reply is deleted with the code; a missing code is a 404 with the table unchanged |
| PendingComments.PendingCommentStore.GetExpired | backend/database/pending_comments.py:72-99 | returns each row with expiry at or before now exactly once, changing nothing |
| PendingComments.WritesKeepKeyed | backend/database/connection.py:16-23 | inserts and deletes keep every row filed under its own code, and every integer column within 64 bits |
| PendingComments.GetAfterCreate | backend/database/pending_comments.py:18-57 | a lookup after a successful create returns the same eight fields |
| PendingComments.CreateTwiceConflicts | backend/database/pending_comments.py:35-36 | a second create with the same code fails, as a 409 when its fields fit, and the first row stays |
| PendingComments.DeleteUndoesCreate | backend/database/pending_comments.py:13-70 | deleting the row just created restores the table |
| PendingComments.DeleteThenGet | backend/database/pending_comments.py:38-70 | after a delete, both a lookup and a second delete of that code are 404s |
| PendingComments.WritesLeaveOtherCodes | backend/database/pending_comments.py:13-70 | creating or deleting one code leaves every other code's lookup unchanged |
| PendingComments.ExpiredAfterCreate | backend/database/pending_comments.py:13-99 | a create adds its row to the expired set exactly when its expiry has passed |
| PendingComments.ExpiredAfterDelete | backend/database/pending_comments.py:59-99 | a delete removes exactly its row from the expired set |
| PendingComments.ExpiredGrowsWithTime | backend/database/pending_comments.py:78-80 | a row expired at one time stays expired later |
| PendingComments.ExpiryBoundaryIsInclusive | backend/database/pending_comments.py:78-80 | a row is expired at exactly its expiry time and not a second before |
| DraftApp.ValidateExpiresAt | a.py:83-98 | accepts exactly the closed window from now to now plus 86400 seconds; earlier is a 400 "must be in the future", later a 400 "cannot be more than 24 hours in the future" |
| DraftApp.WindowIsClosed | a.py:89-98 | both ends of the window are accepted and one second outside either end is refused |
| DraftApp.DraftInsert | a.py:104-129 | validation comes first; an invalid expiry is a 400 whatever the table holds; an integer field outside 64 bits escapes as `OverflowError`; a duplicate code escapes as the database's integrity error; a success inserts as the backend does |
| DraftApp.DraftAgreesWithBackendWhenValid | a.py:104-129 | on a valid expiry the draft insert gives exactly the backend's result, except that a backend 409 is a draft integrity error |
| DraftApp.AcceptedRowExpiresLater | a.py:104-145 | an accepted row is selected as expired at its expiry time, and not yet at creation unless it expires then |
| DraftApp.DraftStore.constructor | a.py:24-42 | on a fresh database file the table starts empty |
| DraftApp.DraftStore.Create | a.py:104-129 | an invalid expiry, an overflowing field or a duplicate code leaves the table unchanged; a valid new row is inserted and acknowledged with its code |
| DraftApp.DraftStore.GetExpired | a.py:132-145 | returns each row with expiry at or before now exactly once, changing nothing |

## Left out

- `get_client` and the Gemini SDK are left out. This covers client construction, the missing-key check, `generate_content`, model names, temperatures and prompt wording. Each model call is a parameter giving the outcome of each attempt; the prompts are modelled only by what they carry.
- The classification and clarification services are not part of this model (`backend/services/classification.py`, `backend/services/clarification.py`). Each builds the context, makes one model call through the retry wrapper and validates the parsed reply; their results enter `Analyze` as outcomes.
- `time.sleep` is not performed: `CallWithRetry` returns the pauses it would sleep. Its refusal of a negative length is modelled as the `ValueError` that ends the run.
- `random.uniform` is not modelled as randomness: the jitter is a parameter `draws`, one draw per retry. Its bound is the premise of `PauseBounded`.
- Clock readings are not taken: `int(time.time())` is the parameter `now`.
- All printing to stderr is left out.
- The FastAPI routes, `BackendResponse` wrapping, async thread offloading, `init_db` and the SQLite connections are plumbing and I/O. The table is a map. A database file that already holds rows is not modelled: both constructors start from a fresh file, and every method is stated for any table that keeps its invariant.
- Environment overrides of `config.py` are left out; the defaults are constants.
- Pydantic validation is not modelled, except that confidence is a real in [0, 1] and the category and comment type are enumerations.
- Floating point is not modelled: confidences and delays are exact reals.
- Formatting.FormatConf: `:.2f` is modelled as round-half-up of the exact real, not Python's rounding of the binary float at an exact half.
- Text.Strip: Python's `str.strip` is modelled over the ASCII whitespace set only.
- Text.Lower: Python's `str.lower`, used by the transient-error test, is modelled on ASCII letters only.
- Helpers.Clip: the limit is a natural number. Every caller passes a positive configuration constant, so a negative slice bound is not modelled.
- PendingComments.PendingCommentStore.GetExpired: the order in which SQLite returns the rows is not modelled. The result is stated as the set of expired rows, each listed once.
- DraftApp.DraftStore.GetExpired: the row order is not modelled either.
- DraftApp.DraftInsert: the uncaught integrity and overflow errors are modelled as the raised exceptions. The 500 response that FastAPI turns them into is not modelled.
- Analyze.AnalyzeReview: the short reason of the stand-in classifications is computed but never shown, because the debug comment does not print it.
- Analyze.AnalyzeReview: the JSON dump of the payload for logging is left out.
