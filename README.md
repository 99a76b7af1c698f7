# Quiz session manager — a verified Dafny model

This project models the in-memory core of a quiz generator backend. The core is
`QuizManager` together with the stores it coordinates:
- a question cache keyed by session;
- a per-session FIFO queue of shuffled question indices;
- a per-session set of question indices already used;
- a per-session stack of submitted attempts.

The model also covers two pure helpers the backend calls around it:
- `validate_quiz`, the structural check of a generated quiz;
- the suffix dispatch and `truncate_text` of the file handler.

The Python objects become Dafny classes whose fields are `map`s and `seq`s that
the methods reassign. Each method's `ensures` states the new value of every field
it changes, including the `original_size` of each queue it builds.
- `random.shuffle` becomes `IndexSeqs.Shuffle`, which returns an arbitrary
  permutation.
- The selection loop of `generate_new_quiz` is a `while` loop with invariants.
  It lives in `Selection.SelectIndices`.
- The source's default arguments are Dafny parameter defaults: `metadata := Null`, `numQuestions := 10`,
  `allowRepeats := false`, `keepCache := true`, `maxChars := 15000`.
- Python's dynamic values are the JSON-like datatype `Json.Value`.
- Python's `in` test, including the `TypeError` it raises on a number, a
  boolean or `None`, is `Json.In`.

Files:
- `wrappers.dfy`: `Option` and `Result`.
- `text.dfy`: decimal rendering, `endswith`, substring.
- `json.dfy`: values, truthiness, `in`, `dict.get`.
- `index_seqs.dfy`: index ranges, distinctness, permutations.
- `selection.dfy`: the selection loop.
- `quiz_manager.dfy`: the four classes.
- `helpers.dfy`: `validate_quiz`.
- `file_handler.dfy`: file-type dispatch and truncation.

The main results:
- For a request of k ≥ 1 questions, a quiz holds exactly min(k, P) questions, where P is the pool size
  (a request of k ≤ 0 gets none). They come
  from distinct pool positions, and the returned list is a permutation of those
  questions.
- Without repeats, the drawn positions are added to the used set. None of them
  was used before unless the pool was exhausted, in which case the used set is
  cleared first.
- Two consecutive quizzes share no question while the unused part of the pool
  covers both requests (`ConsecutiveQuizzes`).
- The selection loop ends after exactly as many rounds as questions drawn, so
  its bound of 2·P attempts never cuts a quiz short.
- Attempt history is numbered 1, 2, 3, … in submission order.
- `validate_quiz` accepts a quiz exactly when it is a non-empty dict whose
  `questions` entry is a non-empty list of well-formed questions. When it
  rejects a question, it reports the first failing one.

## Model

| member | source | states |
|---|---|---|
| QuizSessions.QuestionCache.constructor | backend/utils/quiz_manager.py:12-13 | the cache starts empty |
| QuizSessions.QuestionCache.StoreQuestions | backend/utils/quiz_manager.py:24-29 | replaces the session's entry with the questions, `metadata or {}` and the question count; other sessions unchanged; the session has questions exactly when the list is non-empty |
| QuizSessions.QuestionCache.GetQuestions | backend/utils/quiz_manager.py:32-34 | the stored list, or [] for an unknown session |
| QuizSessions.QuestionCache.HasQuestions | backend/utils/quiz_manager.py:36-38 | true exactly when `GetQuestions` is non-empty |
| QuizSessions.QuestionCache.GetMetadata | backend/utils/quiz_manager.py:40-42 | the stored metadata, or {} for an unknown session |
| QuizSessions.QuestionCache.ClearSession | backend/utils/quiz_manager.py:44-47 | removes exactly that session's entry (idempotent); afterwards it has no questions and empty metadata |
| QuizSessions.QuizQueue.constructor | backend/utils/quiz_manager.py:57-59 | the queue holds the items and records their count as the original size |
| QuizSessions.QuizQueue.Dequeue | backend/utils/quiz_manager.py:61-63 | returns and removes the front element, or None on an empty queue, which stays empty |
| QuizSessions.QuizQueue.Enqueue | backend/utils/quiz_manager.py:65-67 | appends at the back |
| QuizSessions.QuizQueue.Peek | backend/utils/quiz_manager.py:69-71 | the front element without removal; None exactly when empty |
| QuizSessions.QuizQueue.Size | backend/utils/quiz_manager.py:73-75 | the number of queued items |
| QuizSessions.QuizQueue.IsEmpty | backend/utils/quiz_manager.py:77-79 | true exactly when the size is 0 |
| QuizSessions.QuizQueue.Reset | backend/utils/quiz_manager.py:81-83 | replaces the contents and leaves the original size as it was |
| QuizSessions.DrainInOrder | backend/utils/quiz_manager.py:61-67 | enqueueing any sequence into an empty queue and dequeueing until it is empty returns the sequence unchanged (FIFO) |
| QuizSessions.MakeEntry | backend/utils/quiz_manager.py:106-122 | the entry has the given number, questions/score/total taken with defaults [], 0, 0, and exactly the timing fields present in the submission, copied unchanged |
| QuizSessions.QuizHistory.constructor | backend/utils/quiz_manager.py:92-93 | history starts empty |
| QuizSessions.QuizHistory.Push | backend/utils/quiz_manager.py:103-124 | appends one entry numbered size+1; keeps the numbering 1..n dense for every session |
| QuizSessions.QuizHistory.Pop | backend/utils/quiz_manager.py:126-130 | removes and returns the last entry (LIFO), or None and no change when there is none |
| QuizSessions.QuizHistory.Peek | backend/utils/quiz_manager.py:132-136 | the last entry without removal; None exactly when the size is 0 |
| QuizSessions.QuizHistory.GetAll | backend/utils/quiz_manager.py:138-140 | the session's entries, or [] for an unknown session; in a valid history entry i is numbered i+1 |
| QuizSessions.QuizHistory.Size | backend/utils/quiz_manager.py:142-144 | the length of `GetAll` |
| QuizSessions.Wrap | backend/utils/quiz_manager.py:195 | wrapping indices as `{'index': i}` items and reading them back gives the same indices |
| QuizSessions.FirstCandidates | backend/utils/quiz_manager.py:249-264 | the candidates after the first exhaustion check: exactly the indices below P with repeats or when nothing was unused, and exactly the unused indices otherwise; distinct and never empty for a non-empty pool |
| QuizSessions.ClearsCombine | backend/utils/quiz_manager.py:255-296 | the clear on an empty unused set and the clear on a short unused set combine into a single clear under `PoolExhausted`; when the pool is not exhausted the used set survives both |
| QuizSessions.DrawQuestions | backend/utils/quiz_manager.py:275-350 | draws min(k, P) distinct in-range positions; the questions are a permutation of those positions' questions; used-set update as in `SelectIndices`; used stays within the pool |
| Selection.CappedCount | backend/utils/quiz_manager.py:279-282 | at most the pool size; the request itself when it fits, the pool size otherwise |
| Selection.NeedsReset | backend/utils/quiz_manager.py:293 | too few unused indices for the capped request; only possible for a positive request after something was used |
| Selection.QuizSize | backend/utils/quiz_manager.py:279-306 | min(k, P) for k ≥ 1, 0 for k ≤ 0 |
| Selection.SelectIndices | backend/utils/quiz_manager.py:285-340 | exactly `QuizSize` distinct indices below P, after exactly that many loop rounds (≤ 2·P); with repeats the used set is unchanged; without, it is the (possibly cleared) set plus the drawn indices, which are all new when no reset was needed |
| QuizSessions.ScoreSum | backend/utils/quiz_manager.py:421 | the sum succeeds exactly when every score is a number or a boolean |
| QuizSessions.QuizManager.constructor | backend/utils/quiz_manager.py:162-166 | all four stores start empty |
| QuizSessions.QuizManager.UploadAndCacheQuestions | backend/utils/quiz_manager.py:186-206 | caches the pool, installs a fresh queue holding a permutation of 0..n-1 with original size n, resets the used set to empty, leaves history alone, returns the count and the exact message |
| QuizSessions.QuizManager.GenerateNewQuiz | backend/utils/quiz_manager.py:232-362 | without a non-empty pool: the exact error and no change; otherwise min(k, P) questions from distinct pool positions, each in the pool, quiz number = history size + 1; used set and remaining count as described above, remaining in [0, P]; the queues are unchanged, because a session with a pool always has one |
| QuizSessions.QuizManager.SubmitQuizResults | backend/utils/quiz_manager.py:381-388 | appends exactly one entry to this session's history, other sessions unchanged, and returns the new size as the quiz number |
| QuizSessions.QuizManager.GetSessionStats | backend/utils/quiz_manager.py:411-430 | fails exactly when a score cannot be summed; otherwise counts from history, pool and used set, remaining = pool − used, average × count = score sum, and 0 with no history |
| QuizSessions.QuizManager.ResetSession | backend/utils/quiz_manager.py:451-478 | keep-cache: cache unchanged, an existing used set emptied, an existing queue replaced by a fresh one over a permutation of all indices, original size P, when a pool is cached; otherwise cache entry, used set and queue removed; history untouched; reports whether the cache was kept |
| QuizSessions.StatsRemainingInRange | backend/utils/quiz_manager.py:415-427 | in a consistent manager, the remaining count in stats lies in [0, pool size] |
| QuizSessions.UnusedAfterDraw | backend/utils/quiz_manager.py:290 | drawing fresh distinct indices shrinks the unused list by exactly their number |
| QuizSessions.ConsecutiveQuizzes | backend/utils/quiz_manager.py:285-340 | two quizzes in a row without repeats are disjoint and both marked used, as long as the unused pool covers both |
| IndexSeqs.Range | backend/utils/quiz_manager.py:192 | `list(range(n))`: position i holds i, and the members are exactly 0..n-1 |
| IndexSeqs.Unused | backend/utils/quiz_manager.py:253 | the list comprehension of unused indices: distinct, exactly the indices below n not in the set |
| IndexSeqs.UnusedCount | backend/utils/quiz_manager.py:290 | the number of unused indices is the size of {0..n-1} minus the used set |
| IndexSeqs.Shuffle | backend/utils/quiz_manager.py:193 | a permutation: same multiset, length and membership; distinctness preserved |
| IndexSeqs.Pick | backend/utils/quiz_manager.py:347 | `[all_questions[i] for i in selected]`, position by position |
| Json.In | backend/utils/helpers.py:42-49 | Python's `in`: TypeError exactly on None, booleans and numbers; key test on a dict |
| Text.NatToStringRoundTrip | backend/utils/helpers.py:43 | the number in an f-string renders as decimal digits that read back as the number |
| Text.NatToStringInjective | backend/utils/quiz_manager.py:205 | different counts and question numbers render as different strings |
| Helpers.AllInHolds | backend/utils/helpers.py:49 | `all(opt in options for opt in labels)` holds exactly when each label is in the options |
| Helpers.CheckQuestionAccepts | backend/utils/helpers.py:42-53 | one question passes all checks exactly when it is a dict with the three keys, options containing A–D, and a correct answer among A–D |
| Helpers.CheckQuestion | backend/utils/helpers.py:42-53 | for a non-container: TypeError; otherwise the first missing key, in the source's order; for a list or string holding the three key names: TypeError at `q['options']`; for a dict with the keys: TypeError when the options are not a container, else a missing label, else an answer outside A–D, else no defect |
| Helpers.AllIn | backend/utils/helpers.py:49 | on a container, true exactly when every key is in it; on a non-container with at least one key, TypeError |
| Helpers.ValidateQuestions | backend/utils/helpers.py:41-55 | the loop yields Valid or a 1-based question number inside the list |
| Helpers.FirstFailingQuestion | backend/utils/helpers.py:41-53 | question n is reported with defect d exactly when all earlier questions pass and question n fails with d |
| Helpers.AllQuestionsPass | backend/utils/helpers.py:41-55 | the loop ends with Valid exactly when every question is well formed |
| Helpers.ValidateQuiz | backend/utils/helpers.py:31-39 | a falsy or non-dict input, a missing `questions` key, and a non-list or empty list each give their own rejection |
| Helpers.ValidateQuizAccepts | backend/utils/helpers.py:31-55 | the quiz is accepted exactly when it is a dict with a non-empty `questions` list of well-formed questions |
| Helpers.Message | backend/utils/helpers.py:33-55 | the message is "Valid" exactly for the Valid verdict; a question defect's message starts with "Question " |
| Helpers.MessageDeterminesVerdict | backend/utils/helpers.py:43-53 | different verdicts never share a message: the question number and the defect can be read back from "Question {i} ..." |
| Helpers.ValidateQuizMessage | backend/utils/helpers.py:31-55 | returns exactly (True, "Valid") for an accepted quiz; (False, "Invalid quiz data format") for a non-dict or empty dict; (False, "Missing 'questions' field"); (False, "No questions found") for a non-list or empty list; (False, "Question {i} <defect text>") for the first bad question; raises exactly when the check raises |
| FileHandler.FileKindOf | backend/services/file_handler.py:21-31 | each kind is chosen only when its suffix is present; none only when no suffix matches |
| FileHandler.ExtractTextFromFile | backend/services/file_handler.py:19-32 | each of `.pdf`, `.docx`, `.txt` dispatches to its reader; anything else fails with "Unsupported file type" |
| FileHandler.SuffixDispatch | backend/services/file_handler.py:21-32 | each kind is chosen exactly when its suffix is present; none exactly when no suffix matches |
| FileHandler.TruncateText | backend/services/file_handler.py:34-38 | a prefix of the text; unchanged when short enough; exactly `max_chars` long when cut; a negative budget drops that many characters from the end |
| FileHandler.TruncateTextDefault | backend/services/file_handler.py:34-38 | with the default budget of 15000: a prefix of the text, of length min(len(text), 15000) |
| FileHandler.TruncateIdempotent | backend/services/file_handler.py:34-38 | with a non-negative budget, truncating twice equals truncating once |
| FileHandler.TruncateNegativeShrinksAgain | backend/services/file_handler.py:36-37 | with a negative budget, a second truncation cuts further |

## Left out

- Timestamps (`datetime.now()` in the cache entry and in history entries) and all `print` logging: no observable effect on the modelled state.
- `random.shuffle`: modelled as an arbitrary permutation, so the model proves properties that hold for every shuffle result. It makes no claim about randomness or fairness.
- QuizSessions.QuizManager.GetSessionStats: the average is an exact rational. Python computes a float and rounds it to two places.
- Scores and other JSON numbers are integers. Float scores are not modelled.
- The returned dicts' constant fields (`success: True` and fixed messages) are not modelled, except the upload message and the generation error message.
- The module-level global `quiz_manager` instance and concurrent access to it are not modelled. Each operation is atomic in the model.
- The PDF, DOCX and text-file readers are I/O. They come into `ExtractTextFromFile` as a function parameter.
- `parse_JSON_quiz`, the HTTP routes, the AI-generation service and the front end are not part of this model.
- The route layer's checks are not modelled: that the uploaded question list is non-empty, and that the requested count is at least 1. The model covers `generate_new_quiz` for every integer count, including zero and negative counts.
- QuizSessions.QuizManager.GenerateNewQuiz: `picked`, the pool positions behind the returned questions, is a ghost output. Python does not return it.

## Behaviour worth knowing

- The selection loop (`quiz_manager.py:306-340`) has a refill step (lines 310-325) and a bound of 2·P attempts. Neither ever takes effect.
  - When the loop starts there are always at least min(k, P) candidates, and every round adds one new index.
  - So the refill and the duplicate-skip `continue` never run, and the bound never ends the loop early. A quiz is never returned short.
  - `Selection.SelectIndices` proves this: exactly `QuizSize` indices come back, after exactly that many rounds.
- A session with a cached pool always has a queue and a used set: upload creates both, and a reset that drops the cache drops them too (`QuizSessions.QuizManager.Valid`). So `generate_new_quiz` never creates a used set (lines 242-243) and never builds a queue (lines 268-273). The model leaves only an `assert false` in the queue branch, and `GenerateNewQuiz` promises that the queues are unchanged.
- `validate_quiz` checks only that A, B, C and D are among a question's options. A question with extra options passes (`Helpers.CheckQuestionAccepts`).
