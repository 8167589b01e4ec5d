# AI quiz generator: endpoint pipeline and quiz-taking state machine

This project is a Dafny model of the two pieces of logic in the quiz generator web app.

- **The `POST /api/generate-quiz` handler.** It checks the form fields and calls the generative model. It then cleans code fences off the reply, parses it as JSON and checks the quiz's structure. The model turns the handler into one total function, `GenerateQuiz.Generate`. The function's inputs are the request, the generator's outcome and `JSON.parse`. Every exit of the handler becomes the HTTP status and `error` message it sends.
- **The quiz-taking component.** Its state is the record (`currentQuestion`, `selectedAnswer`, `showExplanation`, `score`, `quizCompleted`). It has three click handlers and the button guards that gate them. When the quiz is over, it shows a verdict band computed from the score and the length.

Modules follow the source. `Json` holds the values `JSON.parse` yields and JavaScript truthiness. `Text` holds `String.prototype.trim`. `Fences` holds the fence-removing `replace`. `GenerateQuiz` is `src/app/api/generate-quiz/route.ts`. `QuizDisplay` is `src/components/QuizDisplay.tsx`.

The handler checks less than its prompt (src/app/api/generate-quiz/route.ts:31-61) asks of the generator:
- The handler does not check that `difficulty` is one of easy/medium/hard.
- It does not check that `correctAnswer` is one of A–D or names an option.
- It does not check that options carry labels.
- It does not check that the number of questions equals `numQuestions`.

Other behaviours worth knowing:
- A failed generator call forwards the thrown `Error`'s own message. It is not replaced by a generic text.
- "Start new quiz" reloads the page. The model's `Reloaded` screen stands for the fresh page, where no quiz or score remains.
- A parsed reply of `null`, or a `null` element of `questions`, makes the handler read a property of `null`. The `TypeError` this throws reaches the outer `catch`. The response is then a 500 carrying the runtime's message (`GenerateQuiz.NullReadMessage`), not one of the two format errors.

The handler accepts an empty `questions` array (`GenerateQuiz.EmptyQuizAccepted`). The component, however, reads `quiz.questions[currentQuestion]` without checking it. So the display model assumes at least one question (`QuizDisplay.Displayable`), and such a quiz falls outside it.

## Model

| member | source | states |
|---|---|---|
| `Text.Trim` | src/app/api/generate-quiz/route.ts:80 | `trim()` yields the infix of the reply that has only JavaScript whitespace before and after it and neither starts nor ends with whitespace; it is empty exactly when the reply is all whitespace, and every character comes from the reply |
| `Text.TrimOfTrimmed` | src/app/api/generate-quiz/route.ts:80 | a reply that neither starts nor ends with whitespace is left unchanged by `trim()` |
| `Fences.FenceMatch` | src/app/api/generate-quiz/route.ts:80 | the pattern matches at a position exactly when a triple backtick starts there, or a line feed followed by one; the matched text is one of the four strings the pattern denotes and never runs past the text |
| `Fences.StripFences` | src/app/api/generate-quiz/route.ts:80 | the global `replace` of the pattern by the empty string, one left-to-right pass; it never lengthens the text (what it deletes is pinned by the lemmas below) |
| `Fences.CleanResponse` | src/app/api/generate-quiz/route.ts:80 | `trim()` followed by the replace; the result is no longer than the trimmed reply |
| `Fences.StripFencesDeletesOnly` | src/app/api/generate-quiz/route.ts:80 | the global replace only deletes characters: its output is a subsequence of its input |
| `Fences.CleanResponseDeletesOnly` | src/app/api/generate-quiz/route.ts:80 | the cleaned reply is a subsequence of the trimmed reply and no longer than it |
| `Fences.CleanPlainText` | src/app/api/generate-quiz/route.ts:80 | for a reply without backticks, cleaning is exactly `trim()` |
| `Fences.FencedRoundTrip` | src/app/api/generate-quiz/route.ts:80 | wrapping backtick-free text in a ```` ```json ```` line and a closing fence line, then cleaning, gives back exactly that text |
| `Fences.StripClosingBareFence` | src/app/api/generate-quiz/route.ts:80 | a closing fence right after backtick-free text that does not end in a line feed is deleted as a three-character match, and nothing else is |
| `Fences.OpeningBareFenceStripped` | src/app/api/generate-quiz/route.ts:80 | an opening fence not followed by "json" is deleted as a three-character match |
| `Fences.BareFencedRoundTrip` | src/app/api/generate-quiz/route.ts:80 | a reply of the shape ```` ```{…}``` ```` cleans to exactly its backtick-free body (one not starting with "json" nor ending in a line feed) |
| `Fences.BareFencedLinesRoundTrip` | src/app/api/generate-quiz/route.ts:80 | a reply of the shape ```` ```\n{…}\n``` ```` cleans to its backtick-free body with the leading line feed kept |
| `Fences.InlineJsonFenceRoundTrip` | src/app/api/generate-quiz/route.ts:80 | a reply of the shape ```` ```json{…}``` ```` cleans to exactly its backtick-free body (one neither starting nor ending in a line feed): the opening is a seven-character match |
| `Fences.FencedCleansLikeUnfenced` | src/app/api/generate-quiz/route.ts:80 | a trimmed, backtick-free text cleans to the same string with or without the fence wrapper |
| `Fences.StripFencesCanLeaveAFence` | src/app/api/generate-quiz/route.ts:80 | one replace pass is not idempotent: deleting a match can join two backtick runs into a new fence, which stays in the output |
| `GenerateQuiz.ValidateRequest` | src/app/api/generate-quiz/route.ts:15-28 | "missing fields" exactly when some field is absent or falsy; otherwise "out of range" exactly when the count is outside 1..10; otherwise the request passes |
| `GenerateQuiz.ZeroCountIsMissing` | src/app/api/generate-quiz/route.ts:16-21 | a count of 0 is falsy and gets 400 "Missing required fields", not the range error |
| `GenerateQuiz.CountJustOutsideRange` | src/app/api/generate-quiz/route.ts:23-28 | with every field supplied, a count of -1 or 11 gets 400 "Number of questions must be between 1 and 10" |
| `GenerateQuiz.RejectionPrecedesUpstream` | src/app/api/generate-quiz/route.ts:16-67 | a rejected request gets its 400 whatever the generator and the parser would have done, because both checks come before the generator call |
| `GenerateQuiz.CaughtResponse` | src/app/api/generate-quiz/route.ts:113-118 | anything thrown in the handler becomes a 500 carrying the `Error`'s message, or "Failed to generate quiz" for a non-`Error` |
| `GenerateQuiz.UpstreamFailureIs500` | src/app/api/generate-quiz/route.ts:67-72 | a thrown generator call, a missing response or empty reply text gives 500 with the thrown message, "Empty response from Gemini" for the empty cases |
| `GenerateQuiz.ParseFailureIs500` | src/app/api/generate-quiz/route.ts:78-89 | a cleaned reply that does not parse gives 500 "Invalid response format from Gemini" |
| `GenerateQuiz.CheckQuestion` | src/app/api/generate-quiz/route.ts:101-109 | an element passes exactly when it is an object with a truthy `question`, an `options` array of exactly 4 entries, and a truthy `correctAnswer` and `explanation`; a `null` element is told apart because reading it throws |
| `GenerateQuiz.ScanQuestions` | src/app/api/generate-quiz/route.ts:101-110 | the loop runs to the end exactly when every element passes; otherwise it stops at an element that fails, and every element before it passes |
| `GenerateQuiz.CheckQuiz` | src/app/api/generate-quiz/route.ts:91-112 | the parsed quiz is returned, unchanged, exactly when it is well formed; a missing or non-array `questions` gives "Invalid quiz format received" before any question is looked at; a failing question gives "Invalid question format in quiz", or the null-read error for a `null` one; every refusal is a 500 |
| `GenerateQuiz.MissingQuestionsArray` | src/app/api/generate-quiz/route.ts:92-98 | a non-null parsed value without a `questions` array gives 500 "Invalid quiz format received" |
| `GenerateQuiz.FirstOffendingQuestion` | src/app/api/generate-quiz/route.ts:101-110 | the first question that fails decides the error, whatever follows it |
| `GenerateQuiz.ParseAndCheck` | src/app/api/generate-quiz/route.ts:78-112 | after cleaning, the response is either a well-formed quiz or a 500 |
| `GenerateQuiz.Generate` | src/app/api/generate-quiz/route.ts:11-120 | the handler answers 400 exactly when request validation fails, otherwise 200 or 500, and a 200 always carries a well-formed quiz |
| `GenerateQuiz.AcceptedIffWellFormed` | src/app/api/generate-quiz/route.ts:77-112 | for a valid request and a reply that parses, the response is 200 exactly when the parsed quiz is well formed, and it returns that quiz unchanged |
| `GenerateQuiz.ReplyMattersOnlyOnceCleaned` | src/app/api/generate-quiz/route.ts:74-81 | two non-empty replies that clean to the same text get the same response |
| `GenerateQuiz.FencedReplyLikeUnfenced` | src/app/api/generate-quiz/route.ts:74-81 | a reply wrapped in a ```` ```json ```` fence gets the same response as the same trimmed, backtick-free JSON text without the fence |
| `GenerateQuiz.EmptyQuizAccepted` | src/app/api/generate-quiz/route.ts:100-112 | a quiz with an empty `questions` array is accepted |
| `GenerateQuiz.UnlabelledQuestionPasses` | src/app/api/generate-quiz/route.ts:102-103 | a question whose options have no A–D labels and whose `correctAnswer` is "Z" passes the per-question test |
| `GenerateQuiz.UnlabelledQuizAccepted` | src/app/api/generate-quiz/route.ts:100-112 | the structural check returns such a quiz unchanged |
| `GenerateQuiz.LabelAndCountUnchecked` | src/app/api/generate-quiz/route.ts:100-112 | that one-question quiz is returned for every valid request, whatever count the request asked for |
| `QuizDisplay.OptionLetter` | src/components/QuizDisplay.tsx:27-30 | the letter is a prefix of the option of length at most one, and it is empty only for an empty option |
| `QuizDisplay.SelectAnswer` | src/components/QuizDisplay.tsx:32-40 | selecting records the answer and shows the explanation; the score rises by exactly 1 when the answer's letter equals the current `correctAnswer` and is unchanged otherwise; the question index and completion flag stay as they were |
| `QuizDisplay.NextQuestion` | src/components/QuizDisplay.tsx:42-51 | moving on clears the selection and hides the explanation without changing the score; on the last question it sets completion and keeps the index, otherwise it advances the index by one; the index stays below the quiz length |
| `QuizDisplay.Step` | src/components/QuizDisplay.tsx:53-143 | a click keeps the question index in range; the page is reloaded exactly when "Start New Quiz" is clicked on the completed view, and nothing comes back after a reload; an option click once an answer is locked or the quiz is complete, and a next click before an answer is locked, change nothing |
| `QuizDisplay.NextNeedsSelection` | src/components/QuizDisplay.tsx:138-143 | the next button is disabled until an answer is locked: clicking it earlier leaves the state unchanged |
| `QuizDisplay.InitialConsistent` | src/components/QuizDisplay.tsx:21-25 | the initial state (question 0, nothing selected, explanation hidden, score 0, not completed) satisfies the session invariant |
| `QuizDisplay.StepKeepsConsistent` | src/components/QuizDisplay.tsx:32-51 | when every option is non-empty, every click keeps the invariant: index in range, explanation shown exactly when an answer is selected, no selection once completed, and score at most the number of questions answered |
| `QuizDisplay.RunKeepsConsistent` | src/components/QuizDisplay.tsx:32-51 | every sequence of clicks keeps the invariant |
| `QuizDisplay.ReloadedStays` | src/components/QuizDisplay.tsx:53-55 | after the reload no quiz state comes back, whatever is clicked |
| `QuizDisplay.StepKeepsScoreBounded` | src/components/QuizDisplay.tsx:32-51 | when every `correctAnswer` is non-empty, as the handler's test at src/app/api/generate-quiz/route.ts:103 guarantees, every click keeps the score at most one per question before the current one, plus one once the current answer is locked or the quiz is finished; empty options included |
| `QuizDisplay.RunKeepsScoreBounded` | src/components/QuizDisplay.tsx:32-51 | under the same condition, every sequence of clicks keeps that score bound |
| `QuizDisplay.ScoreNeverExceedsAnswered` | src/components/QuizDisplay.tsx:32-51 | for a quiz whose options are all non-empty, or whose `correctAnswer`s are all non-empty (which every quiz the handler returns satisfies), the score from the initial state never exceeds the questions answered, hence never the quiz length nor the shown denominator `currentQuestion + 1` |
| `QuizDisplay.SecondChoiceIgnored` | src/components/QuizDisplay.tsx:96-100 | once a non-empty option is chosen, a further option click changes nothing, so one question raises the score at most once |
| `QuizDisplay.EmptyOptionDoesNotLock` | src/components/QuizDisplay.tsx:99-100 | an empty option is falsy and does not lock the question: choosing it twice against an empty `correctAnswer` scores 2 on one question; the handler refuses an empty `correctAnswer` (src/app/api/generate-quiz/route.ts:103), so no quiz it returns can do this |
| `QuizDisplay.CompletedIsTerminal` | src/components/QuizDisplay.tsx:60-84 | from the completed view, every click sequence leaves the state unchanged or reloads the page |
| `QuizDisplay.CorrectFrom` | src/components/QuizDisplay.tsx:32-51 | answering each remaining question correctly and moving on ends on the last question, completed, with one point added per question |
| `QuizDisplay.AllCorrectIsPerfect` | src/components/QuizDisplay.tsx:32-72 | answering every question correctly finishes the quiz with score equal to the length, the perfect band and its message "Perfect score! Excellent job!" |
| `QuizDisplay.ResultBand` | src/components/QuizDisplay.tsx:66-72 | exactly one band holds: perfect at full marks, otherwise pass at 70% or more, otherwise keep practicing |
| `QuizDisplay.BandMonotone` | src/components/QuizDisplay.tsx:66-72 | a higher score never earns a lower band |

## Left out

- Generator client: the API-key check at module load, the client construction and the model name are not modelled (src/app/api/generate-quiz/route.ts:4-9, 63-68). They are an external service. Its outcome is the `Upstream` input.
- Prompt: the prompt template (src/app/api/generate-quiz/route.ts:30-61) is fixed prose with interpolation. No behaviour depends on its content.
- `JSON.parse`: it is a parameter of `Generate`. Its `SyntaxError` is `None`.
- Request body decoding (`req.json()`, line 13) is not modelled. A body that is not JSON throws into the outer `catch`. The model starts from the decoded fields.
- GenerateQuiz.ValidateRequest: fields are strings and the count an integer. JavaScript coercion is not modelled, so a count sent as the string "5", or a fractional count such as 2.5 that passes the range check, is not represented.
- `response.text()` is assumed to return the same text both times it is called (lines 70 and 74).
- Logging through `console.log` and `console.error` is a side effect only and is left out.
- Rendering is left out: class names, icons, the "Correct!/Incorrect" line, option colouring and the button labels. The page's fetch and toast handling, its second check of `questions`, the form component, the layout and the header are left out too.
- QuizDisplay.ResultBand: `score >= length * 0.7` is compared exactly as `10 * score >= 7 * length`. IEEE double rounding of the product is not modelled.
- QuizDisplay.OptionLetter: `charAt(0)` returns one UTF-16 code unit. The model returns the first Unicode scalar value. The two differ only for options that start outside the Basic Multilingual Plane.
- React batching: each handler's state updates are applied together, as React batches them. Two clicks landing before a re-render (a stale `selectedAnswer` in the closure) are not modelled.
- Json: numbers are reals. `JSON.parse` never produces `NaN`; an overflowing literal such as `1e400` gives `Infinity`, which is truthy like any non-zero real, so zero is still the only falsy number.
- QuizDisplay.Run: the model fixes one quiz for the whole session. In the app the form stays live while a quiz is shown (src/app/page.tsx:57), and the component is rendered without a `key` (src/app/page.tsx:59). A second generation therefore swaps the `quiz` prop while `currentQuestion`, `score` and `quizCompleted` persist. A shorter new quiz mid-way makes `quiz.questions[currentQuestion]` undefined and the render throws (src/components/QuizDisplay.tsx:92). A finished 7/10 followed by a 3-question quiz shows "7/3" and the pass message. The score bounds above hold only within one quiz.
- QuizDisplay.Question: options and `correctAnswer` are typed as strings. The handler accepts any four option values (src/app/api/generate-quiz/route.ts:102-103 checks only the array length), and the page checks only that `questions` is an array (src/app/page.tsx:30-32). A `null` or numeric option would make `option.charAt` throw inside `handleAnswerSelect` (src/components/QuizDisplay.tsx:29, 37). The display model does not represent such options.
