# MD-Quizzer: a verified model of the quiz page logic

MD-Quizzer serves multiple-choice quizzes written in Markdown and runs them
in the browser. This project models the logic of `public/quiz.js` in Dafny:

- **The Markdown parser** (`parseMarkdownQuiz`). It reads a document line by
  line and returns an ordered list of questions. Each question has a prompt,
  options and an answer key, or `null` when there is no key. A key line that
  the answer-key pattern cannot match makes the parser throw.
  `QuizParser.ParseMarkdownQuiz` is the loop itself, as a method. It is proved
  equal to a recursive fold, `QuizParser.ParseQuiz`.
- **A declarative reading of the parser** (module `QuizReference`). A document
  is a prelude followed by blocks. Each block is one question-start line and
  the lines up to the next one. The parser is proved to return exactly the
  questions of this reading, and to fail exactly on a malformed key line. It
  is also proved to emit one question per question start with a non-empty
  prompt, in order, and that every answer key it returns is a list of
  capital-letter tokens.
- **The quiz session** (`QuizApp`), as a class with the same fields.
  - Fields: `questions`, `currentQuestionIndex`, `score` and `selectedAnswer`.
  - Two booleans, `submitShown` and `nextShown`, stand for the visibility of
    the Submit and Next buttons. A click can only reach a method whose button
    is shown, so the booleans decide which methods can run.
  - The methods a click reaches (load, select, submit, next, try again,
    choose another) start from the session invariant `Valid()` and restore
    it. `DisplayQuestion` only needs the index within the questions and the
    score at most the index, and establishes `Valid()`. `ShowQuizComplete`
    is its helper and states the fields it changes. Under `Valid()` the
    score never exceeds the number of questions.
- **The result summary** (`showQuizComplete`): the percentage, rounded, and
  whether it reaches the 70% passing mark.
- **The JavaScript string operations** these rely on (module `Text`): `trim`,
  `\s`, `\d`, `split` on one character, `startsWith` and `includes`.

Files:

- `wrappers.dfy`: `Option` and `Result`.
- `text.dfy`: the string operations.
- `parser.dfy`: the parser.
- `reference.dfy`: the declarative reading and the theorems that connect it to
  the parser.
- `summary.dfy`: the result summary.
- `session.dfy`: grading and the `QuizApp` class.

## Model

| member | source | states |
|---|---|---|
| Text.TrimStart | public/quiz.js:83 | `replace(/^\s*/, '')` returns a suffix of its input that does not start with whitespace |
| Text.TrimStartRemoves | public/quiz.js:83 | every character `replace(/^\s*/, '')` removes is whitespace |
| Text.Trim | public/quiz.js:66 | the result of `trim()` has no whitespace at either end |
| Text.TrimRemoves | public/quiz.js:66 | `trim()` cuts its input at two points and keeps the slice between them; every character before the first and from the second on is whitespace |
| Text.TrimCuts | public/quiz.js:66 | the cut points are after the leading whitespace and before the trailing whitespace of what remains |
| Text.TrimEmpty | public/quiz.js:66-69 | `trim()` returns the empty string exactly when every character of its input is whitespace |
| Text.TrimIsSlice | public/quiz.js:66 | `trim()` returns a slice of its input, and leaves a string with no whitespace unchanged |
| Text.TrimUntouched | public/quiz.js:66 | `trim()` does not change a string whose ends are not whitespace |
| Text.Split | public/quiz.js:60 | `split` on one character: the pieces between the separators, in order, at least one. JoinSplit and SplitJoin characterise it |
| Text.StartsWith | public/quiz.js:88 | `startsWith`: the string begins with the given prefix |
| Text.Includes | public/quiz.js:93 | `includes`: the text occurs at some position of the string. KeyMarkerLine uses it for lines starting with `Correct answer:` |
| Text.SplitPieces | public/quiz.js:60 | no piece returned by `split(sep)` contains `sep`, and every character of a piece comes from the input |
| Text.JoinSplit | public/quiz.js:60 | joining the pieces of `split(sep)` with `sep` gives the input back |
| Text.SplitJoin | public/quiz.js:95 | splitting a join of pieces that contain no separator gives the pieces back |
| QuizParser.IsQuestionStart | public/quiz.js:72 | `/^\d+\./.test(line)`: a non-empty run of digits at the start, followed by a dot. QuestionTextRemoves states what the prompt then drops |
| QuizParser.QuestionText | public/quiz.js:83 | the prompt is a proper suffix of the line and does not start with whitespace |
| QuizParser.QuestionTextRemoves | public/quiz.js:83 | `replace(/^\d+\.\s*/, '')` removes exactly a non-empty run of digits, the dot after it, and whitespace |
| QuizParser.OptionText | public/quiz.js:89 | the option text is a proper suffix of the line and does not start with whitespace |
| QuizParser.OptionTextRemoves | public/quiz.js:88-89 | `replace(/^-\s*/, '')` removes exactly the leading dash and the whitespace after it |
| QuizParser.FirstMatch | public/quiz.js:94 | a position the search returns lies at or after where it started, and `Correct answer: [A-Z,]` matches there |
| QuizParser.FirstMatchIsLeftmost | public/quiz.js:94 | the search returns the leftmost match, and returns nothing only when the pattern matches nowhere after the start |
| QuizParser.Capture | public/quiz.js:94 | the capture group of a match at a position ends within the line. CaptureSpec characterises it |
| QuizParser.CaptureSpec | public/quiz.js:94 | the capture group is a non-empty, maximal run of `[A-Z,]` characters right after the literal prefix |
| QuizParser.TrimAll | public/quiz.js:95 | `map(a => a.trim())` keeps the number of tokens |
| QuizParser.TrimAllSpec | public/quiz.js:95 | `map(a => a.trim())` trims every token in place |
| QuizParser.TrimAllUntouched | public/quiz.js:95 | `map(a => a.trim())` leaves a list alone when `trim` leaves each token alone |
| QuizParser.AnswerKey | public/quiz.js:94-95 | the answer key of a line: the capture of the leftmost match cut at commas and trimmed, or nothing when the match is `null`. AnswerKeyMissing and AnswerKeyTokens characterise it |
| QuizParser.AnswerKeyMissing | public/quiz.js:94-95 | the key is missing (the match is `null`) exactly when the pattern matches nowhere in the line |
| QuizParser.AnswerKeyTokens | public/quiz.js:94-95 | joining the key's tokens with commas gives the capture of the leftmost match; every token is a possibly empty run of A–Z, so `trim` never changes one |
| QuizParser.LetterPieces | public/quiz.js:95 | splitting a run of `[A-Z,]` at its commas gives runs of capital letters, which `trim` leaves alone |
| QuizParser.SpacedKey | public/quiz.js:94-95 | for any capital letter X, `Correct answer: X, …` yields the key `["X", ""]`: the capture stops at the space, so the letters after it are lost |
| QuizParser.SpacedKeyCapture | public/quiz.js:94 | on such a line the pattern matches at the start and captures the letter and the comma |
| QuizParser.SplitLetterComma | public/quiz.js:95 | splitting a letter followed by a comma, such as `"A,"`, at `,` gives `["A", ""]` |
| QuizParser.BareMarker | public/quiz.js:94 | `Correct answer:` followed by at most one character (`Correct answer: ` with its space) has no match |
| QuizParser.NoKeyCharAfterPrefix | public/quiz.js:94 | `Correct answer: ` followed by a character outside `[A-Z,]`, such as `Correct answer: b`, has no match |
| QuizParser.EmptyPromptExample | public/quiz.js:72-83 | `12.` is a question start whose prompt is empty |
| QuizParser.Classify | public/quiz.js:68-96 | the branch the loop body takes on a trimmed line, with the value it records. Its definition is the source's test order: blank, then `^\d+\.`, then a leading `-`, then `Correct answer:`, and anything else is ignored |
| QuizParser.Kind | public/quiz.js:66-96 | the branch taken on a raw line after `trim()`. BlankKind, QuestionStartWins, DashWins, MalformedKind, KeyMarkerLine and KindKeyIsLetters characterise it |
| QuizParser.BlankKind | public/quiz.js:66-69 | a raw line is skipped as blank exactly when every character of it is whitespace |
| QuizParser.QuestionStartWins | public/quiz.js:66-86 | a line that starts with a number and a dot once trimmed opens a question, even when it contains `Correct answer:` (so `1. Correct answer: b` does not throw) |
| QuizParser.DashWins | public/quiz.js:66-90 | a line that starts with `-` once trimmed is an option, even when it contains `Correct answer:` (so `- Correct answer: b` does not throw) |
| QuizParser.MalformedKind | public/quiz.js:66-94 | the parser throws on a line exactly when, once trimmed, it is non-empty, not a question start, does not start with `-`, includes `Correct answer:`, and the answer-key pattern matches at no position |
| QuizParser.KeyMarkerLine | public/quiz.js:93-94 | a line that starts with `Correct answer:` once trimmed is a key line, or a malformed one when the pattern finds no match |
| QuizParser.KindKeyIsLetters | public/quiz.js:93-95 | the key of a key line is the answer key of the trimmed line, made of capital-letter tokens |
| QuizParser.FlushKeepsFinished | public/quiz.js:73-80 | saving the previous question keeps the finished questions as a prefix and adds one question exactly when the open prompt is non-empty (truthy); what it adds is the open question, never with an empty prompt |
| QuizParser.Lines | public/quiz.js:60 | `content.split('\n')`. JoinSplit shows the lines join back into the content |
| QuizParser.Kinds | public/quiz.js:65-66 | there is one classified kind per line |
| QuizParser.KindAt | public/quiz.js:65-66 | kind `i` is the classification of trimmed line `i` |
| QuizParser.ParseQuiz | public/quiz.js:58-109 | the parser as a fold over the classified lines. ParseIsReference, ParseFailsOnMalformedKey and ParseQuestionOrder characterise it |
| QuizParser.ReadKeyLine | public/quiz.js:93-95 | a line containing the marker records the key of the match, and makes the parser throw at that line when the pattern finds nothing |
| QuizParser.ReadLine | public/quiz.js:66-96 | one pass of the loop body changes the accumulators exactly as one step of the fold does, and throws on a malformed key line |
| QuizParser.ParseMarkdownQuiz | public/quiz.js:58-109 | the loop over the split lines, with its three accumulators and the final flush, returns exactly `ParseQuiz(content)`, or its error |
| QuizReference.BodyLenIsFirst | public/quiz.js:72 | no question start comes before the first block |
| QuizReference.LastKeySpec | public/quiz.js:85-95 | a block's key is that of its last key line, and missing (`null`) when it has no key line |
| QuizReference.LastKeyCons | public/quiz.js:93-95 | a later key line replaces an earlier one |
| QuizReference.QuestionTexts | public/quiz.js:72-83 | the non-empty prompts of the question starts, in document order |
| QuizReference.Prompts | public/quiz.js:75-76 | the prompts of a list of questions, one per question |
| QuizReference.PendingInBody | public/quiz.js:88-95 | an option, key, blank or ignored line only extends the open question: it adds no finished question, and the open question completed with the rest of its block is unchanged |
| QuizReference.PendingAtQuestion | public/quiz.js:72-86 | a question start closes the open question and opens the next block |
| QuizReference.StepKeepsReference | public/quiz.js:65-96 | one step of the loop keeps (finished questions + completed open question + later blocks) unchanged |
| QuizReference.StepAtQuestion | public/quiz.js:72-86 | the same at a question start |
| QuizReference.RunIsReference | public/quiz.js:65-106 | from any state and any line on, with no malformed key ahead, the run succeeds. Its result is the finished questions, then the open question completed, then the questions of the remaining blocks |
| QuizReference.RunOutcome | public/quiz.js:93-94 | the run fails exactly when a malformed key line lies ahead, and throws at the first one |
| QuizReference.ReferenceSkipsPrelude | public/quiz.js:84 | lines before the first question start contribute no question |
| QuizReference.ReferenceCons | public/quiz.js:84-91 | a line that is not a question start, before the first question start, is discarded |
| QuizReference.PreludeIsDiscarded | public/quiz.js:61-63 | the block reading discards the lines before the first question start, whatever they are. The parser agrees when no line is malformed; a malformed key line before the first question still makes it throw |
| QuizReference.QuestionTextsSkip | public/quiz.js:72 | lines before the first question start hold no prompt |
| QuizReference.ReferencePrompts | public/quiz.js:72-106 | the reading yields one question per question start with a non-empty prompt, in order |
| QuizReference.ParseKindsFails | public/quiz.js:93-94 | on classified lines, parsing fails exactly when there is a malformed key line, and throws at the first one |
| QuizReference.ParseKindsIsReference | public/quiz.js:58-109 | on classified lines without a malformed key, the parser returns the block reading |
| QuizReference.ParseKindsOrder | public/quiz.js:72-106 | on classified lines, a successful parse gives one question per question start with a non-empty prompt, in order |
| QuizReference.KindsOfLines | public/quiz.js:60-66 | the kinds are the classification of the split lines, line by line |
| QuizReference.ParseFailsOnMalformedKey | public/quiz.js:93-94 | `parseMarkdownQuiz` throws exactly when some line is a key line with no match, and throws at the first such line. MalformedKind states that condition on the raw line |
| QuizReference.ParseIsReference | public/quiz.js:58-109 | when no line is malformed, the parser returns the questions of the block reading |
| QuizReference.ParseQuestionOrder | public/quiz.js:72-106 | a successful parse yields one question per numbered line whose prompt is non-empty after the number is removed, in document order (`12.` produces nothing). Every prompt is non-empty |
| QuizReference.FlushLetters | public/quiz.js:100-106 | closing the open question keeps every key a list of capital-letter tokens |
| QuizReference.RunLetters | public/quiz.js:65-96 | the loop keeps every key a list of capital-letter tokens |
| QuizReference.ParsedKeysAreLetters | public/quiz.js:94-95 | every answer key of a parsed quiz is a list of capital-letter tokens |
| ResultSummary.Percentage | public/quiz.js:171-172 | the percentage is the integer nearest to `100 * score / total`, halves rounded up, and within 0..100; for a score at most the number of questions, it is missing (NaN) exactly when there are no questions |
| ResultSummary.PercentageIsNearest | public/quiz.js:172 | that rounding has only one answer: any integer within half a point is the percentage |
| ResultSummary.Passed | public/quiz.js:173 | `percentage >= 70`, false for NaN. PassedExactly characterises it |
| ResultSummary.PassedExactly | public/quiz.js:171-173 | passing (`percentage >= 70`) holds exactly when there are questions and `200 * score >= 139 * total` |
| ResultSummary.EmptyQuizFails | public/quiz.js:171-173 | a quiz with no questions, and so a score of 0, has no percentage (NaN) and is not passed |
| ResultSummary.PassedMonotone | public/quiz.js:171-173 | one more correct answer never turns a pass into a fail |
| ResultSummary.PassMarkExamples | public/quiz.js:171-173 | 7/10 gives 70% and passes; 6/10 gives 60% and fails; 1/8 rounds 12.5 up to 13; 2/3 gives 67 |
| QuizSession.LetterCode | public/quiz.js:148 | `String.fromCharCode(65 + index)` keeps the low 16 bits; the first 26 indices give A–Z |
| QuizSession.LetterCodeWraps | public/quiz.js:148 | the letter code is 65 plus the index modulo 2^16, wrapping past 0xFFFF |
| QuizSession.IsCorrect | public/quiz.js:148 | `correctAnswer.includes(String.fromCharCode(65 + selectedAnswer))`: some token is exactly the one-character string of that code. GradeByLetter characterises it for letter keys |
| QuizSession.GradeByLetter | public/quiz.js:148 | for a key of capital-letter tokens, an option is correct exactly when its index is below 26 (modulo 2^16) and its one-letter string is a token |
| QuizSession.GradeParsedQuestion | public/quiz.js:148 | that rule holds for every question of a parsed quiz |
| QuizSession.GradingExamples | public/quiz.js:148 | key `["B"]` makes option B right and option A wrong; key `["A", ""]` (from `A, C`) makes option C wrong |
| QuizSession.QuizApp.Valid | public/quiz.js:111-164 | under the button gating the index stays within the questions, at most one button shows, and a selection names an option on screen. The score is at most the questions answered so far, so never more than the number of questions |
| QuizSession.QuizApp.constructor | public/quiz.js:2-6 | the session starts with no questions, index 0, score 0, nothing selected, both buttons hidden |
| QuizSession.QuizApp.LoadQuizFile | public/quiz.js:43-55 | an empty file name, a failed fetch or a parse error leaves the session unchanged. Otherwise the parsed questions replace the old ones, index and score become 0, and the first question (or the result) is displayed |
| QuizSession.QuizApp.StartQuiz | public/quiz.js:48-52 | after a successful parse the questions are replaced, index and score become 0, and the first question is shown with Submit, or the result when the quiz is empty |
| QuizSession.QuizApp.DisplayQuestion | public/quiz.js:111-132 | past the last question it shows the result. Otherwise it shows the current question with Submit shown, Next hidden and the selection cleared |
| QuizSession.QuizApp.SelectAnswer | public/quiz.js:134-141 | the clicked option becomes the one selection and nothing else changes |
| QuizSession.QuizApp.CheckAnswer | public/quiz.js:143-159 | it does nothing without a selection, and throws without changing anything when the question has no key. Otherwise the score rises by exactly one iff the selected letter is in the key, and Submit gives way to Next |
| QuizSession.QuizApp.NextQuestion | public/quiz.js:161-164 | the index rises by one; reaching the number of questions shows the result, otherwise the next question |
| QuizSession.QuizApp.ShowQuizComplete | public/quiz.js:170-198 | the summary of the score over all questions is shown and both buttons are hidden |
| QuizSession.QuizApp.ResetQuiz | public/quiz.js:200-205 | it keeps the questions, sets index and score to 0 and displays the first question (or the result when the quiz is empty) |
| QuizSession.QuizApp.ChooseNewQuiz | public/quiz.js:207-217 | it empties the questions, sets index and score to 0 and hides both buttons; the selection is left as it was |

## Left out

- `server.js` is not part of this model. It holds the HTTP routes and the file-system reads.
- `loadAvailableQuizzes` and the `fetch` in `loadQuizFile` are network I/O. `LoadQuizFile` receives the response text as a parameter; `None` stands for a rejected fetch. A fetch that resolves with an error status still yields a body: the server's error JSON has no question lines, so it parses to an empty quiz, the old questions are replaced, and the 0-of-0 result is shown. The model produces this when given that body as `Some(body)`.
- The page is not modelled: `classList` marks, `innerHTML`, element creation, event wiring and the text `updateScore` writes. Only Submit and Next visibility is kept, as two booleans.
- The initial visibility of the two buttons comes from page markup outside this repository. The model assumes both start hidden.
- `this.quizFile` is never read, so the model omits it.
- Two `loadQuizFile` calls in flight at once are not modelled: each load is atomic.
- ResultSummary.Percentage: does not model floating point. `Math.round(score / total * 100)` can differ from exact rounding only when the product lands on an exact .5 tie.
- QuizParser.ParseMarkdownQuiz: is a module-level method, not a `QuizApp` member, because it reads and writes no field of the session.
- QuizParser.Flush: `currentQuestion` is `null` before the first question. The model uses `""` instead; both are falsy, and nothing else tells them apart.
- Strings are sequences of Unicode scalar values. JavaScript strings are UTF-16 code units, so lone surrogates cannot be represented. Grading compares character codes as integers, so no character is built from a code in the surrogate range.
- QuizSession.QuizApp.SelectAnswer: requires an option on screen, because only existing option elements can be clicked. The out-of-range `options[index]` that a direct call could make is not modelled.
- QuizSession.QuizApp.CheckAnswer: the `TypeError` that a question without a key raises is modelled as the outcome `NoAnswerKey`, with the state unchanged. The error is not propagated.
- The parse error carries the index of the first line whose key the pattern cannot match. In the source the `TypeError` from `null[1]` carries no line number, and `loadQuizFile` only logs it. The index is the model's way of naming which line throws.
- ResultSummary.Percentage: requires a score no greater than the number of questions, which `Valid()` guarantees. A positive score over zero questions would give `Infinity` in the source, which passes; the session cannot reach it.
