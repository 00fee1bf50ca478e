# Quiz runner — a Dafny model

This project models the core of a small command-line quiz written in JavaScript.

- **`Quiz`** (src/Quiz.js) is a state tracker. It holds a fixed list of multiple-choice questions, a cursor (`currentQuestionIndex`), a `score` and an append-only `userAnswers` history.
- **`QuizApp`** (index.js) drives a `Quiz` from the terminal:
  - it greets the user;
  - it asks the question under the cursor;
  - it reads an answer line, parses it with `parseInt`, checks it against the fixed range 1..4 and submits it;
  - it prints a verdict and asks again, until no question is left;
  - then it prints the score, the percentage and one of four encouragement tiers, and closes the reader.
- **The question bank** (data/questions.js) is a constant list of five questions.

Files and modules:

- `wrappers.dfy` (`Wrappers`): the `Option` and `Result` types. `Option.None` stands for JavaScript's `null`, `undefined` and `NaN`. `Result.Err` stands for a thrown `Error`.
- `quiz.dfy` (`QuizState`): the `Quiz` class and the specification functions it is proved against.
  - `Valid()` is the class invariant: the cursor equals the length of the history, record i is the answer to question i, and the score counts the correct records.
  - Every operation keeps `Valid()`.
  - The percentage is computed exactly, rounded half up.
- `parse_int.dfy` (`JsParseInt`): the `parseInt(string)` of section 19.2.5 of ECMAScript 2023, with no radix argument.
  - Leading WhiteSpace and LineTerminator characters are skipped.
  - One optional sign is read.
  - A `0x`/`0X` prefix selects base 16.
  - The longest run of digits that follows is the value. No digits at all gives `NaN`, modelled as `None`.
- `questions.dfy` (`QuestionData`): the bank as a constant, and the well-formedness predicate the data tests check.
- `session.dfy` (`QuizSession`): the `QuizApp` class.
  - The console is a field `output: seq<Message>` of message tags. Each `console.log` group becomes one tag.
  - `rl.close()` is counted in `closeCalls`.
  - The lines typed at the prompts are a `seq<string>` given to `Run`.
  - `SessionAnswers` says which answers a session submits for a given input; `SessionOutput` says what it prints. Both are defined over the parsed lines (`Choices`).
  - The loop that the readline callbacks form is proved to follow these two functions line by line.
- `scenarios.dfy` (`QuizScenarios`): runs of `Quiz` taken from tests/Quiz.test.js.

The bank is kept exactly as stored. In particular, the first question's `correctAnswer` is 2 ("Processes"), although the question text points to "Event Loop". The model keeps that value.

## Model

| member | source | states |
|---|---|---|
| QuizState.RecordFor | src/Quiz.js:46-50 | the record pushed for an answer: the question index, the answer, and whether it equals that question's `correctAnswer` |
| QuizState.Records | src/Quiz.js:46-52 | the history a run of answers leaves, one `RecordFor` per answer on consecutive questions |
| QuizState.CountCorrect | src/Quiz.js:42-44 | the score counted from a history is at most its length; it is 0 iff no record is correct, and equals the length iff every record is correct |
| QuizState.CountCorrectAppend | src/Quiz.js:42-50 | appending records adds exactly their correct count to the score, which is why the score and the history stay in step |
| QuizState.RecordsConsistent | src/Quiz.js:46-52 | answering the first questions in order leaves a history in which record i names question i and is marked correct iff it matches question i's answer |
| QuizState.RecordsCons | src/Quiz.js:46-52 | the history of a run of answers is the record of the first answer followed by the history of the rest |
| QuizState.RoundedPercentage | src/Quiz.js:73-75 | the percentage is 0 for an empty quiz and lies in 0..100 whenever the score does not exceed the question count |
| QuizState.RoundedPercentageNearest | src/Quiz.js:74 | the percentage p satisfies p - 1/2 <= 100 * correct / total < p + 1/2, the nearest integer with ties rounded up |
| QuizState.RoundedPercentageUnique | src/Quiz.js:74 | any integer within that half-open bracket is the percentage, so the bracket defines it |
| QuizState.RoundedPercentageIsMathRound | src/Quiz.js:74 | the percentage is floor(100 * correct / total + 1/2) over the reals, which is what `Math.round` computes |
| QuizState.Quiz.constructor | src/Quiz.js:10-15 | a new quiz keeps the given questions, with cursor 0, score 0 and an empty history, and is valid |
| QuizState.Quiz.Empty | src/Quiz.js:10 | with no argument, the question list is empty |
| QuizState.Quiz.GetCurrentQuestion | src/Quiz.js:21-26 | returns none iff the cursor is at or past the end of the list, and otherwise the question under the cursor |
| QuizState.Quiz.SubmitAnswer | src/Quiz.js:33-55 | with no question left, fails with "No question available" and changes nothing; otherwise returns whether the answer (any integer) equals the stored one, raises the score by 1 exactly then, appends the one record {old cursor, answer, verdict}, advances the cursor by 1 and keeps the invariant |
| QuizState.Quiz.IsComplete | src/Quiz.js:61-63 | true iff the cursor is at or past the end of the list |
| QuizState.Quiz.GetScore | src/Quiz.js:69-77 | reports the score, the question count and the rounded percentage, which lies in 0..100 in every valid state |
| QuizState.Quiz.Reset | src/Quiz.js:82-86 | cursor 0, score 0, empty history, the question list untouched, and the invariant re-established |
| QuizState.Quiz.GetTotalQuestions | src/Quiz.js:92-94 | the number of questions |
| QuizState.ValidBounds | src/Quiz.js:33-55 | in every valid state, score <= cursor <= number of questions |
| QuizScenarios.MultipleAnswersScenario | tests/Quiz.test.js:86-95 | answering correct, correct, incorrect gives score 2, cursor 3, three records, and the quiz is complete |
| QuizScenarios.ScoreScenario | tests/Quiz.test.js:117-129 | answering correct, incorrect, correct reports 2 of 3 and 67 percent |
| QuizScenarios.ExhaustedScenario | tests/Quiz.test.js:80-84 | a submission after the last question fails with "No question available" and the cursor stays at the end |
| QuizScenarios.EmptyQuizScenario | tests/Quiz.test.js:110-113 | an empty quiz is complete at once and scores 0 of 0 and 0 percent |
| JsParseInt.TrimStart | index.js:57 | the result is a suffix of the input, everything removed is white space, and what is left does not start with white space |
| JsParseInt.LeadingDigits | index.js:57 | the result is the longest prefix of the input made only of digits |
| JsParseInt.DigitsValue | index.js:57 | the value of a digit string in base 10 or 16, most significant digit first |
| JsParseInt.ParseInt | index.js:57 | `parseInt(answer)`: trim leading white space, read one optional sign, base 16 after "0x"/"0X" and base 10 otherwise, the value of the leading digits, or None (NaN) when there are none |
| JsParseInt.Decimal | index.js:57 | a decimal numeral is non-empty, all digits, and has no leading zero |
| JsParseInt.DecimalValue | index.js:57 | reading a numeral's digits gives the number back |
| JsParseInt.LeadingDigitsOfRun | index.js:57 | a digit run followed by a non-digit is exactly the leading digits |
| JsParseInt.UnsignedWithSuffix | index.js:57 | a numeral followed by text that does not continue it reads as the number, except "0" followed by "x" |
| JsParseInt.DecimalStart | index.js:57 | a numeral starts with neither white space nor a sign |
| JsParseInt.DecimalWithSuffix | index.js:57 | `parseInt` stops at the first character that does not continue the numeral ("2abc" reads as 2) |
| JsParseInt.DecimalRoundTrip | index.js:57 | `parseInt` of the decimal numeral of n is n |
| JsParseInt.NegativeDecimal | index.js:57 | a leading minus sign negates the number |
| JsParseInt.PositiveDecimal | index.js:57 | a leading plus sign changes nothing |
| JsParseInt.TrimStartSkips | index.js:57 | trimming skips any white-space prefix |
| JsParseInt.LeadingWhitespaceIgnored | index.js:57 | leading white space never changes what `parseInt` reads |
| JsParseInt.NotANumberExamples | index.js:57-59 | "invalid", "" and "-" read as NaN |
| JsParseInt.NumberExamples | index.js:57-59 | "2", "10", "2abc" and "4.5" read as 2, 10, 2 and 4 |
| JsParseInt.BlankPrefixExample | index.js:57 | " 3" reads as 3 |
| JsParseInt.HexPrefixExample | index.js:57 | "0x3" reads as 3 in base 16 |
| JsParseInt.HexLetterExample | index.js:57 | the digits after "0x" include letters: "0x1A" is 26 |
| QuestionData.BankWellFormed | data/questions.js:4-55 | the bank has five questions; each has non-empty text, at least four non-empty options (exactly four each) and a correct answer indexing one of them |
| QuestionData.BankAnswersInPromptRange | data/questions.js:13-53 | every stored correct answer lies in 0..3, the range the answer prompt accepts |
| QuizSession.AnswerIndex | index.js:57-59 | a line is accepted iff it parses to an integer n with 1 <= n <= 4, and then it selects option n - 1, whatever the question's option count |
| QuizSession.AnswerKeys | index.js:57-59 | typing k + 1 selects option k for each of the four options |
| QuizSession.AnswerIndexExamples | index.js:57-59 | "2" selects option 1, and "invalid" and "10" are rejected |
| QuizSession.AcceptedAnswerIsOption | index.js:59 | on a well-formed question, every accepted answer names one of its options |
| QuizSession.BankAnswersSelectable | index.js:59 | the correct answer of every question of the bank can be typed at the prompt |
| QuizSession.ResultTier | index.js:89-97 | the tier is Perfect iff the percentage is 100, Great job iff it is 80 or more but not 100, Good effort iff it is 60 to 79, and Keep practicing iff it is below 60 |
| QuizSession.TierMonotone | index.js:89-97 | over 0..100, a higher percentage never earns a lower tier |
| QuizSession.AllCorrectIsPerfect | index.js:89-90 | on a non-empty quiz, answering every question correctly reports 100 percent and the Perfect tier |
| QuizSession.EmptyQuizKeepsPracticing | index.js:95-96 | an empty quiz reports 0 percent and so the Keep practicing tier, although no answer was wrong |
| QuizSession.TierExamples | index.js:89-97 | 5/5 earns Perfect, 4/5 Great job and 2/5 Keep practicing |
| QuizSession.Feedback | index.js:67-72 | the verdict after an answer: Correct when it equals the stored answer, otherwise Incorrect with `options[correctAnswer]` of that question (undefined, None, outside the options) |
| QuizSession.ResultsOutput | index.js:81-97 | what `showResults` prints: the score, the total, the rounded percentage, then the tier of that percentage |
| QuizSession.AskOutput | index.js:33-45 | what `askQuestion` prints: the results when no question is under the cursor, otherwise the prompt numbered cursor + 1 of the total with the question text and its options |
| QuizSession.Choices | index.js:47-48 | each typed line is read on its own by the answer check |
| QuizSession.ValidAnswers | index.js:57-63 | the valid answers of an input are at most as many as its lines |
| QuizSession.SessionAnswers | index.js:32-75 | a session starting at a cursor never submits more answers than there are open questions, nor more than there are lines |
| QuizSession.SessionOutput | index.js:32-100 | everything a session prints after the current prompt: per invalid line the warning and the same prompt again, per valid line the verdict and the next prompt or the results, stopping after the results |
| QuizSession.ValidAnswersAppend | index.js:57-63 | the valid answers of two inputs in a row are those of each in turn |
| QuizSession.SessionAnswersArePrefix | index.js:32-75 | a session submits exactly the valid answers of its input, in order, up to the number of open questions |
| QuizSession.SessionCompletes | index.js:32-75 | a session reaches the results iff its input has at least as many valid answers as there are open questions |
| QuizSession.SessionEndsWithResults | index.js:32-99 | the printed transcript ends with the score and the encouragement exactly when the session answers the last open question; a session that reads some line and stops short of that ends with a prompt |
| QuizSession.InvalidChoiceNeverCounts | index.js:59-63 | an invalid line anywhere in the input does not change what is submitted |
| QuizSession.ChoicesAppend | index.js:47-48 | each input line is read on its own, so two runs of lines are read as each run in turn |
| QuizSession.InvalidInputNeverCounts | index.js:57-63 | inserting a line that does not parse to 1..4 anywhere in the input does not change what is submitted |
| QuizSession.SessionStep | index.js:56-75 | with a question open, an invalid line prints the warning and the same prompt and submits nothing; a valid one submits one record and prints the verdict and the next step |
| QuizSession.TranscriptStep | index.js:56-75 | one handled line moves the quiz history and the console one step along the session functions |
| QuizSession.QuizApp.constructor | index.js:9-15 | the application starts with a fresh, valid quiz over the bank, nothing printed and the reader open |
| QuizSession.QuizApp.ShowResults | index.js:80-100 | prints the score, the total, the rounded percentage and its tier, then closes the reader once |
| QuizSession.QuizApp.AskQuestion | index.js:32-50 | prompts for the question under the cursor as number cursor + 1 of the total, or shows the results (closing the reader) iff no question is left |
| QuizSession.QuizApp.Start | index.js:20-27 | prints the welcome banner with the question count, then asks the first question |
| QuizSession.QuizApp.HandleAnswer | index.js:56-75 | an invalid line leaves the quiz unchanged and prints the warning and the same prompt; a valid one submits the chosen option exactly once, advances the cursor by 1 and prints Correct or Incorrect with the option `options[correctAnswer]` of the question just answered, then the next step; a valid line with no question left fails as `submitAnswer` does and changes nothing |
| QuizSession.QuizApp.OnAnswer | index.js:47-49 | the prompt's callback moves the quiz and the console one step along the session functions, whatever lines follow |
| QuizSession.QuizApp.AnswerLoop | index.js:32-75 | reading the lines while a question is open leaves the history extended by exactly the session's answers, the console extended by exactly the session's output, and the reader closed once iff the last question was answered |
| QuizSession.QuizApp.Run | index.js:20-75 | a whole session: the banner and first prompt, then the answer loop; the score grows by the number of correct answers submitted and the reader is closed iff the results were shown |

## Left out

- Terminal I/O: the readline interface, `process.stdin`/`process.stdout` and the exact console text and emoji. Output is a sequence of message tags, input a sequence of lines, and `rl.close()` a counter.
- The asynchronous callbacks of `rl.question`. They are modelled as a loop that hands the lines to `HandleAnswer` one at a time, in order.
- The `require.main` entry point and the module wiring of index.js.
- QuizState.RoundedPercentage: floating point is not modelled. `Math.round(score / length * 100)` is computed exactly, rounded half up. A double quotient can fall just below a .5 tie and round down where the exact value rounds up.
- JsParseInt.ParseInt: `-0` is identified with 0, and `Number`'s loss of precision above 2^53 is not modelled. Neither changes the 1..4 range check.
- Tests that write to `currentQuestionIndex` or `score` directly (tests/Quiz.test.js:47, tests/QuizApp.test.js:79-80). The invariant `Valid()` does not hold after such writes, and the model does not allow them.
- The application tests that replace `askQuestion` with a mock. `AnswerIndexExamples` and `HandleAnswer`'s contract state what those tests check.
- Type checks of the data tests (`typeof` string or number). Dafny's types make them hold by construction.
