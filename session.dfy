/**
 * The decision logic of `QuizApp` in index.js: answer validation, the
 * ask-or-finish branch, the result tiers, and the question/answer loop that the
 * readline callbacks drive. Console output is a sequence of message tags and the
 * terminal's input is a sequence of raw answer lines.
 */
module QuizSession {
  import opened Wrappers
  import opened QuizState
  import opened JsParseInt
  import opened QuestionData

  /** The four encouragement messages closing the results. */
  datatype Tier = Perfect | GreatJob | GoodEffort | KeepPracticing

  /** What the application writes to the console, one tag per kind of output. */
  datatype Message =
    | Welcome(total: nat)
    | Prompt(number: nat, total: nat, text: string, options: seq<string>)
    | InvalidInput
    | Correct
    | Incorrect(correctOption: Option<string>)
    | Results(correct: nat, total: nat, percentage: int)
    | Encouragement(tier: Tier)

  /** The largest zero-based answer accepted, fixed whatever the question's option count. */
  const MaxAnswerIndex: int := 3

  /**
   * The zero-based option an input line selects: the line must parse to an
   * integer n with 1 <= n <= 4, and selects option n - 1; anything else is invalid.
   */
  function AnswerIndex(input: string): (r: Option<int>)
    ensures r.Some? <==> ParseInt(input).Some? && 1 <= ParseInt(input).value <= MaxAnswerIndex + 1
    ensures r.Some? ==> 0 <= r.value <= MaxAnswerIndex && ParseInt(input) == Some(r.value + 1)
  {
    match ParseInt(input)
    case None => None
    case Some(n) =>
      var answerIndex := n - 1;
      if answerIndex < 0 || answerIndex > MaxAnswerIndex then None else Some(answerIndex)
  }

  /** Typing the numeral k + 1 selects option k, for each of the four accepted options. */
  lemma AnswerKeys(k: int)
    requires 0 <= k <= MaxAnswerIndex
    ensures AnswerIndex(Decimal(k + 1)) == Some(k)
  {
    DecimalRoundTrip(k + 1);
  }

  /** The inputs of the application tests: "2" selects option 1; "invalid" and "10" are rejected. */
  lemma AnswerIndexExamples()
    ensures AnswerIndex("2") == Some(1)
    ensures AnswerIndex("invalid") == None
    ensures AnswerIndex("10") == None
  {
    NumberExamples();
    NotANumberExamples();
  }

  /** On a well-formed question, every accepted answer names one of its options. */
  lemma AcceptedAnswerIsOption(q: Question, input: string)
    requires WellFormedQuestion(q) && AnswerIndex(input).Some?
    ensures 0 <= AnswerIndex(input).value < |q.options|
  {
  }

  /** Each stored correct answer of the bank can be entered at the prompt. */
  lemma BankAnswersSelectable(i: int)
    requires 0 <= i < |QuizQuestions|
    ensures AnswerIndex(Decimal(QuizQuestions[i].correctAnswer + 1)) == Some(QuizQuestions[i].correctAnswer)
  {
    BankAnswersInPromptRange();
    AnswerKeys(QuizQuestions[i].correctAnswer);
  }

  /** The encouragement for a percentage: 100, then 80 and above, then 60 and above, then the rest. */
  function ResultTier(percentage: int): (t: Tier)
    ensures t == Perfect <==> percentage == 100
    ensures t == GreatJob <==> percentage != 100 && percentage >= 80
    ensures t == GoodEffort <==> 60 <= percentage < 80
    ensures t == KeepPracticing <==> percentage < 60
  {
    if percentage == 100 then Perfect
    else if percentage >= 80 then GreatJob
    else if percentage >= 60 then GoodEffort
    else KeepPracticing
  }

  /** Rank of a tier, from the lowest encouragement (0) to the highest (3). */
  function TierRank(t: Tier): nat {
    match t
    case KeepPracticing => 0
    case GoodEffort => 1
    case GreatJob => 2
    case Perfect => 3
  }

  /** Over the percentages a quiz can report, a higher percentage never earns a lower tier. */
  lemma TierMonotone(p1: int, p2: int)
    requires 0 <= p1 <= p2 <= 100
    ensures TierRank(ResultTier(p1)) <= TierRank(ResultTier(p2))
  {
  }

  /** Every question answered correctly always reports 100 percent and the top tier. */
  lemma AllCorrectIsPerfect(n: nat)
    requires n > 0
    ensures RoundedPercentage(n, n) == 100 && ResultTier(RoundedPercentage(n, n)) == Perfect
  {
    RoundedPercentageUnique(n, n, 100);
  }

  /** An empty quiz reports 0 percent, so it ends with the lowest tier even with nothing answered wrong. */
  lemma EmptyQuizKeepsPracticing()
    ensures RoundedPercentage(0, 0) == 0 && ResultTier(RoundedPercentage(0, 0)) == KeepPracticing
  {
  }

  /** The results of the application tests: 5/5, 4/5 and 2/5 out of five questions. */
  lemma TierExamples()
    ensures ResultTier(RoundedPercentage(5, 5)) == Perfect
    ensures ResultTier(RoundedPercentage(4, 5)) == GreatJob
    ensures ResultTier(RoundedPercentage(2, 5)) == KeepPracticing
  {
    RoundedPercentageUnique(5, 5, 100);
    RoundedPercentageUnique(4, 5, 80);
    RoundedPercentageUnique(2, 5, 40);
  }

  /** `options[i]` in JavaScript: undefined (None) outside the array. */
  function OptionAt(options: seq<string>, i: int): Option<string> {
    if 0 <= i < |options| then Some(options[i]) else None
  }

  /** The verdict printed after `answer` was submitted for question `q`. */
  function Feedback(q: Question, answer: int): Message {
    if answer == q.correctAnswer then Correct else Incorrect(OptionAt(q.options, q.correctAnswer))
  }

  /** What `showResults` prints for a score. */
  function ResultsOutput(correct: nat, total: nat): seq<Message> {
    var percentage := RoundedPercentage(correct, total);
    [Results(correct, total, percentage), Encouragement(ResultTier(percentage))]
  }

  /** What `askQuestion` prints: the question under the cursor, or the results once none is left. */
  function AskOutput(questions: seq<Question>, cursor: nat, score: nat): seq<Message> {
    if cursor >= |questions| then ResultsOutput(score, |questions|)
    else
      var q := questions[cursor];
      [Prompt(cursor + 1, |questions|, q.text, q.options)]
  }

  /** How each input line is read at the prompt: the option it selects, or None if invalid. */
  function Choices(inputs: seq<string>): seq<Option<int>> {
    seq(|inputs|, i requires 0 <= i < |inputs| => AnswerIndex(inputs[i]))
  }

  /** Every option the choices select, in order, whether or not a question is still open. */
  function ValidAnswers(choices: seq<Option<int>>): (answers: seq<int>)
    ensures |answers| <= |choices|
  {
    if choices == [] then []
    else
      match choices[0]
      case None => ValidAnswers(choices[1..])
      case Some(a) => [a] + ValidAnswers(choices[1..])
  }

  /**
   * The answers a session submits when it reads `choices` one line at a time with
   * the cursor at `cursor`: invalid lines are skipped, and reading stops once the
   * last question has been answered.
   */
  function SessionAnswers(questions: seq<Question>, cursor: nat, choices: seq<Option<int>>): (answers: seq<int>)
    ensures cursor <= |questions| ==> cursor + |answers| <= |questions|
    ensures |answers| <= |choices|
    decreases |choices|
  {
    if cursor >= |questions| || choices == [] then []
    else
      match choices[0]
      case None => SessionAnswers(questions, cursor, choices[1..])
      case Some(a) => [a] + SessionAnswers(questions, cursor + 1, choices[1..])
  }

  /**
   * What a session prints after the current prompt while it reads `choices`: for
   * an invalid line the warning and the same question again, for a valid one the
   * verdict and then the next question or the results.
   */
  function SessionOutput(questions: seq<Question>, cursor: nat, score: nat, choices: seq<Option<int>>): seq<Message>
    decreases |choices|
  {
    if cursor >= |questions| || choices == [] then []
    else
      match choices[0]
      case None =>
        [InvalidInput] + AskOutput(questions, cursor, score)
        + SessionOutput(questions, cursor, score, choices[1..])
      case Some(a) =>
        var q := questions[cursor];
        var score' := score + (if a == q.correctAnswer then 1 else 0);
        [Feedback(q, a)] + AskOutput(questions, cursor + 1, score')
        + SessionOutput(questions, cursor + 1, score', choices[1..])
  }

  /** Selecting answers distributes over concatenation of input streams. */
  lemma {:induction false} ValidAnswersAppend(a: seq<Option<int>>, b: seq<Option<int>>)
    ensures ValidAnswers(a + b) == ValidAnswers(a) + ValidAnswers(b)
  {
    if a == [] {
      assert a + b == b;
    } else {
      assert (a + b)[0] == a[0];
      assert (a + b)[1..] == a[1..] + b;
      ValidAnswersAppend(a[1..], b);
    }
  }

  /**
   * A session submits exactly the valid answers among its inputs, in order, up to
   * the number of questions still open.
   */
  lemma {:induction false} SessionAnswersArePrefix(questions: seq<Question>, cursor: nat, choices: seq<Option<int>>)
    requires cursor <= |questions|
    ensures var valid := ValidAnswers(choices);
            var open := |questions| - cursor;
            SessionAnswers(questions, cursor, choices)
              == valid[..if |valid| < open then |valid| else open]
    decreases |choices|
  {
    if cursor < |questions| && choices != [] {
      var rest := choices[1..];
      match choices[0]
      case None =>
        SessionAnswersArePrefix(questions, cursor, rest);
      case Some(a) =>
        SessionAnswersArePrefix(questions, cursor + 1, rest);
        var valid := ValidAnswers(rest);
        var open := |questions| - cursor - 1;
        var k := if |valid| < open then |valid| else open;
        assert [a] + valid[..k] == ([a] + valid)[..k + 1];
    }
  }

  /**
   * A session reaches the results exactly when its inputs hold at least as many
   * valid answers as there are open questions, and then it has submitted exactly
   * that many.
   */
  lemma SessionCompletes(questions: seq<Question>, cursor: nat, choices: seq<Option<int>>)
    requires cursor <= |questions|
    ensures cursor + |SessionAnswers(questions, cursor, choices)| == |questions|
            <==> |ValidAnswers(choices)| >= |questions| - cursor
  {
    SessionAnswersArePrefix(questions, cursor, choices);
  }

  /** An invalid line, wherever it occurs, has no effect on what the session submits. */
  lemma InvalidChoiceNeverCounts(questions: seq<Question>, cursor: nat,
                                 before: seq<Option<int>>, after: seq<Option<int>>)
    requires cursor <= |questions|
    ensures SessionAnswers(questions, cursor, before + [None] + after)
         == SessionAnswers(questions, cursor, before + after)
  {
    assert before + [None] + after == before + ([None] + after);
    ValidAnswersAppend(before, [None] + after);
    assert ([None] + after)[1..] == after;
    ValidAnswersAppend(before, after);
    SessionAnswersArePrefix(questions, cursor, before + [None] + after);
    SessionAnswersArePrefix(questions, cursor, before + after);
  }

  /** Reading two runs of input lines reads each run on its own. */
  lemma ChoicesAppend(before: seq<string>, after: seq<string>)
    ensures Choices(before + after) == Choices(before) + Choices(after)
  {
    var all, left, right := Choices(before + after), Choices(before), Choices(after);
    assert |all| == |left + right|;
    forall i | 0 <= i < |all|
      ensures all[i] == (left + right)[i]
    {
      if i < |before| {
        assert (before + after)[i] == before[i];
      } else {
        assert (before + after)[i] == after[i - |before|];
      }
    }
  }

  /** The lines still to be read are the next line followed by the rest. */
  lemma ChoicesSplit(inputs: seq<string>, i: nat)
    requires i < |inputs|
    ensures Choices(inputs)[i..] == [AnswerIndex(inputs[i])] + Choices(inputs)[i + 1..]
  {
  }

  /** On an invalid input line ("abc", "10", ...) a session submits what it would have without it. */
  lemma InvalidInputNeverCounts(questions: seq<Question>, cursor: nat,
                                before: seq<string>, line: string, after: seq<string>)
    requires cursor <= |questions|
    requires AnswerIndex(line).None?
    ensures SessionAnswers(questions, cursor, Choices(before + [line] + after))
         == SessionAnswers(questions, cursor, Choices(before + after))
  {
    ChoicesAppend(before + [line], after);
    ChoicesAppend(before, [line]);
    ChoicesAppend(before, after);
    assert Choices([line]) == [None];
    assert Choices(before + [line] + after) == Choices(before) + [None] + Choices(after);
    InvalidChoiceNeverCounts(questions, cursor, Choices(before), Choices(after));
  }

  /** One step of a session: the first line read with a question open. */
  lemma SessionStep(questions: seq<Question>, cursor: nat, score: nat, choice: Option<int>, rest: seq<Option<int>>)
    requires cursor < |questions|
    ensures choice.None? ==>
              && SessionAnswers(questions, cursor, [choice] + rest) == SessionAnswers(questions, cursor, rest)
              && SessionOutput(questions, cursor, score, [choice] + rest)
                 == [InvalidInput] + AskOutput(questions, cursor, score)
                    + SessionOutput(questions, cursor, score, rest)
    ensures choice.Some? ==>
              var a := choice.value;
              var score' := score + (if a == questions[cursor].correctAnswer then 1 else 0);
              && Records(questions, cursor, SessionAnswers(questions, cursor, [choice] + rest))
                 == [RecordFor(questions, cursor, a)]
                    + Records(questions, cursor + 1, SessionAnswers(questions, cursor + 1, rest))
              && SessionOutput(questions, cursor, score, [choice] + rest)
                 == [Feedback(questions[cursor], a)] + AskOutput(questions, cursor + 1, score')
                    + SessionOutput(questions, cursor + 1, score', rest)
  {
    assert ([choice] + rest)[0] == choice && ([choice] + rest)[1..] == rest;
    if choice.Some? {
      RecordsCons(questions, cursor, choice.value, SessionAnswers(questions, cursor + 1, rest));
    }
  }

  /**
   * Handling one line with a question open, as HandleAnswer promises to, moves the
   * quiz and the console exactly one step along SessionAnswers and SessionOutput.
   */
  lemma TranscriptStep(questions: seq<Question>, cursor: nat, score: nat,
                       history: seq<AnswerRecord>, printed: seq<Message>,
                       choice: Option<int>, rest: seq<Option<int>>,
                       cursor': nat, score': nat, history': seq<AnswerRecord>, printed': seq<Message>)
    requires cursor < |questions|
    requires choice.None? ==>
               && cursor' == cursor && score' == score && history' == history
               && printed' == printed + [InvalidInput] + AskOutput(questions, cursor, score)
    requires choice.Some? ==>
               var a := choice.value;
               && cursor' == cursor + 1
               && score' == score + (if a == questions[cursor].correctAnswer then 1 else 0)
               && history' == history + [RecordFor(questions, cursor, a)]
               && printed' == printed + [Feedback(questions[cursor], a)] + AskOutput(questions, cursor + 1, score')
    ensures cursor' <= |questions|
    ensures history + Records(questions, cursor, SessionAnswers(questions, cursor, [choice] + rest))
         == history' + Records(questions, cursor', SessionAnswers(questions, cursor', rest))
    ensures printed + SessionOutput(questions, cursor, score, [choice] + rest)
         == printed' + SessionOutput(questions, cursor', score', rest)
  {
    SessionStep(questions, cursor, score, choice, rest);
    if choice.Some? {
      var a := choice.value;
      var tail := Records(questions, cursor + 1, SessionAnswers(questions, cursor + 1, rest));
      AppendAssoc(history, [RecordFor(questions, cursor, a)], tail);
      var step := [Feedback(questions[cursor], a)] + AskOutput(questions, cursor + 1, score');
      AppendAssoc(printed, [Feedback(questions[cursor], a)], AskOutput(questions, cursor + 1, score'));
      AppendAssoc(printed, step, SessionOutput(questions, cursor + 1, score', rest));
    } else {
      var step := [InvalidInput] + AskOutput(questions, cursor, score);
      AppendAssoc(printed, [InvalidInput], AskOutput(questions, cursor, score));
      AppendAssoc(printed, step, SessionOutput(questions, cursor, score, rest));
    }
  }

  /** The console ends with the score and the encouragement, as `showResults` prints them. */
  predicate ShowsResults(out: seq<Message>) {
    |out| >= 2 && out[|out| - 2].Results? && out[|out| - 1].Encouragement?
  }

  /**
   * A session's output ends with the results exactly when it answers the last
   * open question; a session that reads some line and stops short of that ends
   * with a prompt.
   */
  lemma {:induction false} SessionEndsWithResults(questions: seq<Question>, cursor: nat, score: nat,
                                                  choices: seq<Option<int>>)
    requires cursor <= |questions|
    ensures var out := SessionOutput(questions, cursor, score, choices);
            var n := |SessionAnswers(questions, cursor, choices)|;
            && (ShowsResults(out) <==> cursor < |questions| && cursor + n == |questions|)
            && (choices != [] && cursor + n < |questions| ==> |out| >= 1 && out[|out| - 1].Prompt?)
    decreases |choices|
  {
    if cursor < |questions| && choices != [] {
      var rest := choices[1..];
      var out := SessionOutput(questions, cursor, score, choices);
      match choices[0]
      case None =>
        var pre := [InvalidInput] + AskOutput(questions, cursor, score);
        var tail := SessionOutput(questions, cursor, score, rest);
        assert out == pre + tail;
        if rest == [] {
          assert out == [InvalidInput, AskOutput(questions, cursor, score)[0]];
        } else {
          SessionEndsWithResults(questions, cursor, score, rest);
          OutputEnding(pre, tail);
        }
      case Some(a) =>
        var score' := score + (if a == questions[cursor].correctAnswer then 1 else 0);
        var pre := [Feedback(questions[cursor], a)] + AskOutput(questions, cursor + 1, score');
        var tail := SessionOutput(questions, cursor + 1, score', rest);
        assert out == pre + tail;
        if cursor + 1 == |questions| || rest == [] {
          assert tail == [];
          assert out == pre;
        } else {
          SessionEndsWithResults(questions, cursor + 1, score', rest);
          OutputEnding(pre, tail);
        }
    }
  }

  /** What a transcript ends with is decided by its last part. */
  lemma OutputEnding(pre: seq<Message>, out: seq<Message>)
    requires out != []
    requires ShowsResults(out) || out[|out| - 1].Prompt?
    ensures ShowsResults(pre + out) <==> ShowsResults(out)
    ensures (pre + out)[|pre + out| - 1] == out[|out| - 1]
  {
    if |out| >= 2 {
      assert (pre + out)[|pre + out| - 2] == out[|out| - 2];
    }
  }

  /** Concatenation is associative. */
  lemma AppendAssoc<T>(a: seq<T>, b: seq<T>, c: seq<T>)
    ensures a + (b + c) == (a + b) + c
  {
  }

  /** The application object of index.js: a quiz, the console output so far, and the reader. */
  class QuizApp {
    const quiz: Quiz
    /** Everything written to the console so far. */
    var output: seq<Message>
    /** How many times the readline interface has been closed. */
    var closeCalls: nat

    ghost predicate Valid()
      reads this, quiz
    {
      quiz.Valid()
    }

    /** `new QuizApp()`: a fresh quiz over the question bank, nothing printed yet. */
    constructor ()
      ensures Valid() && fresh(quiz)
      ensures quiz.questions == QuizQuestions
      ensures quiz.currentQuestionIndex == 0 && quiz.score == 0 && quiz.userAnswers == []
      ensures output == [] && closeCalls == 0
    {
      quiz := new Quiz(QuizQuestions);
      output := [];
      closeCalls := 0;
    }

    /** Prints the score, the percentage and the tier, then closes the reader. */
    method ShowResults()
      modifies this
      ensures output == old(output) + ResultsOutput(quiz.score, |quiz.questions|)
      ensures closeCalls == old(closeCalls) + 1
    {
      var s := quiz.GetScore();
      output := output + [Results(s.correct, s.total, s.percentage), Encouragement(ResultTier(s.percentage))];
      closeCalls := closeCalls + 1;
    }

    /** Prompts for the question under the cursor, or shows the results when there is none. */
    method AskQuestion()
      modifies this
      ensures output == old(output) + AskOutput(quiz.questions, quiz.currentQuestionIndex, quiz.score)
      ensures closeCalls == old(closeCalls)
                            + (if quiz.currentQuestionIndex >= |quiz.questions| then 1 else 0)
    {
      var question := quiz.GetCurrentQuestion();
      if question.None? {
        ShowResults();
        return;
      }
      var total := quiz.GetTotalQuestions();
      output := output + [Prompt(quiz.currentQuestionIndex + 1, total, question.value.text, question.value.options)];
    }

    /** Prints the welcome banner with the question count and asks the first question. */
    method Start()
      modifies this
      ensures output == old(output) + [Welcome(|quiz.questions|)]
                        + AskOutput(quiz.questions, quiz.currentQuestionIndex, quiz.score)
      ensures closeCalls == old(closeCalls)
                            + (if quiz.currentQuestionIndex >= |quiz.questions| then 1 else 0)
    {
      var total := quiz.GetTotalQuestions();
      output := output + [Welcome(total)];
      AskQuestion();
    }

    /**
     * Handles one line typed at the prompt. An invalid line changes nothing in the
     * quiz, prints a warning and asks the same question again; a valid one is
     * submitted exactly once, its verdict printed, and the next step asked.
     * Submitting when no question is left fails as `submitAnswer` does.
     */
    method HandleAnswer(answer: string) returns (r: Result<(), QuizError>)
      requires Valid()
      modifies this, quiz
      ensures Valid()
      ensures AnswerIndex(answer).None? ==>
                && r.Ok?
                && unchanged(quiz)
                && output == old(output) + [InvalidInput]
                             + AskOutput(quiz.questions, quiz.currentQuestionIndex, quiz.score)
                && closeCalls == old(closeCalls)
                                 + (if quiz.currentQuestionIndex >= |quiz.questions| then 1 else 0)
      ensures AnswerIndex(answer).Some? && old(quiz.currentQuestionIndex) >= |quiz.questions| ==>
                r == Err(NoQuestionAvailable) && unchanged(quiz) && unchanged(this)
      ensures AnswerIndex(answer).Some? && old(quiz.currentQuestionIndex) < |quiz.questions| ==>
                var cursor, a := old(quiz.currentQuestionIndex), AnswerIndex(answer).value;
                var q := quiz.questions[cursor];
                && r.Ok?
                && quiz.currentQuestionIndex == cursor + 1
                && quiz.score == old(quiz.score) + (if a == q.correctAnswer then 1 else 0)
                && quiz.userAnswers == old(quiz.userAnswers) + [RecordFor(quiz.questions, cursor, a)]
                && output == old(output) + [Feedback(q, a)] + AskOutput(quiz.questions, cursor + 1, quiz.score)
                && closeCalls == old(closeCalls) + (if cursor + 1 >= |quiz.questions| then 1 else 0)
    {
      var answerIndex := AnswerIndex(answer);
      if answerIndex.None? {
        output := output + [InvalidInput];
        AskQuestion();
        return Ok(());
      }
      var submitted := quiz.SubmitAnswer(answerIndex.value);
      if submitted.Err? {
        return Err(submitted.error);
      }
      if submitted.value {
        output := output + [Correct];
      } else {
        var currentQ := quiz.questions[quiz.currentQuestionIndex - 1];
        output := output + [Incorrect(OptionAt(currentQ.options, currentQ.correctAnswer))];
      }
      AskQuestion();
      r := Ok(());
    }

    /**
     * The callback given to the reader with each prompt: it hands the typed line to
     * HandleAnswer. Seen from the session, it moves the quiz and the console one
     * step along SessionAnswers and SessionOutput, whatever lines come after it.
     */
    method OnAnswer(answer: string, ghost rest: seq<Option<int>>)
      requires Valid() && quiz.currentQuestionIndex < |quiz.questions|
      modifies this, quiz
      ensures Valid()
      ensures var questions := quiz.questions;
              var cursor, cursor' := old(quiz.currentQuestionIndex), quiz.currentQuestionIndex;
              && old(quiz.userAnswers)
                 + Records(questions, cursor, SessionAnswers(questions, cursor, [AnswerIndex(answer)] + rest))
                 == quiz.userAnswers + Records(questions, cursor', SessionAnswers(questions, cursor', rest))
              && old(output) + SessionOutput(questions, cursor, old(quiz.score), [AnswerIndex(answer)] + rest)
                 == output + SessionOutput(questions, cursor', quiz.score, rest)
              && closeCalls == old(closeCalls) + (if cursor' >= |questions| then 1 else 0)
    {
      ghost var cursor, score, history, printed := quiz.currentQuestionIndex, quiz.score, quiz.userAnswers, output;
      var r := HandleAnswer(answer);
      TranscriptStep(quiz.questions, cursor, score, history, printed, AnswerIndex(answer), rest,
                     quiz.currentQuestionIndex, quiz.score, quiz.userAnswers, output);
    }

    /**
     * The question/answer loop driven by the reader's callbacks: each input line
     * goes to HandleAnswer while a question is open. The quiz ends up with exactly
     * the answers SessionAnswers selects, the console with SessionOutput's messages,
     * and the reader is closed once if and only if this loop answered the last question.
     */
    method AnswerLoop(inputs: seq<string>)
      requires Valid()
      modifies this, quiz
      ensures Valid()
      ensures var questions, cursor := quiz.questions, old(quiz.currentQuestionIndex);
              var answers := SessionAnswers(questions, cursor, Choices(inputs));
              && quiz.currentQuestionIndex == cursor + |answers|
              && quiz.userAnswers == old(quiz.userAnswers) + Records(questions, cursor, answers)
              && output == old(output) + SessionOutput(questions, cursor, old(quiz.score), Choices(inputs))
              && closeCalls == old(closeCalls)
                               + (if cursor < |questions| && cursor + |answers| >= |questions| then 1 else 0)
    {
      var questions := quiz.questions;
      ghost var choices := Choices(inputs);
      ghost var cursor0, history0, answers0 := quiz.currentQuestionIndex, quiz.userAnswers, SessionAnswers(questions, quiz.currentQuestionIndex, choices);
      ghost var output0, score0 := output, quiz.score;
      var i := 0;
      var complete := quiz.IsComplete();
      while !complete && i < |inputs|
        invariant 0 <= i <= |inputs|
        invariant Valid()
        invariant complete <==> quiz.currentQuestionIndex >= |questions|
        invariant history0 + Records(questions, cursor0, answers0)
               == quiz.userAnswers + Records(questions, quiz.currentQuestionIndex,
                                             SessionAnswers(questions, quiz.currentQuestionIndex, choices[i..]))
        invariant output0 + SessionOutput(questions, cursor0, score0, choices)
               == output + SessionOutput(questions, quiz.currentQuestionIndex, quiz.score, choices[i..])
        invariant closeCalls == old(closeCalls) + (if complete && cursor0 < |questions| then 1 else 0)
      {
        ChoicesSplit(inputs, i);
        OnAnswer(inputs[i], choices[i + 1..]);
        i := i + 1;
        complete := quiz.IsComplete();
      }
    }

    /**
     * A whole session: the welcome banner and first prompt, then the answer loop.
     * The score ends up as the old score plus the correct answers submitted, and
     * the reader is closed exactly once if and only if the results were shown.
     */
    method Run(inputs: seq<string>)
      requires Valid()
      modifies this, quiz
      ensures Valid()
      ensures var questions, cursor := quiz.questions, old(quiz.currentQuestionIndex);
              var answers := SessionAnswers(questions, cursor, Choices(inputs));
              && quiz.currentQuestionIndex == cursor + |answers|
              && quiz.userAnswers == old(quiz.userAnswers) + Records(questions, cursor, answers)
              && quiz.score == old(quiz.score) + CountCorrect(Records(questions, cursor, answers))
              && output == old(output) + [Welcome(|questions|)]
                           + AskOutput(questions, cursor, old(quiz.score))
                           + SessionOutput(questions, cursor, old(quiz.score), Choices(inputs))
              && closeCalls == old(closeCalls) + (if cursor + |answers| >= |questions| then 1 else 0)
    {
      ghost var history0 := quiz.userAnswers;
      Start();
      AnswerLoop(inputs);
      CountCorrectAppend(history0, Records(quiz.questions, old(quiz.currentQuestionIndex),
                                           SessionAnswers(quiz.questions, old(quiz.currentQuestionIndex), Choices(inputs))));
    }
  }
}
