/**
 * Runs of the quiz taken from the repository's tests, each stated as what the
 * run returns.
 */
module QuizScenarios {
  import opened Wrappers
  import opened QuizState

  /** The three sample questions of the quiz tests. */
  const SampleQuestions: seq<Question> := [
    Question("What is 2 + 2?", ["3", "4", "5", "6"], 1),
    Question("What is the capital of France?", ["London", "Berlin", "Paris", "Madrid"], 2),
    Question("What is 10 / 2?", ["3", "4", "5", "6"], 2)
  ]

  /** Answering correct, correct, incorrect scores 2 with three records and the cursor at 3. */
  method MultipleAnswersScenario() returns (score: nat, cursor: nat, records: nat, complete: bool)
    ensures score == 2 && cursor == 3 && records == 3 && complete
  {
    var quiz := new Quiz(SampleQuestions);
    var r1 := quiz.SubmitAnswer(1);
    var r2 := quiz.SubmitAnswer(2);
    var r3 := quiz.SubmitAnswer(0);
    score, cursor, records := quiz.score, quiz.currentQuestionIndex, |quiz.userAnswers|;
    complete := quiz.IsComplete();
  }

  /** Answering correct, incorrect, correct reports 2 of 3, rounded to 67 percent. */
  method ScoreScenario() returns (s: ScoreReport)
    ensures s == ScoreReport(2, 3, 67)
  {
    var quiz := new Quiz(SampleQuestions);
    var r1 := quiz.SubmitAnswer(1);
    var r2 := quiz.SubmitAnswer(0);
    var r3 := quiz.SubmitAnswer(2);
    RoundedPercentageUnique(2, 3, 67);
    s := quiz.GetScore();
  }

  /** A fourth answer after the last question fails and leaves the quiz as it was. */
  method ExhaustedScenario() returns (r: Result<bool, QuizError>, cursor: nat)
    ensures r == Err(NoQuestionAvailable) && cursor == 3
  {
    var quiz := new Quiz(SampleQuestions);
    var r1 := quiz.SubmitAnswer(0);
    var r2 := quiz.SubmitAnswer(0);
    var r3 := quiz.SubmitAnswer(0);
    r := quiz.SubmitAnswer(0);
    cursor := quiz.currentQuestionIndex;
  }

  /** An empty quiz is complete at once and reports 0 of 0 and 0 percent. */
  method EmptyQuizScenario() returns (complete: bool, s: ScoreReport)
    ensures complete && s == ScoreReport(0, 0, 0)
  {
    var quiz := new Quiz.Empty();
    complete := quiz.IsComplete();
    s := quiz.GetScore();
  }
}
