/**
 * The quiz state tracker of src/Quiz.js: a fixed question list, a cursor, a score
 * and an append-only answer history.
 */
module QuizState {
  import opened Wrappers

  /** One multiple-choice question; `correctAnswer` is a zero-based option index. */
  datatype Question = Question(text: string, options: seq<string>, correctAnswer: int)

  /** One entry of `userAnswers`. */
  datatype AnswerRecord = AnswerRecord(questionIndex: nat, answer: int, isCorrect: bool)

  /** What `getScore` returns. */
  datatype ScoreReport = ScoreReport(correct: nat, total: nat, percentage: int)

  /** The error `submitAnswer` throws once every question has been answered. */
  datatype QuizError = NoQuestionAvailable

  /** The record `submitAnswer` appends when question `index` is answered with `answer`. */
  function RecordFor(questions: seq<Question>, index: nat, answer: int): AnswerRecord
    requires index < |questions|
  {
    AnswerRecord(index, answer, answer == questions[index].correctAnswer)
  }

  /** The history left by answering questions `start`, `start + 1`, ... with `answers`, in order. */
  function Records(questions: seq<Question>, start: nat, answers: seq<int>): (h: seq<AnswerRecord>)
    requires start + |answers| <= |questions|
  {
    seq(|answers|, i requires 0 <= i < |answers| => RecordFor(questions, start + i, answers[i]))
  }

  /** The number of records of `history` marked correct. */
  function CountCorrect(history: seq<AnswerRecord>): (n: nat)
    ensures n <= |history|
    ensures n == 0 <==> forall i :: 0 <= i < |history| ==> !history[i].isCorrect
    ensures n == |history| <==> forall i :: 0 <= i < |history| ==> history[i].isCorrect
  {
    if history == [] then 0
    else
      var last := history[|history| - 1];
      assert forall i :: 0 <= i < |history| - 1 ==> history[..|history| - 1][i] == history[i];
      CountCorrect(history[..|history| - 1]) + (if last.isCorrect then 1 else 0)
  }

  /** Counting correct records distributes over concatenation of histories. */
  lemma {:induction false} CountCorrectAppend(a: seq<AnswerRecord>, b: seq<AnswerRecord>)
    ensures CountCorrect(a + b) == CountCorrect(a) + CountCorrect(b)
    decreases |b|
  {
    if b == [] {
      assert a + b == a;
    } else {
      var b' := b[..|b| - 1];
      assert (a + b)[..|a + b| - 1] == a + b';
      CountCorrectAppend(a, b');
    }
  }

  /**
   * `history` is exactly what answering the first |history| questions produced:
   * record i names question i and is marked correct iff its answer is that
   * question's `correctAnswer`.
   */
  predicate ConsistentHistory(questions: seq<Question>, history: seq<AnswerRecord>) {
    |history| <= |questions| &&
    forall i :: 0 <= i < |history| ==> history[i] == RecordFor(questions, i, history[i].answer)
  }

  /** Answering a prefix of the questions yields a consistent history. */
  lemma RecordsConsistent(questions: seq<Question>, answers: seq<int>)
    requires |answers| <= |questions|
    ensures ConsistentHistory(questions, Records(questions, 0, answers))
    ensures |Records(questions, 0, answers)| == |answers|
  {
  }

  /** Answering question `start` first and then the rest, recorded one after the other. */
  lemma RecordsCons(questions: seq<Question>, start: nat, a: int, rest: seq<int>)
    requires start + 1 + |rest| <= |questions|
    ensures Records(questions, start, [a] + rest)
         == [RecordFor(questions, start, a)] + Records(questions, start + 1, rest)
  {
  }

  /** Dividing both sides of a strict inequality by a positive factor. */
  lemma MulStrictCancel(a: int, x: int, y: int)
    requires a > 0 && a * x < a * y
    ensures x < y
  {
  }

  /** The same over the reals. */
  lemma RealMulCancel(a: real, x: real, y: real)
    requires a > 0.0 && a * x <= a * y
    ensures x <= y
  {
  }

  /** The same for a strict inequality over the reals. */
  lemma RealMulStrictCancel(a: real, x: real, y: real)
    requires a > 0.0 && a * x < a * y
    ensures x < y
  {
  }

  /** Half-up rounding of 100 * correct / total, written as one integer division. */
  lemma HalfUpQuotient(correct: nat, total: nat)
    requires total > 0
    ensures var q := (200 * correct + total) / (2 * total);
            total * (2 * q - 1) <= 200 * correct < total * (2 * q + 1)
  {
    var n, d := 200 * correct + total, 2 * total;
    var q := n / d;
    assert d * q <= n < d * q + d;
    assert total * (2 * q - 1) == d * q - total;
    assert total * (2 * q + 1) == d * q + d - total;
  }

  /**
   * `Math.round(correct / total * 100)`, with 0 for an empty quiz, computed exactly;
   * RoundedPercentageNearest states what it is.
   */
  function RoundedPercentage(correct: nat, total: nat): (p: int)
    ensures total == 0 ==> p == 0
    ensures correct <= total ==> 0 <= p <= 100
  {
    if total == 0 then 0
    else
      var q := (200 * correct + total) / (2 * total);
      HalfUpQuotient(correct, total);
      assert correct <= total ==> q <= 100 by {
        if correct <= total {
          assert total * (2 * q - 1) < total * 201;
          MulStrictCancel(total, 2 * q - 1, 201);
        }
      }
      q
  }

  /** The percentage is the integer nearest to 100 * correct / total, ties rounded up. */
  lemma RoundedPercentageNearest(correct: nat, total: nat)
    requires total > 0
    ensures var p := RoundedPercentage(correct, total);
            total * (2 * p - 1) <= 200 * correct < total * (2 * p + 1)
  {
    HalfUpQuotient(correct, total);
  }

  /** The bracket of RoundedPercentageNearest pins the percentage down uniquely. */
  lemma RoundedPercentageUnique(correct: nat, total: nat, p: int)
    requires total > 0
    requires total * (2 * p - 1) <= 200 * correct < total * (2 * p + 1)
    ensures p == RoundedPercentage(correct, total)
  {
    var q := RoundedPercentage(correct, total);
    RoundedPercentageNearest(correct, total);
    MulStrictCancel(total, 2 * p - 1, 2 * q + 1);
    MulStrictCancel(total, 2 * q - 1, 2 * p + 1);
  }

  /** The percentage is `Math.round` of the exact real quotient, that is floor(x + 1/2). */
  lemma RoundedPercentageIsMathRound(correct: nat, total: nat)
    requires total > 0
    ensures RoundedPercentage(correct, total)
         == ((100 * correct) as real / total as real + 0.5).Floor
  {
    var p := RoundedPercentage(correct, total);
    RoundedPercentageNearest(correct, total);
    var t := total as real;
    var x := (100 * correct) as real / t;
    assert t * (2.0 * x) == (200 * correct) as real;
    assert t * (2.0 * p as real - 1.0) == (total * (2 * p - 1)) as real;
    assert t * (2.0 * p as real + 1.0) == (total * (2 * p + 1)) as real;
    RealMulCancel(t, 2.0 * p as real - 1.0, 2.0 * x);
    RealMulStrictCancel(t, 2.0 * x, 2.0 * p as real + 1.0);
  }

  /** The state of one quiz (src/Quiz.js, class `Quiz`). */
  class Quiz {
    const questions: seq<Question>
    var currentQuestionIndex: nat
    var score: nat
    var userAnswers: seq<AnswerRecord>

    /**
     * The invariant every operation keeps: the cursor counts the history, the
     * history is what answering the first questions in order produced, and the
     * score counts its correct records.
     */
    ghost predicate Valid()
      reads this
    {
      currentQuestionIndex == |userAnswers| &&
      ConsistentHistory(questions, userAnswers) &&
      score == CountCorrect(userAnswers)
    }

    /** `new Quiz(questions)`. */
    constructor (questions: seq<Question>)
      ensures this.questions == questions
      ensures currentQuestionIndex == 0 && score == 0 && userAnswers == []
      ensures Valid()
    {
      this.questions := questions;
      currentQuestionIndex := 0;
      score := 0;
      userAnswers := [];
    }

    /** `new Quiz()`: the question list defaults to the empty one. */
    constructor Empty()
      ensures questions == []
      ensures currentQuestionIndex == 0 && score == 0 && userAnswers == []
      ensures Valid()
    {
      questions := [];
      currentQuestionIndex := 0;
      score := 0;
      userAnswers := [];
    }

    /** The question under the cursor, or none once the cursor has run past the list. */
    method GetCurrentQuestion() returns (q: Option<Question>)
      ensures q.None? <==> currentQuestionIndex >= |questions|
      ensures q.Some? ==> currentQuestionIndex < |questions| && q.value == questions[currentQuestionIndex]
    {
      if currentQuestionIndex >= |questions| {
        return None;
      }
      q := Some(questions[currentQuestionIndex]);
    }

    /**
     * Records `answerIndex` (any integer) for the current question, scores it and
     * advances the cursor; fails, changing nothing, when no question is left.
     */
    method SubmitAnswer(answerIndex: int) returns (r: Result<bool, QuizError>)
      modifies this
      ensures old(currentQuestionIndex) >= |questions| ==>
                r == Err(NoQuestionAvailable) && unchanged(this)
      ensures old(currentQuestionIndex) < |questions| ==>
                && r == Ok(answerIndex == questions[old(currentQuestionIndex)].correctAnswer)
                && score == old(score) + (if r.value then 1 else 0)
                && userAnswers == old(userAnswers) + [RecordFor(questions, old(currentQuestionIndex), answerIndex)]
                && currentQuestionIndex == old(currentQuestionIndex) + 1
      ensures old(Valid()) ==> Valid()
    {
      var current := GetCurrentQuestion();
      if current.None? {
        return Err(NoQuestionAvailable);
      }
      var isCorrect := answerIndex == current.value.correctAnswer;
      if isCorrect {
        score := score + 1;
      }
      ghost var before := userAnswers;
      userAnswers := userAnswers + [AnswerRecord(currentQuestionIndex, answerIndex, isCorrect)];
      assert userAnswers[..|userAnswers| - 1] == before;
      currentQuestionIndex := currentQuestionIndex + 1;
      r := Ok(isCorrect);
    }

    /** Whether the cursor has reached the end of the question list. */
    method IsComplete() returns (b: bool)
      ensures b <==> currentQuestionIndex >= |questions|
    {
      b := currentQuestionIndex >= |questions|;
    }

    /** The score report: correct answers, total questions and the rounded percentage. */
    method GetScore() returns (s: ScoreReport)
      ensures s.correct == score && s.total == |questions|
      ensures s.percentage == RoundedPercentage(score, |questions|)
      ensures Valid() ==> 0 <= s.percentage <= 100
    {
      var p := if |questions| > 0 then RoundedPercentage(score, |questions|) else 0;
      s := ScoreReport(score, |questions|, p);
    }

    /** Starts over: cursor, score and history back to their initial values. */
    method Reset()
      modifies this
      ensures currentQuestionIndex == 0 && score == 0 && userAnswers == []
      ensures Valid()
    {
      currentQuestionIndex := 0;
      score := 0;
      userAnswers := [];
    }

    /** The number of questions, possibly 0. */
    method GetTotalQuestions() returns (n: nat)
      ensures n == |questions|
    {
      n := |questions|;
    }
  }

  /** In every valid state: score <= cursor <= number of questions. */
  lemma ValidBounds(questions: seq<Question>, history: seq<AnswerRecord>)
    requires ConsistentHistory(questions, history)
    ensures CountCorrect(history) <= |history| <= |questions|
  {
  }
}
