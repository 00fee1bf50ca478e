/** The question bank of data/questions.js, kept exactly as stored. */
module QuestionData {
  import opened QuizState

  /** The five questions the application quizzes on, in order. */
  const QuizQuestions: seq<Question> := [
    Question(
      "What does Node.js primarily use for handling asynchronous operations?",
      ["Threads", "Event Loop", "Processes", "Clusters"],
      2),
    Question(
      "Which keyword is used to declare a block-scoped variable in JavaScript?",
      ["var", "let", "const", "Both let and const"],
      3),
    Question(
      "What is the command to initialize a new Node.js project?",
      ["node init", "npm start", "npm init", "node new"],
      2),
    Question(
      "Which method is used to parse JSON strings in JavaScript?",
      ["JSON.stringify()", "JSON.parse()", "JSON.convert()", "JSON.decode()"],
      1),
    Question(
      "What is the purpose of package.json in a Node.js project?",
      ["To store user data", "To manage project dependencies and metadata", "To compile JavaScript code", "To run tests"],
      1)
  ]

  /**
   * What the data tests demand of a question: non-empty text, at least four
   * options, each a non-empty string, and a correct answer that indexes one of them.
   */
  predicate WellFormedQuestion(q: Question) {
    |q.text| > 0 &&
    |q.options| >= 4 &&
    0 <= q.correctAnswer < |q.options| &&
    forall i :: 0 <= i < |q.options| ==> |q.options[i]| > 0
  }

  /** The bank holds five well-formed questions, each with exactly four options. */
  lemma BankWellFormed()
    ensures |QuizQuestions| == 5
    ensures forall i :: 0 <= i < |QuizQuestions| ==> WellFormedQuestion(QuizQuestions[i])
    ensures forall i :: 0 <= i < |QuizQuestions| ==> |QuizQuestions[i].options| == 4
  {
    forall i | 0 <= i < |QuizQuestions|
      ensures WellFormedQuestion(QuizQuestions[i]) && |QuizQuestions[i].options| == 4
    {
      var q := QuizQuestions[i];
      assert |q.text| > 0;
      assert forall j :: 0 <= j < |q.options| ==> |q.options[j]| > 0;
    }
  }

  /** Every stored correct answer lies in 0..3, the range the answer prompt accepts. */
  lemma BankAnswersInPromptRange()
    ensures forall i :: 0 <= i < |QuizQuestions| ==> 0 <= QuizQuestions[i].correctAnswer <= 3
  {
  }
}
