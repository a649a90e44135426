/**
 * The multiple-choice type quiz page (src/pages/TypeQuiz.tsx).
 *
 * The page keeps four pieces of component state: the index of the current
 * question, the score, whether the result card is shown, and the answers
 * selected so far. Answering records the choice, adds one to the score when
 * it is the correct answer, and then moves to the next question or, after
 * the last one, shows the result. Resetting restores the initial state.
 * The half-second delay before moving on is modelled as immediate.
 */
module TypeQuiz {

  datatype Question = Question(
    id: nat,
    text: string,
    code: string,
    options: seq<string>,
    correctAnswer: string)

  /** The five questions of the quiz, in the order they are asked. */
  const Questions: seq<Question> := [
    Question(1, "以下代码的类型推断结果是什么?",
      "const value = 42 + \"1\";",
      ["number", "string", "any", "never"],
      "string"),
    Question(2, "这个类型定义是否正确?",
      "type User = {\n    name: string;\n    age?: number;\n    readonly id: string;\n};",
      ["正确", "错误 - age 不能为可选", "错误 - readonly 不存在", "错误 - 缺少分号"],
      "正确"),
    Question(3, "联合类型中的类型守卫是否必需?",
      "function process(value: string | number) {\n    console.log(value.toUpperCase());\n}",
      ["是的，必需使用类型守卫", "不需要，TypeScript 会自动处理", "只在严格模式下需要", "只在使用 any 时需要"],
      "是的，必需使用类型守卫"),
    Question(4, "以下代码的输出是什么?",
      "const arr = [1, 2, 3];\nconst result = arr.map(n => n * 2);\nconsole.log(result);",
      ["[1, 2, 3]", "[2, 4, 6]", "[1, 4, 9]", "[2, 3, 4]"],
      "[2, 4, 6]"),
    Question(5, "以下代码的类型推断结果是什么?",
      "const value = \"TypeScript\" as unknown;\nif (typeof value === \"string\") {\n    console.log(value.toUpperCase());\n}",
      ["string", "unknown", "any", "never"],
      "string")
  ]

  /** A question is well formed when its correct answer is one of its
      options and every option is a non-empty (hence truthy) string. */
  predicate WellFormed(q: Question) {
    q.correctAnswer in q.options && forall o :: o in q.options ==> o != ""
  }

  lemma QuestionsWellFormed()
    ensures |Questions| == 5
    ensures forall i :: 0 <= i < |Questions| ==> WellFormed(Questions[i]) && Questions[i].id == i + 1
  {
    assert WellFormed(Questions[0]);
    assert WellFormed(Questions[1]);
    assert WellFormed(Questions[2]);
    assert WellFormed(Questions[3]);
    assert WellFormed(Questions[4]);
  }

  /** The component state of the page, as a value. */
  datatype QuizState = QuizState(
    currentQuestion: nat,
    score: nat,
    showResult: bool,
    selectedAnswers: seq<string>)

  /** The state the page is mounted with, and the one reset returns to. */
  const Initial: QuizState := QuizState(0, 0, false, [])

  /** The number of answers that equal the correct answer of the question
      at the same position: the score a list of answers deserves. */
  function Matches(answers: seq<string>): (n: nat)
    requires |answers| <= |Questions|
    ensures n <= |answers|
  {
    if answers == [] then 0
    else
      var last := |answers| - 1;
      Matches(answers[..last]) + (if answers[last] == Questions[last].correctAnswer then 1 else 0)
  }

  /** The invariant of every state the page can reach from Initial: the
      index is a valid question index, one answer is recorded per question
      already answered, the result is shown only after the last question,
      and the score is the number of correct answers recorded. */
  predicate Valid(st: QuizState) {
    && st.currentQuestion < |Questions|
    && |st.selectedAnswers| == st.currentQuestion + (if st.showResult then 1 else 0)
    && (st.showResult ==> st.currentQuestion == |Questions| - 1)
    && st.score == Matches(st.selectedAnswers)
  }

  /** The options of the current question can be clicked: the question card
      is shown (not the result card) and no truthy answer is recorded yet
      for the current question. */
  predicate Enabled(st: QuizState) {
    && !st.showResult
    && !(st.currentQuestion < |st.selectedAnswers| && st.selectedAnswers[st.currentQuestion] != "")
  }

  /** Writing into a copy of the answers array at index i: an overwrite of
      an existing slot, or one more slot at the end. */
  function WriteAt(s: seq<string>, i: nat, a: string): (r: seq<string>)
    requires i <= |s|
    ensures |r| == if i < |s| then |s| else |s| + 1
    ensures r[i] == a
    ensures forall j :: 0 <= j < |s| && j != i ==> r[j] == s[j]
  {
    if i < |s| then s[i := a] else s + [a]
  }

  /** The effect of clicking the option `a` of the current question. */
  function Answer(st: QuizState, a: string): (r: QuizState)
    requires st.currentQuestion < |Questions|
    requires st.currentQuestion <= |st.selectedAnswers|
    ensures |r.selectedAnswers| == if st.currentQuestion < |st.selectedAnswers|
                                   then |st.selectedAnswers| else |st.selectedAnswers| + 1
    ensures r.selectedAnswers[st.currentQuestion] == a
    ensures forall j :: 0 <= j < |st.selectedAnswers| && j != st.currentQuestion ==>
              r.selectedAnswers[j] == st.selectedAnswers[j]
    ensures r.score == st.score + 1 <==> a == Questions[st.currentQuestion].correctAnswer
    ensures r.score == st.score <==> a != Questions[st.currentQuestion].correctAnswer
    ensures st.currentQuestion < |Questions| - 1 ==>
              r.currentQuestion == st.currentQuestion + 1 && r.showResult == st.showResult
    ensures st.currentQuestion == |Questions| - 1 ==>
              r.currentQuestion == st.currentQuestion && r.showResult
  {
    var cur := st.currentQuestion;
    var answers := WriteAt(st.selectedAnswers, cur, a);
    var score := if a == Questions[cur].correctAnswer then st.score + 1 else st.score;
    if cur < |Questions| - 1 then QuizState(cur + 1, score, st.showResult, answers)
    else QuizState(cur, score, true, answers)
  }

  lemma InitialValid()
    ensures Valid(Initial) && Enabled(Initial)
  {
  }

  lemma {:induction false} MatchesAppend(answers: seq<string>, a: string)
    requires |answers| < |Questions|
    ensures Matches(answers + [a])
            == Matches(answers) + (if a == Questions[|answers|].correctAnswer then 1 else 0)
  {
    assert (answers + [a])[..|answers|] == answers;
  }

  /** In a reachable state the question to show exists and the score never
      exceeds the number of questions. */
  lemma ValidBounds(st: QuizState)
    requires Valid(st)
    ensures st.currentQuestion <= |Questions| - 1
    ensures st.score <= |st.selectedAnswers| <= |Questions|
  {
  }

  /** A reachable state whose question card is shown accepts a click. */
  lemma ValidShowingIsEnabled(st: QuizState)
    requires Valid(st) && !st.showResult
    ensures Enabled(st)
  {
  }

  /** Answering from a reachable state leads to a reachable state. */
  lemma {:induction false} AnswerPreservesValid(st: QuizState, a: string)
    requires Valid(st) && Enabled(st)
    ensures Valid(Answer(st, a))
    ensures Answer(st, a).selectedAnswers == st.selectedAnswers + [a]
  {
    MatchesAppend(st.selectedAnswers, a);
    assert Answer(st, a).selectedAnswers == st.selectedAnswers + [a];
  }

  /** The state after the answers `answers` were clicked in turn, starting
      from the initial state. */
  function Run(answers: seq<string>): (r: QuizState)
    requires |answers| <= |Questions|
    ensures Valid(r)
    ensures r.selectedAnswers == answers
    ensures r.showResult <==> |answers| == |Questions|
    ensures r.score == Matches(answers)
    ensures |answers| < |Questions| ==> r.currentQuestion == |answers|
  {
    if answers == [] then Initial
    else
      var prefix := answers[..|answers| - 1];
      assert prefix + [answers[|answers| - 1]] == answers;
      AnswerPreservesValid(Run(prefix), answers[|answers| - 1]);
      Answer(Run(prefix), answers[|answers| - 1])
  }

  /** After one answer per question the quiz shows the result, the index
      stays on the last question, and the score is the number of answers
      equal to their question's correct answer. */
  lemma {:induction false} RunCompletes(answers: seq<string>)
    requires |answers| == |Questions|
    ensures Run(answers) == QuizState(|Questions| - 1, Matches(answers), true, answers)
  {
  }

  /** Answering every question correctly scores full marks. */
  lemma {:induction false} AllCorrectFullScore(answers: seq<string>)
    requires |answers| <= |Questions|
    requires forall i :: 0 <= i < |answers| ==> answers[i] == Questions[i].correctAnswer
    ensures Matches(answers) == |answers|
  {
    if answers != [] {
      AllCorrectFullScore(answers[..|answers| - 1]);
    }
  }

  /** The quiz page's component state. */
  class Quiz {
    var currentQuestion: nat
    var score: nat
    var showResult: bool
    var selectedAnswers: seq<string>

    function State(): QuizState
      reads this
    {
      QuizState(currentQuestion, score, showResult, selectedAnswers)
    }

    constructor ()
      ensures State() == Initial
    {
      currentQuestion := 0;
      score := 0;
      showResult := false;
      selectedAnswers := [];
    }

    /** Called by a click on an option of the current question. */
    method HandleAnswer(answer: string)
      requires Valid(State()) && Enabled(State())
      modifies this
      ensures State() == Answer(old(State()), answer)
      ensures Valid(State())
      ensures selectedAnswers == old(selectedAnswers) + [answer]
    {
      AnswerPreservesValid(State(), answer);
      var newSelectedAnswers := WriteAt(selectedAnswers, currentQuestion, answer);
      selectedAnswers := newSelectedAnswers;
      if answer == Questions[currentQuestion].correctAnswer {
        score := score + 1;
      }
      if currentQuestion < |Questions| - 1 {
        currentQuestion := currentQuestion + 1;
      } else {
        showResult := true;
      }
    }

    method ResetQuiz()
      modifies this
      ensures State() == Initial
      ensures Valid(State()) && Enabled(State())
    {
      currentQuestion := 0;
      score := 0;
      showResult := false;
      selectedAnswers := [];
    }
  }
}
