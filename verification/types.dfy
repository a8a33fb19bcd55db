/** The reader's data model: answer options and the grading report. */
module Types {

  /** An answer option. `Null` stands for "no mark detected" on the sheet
      and for "no entry yet" in the answer key. */
  datatype Option = A | B | C | D | Null

  lemma OptionCases(o: Option)
    ensures o == A || o == B || o == C || o == D || o == Null
    ensures o != Null <==> o in {A, B, C, D}
  {}

  /** The answer read for one question; `question` is 1-based. */
  datatype DetectedAnswer = DetectedAnswer(question: int, answer: Option)

  /** One row of the graded report. */
  datatype GradedAnswer = GradedAnswer(question: int, correct: bool, detected: Option, correctAns: Option)

  datatype OmrResult = OmrResult(
    totalQuestions: int,
    correct: int,
    wrong: int,
    unanswered: int,
    scorePercentage: real,
    detectedAnswers: seq<DetectedAnswer>,
    gradedAnswers: seq<GradedAnswer>)

  /** Number of graded rows whose `correct` flag is set. */
  function CountCorrectFlags(g: seq<GradedAnswer>): (n: nat)
    ensures n <= |g|
  {
    if |g| == 0 then 0
    else CountCorrectFlags(g[..|g| - 1]) + (if g[|g| - 1].correct then 1 else 0)
  }

  /** Number of detected answers that are `Null`. */
  function CountUnmarked(d: seq<DetectedAnswer>): (n: nat)
    ensures n <= |d|
  {
    if |d| == 0 then 0
    else CountUnmarked(d[..|d| - 1]) + (if d[|d| - 1].answer == Null then 1 else 0)
  }

  /** What every report the reader produces satisfies: one detected and one
      graded entry per question, numbered from 1 and agreeing with each
      other, a `correct` flag only on a real mark, tallies that add up and
      match the rows, and a percentage between 0 and 100. */
  ghost predicate Consistent(r: OmrResult)
  {
    && r.totalQuestions >= 1
    && r.correct >= 0 && r.wrong >= 0 && r.unanswered >= 0
    && r.correct + r.wrong + r.unanswered == r.totalQuestions
    && |r.detectedAnswers| == r.totalQuestions
    && |r.gradedAnswers| == r.totalQuestions
    && (forall i :: 0 <= i < |r.detectedAnswers| ==> r.detectedAnswers[i].question == i + 1)
    && (forall i :: 0 <= i < |r.gradedAnswers| ==>
          && r.gradedAnswers[i].question == r.detectedAnswers[i].question
          && r.gradedAnswers[i].detected == r.detectedAnswers[i].answer
          && (r.gradedAnswers[i].detected == Null ==> !r.gradedAnswers[i].correct))
    && CountCorrectFlags(r.gradedAnswers) == r.correct
    && CountUnmarked(r.detectedAnswers) == r.unanswered
    && r.scorePercentage == (r.correct as real / r.totalQuestions as real) * 100.0
    && 0.0 <= r.scorePercentage <= 100.0
  }
}
