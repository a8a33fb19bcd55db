/** Grading of detected answers against the answer key, and the report. */
module Grading {
  import opened Types

  /** How one question is counted in the report. */
  datatype Outcome = Unanswered | Correct | Wrong

  /** Key entry for question index i; a position past the key's end has no
      entry, like an unset one. */
  function KeyAt(key: seq<Option>, i: int): (o: Option)
    ensures 0 <= i < |key| ==> o == key[i]
    ensures !(0 <= i < |key|) ==> o == Null
  {
    if 0 <= i < |key| then key[i] else Null
  }

  /** No mark is unanswered; a mark equal to the key entry is correct; any
      other mark is wrong, including a mark against a missing key entry. */
  function Classify(detected: Option, expected: Option): (o: Outcome)
    ensures o == Unanswered <==> detected == Null
    ensures o == Correct <==> detected != Null && detected == expected
    ensures o == Wrong <==> detected != Null && detected != expected
  {
    if detected == Null then Unanswered
    else if detected == expected then Correct
    else Wrong
  }

  /** Number of the first n questions with the given outcome. */
  function CountOutcome(detected: seq<Option>, key: seq<Option>, o: Outcome, n: nat): (c: nat)
    requires n <= |detected|
    ensures c <= n
  {
    if n == 0 then 0
    else
      CountOutcome(detected, key, o, n - 1)
      + (if Classify(detected[n - 1], KeyAt(key, n - 1)) == o then 1 else 0)
  }

  /** A tally is zero exactly when none of the counted questions has that
      outcome. */
  lemma {:induction false} CountZeroIffNone(detected: seq<Option>, key: seq<Option>, o: Outcome, n: nat)
    requires n <= |detected|
    ensures CountOutcome(detected, key, o, n) == 0
        <==> forall j :: 0 <= j < n ==> Classify(detected[j], KeyAt(key, j)) != o
  {
    if n > 0 {
      CountZeroIffNone(detected, key, o, n - 1);
    }
  }

  /** Counts over the first n questions only look at those questions. */
  lemma {:induction false} CountPrefix(s: seq<Option>, t: seq<Option>, key: seq<Option>, o: Outcome, n: nat)
    requires n <= |s| && n <= |t|
    requires forall j :: 0 <= j < n ==> s[j] == t[j]
    ensures CountOutcome(s, key, o, n) == CountOutcome(t, key, o, n)
  {
    if n > 0 {
      CountPrefix(s, t, key, o, n - 1);
    }
  }

  /** Reading one more answer adds one to its own tally only. */
  lemma CountAppend(s: seq<Option>, x: Option, key: seq<Option>, o: Outcome)
    ensures CountOutcome(s + [x], key, o, |s| + 1)
         == CountOutcome(s, key, o, |s|) + (if Classify(x, KeyAt(key, |s|)) == o then 1 else 0)
  {
    CountPrefix(s + [x], s, key, o, |s|);
  }

  /** The tallies after one more question: exactly one of the three counts
      grows, the one its outcome names. */
  method Tally(answers: seq<Option>, detectedOption: Option, key: seq<Option>,
               correctCount: nat, wrongCount: nat, unansweredCount: nat)
    returns (correct': nat, wrong': nat, unanswered': nat)
    requires correctCount == CountOutcome(answers, key, Correct, |answers|)
    requires wrongCount == CountOutcome(answers, key, Wrong, |answers|)
    requires unansweredCount == CountOutcome(answers, key, Unanswered, |answers|)
    ensures correct' == CountOutcome(answers + [detectedOption], key, Correct, |answers| + 1)
    ensures wrong' == CountOutcome(answers + [detectedOption], key, Wrong, |answers| + 1)
    ensures unanswered' == CountOutcome(answers + [detectedOption], key, Unanswered, |answers| + 1)
  {
    CountAppend(answers, detectedOption, key, Correct);
    CountAppend(answers, detectedOption, key, Wrong);
    CountAppend(answers, detectedOption, key, Unanswered);
    correct', wrong', unanswered' := correctCount, wrongCount, unansweredCount;
    if detectedOption == Null {
      unanswered' := unanswered' + 1;
    } else if detectedOption == KeyAt(key, |answers|) {
      correct' := correct' + 1;
    } else {
      wrong' := wrong' + 1;
    }
  }

  /** Every question lands in exactly one tally. */
  lemma {:induction false} OutcomesPartition(detected: seq<Option>, key: seq<Option>, n: nat)
    requires n <= |detected|
    ensures CountOutcome(detected, key, Correct, n)
          + CountOutcome(detected, key, Wrong, n)
          + CountOutcome(detected, key, Unanswered, n) == n
  {
    if n > 0 {
      OutcomesPartition(detected, key, n - 1);
    }
  }

  /** One report row from a detected answer and the key entry. */
  function GradeRow(ans: DetectedAnswer, expected: Option): GradedAnswer
  {
    GradedAnswer(ans.question, ans.answer != Null && ans.answer == expected, ans.answer, expected)
  }

  /** The detected answers numbered from 1. */
  function DetectedRows(detected: seq<Option>): (rows: seq<DetectedAnswer>)
    ensures |rows| == |detected|
    ensures forall i :: 0 <= i < |rows| ==> rows[i] == DetectedAnswer(i + 1, detected[i])
  {
    seq(|detected|, i requires 0 <= i < |detected| => DetectedAnswer(i + 1, detected[i]))
  }

  /** Reading one more answer appends its numbered row. */
  lemma DetectedRowsAppend(s: seq<Option>, x: Option)
    ensures DetectedRows(s + [x]) == DetectedRows(s) + [DetectedAnswer(|s| + 1, x)]
  {}

  /** The graded rows, each paired with the key entry at its position. */
  function GradedRows(rows: seq<DetectedAnswer>, key: seq<Option>): (g: seq<GradedAnswer>)
    ensures |g| == |rows|
    ensures forall i :: 0 <= i < |g| ==> g[i] == GradeRow(rows[i], KeyAt(key, i))
  {
    seq(|rows|, i requires 0 <= i < |rows| => GradeRow(rows[i], KeyAt(key, i)))
  }

  /** The rows' correct flags count exactly the correct outcomes. */
  lemma {:induction false} FlagsCountCorrect(detected: seq<Option>, key: seq<Option>, n: nat)
    requires n <= |detected|
    ensures CountCorrectFlags(GradedRows(DetectedRows(detected), key)[..n])
         == CountOutcome(detected, key, Correct, n)
  {
    if n > 0 {
      var g := GradedRows(DetectedRows(detected), key);
      FlagsCountCorrect(detected, key, n - 1);
      assert g[..n][..n - 1] == g[..n - 1];
    }
  }

  /** The unmarked rows count exactly the unanswered outcomes. */
  lemma {:induction false} UnmarkedCountUnanswered(detected: seq<Option>, key: seq<Option>, n: nat)
    requires n <= |detected|
    ensures CountUnmarked(DetectedRows(detected)[..n])
         == CountOutcome(detected, key, Unanswered, n)
  {
    if n > 0 {
      var rows := DetectedRows(detected);
      UnmarkedCountUnanswered(detected, key, n - 1);
      assert rows[..n][..n - 1] == rows[..n - 1];
    }
  }

  /** The report for the detected answers, in question order. */
  function Grade(detected: seq<Option>, key: seq<Option>): (r: OmrResult)
    requires |detected| >= 1
    ensures Consistent(r)
    ensures r.totalQuestions == |detected|
    ensures forall i :: 0 <= i < |detected| ==> r.detectedAnswers[i].answer == detected[i]
    ensures forall i :: 0 <= i < |detected| ==> r.gradedAnswers[i].correctAns == KeyAt(key, i)
    ensures forall i :: 0 <= i < |detected| ==>
      (r.gradedAnswers[i].correct <==> Classify(detected[i], KeyAt(key, i)) == Correct)
    ensures r.correct == CountOutcome(detected, key, Correct, |detected|)
    ensures r.wrong == CountOutcome(detected, key, Wrong, |detected|)
    ensures r.unanswered == CountOutcome(detected, key, Unanswered, |detected|)
  {
    var n := |detected|;
    var rows := DetectedRows(detected);
    var graded := GradedRows(rows, key);
    var correct := CountOutcome(detected, key, Correct, n);
    OutcomesPartition(detected, key, n);
    FlagsCountCorrect(detected, key, n);
    UnmarkedCountUnanswered(detected, key, n);
    assert rows[..n] == rows && graded[..n] == graded;
    var score := (correct as real / n as real) * 100.0;
    assert 0.0 <= score <= 100.0 by {
      PercentageBounds(correct, n);
    }
    OmrResult(
      n,
      correct,
      CountOutcome(detected, key, Wrong, n),
      CountOutcome(detected, key, Unanswered, n),
      score,
      rows,
      graded)
  }

  /** The report's fields, spelled out. */
  lemma GradeFields(detected: seq<Option>, key: seq<Option>)
    requires |detected| >= 1
    ensures var n := |detected|;
      Grade(detected, key) == OmrResult(
        n,
        CountOutcome(detected, key, Correct, n),
        CountOutcome(detected, key, Wrong, n),
        CountOutcome(detected, key, Unanswered, n),
        (CountOutcome(detected, key, Correct, n) as real / n as real) * 100.0,
        DetectedRows(detected),
        GradedRows(DetectedRows(detected), key))
  {}

  lemma PercentageBounds(part: nat, whole: nat)
    requires 1 <= whole && part <= whole
    ensures 0.0 <= (part as real / whole as real) * 100.0 <= 100.0
  {
    assert part as real / whole as real <= 1.0;
  }

  /** A mark against an unset key entry is graded wrong, never correct. */
  lemma MarkAgainstUnsetKeyIsWrong(detected: seq<Option>, key: seq<Option>, i: int)
    requires 0 <= i < |detected|
    requires detected[i] != Null && KeyAt(key, i) == Null
    ensures Classify(detected[i], KeyAt(key, i)) == Wrong
    ensures !Grade(detected, key).gradedAnswers[i].correct
  {}
}
