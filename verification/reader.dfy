/** The sheet reader: where each bubble is sampled, how each question is
    read, and the pass over all questions that builds the report. */
module Reader {
  import opened Types
  import opened Constants
  import opened Darkness
  import opened Decision
  import opened Grading

  /** Centre of bubble j of question i as the reader samples it: questions
      run down two columns of 25, options run left to right. */
  function BubbleCenter(i: nat, j: nat): (c: Point)
    ensures c.y == 500 + 95 * (i % 25)
    ensures c.x == (if i / 25 == 0 then 300 else 1250) + 120 * j
  {
    var column := i / QUESTIONS_PER_COLUMN;
    var y := START_Y + (i % QUESTIONS_PER_COLUMN) * QUESTION_SPACING;
    var bubbleStartX := if column == 0 then SHEET_MARGIN + 200 else CANVAS_WIDTH / 2 + 200;
    Point(bubbleStartX + j * BUBBLE_SPACING, y)
  }

  /** For every question the sheet can hold, the whole sampling window of
      every bubble lies on the page, so no read falls outside the image. */
  lemma SamplingWindowOnPage(i: nat, j: nat, dx: int, dy: int)
    requires i < MAX_QUESTIONS && j < NUM_OPTIONS
    requires InWindow(BUBBLE_RADIUS, dx, dy)
    ensures 0 <= BubbleCenter(i, j).x + dx < CANVAS_WIDTH
    ensures 0 <= BubbleCenter(i, j).y + dy < CANVAS_HEIGHT
  {}

  /** The darkness scores of question i's bubbles, in option order. */
  function QuestionScores(img: Image, i: nat): (d: seq<real>)
    ensures |d| == NUM_OPTIONS
    ensures forall j :: 0 <= j < |d| ==> 0.0 <= d[j] <= 255.0
  {
    seq(NUM_OPTIONS, j requires 0 <= j < NUM_OPTIONS =>
      var c := BubbleCenter(i, j);
      BubbleDarkness(img, c.x, c.y, BUBBLE_RADIUS))
  }

  /** The answer read for question i. */
  function DetectQuestion(img: Image, i: nat): Option
  {
    DetectAnswer(QuestionScores(img, i))
  }

  /** The answers read for the first n questions. */
  function DetectAll(img: Image, n: nat): (s: seq<Option>)
    ensures |s| == n
    ensures forall i :: 0 <= i < n ==> s[i] == DetectQuestion(img, i)
  {
    seq(n, i requires 0 <= i < n => DetectQuestion(img, i))
  }

  /** The report for a sheet of n questions graded against the key. */
  function Report(img: Image, n: nat, key: seq<Option>): (r: OmrResult)
    requires n >= 1
    ensures Consistent(r) && r.totalQuestions == n
  {
    Grade(DetectAll(img, n), key)
  }

  /** The scores and the darkest bubble after the first j bubbles of
      question i. */
  ghost predicate QuestionSoFar(img: Image, i: nat, j: nat, values: seq<real>, darkestIndex: int, maxDarkness: real)
  {
    && j <= NUM_OPTIONS
    && values == QuestionScores(img, i)[..j]
    && Darkest(darkestIndex, maxDarkness) == ScanDarkest(QuestionScores(img, i), j)
  }

  /** One turn of the scoring loop: scores bubble j and keeps it when it is
      strictly darker than the darkest so far. */
  method ScoreNext(img: Image, i: nat, j: nat, values: seq<real>, darkestIndex: int, maxDarkness: real)
    returns (values': seq<real>, darkestIndex': int, maxDarkness': real)
    requires j < NUM_OPTIONS && QuestionSoFar(img, i, j, values, darkestIndex, maxDarkness)
    ensures QuestionSoFar(img, i, j + 1, values', darkestIndex', maxDarkness')
  {
    ghost var target := QuestionScores(img, i);
    var c := BubbleCenter(i, j);
    var darkness := GetBubbleDarkness(img, c.x, c.y, BUBBLE_RADIUS);
    assert darkness == target[j];
    assert target[..j + 1] == target[..j] + [darkness];
    values' := values + [darkness];
    darkestIndex', maxDarkness' := darkestIndex, maxDarkness;
    if darkness > maxDarkness {
      maxDarkness' := darkness;
      darkestIndex' := j;
    }
  }

  /** Reads one question: scores each bubble in turn while tracking the
      darkest one seen so far. */
  method ReadQuestion(img: Image, i: nat) returns (darknessValues: seq<real>, darkestBubbleIndex: int, maxDarkness: real)
    ensures darknessValues == QuestionScores(img, i)
    ensures Darkest(darkestBubbleIndex, maxDarkness) == DarkestBubble(darknessValues)
  {
    darkestBubbleIndex := -1;
    maxDarkness := 0.0;
    darknessValues := [];
    var j := 0;
    while j < NUM_OPTIONS
      invariant 0 <= j <= NUM_OPTIONS
      invariant QuestionSoFar(img, i, j, darknessValues, darkestBubbleIndex, maxDarkness)
    {
      darknessValues, darkestBubbleIndex, maxDarkness :=
        ScoreNext(img, i, j, darknessValues, darkestBubbleIndex, maxDarkness);
      j := j + 1;
    }
    assert QuestionScores(img, i)[..NUM_OPTIONS] == QuestionScores(img, i);
  }

  /** Reads question i and applies the decision rule: the label of the
      darkest bubble when some bubble is clearly marked, otherwise none. */
  method ReadAnswer(img: Image, i: nat) returns (detectedOption: Option)
    ensures detectedOption == DetectQuestion(img, i)
  {
    var darknessValues, darkestBubbleIndex, maxDarkness := ReadQuestion(img, i);
    ClearlyMarkedIffDarkestQualifies(darknessValues);
    detectedOption := Null;
    if IsClearlyMarked(darknessValues) {
      detectedOption := OPTIONS_LABELS[darkestBubbleIndex];
    }
  }

  /** The rows and tallies after the first i questions of a sheet. */
  ghost predicate SheetSoFar(img: Image, key: seq<Option>, i: nat,
                             rows: seq<DetectedAnswer>, correctCount: nat, wrongCount: nat, unansweredCount: nat)
  {
    && rows == DetectedRows(DetectAll(img, i))
    && correctCount == CountOutcome(DetectAll(img, i), key, Correct, i)
    && wrongCount == CountOutcome(DetectAll(img, i), key, Wrong, i)
    && unansweredCount == CountOutcome(DetectAll(img, i), key, Unanswered, i)
  }

  /** One turn of the reader's loop: reads question i, appends its row and
      adds it to the tally of unanswered, correct or wrong questions. */
  method ReadNext(img: Image, key: seq<Option>, i: nat,
                  rows: seq<DetectedAnswer>, correctCount: nat, wrongCount: nat, unansweredCount: nat)
    returns (rows': seq<DetectedAnswer>, correct': nat, wrong': nat, unanswered': nat)
    requires SheetSoFar(img, key, i, rows, correctCount, wrongCount, unansweredCount)
    ensures SheetSoFar(img, key, i + 1, rows', correct', wrong', unanswered')
  {
    var detectedOption := ReadAnswer(img, i);
    DetectAllGrow(img, i);
    DetectedRowsAppend(DetectAll(img, i), detectedOption);
    correct', wrong', unanswered' := Tally(DetectAll(img, i), detectedOption, key, correctCount, wrongCount, unansweredCount);
    rows' := rows + [DetectedAnswer(i + 1, detectedOption)];
  }

  /** The reader's loop over the questions. */
  method ReadSheet(img: Image, numQuestions: nat, answerKey: seq<Option>)
    returns (detectedAnswers: seq<DetectedAnswer>, correctCount: nat, wrongCount: nat, unansweredCount: nat)
    ensures detectedAnswers == DetectedRows(DetectAll(img, numQuestions))
    ensures correctCount == CountOutcome(DetectAll(img, numQuestions), answerKey, Correct, numQuestions)
    ensures wrongCount == CountOutcome(DetectAll(img, numQuestions), answerKey, Wrong, numQuestions)
    ensures unansweredCount == CountOutcome(DetectAll(img, numQuestions), answerKey, Unanswered, numQuestions)
  {
    detectedAnswers := [];
    correctCount, wrongCount, unansweredCount := 0, 0, 0;
    var i := 0;
    while i < numQuestions
      invariant 0 <= i <= numQuestions
      invariant SheetSoFar(img, answerKey, i, detectedAnswers, correctCount, wrongCount, unansweredCount)
    {
      detectedAnswers, correctCount, wrongCount, unansweredCount :=
        ReadNext(img, answerKey, i, detectedAnswers, correctCount, wrongCount, unansweredCount);
      i := i + 1;
    }
  }

  /** Reading one more question extends the answers read so far. */
  lemma DetectAllGrow(img: Image, i: nat)
    ensures DetectAll(img, i + 1) == DetectAll(img, i) + [DetectQuestion(img, i)]
  {}

  /** The reader's pass over the sheet: the question loop, then the graded
      rows and the percentage. */
  method ProcessImage(img: Image, numQuestions: nat, answerKey: seq<Option>) returns (res: OmrResult)
    requires numQuestions >= 1
    ensures res == Report(img, numQuestions, answerKey)
  {
    var detectedAnswers, correctCount, wrongCount, unansweredCount := ReadSheet(img, numQuestions, answerKey);
    GradeFields(DetectAll(img, numQuestions), answerKey);
    var gradedAnswers := GradedRows(detectedAnswers, answerKey);
    var scorePercentage := (correctCount as real / numQuestions as real) * 100.0;
    res := OmrResult(numQuestions, correctCount, wrongCount, unansweredCount,
                     scorePercentage, detectedAnswers, gradedAnswers);
  }

  /** Three questions keyed A, B, C: one full bubble at A, two full bubbles
      at A and B, and four light bubbles. The first is correct; the second
      reads as A (the first of the two) and is wrong; the third is blank. */
  lemma MixedSheetReport()
    ensures DetectAnswer([255.0, 0.0, 0.0, 0.0]) == A
    ensures DetectAnswer([255.0, 255.0, 0.0, 0.0]) == A
    ensures DetectAnswer([30.0, 30.0, 30.0, 30.0]) == Null
    ensures var r := Grade([A, A, Null], [A, B, C]);
      r.correct == 1 && r.wrong == 1 && r.unanswered == 1 && r.scorePercentage == 100.0 / 3.0
  {
    SingleFullBubbleGivesLabel([255.0, 0.0, 0.0, 0.0], 0);
    TwoFullBubblesGiveFirst([255.0, 255.0, 0.0, 0.0], 0, 1);
    EqualScoresGiveNoAnswer([30.0, 30.0, 30.0, 30.0], 30.0);
    MixedSheetTallies();
  }

  lemma MixedSheetTallies()
    ensures var r := Grade([A, A, Null], [A, B, C]);
      r.correct == 1 && r.wrong == 1 && r.unanswered == 1 && r.scorePercentage == 100.0 / 3.0
  {
    var d, k := [A, A, Null], [A, B, C];
    assert CountOutcome(d, k, Correct, 3) == 1;
    assert CountOutcome(d, k, Wrong, 3) == 1;
    assert CountOutcome(d, k, Unanswered, 3) == 1;
  }
}
