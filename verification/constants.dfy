/** Sheet geometry, option labels and detector threshold shared by the sheet
    generator and the reader. All lengths are pixels of the 2100 x 2970
    page (A4 at 10 pixels per millimetre). */
module Constants {
  import opened Types

  const CANVAS_WIDTH: int := 2100
  const CANVAS_HEIGHT: int := 2970

  const SHEET_MARGIN: int := 100
  const HEADER_HEIGHT: int := 400

  const DEFAULT_NUM_QUESTIONS: int := 20
  const MAX_QUESTIONS: int := 50
  const QUESTIONS_PER_COLUMN: int := 25
  const NUM_OPTIONS: int := 4
  const OPTIONS_LABELS: seq<Option> := [A, B, C, D]

  const BUBBLE_RADIUS: nat := 30
  /** Horizontal distance between the centres of neighbouring bubbles. */
  const BUBBLE_SPACING: int := 120
  /** Vertical distance between the centres of neighbouring questions. */
  const QUESTION_SPACING: int := 95

  const CONTENT_WIDTH: int := CANVAS_WIDTH - 2 * SHEET_MARGIN
  const START_Y: int := HEADER_HEIGHT + SHEET_MARGIN

  /** Grey level (0-255) below which a pixel counts as dark; the same number
      is also the darkness score a marked bubble must exceed. */
  const DARKNESS_THRESHOLD: int := 120

  /** A position on the page. */
  datatype Point = Point(x: int, y: int)

  lemma DerivedConstants()
    ensures START_Y == 500
    ensures CONTENT_WIDTH == 1900
  {}

  /** Fifty questions fill exactly two columns of twenty-five, so every
      valid question index lies in column 0 or column 1. */
  lemma MaxQuestionsFillTwoColumns(i: int)
    requires 0 <= i < MAX_QUESTIONS
    ensures MAX_QUESTIONS == 2 * QUESTIONS_PER_COLUMN
    ensures i / QUESTIONS_PER_COLUMN == 0 || i / QUESTIONS_PER_COLUMN == 1
  {}

  /** One label per option, all distinct, all real answers, in sheet order. */
  lemma LabelsWellFormed()
    ensures |OPTIONS_LABELS| == NUM_OPTIONS
    ensures OPTIONS_LABELS == [A, B, C, D]
    ensures forall j, k :: 0 <= j < k < |OPTIONS_LABELS| ==> OPTIONS_LABELS[j] != OPTIONS_LABELS[k]
    ensures forall j :: 0 <= j < |OPTIONS_LABELS| ==> OPTIONS_LABELS[j] != Null
  {}

  /** Both spacings leave room for a whole bubble diameter. */
  lemma SpacingExceedsDiameter()
    ensures BUBBLE_SPACING > 2 * BUBBLE_RADIUS
    ensures QUESTION_SPACING > 2 * BUBBLE_RADIUS
  {}

  lemma DefaultsInRange()
    ensures 1 <= DEFAULT_NUM_QUESTIONS <= MAX_QUESTIONS
    ensures 0 <= DARKNESS_THRESHOLD <= 255
  {}
}
