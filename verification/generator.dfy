/** Where the sheet generator places each question: its number and its
    bubbles. The drawing itself (strokes, fonts, text) is not modelled. */
module Generator {
  import opened Constants
  import Reader

  /** The placement of one question: its 1-based number, where that number
      is written, and the centres of its bubbles in option order. */
  datatype QuestionLayout = QuestionLayout(number: int, numberPos: Point, bubbles: seq<Point>)

  /** An axis-aligned rectangle given by its top-left corner and size. */
  datatype Rect = Rect(left: int, top: int, width: int, height: int)

  const PAGE: Rect := Rect(0, 0, CANVAS_WIDTH, CANVAS_HEIGHT)

  /** The printed border, half a margin in from every edge. */
  const BORDER: Rect := Rect(SHEET_MARGIN / 2, SHEET_MARGIN / 2, CANVAS_WIDTH - SHEET_MARGIN, CANVAS_HEIGHT - SHEET_MARGIN)

  /** The disc of the given radius around c lies inside the rectangle. */
  predicate DiscInside(c: Point, radius: int, rect: Rect)
  {
    && rect.left <= c.x - radius && c.x + radius <= rect.left + rect.width
    && rect.top <= c.y - radius && c.y + radius <= rect.top + rect.height
  }

  /** Placement of question i. */
  function LayoutQuestion(i: nat): (q: QuestionLayout)
    ensures q.number == i + 1
    ensures q.numberPos == Point(if i / 25 == 0 then 150 else 1100, 500 + 95 * (i % 25) + 15)
    ensures |q.bubbles| == NUM_OPTIONS
    ensures forall j :: 0 <= j < NUM_OPTIONS ==>
      q.bubbles[j] == Point((if i / 25 == 0 then 300 else 1250) + 120 * j, 500 + 95 * (i % 25))
  {
    var column := i / QUESTIONS_PER_COLUMN;
    var y := START_Y + (i % QUESTIONS_PER_COLUMN) * QUESTION_SPACING;
    var questionNumX := if column == 0 then SHEET_MARGIN + 50 else CANVAS_WIDTH / 2 + 50;
    var bubbleStartX := if column == 0 then SHEET_MARGIN + 200 else CANVAS_WIDTH / 2 + 200;
    QuestionLayout(
      i + 1,
      Point(questionNumX, y + BUBBLE_RADIUS / 2),
      seq(NUM_OPTIONS, j requires 0 <= j < NUM_OPTIONS => Point(bubbleStartX + j * BUBBLE_SPACING, y)))
  }

  /** Placement of every question of a sheet, in order. */
  function SheetLayout(numQuestions: nat): (qs: seq<QuestionLayout>)
    ensures |qs| == numQuestions
    ensures forall i :: 0 <= i < numQuestions ==> qs[i].number == i + 1 && |qs[i].bubbles| == NUM_OPTIONS
    ensures forall i, j :: 0 <= i < numQuestions && 0 <= j < NUM_OPTIONS ==>
      qs[i].bubbles[j] == Reader.BubbleCenter(i, j)
  {
    seq(numQuestions, i requires 0 <= i < numQuestions => LayoutQuestion(i))
  }

  /** Every bubble is drawn exactly where the reader samples it. */
  lemma CentresMatchReader(i: nat, j: nat)
    requires j < NUM_OPTIONS
    ensures LayoutQuestion(i).bubbles[j] == Reader.BubbleCenter(i, j)
  {}

  /** On a sheet of at most MAX_QUESTIONS questions every bubble lies
      inside the printed border, hence on the page. */
  lemma BubblesInsideBorder(i: nat, j: nat)
    requires i < MAX_QUESTIONS && j < NUM_OPTIONS
    ensures BORDER == Rect(50, 50, 2000, 2870)
    ensures DiscInside(LayoutQuestion(i).bubbles[j], BUBBLE_RADIUS, BORDER)
    ensures DiscInside(LayoutQuestion(i).bubbles[j], BUBBLE_RADIUS, PAGE)
  {}

  function SquaredDistance(p: Point, q: Point): int
  {
    (p.x - q.x) * (p.x - q.x) + (p.y - q.y) * (p.y - q.y)
  }

  lemma SquareAtLeast(a: int, b: nat)
    requires b <= a || a <= -(b as int)
    ensures a * a >= b * b
  {
    if a >= 0 {
      assert a * a >= b * a >= b * b;
    } else {
      assert a * a == (-a) * (-a);
      assert (-a) * (-a) >= b * (-a) >= b * b;
    }
  }

  /** Two different bubbles of a sheet are more than a diameter apart, so
      no two bubbles overlap. */
  lemma BubblesDoNotOverlap(i1: nat, j1: nat, i2: nat, j2: nat)
    requires i1 < MAX_QUESTIONS && i2 < MAX_QUESTIONS
    requires j1 < NUM_OPTIONS && j2 < NUM_OPTIONS
    requires (i1, j1) != (i2, j2)
    ensures SquaredDistance(LayoutQuestion(i1).bubbles[j1], LayoutQuestion(i2).bubbles[j2])
            > (2 * BUBBLE_RADIUS) * (2 * BUBBLE_RADIUS)
  {
    var p, q := LayoutQuestion(i1).bubbles[j1], LayoutQuestion(i2).bubbles[j2];
    var dx, dy := p.x - q.x, p.y - q.y;
    if i1 % 25 != i2 % 25 {
      SquareAtLeast(dy, 95);
      SquareAtLeast(dx, 0);
    } else if i1 / 25 != i2 / 25 {
      SquareAtLeast(dx, 590);
      SquareAtLeast(dy, 0);
    } else {
      assert i1 == 25 * (i1 / 25) + i1 % 25 && i2 == 25 * (i2 / 25) + i2 % 25;
      assert j1 != j2;
      SquareAtLeast(dx, 120);
      SquareAtLeast(dy, 0);
    }
  }
}
