# OMR sheet reader and generator: a Dafny model

This project models the core of a small optical-mark-recognition (OMR) web
application. The application prints answer sheets with up to 50
multiple-choice questions of four options (A-D). It reads back a scanned
sheet, decides which bubble was filled for each question, and grades the
answers against an answer key.

The model covers:

- **Sheet geometry** (`Reader.BubbleCenter`, `Generator.LayoutQuestion`).
  Question `i` sits in column `i / 25` and row `i % 25`. Its bubbles are
  120 pixels apart horizontally and rows are 95 pixels apart. Both the
  generator and the reader compute these positions; the model proves the
  two computations agree.
- **Darkness scorer** (`Darkness`). It walks the `2r x 2r` window around a
  bubble centre row by row. It counts the pixels inside the disc
  `dx² + dy² <= r²`, and among them the dark ones (channel mean below 120).
  The score is `dark / total * 255`, or 0 when no pixel was counted. The
  image is a total function from page coordinates to RGBA bytes. Scores
  are exact `real`s.
- **Decision rule** (`Decision`). It runs a left-to-right scan for the
  first strict maximum, starting from index -1 with a maximum of 0. Then
  comes the "clearly marked" test: some bubble scores above 120 and above
  2.5 times the mean of the other bubbles. The label reported is always
  the darkest bubble's. The model proves that testing every bubble is the
  same as testing only the darkest one.
- **Grader** (`Grading`, `Reader.ProcessImage`). Each question is
  unanswered, correct or wrong. The report lists every question and tallies
  them, and the score is `correct / numQuestions * 100`.
- **Configuration state** (`Settings`, `ReaderState`). This covers
  clamping the question count, resizing the answer key when the count
  changes, setting one key entry, and when the grade button is disabled.

Behaviour worth knowing:

- The darkest bubble is the first strict maximum, so two equally dark
  full bubbles give the first one's label. With four options, scores
  `[0, 255, 255, 0]` read as B, because `255 > 2.5 * 85`. On a sheet keyed
  A, B, C whose rows are "A full", "A and B full" and "all light", the
  second question therefore reads as A and is wrong, giving 1 correct,
  1 wrong and 1 unanswered (`Reader.MixedSheetReport`).
- Grading itself does not refuse an incomplete key; only the disabled
  grade button does. A mark against an unset key entry counts as wrong
  (`Grading.MarkAgainstUnsetKeyIsWrong`).

## Model

| member | source | states |
|---|---|---|
| `Constants.DerivedConstants` | constants.ts:19-20 | The first question row is at y = 500 and the content is 1900 pixels wide |
| `Constants.MaxQuestionsFillTwoColumns` | constants.ts:9-10 | The maximum of 50 questions is two columns of 25, so every valid question index is in column 0 or 1 |
| `Constants.LabelsWellFormed` | constants.ts:11-12 | There are exactly four labels, A, B, C, D in order; they are pairwise distinct and none is null |
| `Constants.SpacingExceedsDiameter` | constants.ts:14-16 | Both the bubble spacing (120) and the question spacing (95) exceed a bubble diameter (60) |
| `Constants.DefaultsInRange` | constants.ts:8-23 | The default question count is between 1 and the maximum, and the threshold is a grey level in 0..255 |
| `Types.OptionCases` | types.ts:2 | An option is exactly one of A, B, C, D or null, and it is non-null iff it is one of the four labels |
| `Darkness.IsDark` | components/OmrSheetReader.tsx:71-75 | A pixel is dark iff R+G+B < 360, so the mean test needs no division and alpha plays no part |
| `Darkness.OffsetsRoundTrip` | components/OmrSheetReader.tsx:65-67 | The p-th window pixel has offsets in [-r, r-1] on both axes, and those offsets map back to p |
| `Darkness.WindowIndexRoundTrip` | components/OmrSheetReader.tsx:60-67 | Every offset pair in [-r, r-1]² is visited, at window position WindowIndex(dx, dy); with `Darkness.OffsetsRoundTrip` that position is the only one |
| `Darkness.DarkCount` | components/OmrSheetReader.tsx:69-77 | The dark count never exceeds the count of disc pixels |
| `Darkness.Score` | components/OmrSheetReader.tsx:80 | The score is in [0, 255]; it is 0 with no disc pixels; with some, it is 0 iff no pixel is dark and 255 iff all are |
| `Darkness.ScoreStrictlyIncreasing` | components/OmrSheetReader.tsx:80 | With the number of disc pixels fixed, more dark pixels give a strictly higher score |
| `Darkness.BubbleDarkness` | components/OmrSheetReader.tsx:59-81 | Every bubble score lies in [0, 255] |
| `Darkness.DiscNonEmpty` | components/OmrSheetReader.tsx:62-70 | For radius at least 1 at least one pixel (the centre) is counted, so the score never takes the "no pixels" branch |
| `Darkness.DarknessDependsOnlyOnDisc` | components/OmrSheetReader.tsx:60-76 | Two images with the same RGB on the disc pixels of the window score the same, whatever their alpha or pixels elsewhere |
| `Darkness.FilledBubbleScoresFull` | components/OmrSheetReader.tsx:69-80 | A bubble whose disc pixels are all dark scores exactly 255 |
| `Darkness.BlankBubbleScoresZero` | components/OmrSheetReader.tsx:69-80 | A bubble with no dark disc pixel scores exactly 0 |
| `Darkness.GetBubbleDarkness` | components/OmrSheetReader.tsx:59-81 | The row-by-row scanning loop returns exactly the reference bubble score |
| `Decision.OthersSum` | components/OmrSheetReader.tsx:140-141 | Leaving bubble k out leaves one score fewer, and their sum is the total minus bubble k's score |
| `Decision.ScanDarkest` | components/OmrSheetReader.tsx:122-135 | The scan's index is -1 with maximum 0 iff no score is positive; otherwise it is the first index holding the largest score, and that score is the maximum |
| `Decision.NoDarkestOnlyWhenAllZero` | components/OmrSheetReader.tsx:122-135 | With non-negative scores the darkest index is -1 exactly when every score is 0 |
| `Decision.DarkerQualifies` | components/OmrSheetReader.tsx:139-143 | If bubble k is clearly marked, any bubble at least as dark is clearly marked too |
| `Decision.AvgOthers` | components/OmrSheetReader.tsx:140-141 | The mean of the other bubbles is 0 for a single bubble; otherwise it times their number is the total minus bubble k's score |
| `Decision.Qualifies` | components/OmrSheetReader.tsx:139-143 | With four options, bubble k is clearly marked iff its score is above 120 and 11 times its score exceeds 5 times the sum of all four |
| `Decision.DetectAnswer` | components/OmrSheetReader.tsx:137-147 | A non-null answer is the label of a clearly marked bubble whose score is the largest of the question's |
| `Decision.ClearlyMarkedIffDarkestQualifies` | components/OmrSheetReader.tsx:139-147 | Some bubble is clearly marked iff the darkest bubble exists and is clearly marked |
| `Decision.DetectAnswerSpec` | components/OmrSheetReader.tsx:137-147 | The answer is non-null iff some bubble is clearly marked; then it is the darkest bubble's label, at a valid index, and that bubble is clearly marked |
| `Decision.EqualScoresGiveNoAnswer` | components/OmrSheetReader.tsx:139-147 | Four equal scores, at any level, give no answer |
| `Decision.SingleFullBubbleGivesLabel` | components/OmrSheetReader.tsx:139-147 | One bubble at 255 and the rest at 0 give that bubble's label |
| `Decision.TwoFullBubblesGiveFirst` | components/OmrSheetReader.tsx:131-147 | Two bubbles at 255 and the rest at 0 give the label of the first of the two |
| `Decision.MiddleTwoFullReadsB` | components/OmrSheetReader.tsx:139-146 | Scores [0, 255, 255, 0] read as B |
| `Decision.ThreeFullBubblesGiveNoAnswer` | components/OmrSheetReader.tsx:139-147 | Scores [255, 255, 255, 0] give no answer |
| `Grading.Classify` | components/OmrSheetReader.tsx:151-157 | A question is unanswered iff no mark, correct iff a mark equal to the key, wrong iff a mark different from the key (a null key entry included) |
| `Grading.CountOutcome` | components/OmrSheetReader.tsx:151-157 | A tally over n questions never exceeds n |
| `Grading.CountZeroIffNone` | components/OmrSheetReader.tsx:151-157 | A tally is zero exactly when none of the counted questions has that outcome |
| `Grading.OutcomesPartition` | components/OmrSheetReader.tsx:151-157 | The correct, wrong and unanswered tallies add up to the number of questions |
| `Grading.CountPrefix` | components/OmrSheetReader.tsx:151-157 | The tallies over the first n questions depend on those n answers only |
| `Grading.CountAppend` | components/OmrSheetReader.tsx:151-157 | Reading one more answer adds one to the tally its outcome names and leaves the other two unchanged |
| `Grading.Tally` | components/OmrSheetReader.tsx:151-157 | The three-way branch on the answer produces exactly the tallies of the list extended by that answer |
| `Grading.DetectedRowsAppend` | components/OmrSheetReader.tsx:149 | Reading one more answer appends exactly its row, numbered one past the previous count |
| `Grading.FlagsCountCorrect` | components/OmrSheetReader.tsx:160-165 | The number of rows flagged correct equals the correct tally |
| `Grading.UnmarkedCountUnanswered` | components/OmrSheetReader.tsx:149-152 | The number of null detected answers equals the unanswered tally |
| `Grading.Grade` | components/OmrSheetReader.tsx:149-177 | The report is consistent: lengths are equal to the question count, rows agree and are numbered from 1, tallies add up and match the rows, and the score is the correct share times 100, within [0, 100]; its rows and tallies follow the per-question classification |
| `Grading.PercentageBounds` | components/OmrSheetReader.tsx:167 | The score percentage lies in [0, 100] |
| `Grading.MarkAgainstUnsetKeyIsWrong` | components/OmrSheetReader.tsx:151-156 | A mark against an unset key entry is wrong and its row is not flagged correct |
| `Reader.BubbleCenter` | components/OmrSheetReader.tsx:110-127 | Bubble (i, j) is sampled at x = 300 or 1250 (by column i/25) plus 120·j, and y = 500 + 95·(i mod 25) |
| `Reader.SamplingWindowOnPage` | components/OmrSheetReader.tsx:110-128 | For i < 50 and j < 4 every pixel of the sampling window lies on the 2100 x 2970 page |
| `Reader.QuestionScores` | components/OmrSheetReader.tsx:126-130 | A question has four scores, each in [0, 255] |
| `Reader.Report` | components/OmrSheetReader.tsx:160-177 | The report for a sheet is consistent and covers all its questions |
| `Reader.ScoreNext` | components/OmrSheetReader.tsx:126-135 | One turn of the bubble loop extends the scores by bubble j's score and moves the darkest index only on a strictly larger score, as the reference scan does |
| `Reader.ReadQuestion` | components/OmrSheetReader.tsx:122-135 | The bubble loop yields the question's four scores, plus the first-strict-maximum index and score of the reference scan |
| `Reader.ReadAnswer` | components/OmrSheetReader.tsx:137-147 | Labelling the loop's darkest index when clearly marked yields the reference answer |
| `Reader.DetectAllGrow` | components/OmrSheetReader.tsx:109-149 | The answers of i+1 questions are those of the first i followed by question i's answer |
| `Reader.ReadNext` | components/OmrSheetReader.tsx:109-158 | One turn of the question loop turns the rows and tallies of the first i questions into those of the first i+1 |
| `Reader.ReadSheet` | components/OmrSheetReader.tsx:104-158 | The question loop yields the numbered detected answers and exactly the reference tallies |
| `Reader.ProcessImage` | components/OmrSheetReader.tsx:104-177 | The whole pass produces exactly the reference report, hence a consistent one |
| `Reader.MixedSheetReport` | components/OmrSheetReader.tsx:139-167 | Key A, B, C with rows "A full", "A and B full", "all at 30" gives A, A, none: 1 correct, 1 wrong, 1 unanswered, 100/3 percent |
| `Settings.ClampQuestionCount` | components/OmrSheetGenerator.tsx:126-133 | NaN gives 1; any number gives a count in [1, 50], unchanged when already in range, 1 below and 50 above |
| `Settings.ClampIdempotent` | components/OmrSheetGenerator.tsx:126-133 | Re-entering a clamped count changes nothing |
| `Settings.ClampMonotone` | components/OmrSheetGenerator.tsx:126-133 | A larger input never gives a smaller count |
| `ReaderState.Initial` | components/OmrSheetReader.tsx:11-16 | The first state has 20 questions, a valid all-null key and no image |
| `ReaderState.ResizeKey` | components/OmrSheetReader.tsx:20-29 | The resized key has the new length, keeps the old entries that fit and fills new positions with null |
| `ReaderState.ResizeToSameLength` | components/OmrSheetReader.tsx:20-29 | Resizing to the current length changes nothing |
| `ReaderState.GrowThenShrinkRestores` | components/OmrSheetReader.tsx:20-29 | Growing the key and shrinking it back restores it |
| `ReaderState.ResizeTwice` | components/OmrSheetReader.tsx:20-29 | Two successive resizes keep only the entries below both lengths |
| `ReaderState.SetAnswer` | components/OmrSheetReader.tsx:44-48 | Setting one entry keeps the length, stores the value there and leaves every other entry unchanged |
| `ReaderState.ChangeNumQuestions` | components/OmrSheetReader.tsx:50-57 | Any input gives a valid state: a clamped count, a key of that length keeping the old entries that fit, and the flags unchanged |
| `ReaderState.ChangeAnswer` | components/OmrSheetReader.tsx:44-48 | Choosing a key entry keeps the state valid, stores the value at that entry and changes nothing else: not the count, the other entries, the image flag or the loading flag |
| `ReaderState.IsGradingDisabled` | components/OmrSheetReader.tsx:191 | When grading is enabled an image is loaded, no pass is running, and every question's key entry is one of the labels A-D |
| `ReaderState.ResizedKeyReadsAlike` | components/OmrSheetReader.tsx:20-29 | Below the new length the resized key grades every question as the old key does, since grading reads a position past the key's end as unset (line 153) |
| `ReaderState.UnsetEntryDisablesGrading` | components/OmrSheetReader.tsx:191 | Any null key entry disables grading |
| `ReaderState.EnabledGradingHasCompleteKey` | components/OmrSheetReader.tsx:191 | When grading is enabled every key entry is set, so every graded row carries a non-null key answer |
| `Generator.LayoutQuestion` | components/OmrSheetGenerator.tsx:72-99 | Question i is numbered i+1, with its number at x = 150 or 1100 and y + 15; its four bubbles are at 300 or 1250 plus 120·j, y = 500 + 95·(i mod 25) |
| `Generator.SheetLayout` | components/OmrSheetGenerator.tsx:72-109 | The sheet lays out exactly the requested questions, numbered from 1, with bubble j of question i drawn at the reader's sampling centre for (i, j) |
| `Generator.CentresMatchReader` | components/OmrSheetGenerator.tsx:75-99 | Every drawn bubble centre equals the reader's sampling centre for the same (i, j) |
| `Generator.BubblesInsideBorder` | components/OmrSheetGenerator.tsx:41-103 | For i < 50 and j < 4 each bubble disc of radius 30 lies inside the border [50, 2050] x [50, 2920] and on the page |
| `Generator.BubblesDoNotOverlap` | components/OmrSheetGenerator.tsx:78-103 | Distinct bubbles of a 50-question sheet are more than 60 pixels apart, so no two overlap |

## Left out

- Image loading is not modelled: file reading, image decoding, the `onerror` path, the 100 ms deferral and the loading and error flags. These are browser I/O. The model takes a pixel function already in page coordinates.
- Canvas calls are not modelled. The rescale of the upload to 2100 x 2970 and the reads outside the canvas are browser behaviour; `Reader.SamplingWindowOnPage` shows the reader never reads outside the page. Stroking, arcs, fonts and text placement are not modelled either, apart from the question-number position.
- The sheet ID from the clock, the JPEG download and the one-decimal display of the score are not modelled.
- The results table and all other rendering are not modelled.
- Floating-point rounding is not modelled. Scores are exact reals, so a score within rounding distance of 120 or of 2.5 times the others' mean can be decided differently in the browser.
- Settings.ClampQuestionCount: takes the already-parsed field value (a whole number or NaN); the text parsing itself is not modelled.
- Grading.Grade: requires at least one question. The score divides by the question count, and the reader's state always holds a count clamped to at least 1.
- Reader.ProcessImage: requires at least one question, for the same reason.
- Decision.DetectAnswerSpec: requires exactly four scores, as Decision.DetectAnswer does. The reader always builds the score list with one entry per option.
- ReaderState.SetAnswer: requires the index to lie inside the key. The form only offers one selector per existing key entry.
- Darkness.GetBubbleDarkness: takes a natural-number radius. The reader always passes 30.
- Decision.Qualifies: its division-free characterisation is stated for four scores only, the number the reader always passes; for other lengths the contract says nothing beyond the definition, because scaling by a symbolic count makes the proof non-linear.
