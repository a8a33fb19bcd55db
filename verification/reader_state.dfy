/** The reader's configuration state: the question count, the answer key
    and the flags that decide whether grading may start. */
module ReaderState {
  import opened Types
  import opened Constants
  import opened Settings
  import opened Grading
  import Darkness
  import Reader

  datatype State = State(numQuestions: int, answerKey: seq<Option>, imageLoaded: bool, isLoading: bool)

  /** One key entry per question, and a question count the field allows. */
  ghost predicate Valid(s: State)
  {
    1 <= s.numQuestions <= MAX_QUESTIONS && |s.answerKey| == s.numQuestions
  }

  /** The state on first display: the default count, an empty key, no image. */
  function Initial(): (s: State)
    ensures Valid(s)
    ensures s.numQuestions == DEFAULT_NUM_QUESTIONS
    ensures forall i :: 0 <= i < |s.answerKey| ==> s.answerKey[i] == Null
    ensures !s.imageLoaded && !s.isLoading
  {
    State(DEFAULT_NUM_QUESTIONS, seq(DEFAULT_NUM_QUESTIONS, _ => Null), false, false)
  }

  /** The key after the question count changes to n: existing entries are
      kept up to the new length and new positions are unset. */
  function ResizeKey(key: seq<Option>, n: nat): (k: seq<Option>)
    ensures |k| == n
    ensures forall i :: 0 <= i < n && i < |key| ==> k[i] == key[i]
    ensures forall i :: |key| <= i < n ==> k[i] == Null
  {
    seq(n, i requires 0 <= i < n => if i < |key| then key[i] else Null)
  }

  /** Resizing to the current length changes nothing. */
  lemma ResizeToSameLength(key: seq<Option>)
    ensures ResizeKey(key, |key|) == key
  {}

  /** Growing the key and shrinking it back restores it exactly. */
  lemma GrowThenShrinkRestores(key: seq<Option>, m: nat)
    requires m >= |key|
    ensures ResizeKey(ResizeKey(key, m), |key|) == key
  {}

  /** Two resizes in a row keep only what fit through the shorter one. */
  lemma ResizeTwice(key: seq<Option>, m: nat, n: nat)
    ensures forall i :: 0 <= i < n ==>
      ResizeKey(ResizeKey(key, m), n)[i] == (if i < m && i < |key| then key[i] else Null)
  {}

  /** Grading reads a position past the key's end as unset, and the resize
      fills new positions with unset entries: below the new length both
      keys grade every question alike. */
  lemma ResizedKeyReadsAlike(key: seq<Option>, n: nat, i: int)
    requires 0 <= i < n
    ensures KeyAt(ResizeKey(key, n), i) == KeyAt(key, i)
  {}

  /** The key after choosing `value` for question `index`. */
  function SetAnswer(key: seq<Option>, index: int, value: Option): (k: seq<Option>)
    requires 0 <= index < |key|
    ensures |k| == |key|
    ensures k[index] == value
    ensures forall i :: 0 <= i < |key| && i != index ==> k[i] == key[i]
  {
    key[index := value]
  }

  /** A new count typed into the field: the count is clamped and the key
      follows it. The result is valid from any state. */
  function ChangeNumQuestions(s: State, v: ParsedInt): (t: State)
    ensures Valid(t)
    ensures t.numQuestions == ClampQuestionCount(v)
    ensures forall i :: 0 <= i < t.numQuestions && i < |s.answerKey| ==> t.answerKey[i] == s.answerKey[i]
    ensures t.imageLoaded == s.imageLoaded && t.isLoading == s.isLoading
  {
    var n := ClampQuestionCount(v);
    s.(numQuestions := n, answerKey := ResizeKey(s.answerKey, n))
  }

  /** A key entry chosen in the form. */
  function ChangeAnswer(s: State, index: int, value: Option): (t: State)
    requires 0 <= index < |s.answerKey|
    ensures Valid(s) ==> Valid(t)
    ensures t.numQuestions == s.numQuestions && |t.answerKey| == |s.answerKey|
    ensures t.answerKey[index] == value
    ensures forall i :: 0 <= i < |s.answerKey| && i != index ==> t.answerKey[i] == s.answerKey[i]
    ensures t.imageLoaded == s.imageLoaded && t.isLoading == s.isLoading
  {
    s.(answerKey := SetAnswer(s.answerKey, index, value))
  }

  /** The grade button is disabled without an image, while a pass is
      running, or while any key entry is unset. */
  predicate IsGradingDisabled(s: State): (disabled: bool)
    ensures !disabled ==> s.imageLoaded && !s.isLoading
    ensures !disabled ==> forall i :: 0 <= i < |s.answerKey| ==> KeyAt(s.answerKey, i) in OPTIONS_LABELS
  {
    !s.imageLoaded || s.isLoading || exists i :: 0 <= i < |s.answerKey| && s.answerKey[i] == Null
  }

  /** A single unset key entry is enough to keep grading disabled. */
  lemma UnsetEntryDisablesGrading(s: State, i: int)
    requires 0 <= i < |s.answerKey| && s.answerKey[i] == Null
    ensures IsGradingDisabled(s)
  {}

  /** When grading is enabled the key is complete, so every graded row
      carries a real key answer and every mark is either correct or wrong. */
  lemma EnabledGradingHasCompleteKey(s: State, img: Darkness.Image)
    requires Valid(s) && !IsGradingDisabled(s)
    ensures forall i :: 0 <= i < |s.answerKey| ==> s.answerKey[i] != Null
    ensures var r := Reader.Report(img, s.numQuestions, s.answerKey);
      forall i :: 0 <= i < |r.gradedAnswers| ==> r.gradedAnswers[i].correctAns != Null
  {
    var detected := Reader.DetectAll(img, s.numQuestions);
    var r := Reader.Report(img, s.numQuestions, s.answerKey);
    assert r == Grade(detected, s.answerKey);
    forall i | 0 <= i < |r.gradedAnswers|
      ensures r.gradedAnswers[i].correctAns != Null
    {
      assert r.gradedAnswers[i].correctAns == KeyAt(s.answerKey, i);
    }
  }
}
