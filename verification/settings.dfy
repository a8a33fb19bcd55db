/** The question-count field shared by the generator and the reader. */
module Settings {
  import opened Constants

  /** What parsing the field's text as a base-10 integer yields: a whole
      number, or NaN when the text does not start with one. */
  datatype ParsedInt = NaN | Int(value: int)

  /** The question count a parsed field value sets: NaN gives 1, anything
      else is clamped to 1 .. MAX_QUESTIONS. */
  function ClampQuestionCount(v: ParsedInt): (n: int)
    ensures 1 <= n <= MAX_QUESTIONS
    ensures v.NaN? ==> n == 1
    ensures v.Int? && 1 <= v.value <= MAX_QUESTIONS ==> n == v.value
    ensures v.Int? && v.value < 1 ==> n == 1
    ensures v.Int? && v.value > MAX_QUESTIONS ==> n == MAX_QUESTIONS
  {
    match v
    case NaN => 1
    case Int(x) =>
      var atLeastOne := if x > 1 then x else 1;
      if atLeastOne < MAX_QUESTIONS then atLeastOne else MAX_QUESTIONS
  }

  /** Entering the count the field already shows changes nothing. */
  lemma ClampIdempotent(v: ParsedInt)
    ensures ClampQuestionCount(Int(ClampQuestionCount(v))) == ClampQuestionCount(v)
  {}

  /** A larger number never gives a smaller count. */
  lemma ClampMonotone(x: int, y: int)
    requires x <= y
    ensures ClampQuestionCount(Int(x)) <= ClampQuestionCount(Int(y))
  {}
}
