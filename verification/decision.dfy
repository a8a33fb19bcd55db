/** The per-question decision: which option, if any, was clearly marked,
    given the darkness scores of the question's bubbles in sheet order. */
module Decision {
  import opened Types
  import opened Constants

  /** How many times the average of the other bubbles a marked bubble's
      score must exceed. */
  const CLEAR_MARK_RATIO: real := 2.5

  /** Sum of the scores, added left to right. */
  function Sum(s: seq<real>): real
  {
    if |s| == 0 then 0.0 else Sum(s[..|s| - 1]) + s[|s| - 1]
  }

  lemma {:induction false} SumAppend(a: seq<real>, b: seq<real>)
    ensures Sum(a + b) == Sum(a) + Sum(b)
  {
    if |b| > 0 {
      SumAppend(a, b[..|b| - 1]);
      assert (a + b)[..|a + b| - 1] == a + b[..|b| - 1];
    } else {
      assert a + b == a;
    }
  }

  /** The scores of every bubble except the k-th, in order. */
  function Others(d: seq<real>, k: int): seq<real>
    requires 0 <= k < |d|
  {
    d[..k] + d[k + 1..]
  }

  /** Leaving one bubble out removes exactly its score from the sum. */
  lemma OthersSum(d: seq<real>, k: int)
    requires 0 <= k < |d|
    ensures |Others(d, k)| == |d| - 1
    ensures Sum(Others(d, k)) == Sum(d) - d[k]
  {
    SumAppend(d[..k], d[k + 1..]);
    SumAppend(d[..k], [d[k]]);
    SumAppend(d[..k] + [d[k]], d[k + 1..]);
    assert d == d[..k] + [d[k]] + d[k + 1..];
    assert Sum([d[k]]) == Sum([]) + d[k];
  }

  /** Mean score of the other bubbles; 0 when there are none. */
  function AvgOthers(d: seq<real>, k: int): (avg: real)
    requires 0 <= k < |d|
    ensures |d| == 1 ==> avg == 0.0
    ensures |d| > 1 ==> avg * (|d| - 1) as real == Sum(d) - d[k]
  {
    OthersSum(d, k);
    var others := Others(d, k);
    if |others| > 0 then Sum(others) / |others| as real else 0.0
  }

  /** Bubble k is dark enough and far darker than the others on average. */
  predicate Qualifies(d: seq<real>, k: int): (q: bool)
    requires 0 <= k < |d|
    ensures |d| == NUM_OPTIONS ==>
      (q <==> d[k] > DARKNESS_THRESHOLD as real && 11.0 * d[k] > 5.0 * Sum(d))
  {
    d[k] > DARKNESS_THRESHOLD as real && d[k] > AvgOthers(d, k) * CLEAR_MARK_RATIO
  }

  /** Some bubble of the question qualifies as a clear mark. */
  predicate IsClearlyMarked(d: seq<real>)
  {
    exists k :: 0 <= k < |d| && Qualifies(d, k)
  }

  /** Result of the darkest-bubble scan: its index (-1 when none) and score. */
  datatype Darkest = Darkest(index: int, max: real)

  /** The scan over the first n scores that starts from index -1 with a
      maximum of 0 and moves only on a strictly larger score: the result
      is the first position holding the largest positive score, or -1 when
      no score is positive. */
  function ScanDarkest(d: seq<real>, n: nat): (r: Darkest)
    requires n <= |d|
    ensures -1 <= r.index < n
    ensures r.index == -1 ==> r.max == 0.0 && forall j :: 0 <= j < n ==> d[j] <= 0.0
    ensures r.index >= 0 ==> r.max == d[r.index] && r.max > 0.0
    ensures r.index >= 0 ==> forall j :: 0 <= j < n ==> d[j] <= r.max
    ensures r.index >= 0 ==> forall j :: 0 <= j < r.index ==> d[j] < r.max
  {
    if n == 0 then Darkest(-1, 0.0)
    else
      var prev := ScanDarkest(d, n - 1);
      if d[n - 1] > prev.max then Darkest(n - 1, d[n - 1]) else prev
  }

  function DarkestBubble(d: seq<real>): Darkest
  {
    ScanDarkest(d, |d|)
  }

  /** With non-negative scores the scan reports no bubble exactly when every
      score is zero. */
  lemma NoDarkestOnlyWhenAllZero(d: seq<real>)
    requires forall j :: 0 <= j < |d| ==> d[j] >= 0.0
    ensures DarkestBubble(d).index == -1 <==> forall j :: 0 <= j < |d| ==> d[j] == 0.0
  {
    var r := DarkestBubble(d);
    if r.index >= 0 {
      assert d[r.index] > 0.0;
    }
  }

  /** A bubble at least as dark as a qualifying one qualifies too: its own
      score is no lower and the others' average is no higher. */
  lemma DarkerQualifies(d: seq<real>, k: int, m: int)
    requires 0 <= k < |d| && 0 <= m < |d|
    requires Qualifies(d, k)
    requires d[m] >= d[k]
    ensures Qualifies(d, m)
  {
    OthersSum(d, k);
    OthersSum(d, m);
    if |d| > 1 {
      DivideMonotone(Sum(Others(d, m)), Sum(Others(d, k)), (|d| - 1) as real);
    }
    assert AvgOthers(d, m) <= AvgOthers(d, k);
  }

  lemma DivideMonotone(a: real, b: real, c: real)
    requires a <= b && c > 0.0
    ensures a / c <= b / c
  {
    assert b / c - a / c == (b - a) / c;
  }

  /** Testing every bubble is the same as testing the darkest one only. */
  lemma ClearlyMarkedIffDarkestQualifies(d: seq<real>)
    ensures IsClearlyMarked(d) <==>
      (DarkestBubble(d).index >= 0 && Qualifies(d, DarkestBubble(d).index))
  {
    var m := DarkestBubble(d).index;
    if IsClearlyMarked(d) {
      var k :| 0 <= k < |d| && Qualifies(d, k);
      assert d[k] > 0.0;
      assert m >= 0;
      DarkerQualifies(d, k, m);
    }
  }

  /** The answer read for one question from its bubble scores. */
  function DetectAnswer(d: seq<real>): (answer: Option)
    requires |d| == NUM_OPTIONS
    ensures answer != Null ==>
      exists k :: 0 <= k < |d| && Qualifies(d, k) && answer == OPTIONS_LABELS[k]
                  && forall j :: 0 <= j < |d| ==> d[j] <= d[k]
  {
    ClearlyMarkedIffDarkestQualifies(d);
    if IsClearlyMarked(d) then OPTIONS_LABELS[DarkestBubble(d).index] else Null
  }

  /** A question has an answer iff some bubble is clearly marked, and the
      answer is then the label of the darkest bubble, which is clearly
      marked itself. */
  lemma DetectAnswerSpec(d: seq<real>)
    requires |d| == NUM_OPTIONS
    ensures DetectAnswer(d) != Null <==> exists k :: 0 <= k < |d| && Qualifies(d, k)
    ensures DetectAnswer(d) != Null ==>
      var m := DarkestBubble(d).index;
      0 <= m < NUM_OPTIONS && DetectAnswer(d) == OPTIONS_LABELS[m] && Qualifies(d, m)
  {
    ClearlyMarkedIffDarkestQualifies(d);
  }

  lemma ConstantSum(d: seq<real>, c: real)
    requires forall j :: 0 <= j < |d| ==> d[j] == c
    ensures Sum(d) == |d| as real * c
  {
    if |d| > 0 {
      ConstantSum(d[..|d| - 1], c);
    }
  }

  /** Equal scores on every bubble, however dark, never give an answer. */
  lemma EqualScoresGiveNoAnswer(d: seq<real>, c: real)
    requires |d| == NUM_OPTIONS
    requires forall j :: 0 <= j < |d| ==> d[j] == c
    ensures DetectAnswer(d) == Null
  {
    forall k | 0 <= k < |d|
      ensures !Qualifies(d, k)
    {
      OthersSum(d, k);
      ConstantSum(d, c);
      assert AvgOthers(d, k) == (3.0 * c) / 3.0;
    }
  }

  /** One full bubble among empty ones gives that bubble's label. */
  lemma SingleFullBubbleGivesLabel(d: seq<real>, k: int)
    requires |d| == NUM_OPTIONS && 0 <= k < |d|
    requires d[k] == 255.0
    requires forall j :: 0 <= j < |d| && j != k ==> d[j] == 0.0
    ensures DetectAnswer(d) == OPTIONS_LABELS[k]
  {
    OthersSum(d, k);
    ConstantSum(Others(d, k), 0.0);
    assert Qualifies(d, k);
    var r := DarkestBubble(d);
    assert r.index == k;
  }

  /** Two equally full bubbles among empty ones give the first of the two:
      each one's score exceeds 2.5 times the others' average of 85. */
  lemma TwoFullBubblesGiveFirst(d: seq<real>, k1: int, k2: int)
    requires |d| == NUM_OPTIONS && 0 <= k1 < k2 < |d|
    requires d[k1] == 255.0 && d[k2] == 255.0
    requires forall j :: 0 <= j < |d| && j != k1 && j != k2 ==> d[j] == 0.0
    ensures DetectAnswer(d) == OPTIONS_LABELS[k1]
  {
    OthersSum(d, k1);
    TwoFullSum(d, k1, k2, |d|);
    assert d[..|d|] == d;
    assert AvgOthers(d, k1) == 85.0;
    assert Qualifies(d, k1);
    var r := DarkestBubble(d);
    assert r.index == k1;
  }

  lemma {:induction false} TwoFullSum(d: seq<real>, k1: int, k2: int, n: nat)
    requires n <= |d| && 0 <= k1 < k2 < |d|
    requires d[k1] == 255.0 && d[k2] == 255.0
    requires forall j :: 0 <= j < |d| && j != k1 && j != k2 ==> d[j] == 0.0
    ensures Sum(d[..n]) == (if n > k2 then 510.0 else if n > k1 then 255.0 else 0.0)
  {
    if n > 0 {
      TwoFullSum(d, k1, k2, n - 1);
      assert d[..n][..n - 1] == d[..n - 1];
    }
  }

  /** The example of four options with the middle two full reads as B. */
  lemma MiddleTwoFullReadsB()
    ensures DetectAnswer([0.0, 255.0, 255.0, 0.0]) == B
  {
    TwoFullBubblesGiveFirst([0.0, 255.0, 255.0, 0.0], 1, 2);
  }

  /** Three full bubbles and one empty give no answer: the others' average
      of 170 is too high. */
  lemma ThreeFullBubblesGiveNoAnswer()
    ensures DetectAnswer([255.0, 255.0, 255.0, 0.0]) == Null
  {
    var d := [255.0, 255.0, 255.0, 0.0];
    assert Sum([255.0]) == 255.0 by { assert [255.0][..0] == []; }
    assert Sum([255.0, 255.0]) == 510.0 by { assert [255.0, 255.0][..1] == [255.0]; }
    assert Sum([255.0, 255.0, 255.0]) == 765.0 by { assert [255.0, 255.0, 255.0][..2] == [255.0, 255.0]; }
    assert d[..3] == [255.0, 255.0, 255.0];
    forall k | 0 <= k < |d|
      ensures !Qualifies(d, k)
    {
      OthersSum(d, k);
    }
  }
}
