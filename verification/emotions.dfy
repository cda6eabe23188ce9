/** The closed enumeration of emotion labels and the probability vectors aligned with it. */
module Emotions {

  /** EMOTION_LABELS, in its declared order; every probability vector is positional over it. */
  const LABELS: seq<string> := [
    "Admiration", "Amusement", "Anger", "Annoyance", "Approval", "Caring", "Confusion",
    "Curiosity", "Desire", "Disappointment", "Disapproval", "Disgust", "Embarrassment",
    "Excitement", "Fear", "Gratitude", "Grief", "Joy", "Love", "Nervousness", "Optimism",
    "Pride", "Realization", "Relief", "Remorse", "Sadness", "Surprise", "Neutral", "Crisis"
  ]

  const LABEL_COUNT: nat := 29

  /** A label, by its position in LABELS. */
  type Label = i: int | 0 <= i < 29

  const ANGER: Label := 2
  const ANNOYANCE: Label := 3
  const DESIRE: Label := 8
  const DISAPPOINTMENT: Label := 9
  const DISAPPROVAL: Label := 10
  const JOY: Label := 17
  const LOVE: Label := 18
  const NERVOUSNESS: Label := 19
  const SADNESS: Label := 25
  const NEUTRAL: Label := 27
  const CRISIS: Label := 28

  function Name(l: Label): (name: string)
  {
    LABELS[l]
  }

  /** The named positions hold the names the engine refers them by. */
  lemma NamedPositions()
    ensures |LABELS| == LABEL_COUNT
    ensures Name(ANGER) == "Anger" && Name(ANNOYANCE) == "Annoyance" && Name(DESIRE) == "Desire"
    ensures Name(DISAPPOINTMENT) == "Disappointment" && Name(DISAPPROVAL) == "Disapproval"
    ensures Name(JOY) == "Joy" && Name(LOVE) == "Love" && Name(NERVOUSNESS) == "Nervousness"
    ensures Name(SADNESS) == "Sadness" && Name(NEUTRAL) == "Neutral" && Name(CRISIS) == "Crisis"
  {
  }

  /** Position of a label name; LABELS has no repeated name, so this is the dictionary key lookup. */
  function IndexOf(name: string): (l: Label)
    requires name in LABELS
    ensures LABELS[l] == name
    ensures forall j :: 0 <= j < l ==> LABELS[j] != name
  {
    FirstIndex(LABELS, name)
  }

  function FirstIndex(s: seq<string>, x: string): (k: nat)
    requires x in s
    ensures k < |s| && s[k] == x
    ensures forall j :: 0 <= j < k ==> s[j] != x
  {
    if s[0] == x then 0 else 1 + FirstIndex(s[1..], x)
  }

  /** Python's `sum(v)`. */
  function Sum(v: seq<real>): real
  {
    if v == [] then 0.0 else Sum(v[..|v| - 1]) + v[|v| - 1]
  }

  predicate NonNegative(v: seq<real>) {
    forall i :: 0 <= i < |v| ==> 0.0 <= v[i]
  }

  /** A probability distribution over the labels. */
  predicate IsDistribution(p: seq<real>) {
    |p| == LABEL_COUNT && NonNegative(p) && Sum(p) == 1.0
  }

  /** The degenerate vector with all mass on one label. */
  function OneHot(l: Label): (p: seq<real>)
    ensures |p| == LABEL_COUNT
    ensures forall i :: 0 <= i < LABEL_COUNT ==> p[i] == if i == l then 1.0 else 0.0
  {
    seq(LABEL_COUNT, i requires 0 <= i < LABEL_COUNT => if i == l then 1.0 else 0.0)
  }

  /** `[s / total for s in v]`. */
  function Normalize(v: seq<real>, total: real): (p: seq<real>)
    requires total != 0.0
    ensures |p| == |v|
    ensures forall i :: 0 <= i < |v| ==> p[i] == v[i] / total
  {
    seq(|v|, i requires 0 <= i < |v| => v[i] / total)
  }

  /** Integer scores as reals, `float(s)` position by position. */
  function AsReals(s: seq<int>): (v: seq<real>)
    ensures |v| == |s|
    ensures forall i :: 0 <= i < |s| ==> v[i] == s[i] as real
  {
    seq(|s|, i requires 0 <= i < |s| => s[i] as real)
  }

  /** `max(range(len(v)), key=v.__getitem__)`: the first position holding the maximum. */
  function ArgMax(v: seq<real>): (k: nat)
    requires v != []
    ensures k < |v|
    ensures forall j :: 0 <= j < |v| ==> v[j] <= v[k]
    ensures forall j :: 0 <= j < k ==> v[j] < v[k]
  {
    if |v| == 1 then 0
    else
      var k := ArgMax(v[..|v| - 1]);
      assert forall j :: 0 <= j < |v| - 1 ==> v[..|v| - 1][j] == v[j];
      if v[|v| - 1] > v[k] then |v| - 1 else k
  }

  /** Only one position is the first maximum. */
  lemma FirstMaxUnique(v: seq<real>, k: nat, k': nat)
    requires k < |v| && k' < |v|
    requires forall j :: 0 <= j < |v| ==> v[j] <= v[k] && v[j] <= v[k']
    requires forall j :: 0 <= j < k ==> v[j] < v[k]
    requires forall j :: 0 <= j < k' ==> v[j] < v[k']
    ensures k == k'
  {
    ghost var atK, atK' := v[k], v[k'];
  }

  /** Python's `max(v)` for a non-empty list. */
  function MaxOf(v: seq<real>): (m: real)
    requires v != []
    ensures m in v
    ensures forall j :: 0 <= j < |v| ==> v[j] <= m
  {
    v[ArgMax(v)]
  }

  /** Sums of non-negative entries are non-negative. */
  lemma {:induction false} SumNonNegative(v: seq<real>)
    requires NonNegative(v)
    ensures Sum(v) >= 0.0
  {
    if v != [] {
      SumNonNegative(v[..|v| - 1]);
    }
  }

  /** Dividing every entry divides the sum. */
  lemma {:induction false} SumNormalize(v: seq<real>, total: real)
    requires total != 0.0
    ensures Sum(Normalize(v, total)) == Sum(v) / total
  {
    if v != [] {
      var n := |v| - 1;
      assert Normalize(v, total)[..n] == Normalize(v[..n], total);
      SumNormalize(v[..n], total);
    }
  }

  /** Sum of a vector whose entries are all zero but one. */
  lemma {:induction false} SumIndicator(n: nat, l: int, x: real)
    ensures Sum(seq(n, i requires 0 <= i < n => if i == l then x else 0.0)) == if 0 <= l < n then x else 0.0
  {
    if n > 0 {
      var f := i requires 0 <= i < n => if i == l then x else 0.0;
      var g := i requires 0 <= i < n - 1 => if i == l then x else 0.0;
      assert seq(n, f)[..n - 1] == seq(n - 1, g);
      SumIndicator(n - 1, l, x);
    }
  }

  /** The degenerate vector is a distribution. */
  lemma OneHotIsDistribution(l: Label)
    ensures IsDistribution(OneHot(l))
  {
    SumIndicator(LABEL_COUNT, l, 1.0);
    assert OneHot(l) == seq(LABEL_COUNT, i requires 0 <= i < LABEL_COUNT => if i == l then 1.0 else 0.0);
  }

  lemma QuotientNonNegative(a: real, b: real)
    requires 0.0 <= a && 0.0 < b
    ensures 0.0 <= a / b
  {
  }

  /** Normalising non-negative scores with a positive total gives a distribution. */
  lemma NormalizeIsDistribution(v: seq<real>)
    requires |v| == LABEL_COUNT && NonNegative(v) && Sum(v) > 0.0
    ensures IsDistribution(Normalize(v, Sum(v)))
  {
    var total := Sum(v);
    var p := Normalize(v, total);
    SumNormalize(v, total);
    SelfQuotient(total);
    forall i | 0 <= i < |p|
      ensures 0.0 <= p[i]
    {
      QuotientNonNegative(v[i], total);
    }
  }

  /** A vector of zeros sums to zero. */
  lemma {:induction false} SumOfZeros(v: seq<real>)
    requires forall i :: 0 <= i < |v| ==> v[i] == 0.0
    ensures Sum(v) == 0.0
  {
    if v != [] {
      SumOfZeros(v[..|v| - 1]);
    }
  }

  /** Every entry of a non-negative vector is at most its sum. */
  lemma {:induction false} EntryAtMostSum(v: seq<real>, i: nat)
    requires NonNegative(v) && i < |v|
    ensures v[i] <= Sum(v)
  {
    var n := |v| - 1;
    SumNonNegative(v[..n]);
    if i < n {
      EntryAtMostSum(v[..n], i);
    }
  }

  /** A nonzero real divided by itself is 1. */
  lemma SelfQuotient(t: real)
    requires t != 0.0
    ensures t / t == 1.0
  {
  }

  lemma QuotientMonotone(a: real, b: real, t: real)
    requires a <= b && 0.0 < t
    ensures a / t <= b / t
  {
  }
}
