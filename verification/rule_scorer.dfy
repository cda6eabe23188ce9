/** The keyword and rule engine: the crisis detector, keyword counting, the two context rules
    and the rule-based verdict used when no statistical model is available (and as the second
    opinion when one is). */
module RuleScorer {
  import opened Text
  import opened Emotions
  import Normalizer

  /** The "Crisis" entry of EMOTION_KEYWORDS, matched against the lower-cased raw text. */
  const CRISIS_KEYWORDS: seq<string> := [
    "kill myself", "suicide", "end my life", "want to die", "self harm", "harm myself",
    "die today", "no reason to live"
  ]

  /** EMOTION_KEYWORDS, one phrase list per label, in label order. */
  const KEYWORDS: seq<seq<string>> := [
    ["admire", "respect", "inspired", "amazing", "impressive"],
    ["funny", "hilarious", "laugh", "lol", "lmao"],
    ["angry", "furious", "rage", "hate", "outraged"],
    ["annoyed", "irritated", "bothered", "frustrated"],
    ["agree", "approve", "good job", "well done"],
    ["care", "support", "help", "concerned", "protect"],
    ["confused", "unclear", "lost", "dont understand"],
    ["curious", "wonder", "interested", "how", "why"],
    ["desire", "i really want", "i strongly want", "need badly", "craving"],
    ["disappointed", "let down", "upset with", "expected more", "forgotten", "no one wished", "no one remembered"],
    ["disapprove", "wrong", "bad idea", "not okay"],
    ["disgusting", "gross", "nasty", "revolting"],
    ["embarrassed", "awkward", "ashamed", "cringe"],
    ["excited", "thrilled", "pumped", "cant wait"],
    ["scared", "afraid", "fear", "terrified", "panic"],
    ["thank", "grateful", "appreciate", "thanks"],
    ["grief", "mourning", "loss", "heartbroken", "goodbye", "worst day of my life"],
    ["happy", "joy", "glad", "delighted", "awesome", ":)", ":d"],
    ["love", "adore", "cherish", "affection"],
    ["nervous", "anxious", "anxiety", "worried", "tense", "overthinking", "fear of abandonment"],
    ["hopeful", "optimistic", "positive", "it will work"],
    ["proud", "accomplished", "achievement", "earned it"],
    ["realized", "figured out", "now i see", "it hit me"],
    ["relieved", "finally", "thank god", "what a relief"],
    ["sorry", "regret", "my fault", "guilty"],
    ["sad", "down", "unhappy", "depressed", "hurt", "alone", "forgotten", "pain", "silence", "distance", ":("],
    ["surprised", "shocked", "wow", "unexpected"],
    ["normal", "okay", "fine", "neutral", "alright"],
    CRISIS_KEYWORDS
  ]

  /** The crisis phrases in the form they take after normalisation, matched against the
      lower-cased normalised text. */
  const NORMALIZED_CRISIS: seq<string> := [
    "want kill", "kill", "suicide", "end life", "self harm", "harm", "want die", "die", "no reason live"
  ]

  const CONTRAST_CUES: seq<string> := ["but", "however", "cant stand", "cannot stand", "leave me", "stay away"]

  /** The labels a contrast cue raises, in the order the rule visits them. */
  const NEGATIVE_BOOST: seq<Label> := [ANGER, ANNOYANCE, DISAPPROVAL, DISAPPOINTMENT, SADNESS]

  const DISTRESS_MARKERS: seq<string> := ["hurt", "alone", "forgotten", "anxiety", "overthinking", "goodbye", "heartbroken"]

  /** `_contains_crisis_language(raw, clean)`. */
  predicate CrisisLanguage(raw: string, clean: string) {
    AnyContained(Lower(raw), CRISIS_KEYWORDS) || AnyContained(Lower(clean), NORMALIZED_CRISIS)
  }

  /** A score map over the labels. */
  predicate IsScoreMap(s: seq<int>) {
    |s| == LABEL_COUNT
  }

  predicate NonNegativeScores(s: seq<int>) {
    forall i :: 0 <= i < |s| ==> s[i] >= 0
  }

  /** How many of each label's phrases occur in the normalised text. */
  function KeywordScores(clean: string): (s: seq<int>)
    ensures IsScoreMap(s) && NonNegativeScores(s)
    ensures forall e :: 0 <= e < LABEL_COUNT ==> (s[e] == 0 <==> !AnyContained(clean, KEYWORDS[e]))
  {
    seq(LABEL_COUNT, e requires 0 <= e < LABEL_COUNT => CountContained(KEYWORDS[e], clean))
  }

  /** The map of every label to 0 but Crisis to 1, returned by the crisis early exit. */
  function CrisisScores(): (s: seq<int>)
    ensures IsScoreMap(s) && NonNegativeScores(s)
    ensures s[CRISIS] == 1 && forall i :: 0 <= i < LABEL_COUNT && i != CRISIS ==> s[i] == 0
  {
    seq(LABEL_COUNT, i requires 0 <= i < LABEL_COUNT => if i == CRISIS then 1 else 0)
  }

  /** The loop `for label in labels: scores[label] += d`. */
  function Boost(s: seq<int>, labels: seq<Label>, d: int): (r: seq<int>)
    requires IsScoreMap(s)
    ensures IsScoreMap(r)
    decreases |labels|
  {
    if labels == [] then s
    else Boost(s[labels[0] := s[labels[0]] + d], labels[1..], d)
  }

  /** `if scores[l] > 0: scores[l] = max(0, scores[l] - d)`. */
  function Decay(s: seq<int>, l: Label, d: nat): (r: seq<int>)
    requires IsScoreMap(s)
    ensures IsScoreMap(r)
  {
    if s[l] > 0 then s[l := if s[l] - d > 0 then s[l] - d else 0] else s
  }

  /** The text the context rules look at: raw and normalised text, lower-cased, joined by a space. */
  function Joined(raw: string, clean: string): string {
    Lower(raw) + " " + Lower(clean)
  }

  predicate HasContrast(raw: string, clean: string) {
    AnyContained(Joined(raw, clean), CONTRAST_CUES)
  }

  predicate HasDistress(raw: string, clean: string) {
    AnyContained(Joined(raw, clean), DISTRESS_MARKERS)
  }

  /** The contrast rule: raise the negative labels by 2, then lower Love and Joy by 1. */
  function ContrastRule(s: seq<int>): (r: seq<int>)
    requires IsScoreMap(s)
    ensures IsScoreMap(r)
  {
    Decay(Decay(Boost(s, NEGATIVE_BOOST, 2), LOVE, 1), JOY, 1)
  }

  /** The distress rule: Sadness +2, Nervousness +1, then lower Desire by 2. */
  function DistressRule(s: seq<int>): (r: seq<int>)
    requires IsScoreMap(s)
    ensures IsScoreMap(r)
  {
    var raised := s[SADNESS := s[SADNESS] + 2];
    Decay(raised[NERVOUSNESS := raised[NERVOUSNESS] + 1], DESIRE, 2)
  }

  /** `_apply_context_rules(raw, clean, scores)`: the contrast rule, then the distress rule. */
  function ContextAdjusted(raw: string, clean: string, s: seq<int>): (r: seq<int>)
    requires IsScoreMap(s)
    ensures IsScoreMap(r)
  {
    var afterContrast := if HasContrast(raw, clean) then ContrastRule(s) else s;
    if HasDistress(raw, clean) then DistressRule(afterContrast) else afterContrast
  }

  /** The score map `_fallback_scores` returns, which is also the one `_predict_fallback`
      builds before choosing its label. */
  function RuleScores(raw: string, clean: string): (s: seq<int>)
    ensures IsScoreMap(s)
  {
    if CrisisLanguage(raw, clean) then CrisisScores()
    else ContextAdjusted(raw, clean, KeywordScores(clean))
  }

  /** The rule engine's answer: a label and a probability vector over all labels. */
  datatype RuleVerdict = RuleVerdict(emotion: Label, probs: seq<real>)

  /** How `_predict_fallback` turns a score map into its answer: the first label holding the
      highest score, or Neutral when that score is 0; the scores divided by their total, or
      the one-hot Neutral vector when the total is 0. */
  function ScoreVerdict(s: seq<int>): (v: RuleVerdict)
    requires IsScoreMap(s)
    ensures |v.probs| == LABEL_COUNT
  {
    var values := AsReals(s);
    var best := ArgMax(values);
    var total := Sum(values);
    RuleVerdict(if s[best] == 0 then NEUTRAL else best,
                if total > 0.0 then Normalize(values, total) else OneHot(NEUTRAL))
  }

  /** `_predict_fallback(raw, clean)`. */
  function FallbackVerdict(raw: string, clean: string): (v: RuleVerdict)
    ensures |v.probs| == LABEL_COUNT
  {
    if CrisisLanguage(raw, clean) then RuleVerdict(CRISIS, OneHot(CRISIS))
    else ScoreVerdict(RuleScores(raw, clean))
  }

  /** The nested keyword loops shared by `_predict_fallback` and `_fallback_scores`. */
  method CountKeywords(clean: string) returns (scores: seq<int>)
    ensures scores == KeywordScores(clean)
  {
    scores := seq(LABEL_COUNT, _ => 0);
    for e := 0 to LABEL_COUNT
      invariant |scores| == LABEL_COUNT
      invariant forall j :: 0 <= j < e ==> scores[j] == CountContained(KEYWORDS[j], clean)
      invariant forall j :: e <= j < LABEL_COUNT ==> scores[j] == 0
    {
      var keys := KEYWORDS[e];
      ghost var before := scores;
      for k := 0 to |keys|
        invariant |scores| == LABEL_COUNT
        invariant scores[e] == CountContained(keys[..k], clean)
        invariant forall j :: 0 <= j < LABEL_COUNT && j != e ==> scores[j] == before[j]
      {
        assert keys[..k + 1][..k] == keys[..k];
        if Contains(clean, keys[k]) {
          scores := scores[e := scores[e] + 1];
        }
      }
      assert keys[..|keys|] == keys;
    }
  }

  /** `_apply_context_rules(raw, clean, scores)`; the score map is the caller's own and is
      returned updated. */
  method ApplyContextRules(raw: string, clean: string, scores: seq<int>) returns (r: seq<int>)
    requires IsScoreMap(scores)
    ensures r == ContextAdjusted(raw, clean, scores)
  {
    r := scores;
    var joined := Lower(raw) + " " + Lower(clean);
    if AnyContained(joined, CONTRAST_CUES) {
      for k := 0 to |NEGATIVE_BOOST|
        invariant IsScoreMap(r)
        invariant Boost(r, NEGATIVE_BOOST[k..], 2) == Boost(scores, NEGATIVE_BOOST, 2)
      {
        assert NEGATIVE_BOOST[k..][1..] == NEGATIVE_BOOST[k + 1..];
        r := r[NEGATIVE_BOOST[k] := r[NEGATIVE_BOOST[k]] + 2];
      }
      if r[LOVE] > 0 {
        r := r[LOVE := if r[LOVE] - 1 > 0 then r[LOVE] - 1 else 0];
      }
      if r[JOY] > 0 {
        r := r[JOY := if r[JOY] - 1 > 0 then r[JOY] - 1 else 0];
      }
    }
    if AnyContained(joined, DISTRESS_MARKERS) {
      r := r[SADNESS := r[SADNESS] + 2];
      r := r[NERVOUSNESS := r[NERVOUSNESS] + 1];
      if r[DESIRE] > 0 {
        r := r[DESIRE := if r[DESIRE] - 2 > 0 then r[DESIRE] - 2 else 0];
      }
    }
  }

  /** `_fallback_scores(raw, clean)`. */
  method FallbackScores(raw: string, clean: string) returns (scores: seq<int>)
    ensures scores == RuleScores(raw, clean)
  {
    if CrisisLanguage(raw, clean) {
      return CrisisScores();
    }
    scores := CountKeywords(clean);
    scores := ApplyContextRules(raw, clean, scores);
  }

  /** `_predict_fallback(raw, clean)`. */
  method PredictFallback(raw: string, clean: string) returns (v: RuleVerdict)
    ensures v == FallbackVerdict(raw, clean)
  {
    if CrisisLanguage(raw, clean) {
      return RuleVerdict(CRISIS, OneHot(CRISIS));
    }
    var scores := CountKeywords(clean);
    scores := ApplyContextRules(raw, clean, scores);
    var values := AsReals(scores);
    var best := ArgMax(values);
    var pred: Label := if scores[best] == 0 then NEUTRAL else best;
    var total := Sum(values);
    var probs := if total > 0.0 then Normalize(values, total) else OneHot(NEUTRAL);
    v := RuleVerdict(pred, probs);
  }

  /** The labels the context rules may change. */
  predicate RuleTouched(i: int) {
    i == ANGER || i == ANNOYANCE || i == DISAPPROVAL || i == DISAPPOINTMENT || i == SADNESS
    || i == LOVE || i == JOY || i == NERVOUSNESS || i == DESIRE
  }

  /** Raising a list of distinct labels raises exactly those labels. */
  lemma {:induction false} BoostEffect(s: seq<int>, labels: seq<Label>, d: int, i: Label)
    requires IsScoreMap(s)
    requires forall a, b :: 0 <= a < b < |labels| ==> labels[a] != labels[b]
    ensures Boost(s, labels, d)[i] == s[i] + if i in labels then d else 0
    decreases |labels|
  {
    if labels != [] {
      var s' := s[labels[0] := s[labels[0]] + d];
      BoostEffect(s', labels[1..], d, i);
      assert i in labels <==> i == labels[0] || i in labels[1..];
    }
  }

  /** The context rules, label by label: a contrast cue adds 2 to each label of NEGATIVE_BOOST
      and lowers a positive Love or Joy by 1; a distress marker adds 2 to Sadness and 1 to
      Nervousness and lowers a positive Desire by 2, never below 0; nothing else changes. */
  lemma ContextRulesEffect(raw: string, clean: string, s: seq<int>)
    requires IsScoreMap(s)
    ensures var r := ContextAdjusted(raw, clean, s);
            var c := if HasContrast(raw, clean) then 2 else 0;
            var d := HasDistress(raw, clean);
            && r[ANGER] == s[ANGER] + c
            && r[ANNOYANCE] == s[ANNOYANCE] + c
            && r[DISAPPROVAL] == s[DISAPPROVAL] + c
            && r[DISAPPOINTMENT] == s[DISAPPOINTMENT] + c
            && r[SADNESS] == s[SADNESS] + c + (if d then 2 else 0)
            && r[LOVE] == (if c > 0 && s[LOVE] > 0 then s[LOVE] - 1 else s[LOVE])
            && r[JOY] == (if c > 0 && s[JOY] > 0 then s[JOY] - 1 else s[JOY])
            && r[NERVOUSNESS] == s[NERVOUSNESS] + (if d then 1 else 0)
            && r[DESIRE] == (if d && s[DESIRE] > 0 then (if s[DESIRE] > 2 then s[DESIRE] - 2 else 0) else s[DESIRE])
            && forall i :: 0 <= i < LABEL_COUNT && !RuleTouched(i) ==> r[i] == s[i]
  {
    var boosted := Boost(s, NEGATIVE_BOOST, 2);
    forall i: Label
      ensures boosted[i] == s[i] + if RuleTouched(i) && i != LOVE && i != JOY && i != NERVOUSNESS && i != DESIRE then 2 else 0
    {
      BoostEffect(s, NEGATIVE_BOOST, 2, i);
    }
  }

  /** The context rules never make a score negative. */
  lemma ContextKeepsNonNegative(raw: string, clean: string, s: seq<int>)
    requires IsScoreMap(s) && NonNegativeScores(s)
    ensures NonNegativeScores(ContextAdjusted(raw, clean, s))
  {
    ContextRulesEffect(raw, clean, s);
    var r := ContextAdjusted(raw, clean, s);
    forall i | 0 <= i < LABEL_COUNT
      ensures r[i] >= 0
    {
    }
  }

  /** The rule engine's scores are never negative. */
  lemma RuleScoresNonNegative(raw: string, clean: string)
    ensures NonNegativeScores(RuleScores(raw, clean))
  {
    if !CrisisLanguage(raw, clean) {
      ContextKeepsNonNegative(raw, clean, KeywordScores(clean));
    }
  }

  /** When no label scores, the answer is Neutral with all mass on Neutral. */
  lemma SilentScoresGiveNeutral(s: seq<int>)
    requires IsScoreMap(s)
    requires forall i :: 0 <= i < LABEL_COUNT ==> s[i] == 0
    ensures ScoreVerdict(s) == RuleVerdict(NEUTRAL, OneHot(NEUTRAL))
  {
    SumOfZeros(AsReals(s));
  }

  /** When some label scores, the answer is the first label in label order holding the
      highest score, and that score is positive. */
  lemma ScoreVerdictPicksFirstMax(s: seq<int>, i: Label)
    requires IsScoreMap(s) && NonNegativeScores(s) && s[i] != 0
    ensures var l := ScoreVerdict(s).emotion;
            && s[l] > 0
            && (forall j :: 0 <= j < LABEL_COUNT ==> s[j] <= s[l])
            && (forall j :: 0 <= j < l ==> s[j] < s[l])
  {
  }

  /** Non-negative scores give a probability distribution over the labels. */
  lemma ScoreVerdictIsDistribution(s: seq<int>)
    requires IsScoreMap(s) && NonNegativeScores(s)
    ensures IsDistribution(ScoreVerdict(s).probs)
  {
    var values := AsReals(s);
    if Sum(values) > 0.0 {
      NormalizeIsDistribution(values);
    } else {
      OneHotIsDistribution(NEUTRAL);
    }
  }

  /** An answer other than Neutral always has a positive score behind it. */
  lemma ScoreVerdictSignalPositive(s: seq<int>)
    requires IsScoreMap(s) && NonNegativeScores(s)
    requires ScoreVerdict(s).emotion != NEUTRAL
    ensures s[ScoreVerdict(s).emotion] > 0
  {
  }

  /** The chosen label carries the largest probability of the vector. */
  lemma ScoreVerdictLabelIsMostProbable(s: seq<int>)
    requires IsScoreMap(s) && NonNegativeScores(s)
    ensures var v := ScoreVerdict(s);
            forall j :: 0 <= j < LABEL_COUNT ==> v.probs[j] <= v.probs[v.emotion]
  {
    var values := AsReals(s);
    var best := ArgMax(values);
    if s[best] == 0 {
      SumOfZeros(values);
    } else {
      var total := Sum(values);
      EntryAtMostSum(values, best);
      forall j | 0 <= j < LABEL_COUNT
        ensures values[j] / total <= values[best] / total
      {
        QuotientMonotone(values[j], values[best], total);
      }
    }
  }

  /** Every scoring label keeps a positive share of the vector; so a winning label is one-hot
      only when it is the sole label that scores. */
  lemma ScoringLabelsShareProbability(s: seq<int>, j: Label)
    requires IsScoreMap(s) && NonNegativeScores(s) && s[j] > 0
    ensures ScoreVerdict(s).probs[j] > 0.0
  {
    var values := AsReals(s);
    EntryAtMostSum(values, j);
  }

  /** Without the crisis detector, when no label scores, `_predict_fallback` answers Neutral
      with the one-hot Neutral vector. */
  lemma SilentRulesGiveNeutral(raw: string, clean: string)
    requires !CrisisLanguage(raw, clean)
    requires forall i :: 0 <= i < LABEL_COUNT ==> RuleScores(raw, clean)[i] == 0
    ensures FallbackVerdict(raw, clean) == RuleVerdict(NEUTRAL, OneHot(NEUTRAL))
  {
    SilentScoresGiveNeutral(RuleScores(raw, clean));
  }

  /** The vector `_predict_fallback` returns is always a probability distribution. */
  lemma FallbackIsDistribution(raw: string, clean: string)
    ensures IsDistribution(FallbackVerdict(raw, clean).probs)
  {
    if CrisisLanguage(raw, clean) {
      OneHotIsDistribution(CRISIS);
    } else {
      RuleScoresNonNegative(raw, clean);
      ScoreVerdictIsDistribution(RuleScores(raw, clean));
    }
  }

  /** A rule-based answer other than Neutral always has a positive score in the map
      `_fallback_scores` returns: the `fallback_signal` the hybrid policy reads is above 0. */
  lemma FallbackSignalPositive(raw: string, clean: string)
    requires FallbackVerdict(raw, clean).emotion != NEUTRAL
    ensures RuleScores(raw, clean)[FallbackVerdict(raw, clean).emotion] > 0
  {
    if !CrisisLanguage(raw, clean) {
      RuleScoresNonNegative(raw, clean);
      ScoreVerdictSignalPositive(RuleScores(raw, clean));
    }
  }

  /** The emoticon phrases among the keywords never match a normalised text, which holds only
      word characters and spaces. */
  lemma EmoticonKeywordsInert(text: string)
    ensures var clean := Normalizer.Preprocess(text);
            !Contains(clean, ":)") && !Contains(clean, ":d") && !Contains(clean, ":(")
  {
    var clean := Normalizer.Preprocess(text);
    Normalizer.PreprocessIsNormalized(text);
    assert forall i :: 0 <= i < |clean| ==> clean[i] != ':' by {
      assert forall i :: 0 <= i < |clean| ==> Normalizer.CleanChar(clean[i]);
    }
    NotContainedWhenCharMissing(clean, ":)", 0);
    NotContainedWhenCharMissing(clean, ":d", 0);
    NotContainedWhenCharMissing(clean, ":(", 0);
  }
}
