/** The hybrid decision policy `_predict_single`: a statistical classifier's answer reconciled
    with the rule engine's, followed by the unconditional crisis override. */
module Hybrid {
  import opened Emotions
  import opened RuleScorer
  import Normalizer

  /** LEGACY_TO_EXPANDED: the labels of the older five-class model, by their current names. */
  const LEGACY_ALIASES: map<string, string> :=
    map["Happy" := "Joy", "Sad" := "Sadness", "Angry" := "Anger", "Fear" := "Fear", "Neutral" := "Neutral"]

  /** `LEGACY_TO_EXPANDED.get(label, label)`. */
  function LegacyToExpanded(l: string): (r: string)
  {
    if l in LEGACY_ALIASES then LEGACY_ALIASES[l] else l
  }

  /** Every legacy label names a current label, and a current label is left as it is. */
  lemma LegacyLabelsExpand(l: string)
    ensures l in LEGACY_ALIASES ==> LegacyToExpanded(l) in LABELS
    ensures l in LABELS ==> LegacyToExpanded(l) == l
  {
    if l in LEGACY_ALIASES {
      assert l == "Happy" || l == "Sad" || l == "Angry" || l == "Fear" || l == "Neutral";
      assert LABELS[17] == "Joy" && LABELS[25] == "Sadness" && LABELS[2] == "Anger";
      assert LABELS[14] == "Fear" && LABELS[27] == "Neutral";
      RetiredNames();
    }
  }

  /** The three renamed legacy labels are not current labels. */
  lemma RetiredNames()
    ensures "Happy" !in LABELS && "Sad" !in LABELS && "Angry" !in LABELS
  {
    forall k | 0 <= k < |LABELS|
      ensures LABELS[k] != "Happy" && LABELS[k] != "Sad" && LABELS[k] != "Angry"
    {
    }
  }

  /** The trained model behind the vectoriser, as two functions of the normalised text: its
      label, and its probability vector in its own class order (`[]` when it offers none or
      `predict_proba` raises). */
  datatype Classifier = Classifier(predict: string -> string, predictProba: string -> seq<real>)

  /** The policy's answer: a label name and a probability vector. */
  datatype Verdict = Verdict(emotion: string, probs: seq<real>)

  /** The confidence below which the rule engine's answer is preferred. */
  const CONFIDENCE_THRESHOLD: real := 0.6

  /** `max(probs)` when the model returned a vector, 0.0 otherwise. */
  function ModelConfidence(probs: seq<real>): (conf: real)
    ensures probs == [] ==> conf == 0.0
    ensures probs != [] ==> conf in probs && forall j :: 0 <= j < |probs| ==> probs[j] <= conf
  {
    if probs == [] then 0.0 else MaxOf(probs)
  }

  /** The five-branch reconciliation, first match wins: (a) the rules say Crisis; (b) the model
      says Neutral and the rules do not; (c) the rules name a label with a positive signal and
      the model is unsure; (d) the rules say Neutral and the model is unsure; (e) the model's
      answer stands. */
  function Reconcile(rule: RuleVerdict, signal: int, modelLabel: string, modelProbs: seq<real>, conf: real): (v: Verdict)
  {
    if rule.emotion == CRISIS then Verdict(Name(CRISIS), rule.probs)
    else if modelLabel == "Neutral" && rule.emotion != NEUTRAL then Verdict(Name(rule.emotion), rule.probs)
    else if rule.emotion != NEUTRAL && signal > 0 && conf < CONFIDENCE_THRESHOLD then Verdict(Name(rule.emotion), rule.probs)
    else if rule.emotion == NEUTRAL && conf < CONFIDENCE_THRESHOLD then Verdict(Name(NEUTRAL), OneHot(NEUTRAL))
    else Verdict(modelLabel, modelProbs)
  }

  /** The model's label for a normalised text, mapped to the current names. */
  function ModelLabel(clf: Classifier, clean: string): string {
    LegacyToExpanded(clf.predict(clean))
  }

  /** `_predict_single(text)`, with `loaded` telling whether a trained model is available. */
  function SingleVerdict(text: string, loaded: bool, clf: Classifier): (v: Verdict)
  {
    var clean := Normalizer.Preprocess(text);
    var rule := FallbackVerdict(text, clean);
    if !loaded then Verdict(Name(rule.emotion), rule.probs)
    else if CrisisLanguage(text, clean) then Verdict(Name(CRISIS), OneHot(CRISIS))
    else
      var probs := clf.predictProba(clean);
      Reconcile(rule, RuleScores(text, clean)[rule.emotion], ModelLabel(clf, clean), probs, ModelConfidence(probs))
  }

  /** `_predict_single(text)`: the model's answer and the rule engine's are computed, the
      branch chain reassigns the answer, and the crisis override runs last. */
  method PredictSingle(text: string, loaded: bool, clf: Classifier) returns (v: Verdict)
    ensures v == SingleVerdict(text, loaded, clf)
  {
    var clean := Normalizer.Preprocess(text);
    if loaded {
      var pred := LegacyToExpanded(clf.predict(clean));
      var probs := clf.predictProba(clean);
      var conf := 0.0;
      if probs != [] {
        conf := MaxOf(probs);
      }
      var rule := PredictFallback(text, clean);
      var scores := FallbackScores(text, clean);
      var signal := scores[rule.emotion];
      if rule.emotion == CRISIS {
        pred, probs := Name(CRISIS), rule.probs;
      } else if pred == "Neutral" && rule.emotion != NEUTRAL {
        pred, probs := Name(rule.emotion), rule.probs;
      } else if rule.emotion != NEUTRAL && signal > 0 && conf < CONFIDENCE_THRESHOLD {
        pred, probs := Name(rule.emotion), rule.probs;
      } else if rule.emotion == NEUTRAL && conf < CONFIDENCE_THRESHOLD {
        pred, probs := Name(NEUTRAL), OneHot(NEUTRAL);
      }
      if CrisisLanguage(text, clean) {
        pred, probs := Name(CRISIS), OneHot(CRISIS);
      }
      v := Verdict(pred, probs);
    } else {
      var rule := PredictFallback(text, clean);
      v := Verdict(Name(rule.emotion), rule.probs);
    }
  }

  /** Crisis language in the text gives Crisis with the one-hot Crisis vector, whether or not a
      model is loaded and whatever it says. */
  lemma CrisisAlwaysWins(text: string, loaded: bool, clf: Classifier)
    requires CrisisLanguage(text, Normalizer.Preprocess(text))
    ensures SingleVerdict(text, loaded, clf) == Verdict("Crisis", OneHot(CRISIS))
  {
    NamedPositions();
  }

  /** Without a model the answer is a label of the enumeration with a probability
      distribution. */
  lemma RuleModeAnswer(text: string, clf: Classifier)
    ensures var v := SingleVerdict(text, false, clf);
            v.emotion in LABELS && IsDistribution(v.probs)
  {
    FallbackIsDistribution(text, Normalizer.Preprocess(text));
  }

  /** With a model, when the rules name a label and the model says Neutral, the rules' answer
      is taken (branches (a) and (b)), unless the crisis override fires. */
  lemma NeutralModelDefersToRules(text: string, clf: Classifier)
    requires var clean := Normalizer.Preprocess(text);
             && !CrisisLanguage(text, clean)
             && ModelLabel(clf, clean) == "Neutral"
             && FallbackVerdict(text, clean).emotion != NEUTRAL
    ensures var rule := FallbackVerdict(text, Normalizer.Preprocess(text));
            SingleVerdict(text, true, clf) == Verdict(Name(rule.emotion), rule.probs)
  {
  }

  /** With a model whose confidence is below 0.60, the answer is always the rules' label with a
      probability distribution (branches (a) to (d)); the model's own answer is never kept.
      Unless the crisis override fires, a rule label other than Neutral comes with the rules'
      own vector (branches (a) to (c)), and a Neutral rule label with the one-hot Neutral
      vector (branch (d)). */
  lemma UnsureModelDefersToRules(text: string, clf: Classifier)
    requires var clean := Normalizer.Preprocess(text);
             ModelConfidence(clf.predictProba(clean)) < CONFIDENCE_THRESHOLD
    ensures var clean := Normalizer.Preprocess(text);
            var v := SingleVerdict(text, true, clf);
            && IsDistribution(v.probs)
            && v.emotion == Name(FallbackVerdict(text, clean).emotion)
    ensures var clean := Normalizer.Preprocess(text);
            var rule := FallbackVerdict(text, clean);
            var v := SingleVerdict(text, true, clf);
            && (!CrisisLanguage(text, clean) && rule.emotion != NEUTRAL ==> v == Verdict(Name(rule.emotion), rule.probs))
            && (!CrisisLanguage(text, clean) && rule.emotion == NEUTRAL ==> v == Verdict("Neutral", OneHot(NEUTRAL)))
  {
    NamedPositions();
    var clean := Normalizer.Preprocess(text);
    var rule := FallbackVerdict(text, clean);
    FallbackIsDistribution(text, clean);
    OneHotIsDistribution(NEUTRAL);
    OneHotIsDistribution(CRISIS);
    if rule.emotion != NEUTRAL {
      FallbackSignalPositive(text, clean);
    }
  }

  /** With a model that is confident (0.60 or more), the model's answer stands unless the rules
      say Crisis, or the model says Neutral while the rules name another label, or the crisis
      override fires. */
  lemma ConfidentModelKept(text: string, clf: Classifier)
    requires var clean := Normalizer.Preprocess(text);
             var rule := FallbackVerdict(text, clean);
             && !CrisisLanguage(text, clean)
             && rule.emotion != CRISIS
             && !(ModelLabel(clf, clean) == "Neutral" && rule.emotion != NEUTRAL)
             && ModelConfidence(clf.predictProba(clean)) >= CONFIDENCE_THRESHOLD
    ensures var clean := Normalizer.Preprocess(text);
            SingleVerdict(text, true, clf) == Verdict(ModelLabel(clf, clean), clf.predictProba(clean))
  {
  }

  /** When the rules answer Crisis, the answer is Crisis whatever the model says (branch (a)).
      Unless the crisis override fires, which happens when Crisis won by keyword count
      alone, it carries the rules' own vector, not the one-hot Crisis vector. */
  lemma RuleCrisisOverridesModel(text: string, clf: Classifier)
    requires FallbackVerdict(text, Normalizer.Preprocess(text)).emotion == CRISIS
    ensures var v := SingleVerdict(text, true, clf);
            v.emotion == "Crisis" && IsDistribution(v.probs)
    ensures var clean := Normalizer.Preprocess(text);
            !CrisisLanguage(text, clean) ==>
              SingleVerdict(text, true, clf) == Verdict("Crisis", FallbackVerdict(text, clean).probs)
  {
    NamedPositions();
    FallbackIsDistribution(text, Normalizer.Preprocess(text));
    OneHotIsDistribution(CRISIS);
  }

  /** The model may name labels outside the enumeration only together with a full-length
      vector; this is what aggregating chunk answers needs. */
  ghost predicate ModelLabelsKnown(clf: Classifier) {
    forall s :: |clf.predictProba(s)| == LABEL_COUNT || LegacyToExpanded(clf.predict(s)) in LABELS
  }

  /** Every answer is either the model's own, unchanged, or a label of the enumeration with a
      probability distribution. */
  lemma AnswerIsModelsOrDistribution(text: string, loaded: bool, clf: Classifier)
    ensures var clean := Normalizer.Preprocess(text);
            var v := SingleVerdict(text, loaded, clf);
            || (loaded && v == Verdict(ModelLabel(clf, clean), clf.predictProba(clean)))
            || (v.emotion in LABELS && IsDistribution(v.probs))
  {
    var clean := Normalizer.Preprocess(text);
    var rule := FallbackVerdict(text, clean);
    FallbackIsDistribution(text, clean);
    NamedPositions();
    OneHotIsDistribution(CRISIS);
    if loaded && !CrisisLanguage(text, clean) {
      var probs := clf.predictProba(clean);
      ReconcileKeepsOrDistributes(rule, RuleScores(text, clean)[rule.emotion], ModelLabel(clf, clean), probs, ModelConfidence(probs));
    }
  }

  /** Each branch of the reconciliation keeps the model's answer or gives a label of the
      enumeration with a probability distribution. */
  lemma ReconcileKeepsOrDistributes(rule: RuleVerdict, signal: int, modelLabel: string, modelProbs: seq<real>, conf: real)
    requires IsDistribution(rule.probs)
    ensures var v := Reconcile(rule, signal, modelLabel, modelProbs, conf);
            v == Verdict(modelLabel, modelProbs) || (v.emotion in LABELS && IsDistribution(v.probs))
  {
    OneHotIsDistribution(NEUTRAL);
  }

  /** Under ModelLabelsKnown every answer either has a full-length vector or a label of the
      enumeration. */
  lemma AnswerCanBeAggregated(text: string, loaded: bool, clf: Classifier)
    requires loaded ==> ModelLabelsKnown(clf)
    ensures var v := SingleVerdict(text, loaded, clf);
            |v.probs| == LABEL_COUNT || v.emotion in LABELS
  {
    AnswerIsModelsOrDistribution(text, loaded, clf);
    var clean := Normalizer.Preprocess(text);
    if loaded {
      assert |clf.predictProba(clean)| == LABEL_COUNT || LegacyToExpanded(clf.predict(clean)) in LABELS;
    }
  }
}
