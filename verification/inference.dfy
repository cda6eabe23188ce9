/** The entry point `predict_emotion`: short texts go to the hybrid policy directly; long texts
    are split into chunks whose answers are combined by a length-weighted vote. */
module Inference {
  import opened Text
  import opened Emotions
  import opened Hybrid
  import Chunking

  /** Texts longer than this many characters are chunked. */
  const LONG_TEXT_CHARS: nat := 900
  /** The target chunk length. */
  const CHUNK_CHARS: nat := 450
  /** At most this many chunks are classified. */
  const MAX_CHUNKS: nat := 120

  /** One chunk's answer and its weight. */
  datatype ChunkPrediction = ChunkPrediction(emotion: string, probs: seq<real>, weight: nat)

  /** A chunk answer the aggregation can credit: a full-length vector, or else a label of the
      enumeration (any other would be a missing dictionary key). */
  predicate Creditable(p: ChunkPrediction) {
    |p.probs| == LABEL_COUNT || p.emotion in LABELS
  }

  predicate AllCreditable(preds: seq<ChunkPrediction>) {
    forall k :: 0 <= k < |preds| ==> Creditable(preds[k])
  }

  /** What one chunk adds to the score of label `i`: its vector scaled by its weight, or, when
      its vector is not full-length, its weight on its own label. */
  function Contribution(p: ChunkPrediction, i: Label): real
    requires Creditable(p)
  {
    if |p.probs| == LABEL_COUNT then p.probs[i] * p.weight as real
    else if i == IndexOf(p.emotion) then p.weight as real
    else 0.0
  }

  /** `score_by_label` after crediting every chunk answer, in label order. */
  function Scores(preds: seq<ChunkPrediction>): (s: seq<real>)
    requires AllCreditable(preds)
    ensures |s| == LABEL_COUNT
  {
    if preds == [] then seq(LABEL_COUNT, _ => 0.0)
    else
      var n := |preds| - 1;
      var prev := Scores(preds[..n]);
      seq(LABEL_COUNT, i requires 0 <= i < LABEL_COUNT => prev[i] + Contribution(preds[n], i))
  }

  /** `_aggregate_chunk_predictions(predictions)`. */
  function Aggregated(preds: seq<ChunkPrediction>): (v: Verdict)
    requires AllCreditable(preds)
  {
    if preds == [] then Verdict(Name(NEUTRAL), OneHot(NEUTRAL))
    else
      var s := Scores(preds);
      var total := Sum(s);
      Verdict(Name(ArgMax(s)), if total > 0.0 then Normalize(s, total) else OneHot(NEUTRAL))
  }

  /** Each chunk answer adds its contribution to every label's score. */
  lemma ScoresStep(preds: seq<ChunkPrediction>)
    requires AllCreditable(preds) && preds != []
    ensures forall i :: 0 <= i < LABEL_COUNT ==>
      Scores(preds)[i] == Scores(preds[..|preds| - 1])[i] + Contribution(preds[|preds| - 1], i)
  {
  }

  /** One chunk answer credited to the running scores, label by label. */
  method Credit(score: seq<real>, p: ChunkPrediction) returns (r: seq<real>)
    requires |score| == LABEL_COUNT && Creditable(p)
    ensures |r| == LABEL_COUNT
    ensures forall i :: 0 <= i < LABEL_COUNT ==> r[i] == score[i] + Contribution(p, i)
  {
    r := score;
    if |p.probs| == LABEL_COUNT {
      for i := 0 to LABEL_COUNT
        invariant |r| == LABEL_COUNT
        invariant forall j :: 0 <= j < i ==> r[j] == score[j] + Contribution(p, j)
        invariant forall j :: i <= j < LABEL_COUNT ==> r[j] == score[j]
      {
        r := r[i := r[i] + p.probs[i] * p.weight as real];
      }
    } else {
      var l := IndexOf(p.emotion);
      r := r[l := r[l] + 1.0 * p.weight as real];
    }
  }

  /** The score accumulation of `_aggregate_chunk_predictions`, chunk by chunk. */
  method AccumulateScores(preds: seq<ChunkPrediction>) returns (score: seq<real>)
    requires AllCreditable(preds)
    ensures score == Scores(preds)
  {
    score := seq(LABEL_COUNT, _ => 0.0);
    for k := 0 to |preds|
      invariant score == Scores(preds[..k])
    {
      var next := Credit(score, preds[k]);
      assert preds[..k + 1][..k] == preds[..k];
      ScoresStep(preds[..k + 1]);
      score := next;
    }
    assert preds[..|preds|] == preds;
  }

  /** `_aggregate_chunk_predictions(predictions)`. */
  method AggregateChunkPredictions(preds: seq<ChunkPrediction>) returns (v: Verdict)
    requires AllCreditable(preds)
    ensures v == Aggregated(preds)
  {
    if preds == [] {
      return Verdict(Name(NEUTRAL), OneHot(NEUTRAL));
    }
    var score := AccumulateScores(preds);
    var best := ArgMax(score);
    var total := Sum(score);
    if total > 0.0 {
      v := Verdict(Name(best), Normalize(score, total));
    } else {
      v := Verdict(Name(best), OneHot(NEUTRAL));
    }
  }

  lemma ProductNonNegative(a: real, b: real)
    requires 0.0 <= a && 0.0 <= b
    ensures 0.0 <= a * b
  {
  }

  /** Chunk vectors without negative entries give scores without negative entries. */
  lemma {:induction false} ScoresNonNegative(preds: seq<ChunkPrediction>)
    requires AllCreditable(preds)
    requires forall k :: 0 <= k < |preds| ==> NonNegative(preds[k].probs)
    ensures NonNegative(Scores(preds))
  {
    if preds != [] {
      var n := |preds| - 1;
      ScoresNonNegative(preds[..n]);
      var p := preds[n];
      forall i: Label
        ensures 0.0 <= Contribution(p, i)
      {
        if |p.probs| == LABEL_COUNT {
          ProductNonNegative(p.probs[i], p.weight as real);
        }
      }
    }
  }

  /** The aggregate vector always has the full length and sums to 1: scores with a positive
      total are divided by it, and otherwise the one-hot Neutral vector is used. */
  lemma AggregateSumsToOne(preds: seq<ChunkPrediction>)
    requires AllCreditable(preds)
    ensures |Aggregated(preds).probs| == LABEL_COUNT && Sum(Aggregated(preds).probs) == 1.0
  {
    OneHotIsDistribution(NEUTRAL);
    if preds != [] {
      var s := Scores(preds);
      var total := Sum(s);
      if total > 0.0 {
        NormalizedSumsToOne(s);
      }
    }
  }

  lemma NormalizedSumsToOne(s: seq<real>)
    requires Sum(s) > 0.0
    ensures Sum(Normalize(s, Sum(s))) == 1.0
  {
    var t := Sum(s);
    SumNormalize(s, t);
    SelfQuotient(t);
  }

  /** Chunk vectors without negative entries give a probability distribution, with a label of
      the enumeration. */
  lemma AggregateIsDistribution(preds: seq<ChunkPrediction>)
    requires AllCreditable(preds)
    requires forall k :: 0 <= k < |preds| ==> NonNegative(preds[k].probs)
    ensures Aggregated(preds).emotion in LABELS && IsDistribution(Aggregated(preds).probs)
  {
    OneHotIsDistribution(NEUTRAL);
    if preds != [] {
      ScoresNonNegative(preds);
      var s := Scores(preds);
      if Sum(s) > 0.0 {
        NormalizeIsDistribution(s);
      }
    }
  }

  /** The score vector that is `w` on label `l` and 0 elsewhere. */
  function Indicator(l: Label, w: real): (s: seq<real>)
    ensures |s| == LABEL_COUNT
    ensures forall i :: 0 <= i < LABEL_COUNT ==> s[i] == if i == l then w else 0.0
  {
    seq(LABEL_COUNT, i requires 0 <= i < LABEL_COUNT => if i == l then w else 0.0)
  }

  /** A chunk answer that puts all its weight on label `l`: the one-hot vector of `l`, or a
      vector that is not full-length with `l` as its label. */
  predicate Backs(p: ChunkPrediction, l: Label) {
    p.probs == OneHot(l) || (|p.probs| != LABEL_COUNT && p.emotion in LABELS && IndexOf(p.emotion) == l)
  }

  function TotalWeight(preds: seq<ChunkPrediction>): nat {
    if preds == [] then 0 else TotalWeight(preds[..|preds| - 1]) + preds[|preds| - 1].weight
  }

  /** When every chunk backs the same label, the scores are the total weight on that label. */
  lemma {:induction false} UnanimousScores(preds: seq<ChunkPrediction>, l: Label)
    requires forall k :: 0 <= k < |preds| ==> Backs(preds[k], l)
    ensures AllCreditable(preds)
    ensures Scores(preds) == Indicator(l, TotalWeight(preds) as real)
  {
    if preds != [] {
      var n := |preds| - 1;
      UnanimousScores(preds[..n], l);
      var p := preds[n];
      forall i: Label
        ensures Contribution(p, i) == if i == l then p.weight as real else 0.0
      {
      }
    }
  }

  /** A positive weight on one label: that label is the first maximum, the total is the
      weight, and dividing by it gives the one-hot vector. */
  lemma IndicatorVerdict(l: Label, w: real)
    requires w > 0.0
    ensures ArgMax(Indicator(l, w)) == l
    ensures Sum(Indicator(l, w)) == w
    ensures Normalize(Indicator(l, w), w) == OneHot(l)
  {
    var s := Indicator(l, w);
    SumIndicator(LABEL_COUNT, l, w);
    assert s == seq(LABEL_COUNT, i requires 0 <= i < LABEL_COUNT => if i == l then w else 0.0);
    var k := ArgMax(s);
    assert s[k] >= s[l] == w;
    if k != l {
      assert false;
    }
    forall i | 0 <= i < LABEL_COUNT
      ensures Normalize(s, w)[i] == OneHot(l)[i]
    {
      if i == l {
        SelfQuotient(w);
      } else {
        assert 0.0 / w == 0.0;
      }
    }
  }

  /** When every chunk backs the same label and the chunks have positive weight, the aggregate
      answer is that label with its one-hot vector. */
  lemma UnanimousChunksAgree(preds: seq<ChunkPrediction>, l: Label)
    requires preds != []
    requires forall k :: 0 <= k < |preds| ==> Backs(preds[k], l) && preds[k].weight >= 1
    ensures AllCreditable(preds)
    ensures Aggregated(preds) == Verdict(Name(l), OneHot(l))
  {
    UnanimousScores(preds, l);
    PositiveTotalWeight(preds);
    IndicatorVerdict(l, TotalWeight(preds) as real);
  }

  lemma {:induction false} PositiveTotalWeight(preds: seq<ChunkPrediction>)
    requires preds != []
    requires forall k :: 0 <= k < |preds| ==> preds[k].weight >= 1
    ensures TotalWeight(preds) >= 1
  {
  }

  /** A chunk backing one label is outvoted by a heavier chunk backing another. */
  lemma HeavierChunkWins(p: ChunkPrediction, q: ChunkPrediction, a: Label, b: Label)
    requires Backs(p, a) && Backs(q, b) && a != b && p.weight < q.weight
    ensures AllCreditable([p, q]) && Aggregated([p, q]).emotion == Name(b)
  {
    var preds := [p, q];
    UnanimousScores([p], a);
    assert preds[..1] == [p];
    ScoresStep(preds);
    var s := Scores(preds);
    assert forall i :: 0 <= i < LABEL_COUNT ==> Contribution(q, i) == if i == b then q.weight as real else 0.0;
    assert s[b] == q.weight as real;
    var best := ArgMax(s);
    assert s[best] >= s[b];
    if best != b {
      assert false;
    }
  }

  /** A crisis-flagged chunk is outvoted by a longer chunk with another one-hot answer: the
      aggregation does not re-apply the crisis override. */
  lemma CrisisChunkCanBeOutvoted(other: Label, crisisWeight: nat, otherWeight: nat)
    requires other != CRISIS && crisisWeight < otherWeight
    ensures var preds := [ChunkPrediction("Crisis", OneHot(CRISIS), crisisWeight),
                          ChunkPrediction(Name(other), OneHot(other), otherWeight)];
            AllCreditable(preds) && Aggregated(preds).emotion == Name(other)
  {
    HeavierChunkWins(ChunkPrediction("Crisis", OneHot(CRISIS), crisisWeight),
                     ChunkPrediction(Name(other), OneHot(other), otherWeight), CRISIS, other);
  }

  /** The chunks of a long stripped text: its sentence parts packed to CHUNK_CHARS. */
  function TextChunks(t: string): seq<string>
  {
    var parts := Chunking.SentenceParts(t);
    if parts == [] then [t] else Chunking.Chunks(parts, CHUNK_CHARS)
  }

  /** The first MAX_CHUNKS chunks, each classified and weighted by its length (at least 1). */
  function ChunkPredictions(chunks: seq<string>, loaded: bool, clf: Classifier): (preds: seq<ChunkPrediction>)
    ensures |preds| == |chunks|
  {
    if chunks == [] then []
    else ChunkPredictions(chunks[..|chunks| - 1], loaded, clf) + [ChunkAnswer(chunks[|chunks| - 1], loaded, clf)]
  }

  /** One chunk's answer, weighted by the chunk's length (at least 1). */
  function ChunkAnswer(chunk: string, loaded: bool, clf: Classifier): ChunkPrediction {
    Weigh(SingleVerdict(chunk, loaded, clf), chunk)
  }

  function Weigh(v: Verdict, chunk: string): ChunkPrediction {
    ChunkPrediction(v.emotion, v.probs, if |chunk| > 1 then |chunk| else 1)
  }

  /** `predict_emotion(text)`. */
  function EmotionVerdict(text: Option<string>, loaded: bool, clf: Classifier): Verdict
    requires loaded ==> ModelLabelsKnown(clf)
  {
    var t := StripInput(text);
    if t == [] then Verdict(Name(NEUTRAL), OneHot(NEUTRAL))
    else if |t| <= LONG_TEXT_CHARS then SingleVerdict(t, loaded, clf)
    else LongVerdict(t, loaded, clf)
  }

  /** The answer for a long stripped text: the aggregate of its first MAX_CHUNKS chunks. */
  function LongVerdict(t: string, loaded: bool, clf: Classifier): Verdict
    requires loaded ==> ModelLabelsKnown(clf)
  {
    var kept := Chunking.Take(TextChunks(t), MAX_CHUNKS);
    ChunkAnswersCreditable(kept, loaded, clf);
    Aggregated(ChunkPredictions(kept, loaded, clf))
  }

  /** Every chunk answer can be credited. */
  lemma {:induction false} ChunkAnswersCreditable(chunks: seq<string>, loaded: bool, clf: Classifier)
    requires loaded ==> ModelLabelsKnown(clf)
    ensures AllCreditable(ChunkPredictions(chunks, loaded, clf))
  {
    if chunks != [] {
      var n := |chunks| - 1;
      ChunkAnswersCreditable(chunks[..n], loaded, clf);
      AnswerCanBeAggregated(chunks[n], loaded, clf);
    }
  }

  /** `predict_emotion(text)`: at most MAX_CHUNKS chunks are classified, in order, and their
      answers aggregated. */
  method PredictEmotion(text: Option<string>, loaded: bool, clf: Classifier) returns (v: Verdict)
    requires loaded ==> ModelLabelsKnown(clf)
    ensures v == EmotionVerdict(text, loaded, clf)
  {
    var t := if text.None? then "" else Strip(text.value);
    if t == [] {
      return Verdict(Name(NEUTRAL), OneHot(NEUTRAL));
    }
    if |t| <= LONG_TEXT_CHARS {
      v := PredictSingle(t, loaded, clf);
    } else {
      v := PredictLong(t, loaded, clf);
    }
  }

  /** The long-text branch of `predict_emotion`: split, keep the first MAX_CHUNKS chunks,
      classify each, aggregate. */
  method PredictLong(t: string, loaded: bool, clf: Classifier) returns (v: Verdict)
    requires loaded ==> ModelLabelsKnown(clf)
    ensures v == LongVerdict(t, loaded, clf)
  {
    var chunks := Chunking.SplitLongText(t, CHUNK_CHARS);
    if |chunks| > MAX_CHUNKS {
      chunks := chunks[..MAX_CHUNKS];
    }
    assert chunks == Chunking.Take(TextChunks(t), MAX_CHUNKS);
    var preds := PredictChunks(chunks, loaded, clf);
    ChunkAnswersCreditable(chunks, loaded, clf);
    v := AggregateChunkPredictions(preds);
  }

  /** Every chunk classified in order, weighted by its length (at least 1). */
  method PredictChunks(chunks: seq<string>, loaded: bool, clf: Classifier) returns (preds: seq<ChunkPrediction>)
    ensures preds == ChunkPredictions(chunks, loaded, clf)
  {
    preds := [];
    for k := 0 to |chunks|
      invariant preds == ChunkPredictions(chunks[..k], loaded, clf)
    {
      var r := PredictSingle(chunks[k], loaded, clf);
      var answer := Weigh(r, chunks[k]);
      ChunkPredictionsStep(chunks, k, loaded, clf);
      preds := preds + [answer];
    }
    assert chunks[..|chunks|] == chunks;
  }

  /** One more chunk appends its weighted answer. */
  lemma ChunkPredictionsStep(chunks: seq<string>, k: nat, loaded: bool, clf: Classifier)
    requires k < |chunks|
    ensures ChunkPredictions(chunks[..k + 1], loaded, clf) == ChunkPredictions(chunks[..k], loaded, clf) + [ChunkAnswer(chunks[k], loaded, clf)]
  {
    assert chunks[..k + 1][..k] == chunks[..k];
  }

  /** Blank or missing input gives Neutral with the one-hot Neutral vector. */
  lemma BlankInputIsNeutral(text: Option<string>, loaded: bool, clf: Classifier)
    requires loaded ==> ModelLabelsKnown(clf)
    requires text.None? || forall i :: 0 <= i < |text.value| ==> IsSpace(text.value[i])
    ensures EmotionVerdict(text, loaded, clf) == Verdict("Neutral", OneHot(NEUTRAL))
  {
    NamedPositions();
  }

  /** Input of at most LONG_TEXT_CHARS characters once stripped goes to the hybrid policy as it
      is. */
  lemma ShortInputIsSingle(text: string, loaded: bool, clf: Classifier)
    requires loaded ==> ModelLabelsKnown(clf)
    requires 0 < |Strip(text)| <= LONG_TEXT_CHARS
    ensures EmotionVerdict(Some(text), loaded, clf) == SingleVerdict(Strip(text), loaded, clf)
  {
  }

  /** Without a model, every chunk answer carries a probability distribution. */
  lemma {:induction false} RuleModeChunksNonNegative(chunks: seq<string>, clf: Classifier)
    ensures forall k :: 0 <= k < |chunks| ==> NonNegative(ChunkPredictions(chunks, false, clf)[k].probs)
  {
    if chunks != [] {
      var n := |chunks| - 1;
      RuleModeChunksNonNegative(chunks[..n], clf);
      RuleModeAnswer(chunks[n], clf);
    }
  }

  /** Without a model, the aggregate of any chunks is a label of the enumeration with a
      probability distribution. */
  lemma RuleModeAggregate(chunks: seq<string>, clf: Classifier)
    ensures AllCreditable(ChunkPredictions(chunks, false, clf))
    ensures Aggregated(ChunkPredictions(chunks, false, clf)).emotion in LABELS
    ensures IsDistribution(Aggregated(ChunkPredictions(chunks, false, clf)).probs)
  {
    ChunkAnswersCreditable(chunks, false, clf);
    RuleModeChunksNonNegative(chunks, clf);
    AggregateIsDistribution(ChunkPredictions(chunks, false, clf));
  }

  /** Without a model, every answer, short or long, is a label of the enumeration with a
      probability distribution. */
  lemma RuleModeIsDistribution(text: Option<string>, clf: Classifier)
    ensures EmotionVerdict(text, false, clf).emotion in LABELS
    ensures IsDistribution(EmotionVerdict(text, false, clf).probs)
  {
    var t := StripInput(text);
    NamedPositions();
    OneHotIsDistribution(NEUTRAL);
    if t != [] {
      if |t| <= LONG_TEXT_CHARS {
        RuleModeAnswer(t, clf);
      } else {
        RuleModeAggregate(Chunking.Take(TextChunks(t), MAX_CHUNKS), clf);
      }
    }
  }
}
