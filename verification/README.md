# Emotion inference engine — a Dafny model

This project models the core of an emotion-classification service, the part that decides
which of 29 emotion labels a text gets. That core has six pieces:

- **Text normaliser** (`preprocess_text`): lower-cases the text, spells out emoticons, blanks
  punctuation and squeezes whitespace. Only the path without spaCy is modelled.
- **Rule engine** (`_predict_fallback`): keyword scoring, two context rules, an argmax with a
  Neutral default, and a normalised score vector. It is short-circuited by the **crisis
  detector**.
- **Hybrid policy** (`_predict_single`): reconciles a statistical classifier's answer with the
  rule engine's through a first-match-wins chain of five rules, followed by an unconditional
  crisis override.
- **Long-text path** (`predict_emotion`):
  - splits texts over 900 characters into sentence parts;
  - packs the parts greedily into chunks of at most 450 characters;
  - classifies the first 120 chunks;
  - aggregates their answers, weighted by length.
- **Training-side helpers**:
  - CSV header normalisation and row lookup;
  - the capped chunker `_split_for_training`;
  - the expansion of samples into cleaned chunks;
  - the rule that decides whether the train/test split is stratified.
- **Input hygiene** (`sanitize_text`) and the upload file-name checks.

The modules follow the program:

| module | file | models |
|---|---|---|
| `Text` | text.dfy | the Python string operations used (`lower`, `in`, `replace`, `strip`, `" ".join`) |
| `Emotions` | emotions.dfy | the label enumeration, distributions, one-hot vectors, first-argmax |
| `Normalizer` | normalizer.dfy | `preprocess_text` |
| `RuleScorer` | rule_scorer.dfy | keyword tables, crisis detector, context rules, `_predict_fallback`, `_fallback_scores` |
| `Hybrid` | hybrid.dfy | `LEGACY_TO_EXPANDED`, `_predict_single` |
| `Chunking` | chunking.dfy | the sentence split and `_split_long_text` |
| `Inference` | inference.dfy | `_aggregate_chunk_predictions`, `predict_emotion` |
| `Training` | training.dfy | `_normalize_key`, `_row_value`, `_split_for_training`, chunk expansion, the stratify rule |
| `Security` | security.dfy | `sanitize_text`, `_has_allowed_extension` and the `allowed_*` checks |

The model follows the source's own form:

- Each source loop is a `method` with a `while` loop and invariants, proved equal to a
  specification function. This covers the keyword counting, the context rules, the greedy
  packer, the chunk classification, the score accumulation, the training chunker with its
  cap, the sample expansion and the label counting.
- Expression-only code is a function.
- The properties are lemmas about those functions.
- Score maps are `seq<int>` aligned with the label order. The source builds its dictionary
  from the label list, so its iteration order is that order, and `max` breaks ties at the
  first label.
- Probabilities are `real`.
- The classifier is a pair of total functions, one giving the predicted label and one the
  class probabilities. A failing `predict_proba` is the empty vector, which is how the
  source's `except` branch leaves it.
- Whether a model is loaded is a boolean parameter.

Two behaviours of the code are modelled as written:

- **A crisis chunk can be outvoted.** On the long-text path, a crisis-flagged chunk competes
  in the aggregate like any other chunk (`Inference.CrisisChunkCanBeOutvoted`). So
  `predict_emotion` returns Crisis for every text holding a crisis phrase only when the text
  is at most 900 characters long. Crisis language is meant to always win; on long texts the
  code lets it be outvoted, and the model follows the code.
- **The `":D"` and `":P"` entries of `EMOJI_MAP` never fire,** because the text is lower-cased
  before the map is applied (`Normalizer.UpperCaseEmojiNeverFire`).

## Model

| member | source | states |
|---|---|---|
| Emotions.NamedPositions | app/services/model_service.py:16-46 | there are 29 labels, and the labels the rules name (Anger, Annoyance, Desire, Disappointment, Disapproval, Joy, Love, Nervousness, Sadness, Neutral, Crisis) sit at the positions the model uses |
| Emotions.IndexOf | app/services/model_service.py:303-307 | looking a label name up gives a position holding that name, with no earlier position holding it |
| Emotions.ArgMax | app/services/model_service.py:309 | `max(..., key=...)` picks a position whose value no entry exceeds, and every earlier entry is strictly smaller (first maximum wins) |
| Emotions.FirstMaxUnique | app/services/model_service.py:309 | the first-maximum position is unique, so the tie-break is determined |
| Emotions.MaxOf | app/services/model_service.py:236 | `max(probs)` is an entry of the vector and no entry exceeds it |
| Emotions.OneHotIsDistribution | app/services/model_service.py:189 | a one-hot vector over the 29 labels is a probability distribution |
| Emotions.NormalizeIsDistribution | app/services/model_service.py:204-206 | dividing a non-negative 29-vector with positive total by that total gives a distribution |
| Emotions.SumNormalize | app/services/model_service.py:206 | the sum of the divided vector is the sum divided by the total |
| Emotions.SumNonNegative | app/services/model_service.py:204 | a non-negative vector has a non-negative sum |
| Emotions.EntryAtMostSum | app/services/model_service.py:204-206 | in a non-negative vector no entry exceeds the sum, so the divided entries are at most 1 |
| Text.Lower | app/services/nlp_pipeline.py:23 | lower-casing keeps the length and maps each character on its own |
| Text.LowerHasNoUpper | app/services/nlp_pipeline.py:23 | a lower-cased text has no upper-case letter |
| Text.ContainsAt | app/services/model_service.py:194 | a needle that occurs at some position is contained (`kw in text`) |
| Text.ContainsWitness | app/services/model_service.py:194 | a contained needle occurs at some position |
| Text.NotContainedWhenCharMissing | app/services/model_service.py:194 | a needle with a character the text lacks is not contained |
| Text.CountContained | app/services/model_service.py:193-195 | the number of a label's keywords contained is at most their count, and is 0 exactly when none is contained |
| Text.ReplaceAbsent | app/services/nlp_pipeline.py:25 | `replace` of a pattern the text lacks changes nothing |
| Text.ReplaceKeepsNoUpper | app/services/nlp_pipeline.py:23-25 | replacing with lower-case text keeps a lower-case text lower-case |
| Text.TrimLeft | app/services/training_service.py:24 | `lstrip` returns a suffix that does not start with a dropped character, and every removed character is a dropped one |
| Text.TrimRight | app/services/training_service.py:24 | `rstrip` returns a prefix that does not end with a dropped character, and every removed character is a dropped one |
| Text.Trim | app/services/training_service.py:24 | `strip(chars)` returns a contiguous middle part with no dropped character at either end; it is empty exactly when every character is dropped |
| Text.Strip | app/services/model_service.py:319 | `strip()` returns a contiguous middle part with no whitespace at either end; it is empty exactly when the text is all whitespace |
| Text.StripOffset | app/services/model_service.py:319 | the strip is the slice of the text at some offset |
| Text.StripUnchanged | app/services/model_service.py:277 | a text with no whitespace at either end is its own strip |
| Text.JoinSpaceSnoc | app/services/model_service.py:288 | joining one more part appends a space and the part |
| Text.JoinSpaceAppend | app/services/model_service.py:288 | joining two lists of parts is joining their joins with one space |
| Text.JoinSpaceEnds | app/services/model_service.py:288 | a join of stripped, non-empty parts starts with the first part's first character and ends with the last part's last |
| Normalizer.BlankNonWord | app/services/nlp_pipeline.py:26 | each character that is neither a word character nor whitespace becomes a space; the rest is kept, position by position |
| Normalizer.ReplaceEmojiNoUpper | app/services/nlp_pipeline.py:24-25 | the emoticon replacements keep a lower-case text lower-case |
| Normalizer.SquashSpacesShape | app/services/nlp_pipeline.py:27 | collapsing whitespace runs leaves single spaces only; the result is empty only for the empty text, and starts with a space exactly when the text starts with whitespace |
| Normalizer.BlankNonWordClean | app/services/nlp_pipeline.py:26 | after blanking, every character of a lower-case text is a lower-case word character or whitespace |
| Normalizer.PreprocessIsNormalized | app/services/nlp_pipeline.py:20-29 | the normaliser's output holds only lower-case word characters and single spaces, with none at either end |
| Normalizer.NormalizedIsFixed | app/services/nlp_pipeline.py:23-29 | the normaliser leaves a normalised text unchanged |
| Normalizer.PreprocessIdempotent | app/services/nlp_pipeline.py:20-29 | normalising twice is normalising once |
| Normalizer.SquashSpacesFixed | app/services/nlp_pipeline.py:27 | a single-spaced text is its own whitespace collapse |
| Normalizer.ReplaceEmojiFixed | app/services/nlp_pipeline.py:24-25 | a text without ':' goes through the emoticon table unchanged |
| Normalizer.LowerNoUpperFixed | app/services/nlp_pipeline.py:23 | lower-casing a lower-case text changes nothing |
| Normalizer.EmptyStaysEmpty | app/services/nlp_pipeline.py:21-22 | the empty text normalises to "" |
| Normalizer.SmileReadAsHappy | app/services/nlp_pipeline.py:12-13 | ":)" normalises to "happy" |
| Normalizer.FrownReadAsSad | app/services/nlp_pipeline.py:12-14 | ":(" normalises to "sad" |
| Normalizer.UpperCaseEmojiNeverFire | app/services/nlp_pipeline.py:15-16 | after lower-casing, the ":D" and ":P" rounds of the table change nothing: only the first two entries act |
| Normalizer.UpperCaseKeysInert | app/services/nlp_pipeline.py:23-25 | table entries whose key holds an upper-case letter never match a lower-case text |
| Normalizer.FirstTwoRounds | app/services/nlp_pipeline.py:24-25 | the two acting rounds are `replace(":)", " happy ")` then `replace(":(", " sad ")`, in table order |
| Normalizer.PaddedWordSurvives | app/services/nlp_pipeline.py:25-27 | a lower-case word padded by spaces, as the replacements write it, comes out of blanking, collapsing and stripping as the bare word |
| RuleScorer.KeywordScores | app/services/model_service.py:192-195 | the keyword score map has 29 non-negative entries, and a label scores 0 exactly when none of its keywords is in the cleaned text |
| RuleScorer.CountKeywords | app/services/model_service.py:192-195 | the nested keyword loop computes the keyword score map |
| RuleScorer.CrisisScores | app/services/model_service.py:213-216 | the crisis early exit gives Crisis 1 and every other label 0 |
| RuleScorer.ApplyContextRules | app/services/model_service.py:159-181 | the in-place context rules compute the adjusted score map |
| RuleScorer.BoostEffect | app/services/model_service.py:165-166 | boosting a list of distinct labels adds the amount to exactly those labels |
| RuleScorer.ContextRulesEffect | app/services/model_service.py:159-181 | a contrast cue adds 2 to each `NEGATIVE_BOOST` label and lowers positive Love and Joy by 1; a distress marker adds 2 to Sadness and 1 to Nervousness and lowers positive Desire by 2, floored at 0; no other label changes |
| RuleScorer.ContextKeepsNonNegative | app/services/model_service.py:167-179 | the context rules never make a score negative |
| RuleScorer.RuleScoresNonNegative | app/services/model_service.py:212-221 | `_fallback_scores` never holds a negative score |
| RuleScorer.FallbackScores | app/services/model_service.py:212-221 | the method computes the score map the rule engine builds internally |
| RuleScorer.PredictFallback | app/services/model_service.py:184-209 | the method computes the rule verdict: crisis early exit, keyword counting, context rules, argmax, normalisation |
| RuleScorer.ScoreVerdict | app/services/model_service.py:198-208 | the verdict's vector has one entry per label |
| RuleScorer.SilentScoresGiveNeutral | app/services/model_service.py:198-208 | all-zero scores give Neutral with the one-hot Neutral vector |
| RuleScorer.SilentRulesGiveNeutral | app/services/model_service.py:184-209 | without crisis language, if no rule scores then the answer is Neutral, one-hot |
| RuleScorer.ScoreVerdictPicksFirstMax | app/services/model_service.py:198-202 | when some score is non-zero, the label has a positive score that no label exceeds, and every earlier label scores strictly less |
| RuleScorer.ScoreVerdictIsDistribution | app/services/model_service.py:203-208 | the rule vector is a distribution: non-negative, 29 entries, summing to 1 |
| RuleScorer.ScoreVerdictLabelIsMostProbable | app/services/model_service.py:198-208 | the chosen label carries the largest probability of the vector |
| RuleScorer.ScoringLabelsShareProbability | app/services/model_service.py:203-206 | every label with a positive score gets positive probability |
| RuleScorer.ScoreVerdictSignalPositive | app/services/model_service.py:198-202 | a non-Neutral rule label has a positive score |
| RuleScorer.FallbackIsDistribution | app/services/model_service.py:184-209 | every rule verdict's vector, crisis exit included, is a distribution |
| RuleScorer.FallbackSignalPositive | app/services/model_service.py:241-242 | a non-Neutral rule label has `fallback_signal > 0` in `_fallback_scores` |
| RuleScorer.EmoticonKeywordsInert | app/services/model_service.py:66 | the Joy keywords ":)" and ":d", and the Sadness keyword ":(", never occur in a normalised text |
| Hybrid.LegacyLabelsExpand | app/services/model_service.py:89-95 | a legacy model label maps to a label of the enumeration, and a current label maps to itself |
| Hybrid.ModelConfidence | app/services/model_service.py:232-238 | the confidence is 0 for an empty vector, otherwise an entry that no entry exceeds |
| Hybrid.PredictSingle | app/services/model_service.py:224-260 | the method (branch chain reassigning `pred` and `probs`, then the crisis override) computes the single-text verdict |
| Hybrid.CrisisAlwaysWins | app/services/model_service.py:187-258 | crisis language in the raw or cleaned text gives Crisis with the one-hot Crisis vector, with or without a model |
| Hybrid.RuleModeAnswer | app/services/model_service.py:259-260 | without a model the answer is a label of the enumeration with a distribution |
| Hybrid.RuleCrisisOverridesModel | app/services/model_service.py:243-245 | when the rules answer Crisis, the model's answer is discarded for Crisis with a distribution; without crisis language the answer is exactly Crisis with the rules' own vector |
| Hybrid.NeutralModelDefersToRules | app/services/model_service.py:246-248 | a Neutral model answer yields to a non-Neutral rule answer, label and vector |
| Hybrid.UnsureModelDefersToRules | app/services/model_service.py:243-254 | below confidence 0.6 the answer is the rule label with a distribution; without crisis language a non-Neutral rule label comes with the rules' own vector, and a Neutral one with the one-hot Neutral vector |
| Hybrid.ConfidentModelKept | app/services/model_service.py:243-254 | when no earlier rule applies and the confidence is at least 0.6, the model's mapped label and its own vector are kept |
| Hybrid.ReconcileKeepsOrDistributes | app/services/model_service.py:243-254 | reconciliation either keeps the model's answer unchanged or answers a label of the enumeration with a distribution |
| Hybrid.AnswerIsModelsOrDistribution | app/services/model_service.py:224-260 | every single-text answer is the loaded model's own answer or an enumeration label with a distribution |
| Hybrid.AnswerCanBeAggregated | app/services/model_service.py:303-307 | when the model's labels are known, every answer has a 29-entry vector or a label the aggregation can credit |
| Chunking.SplitFrom | app/services/model_service.py:277 | the regex split always yields at least one piece |
| Chunking.StrippedParts | app/services/model_service.py:277 | the kept parts are stripped and non-empty, and there are no more of them than pieces |
| Chunking.NoPartsMeansBlankPieces | app/services/model_service.py:277 | when no part survives, every piece was blank |
| Chunking.BlankPiecesBlankText | app/services/model_service.py:277-279 | when every piece is blank, so is the text after the split's start |
| Chunking.NonBlankTextHasParts | app/services/model_service.py:277-279 | a text that is not all whitespace has at least one part, so the `[text]` fallback is taken only for blank text |
| Chunking.JoinAll | app/services/model_service.py:288 | each chunk is its group of parts joined by single spaces |
| Chunking.Take | app/services/model_service.py:328 | `chunks[:n]` is a prefix holding the first n chunks, or all of them when there are fewer |
| Chunking.PackKeepsParts | app/services/model_service.py:283-293 | the groups of the greedy packer, concatenated, are the parts in their original order |
| Chunking.PackGroupsFit | app/services/model_service.py:283-293 | every group of two or more parts joins to at most the target length |
| Chunking.PackIsGreedy | app/services/model_service.py:287-291 | a group is closed only when adding the next part would exceed the target |
| Chunking.PackStartsWith | app/services/model_service.py:283-286 | the first group starts with the parts already gathered |
| Chunking.JoinAllFlatten | app/services/model_service.py:288 | joining the joined chunks is joining all parts: nothing is lost or reordered |
| Chunking.ChunksOfParts | app/services/model_service.py:276-294 | for non-empty stripped parts the chunks are non-empty, stripped, and join back to the parts joined by spaces |
| Chunking.PackStep | app/services/model_service.py:284-291 | one loop step of the packer: start a group, extend it when it fits, or close it and start a new one |
| Chunking.SplitLongText | app/services/model_service.py:276-294 | the method returns `[text]` when no part survives and the greedy packing of the parts otherwise |
| Chunking.PackParts | app/services/model_service.py:281-294 | the packing loop computes the greedy chunks |
| Inference.Scores | app/services/model_service.py:301-307 | the accumulated score map has one entry per label |
| Inference.ScoresStep | app/services/model_service.py:302-307 | each chunk adds its weighted vector, or its weight on its own label when the vector has the wrong length |
| Inference.Credit | app/services/model_service.py:303-307 | crediting one chunk adds its contribution to each label and to nothing else |
| Inference.AccumulateScores | app/services/model_service.py:301-307 | the accumulation loop computes the score map |
| Inference.AggregateChunkPredictions | app/services/model_service.py:297-315 | the method computes the aggregate verdict |
| Inference.ScoresNonNegative | app/services/model_service.py:301-307 | non-negative chunk vectors accumulate to non-negative scores |
| Inference.AggregateSumsToOne | app/services/model_service.py:310-314 | the aggregate vector has 29 entries summing to 1, the one-hot Neutral vector included |
| Inference.AggregateIsDistribution | app/services/model_service.py:297-315 | with non-negative chunk vectors the aggregate is a label of the enumeration with a distribution |
| Inference.UnanimousScores | app/services/model_service.py:301-307 | chunks that all back one label put their total weight on it and nothing elsewhere |
| Inference.IndicatorVerdict | app/services/model_service.py:309-312 | a score map with weight on one label alone picks that label and normalises to its one-hot vector |
| Inference.UnanimousChunksAgree | app/services/model_service.py:297-315 | when every chunk backs the same label, the aggregate is that label with its one-hot vector |
| Inference.PositiveTotalWeight | app/services/model_service.py:332 | weights of at least 1 give a positive total |
| Inference.HeavierChunkWins | app/services/model_service.py:302-309 | of two one-hot chunks backing different labels, the heavier one's label wins |
| Inference.CrisisChunkCanBeOutvoted | app/services/model_service.py:326-333 | a one-hot Crisis chunk is outvoted by a heavier chunk backing another label |
| Inference.ChunkPredictions | app/services/model_service.py:329-332 | there is one prediction per chunk |
| Inference.PredictChunks | app/services/model_service.py:329-332 | the loop classifies the chunks in order and weights each by `max(len, 1)` |
| Inference.ChunkPredictionsStep | app/services/model_service.py:330-332 | one more chunk appends its own weighted answer |
| Inference.ChunkAnswersCreditable | app/services/model_service.py:303-307 | when the model's labels are known, every chunk answer can be credited without a missing key |
| Inference.PredictEmotion | app/services/model_service.py:318-333 | the method computes the answer: Neutral for blank input, the single-text answer up to 900 characters, the aggregate of the first 120 chunks beyond |
| Inference.PredictLong | app/services/model_service.py:326-333 | the long path aggregates the first 120 chunks |
| Inference.BlankInputIsNeutral | app/services/model_service.py:319-321 | missing or all-whitespace input gives Neutral with the one-hot Neutral vector |
| Inference.ShortInputIsSingle | app/services/model_service.py:323-324 | a stripped text of at most 900 characters gets the single-text answer for the stripped text |
| Inference.RuleModeChunksNonNegative | app/services/model_service.py:329-332 | without a model every chunk vector is non-negative |
| Inference.RuleModeAggregate | app/services/model_service.py:329-333 | without a model the chunk answers aggregate to a label of the enumeration with a distribution |
| Inference.RuleModeIsDistribution | app/services/model_service.py:318-333 | without a model every answer is a label of the enumeration with a distribution |
| Training.RemoveCharEffect | app/services/training_service.py:24 | removing U+FEFF leaves no byte-order mark, and a text without one is unchanged |
| Training.NormalizeKey | app/services/training_service.py:23-24 | a normalised key has no upper-case letter, no byte-order mark, and no apostrophe at either end |
| Training.MissingKeyIsEmpty | app/services/training_service.py:24 | a missing key normalises to "" |
| Training.TrimLacks | app/services/training_service.py:24 | stripping brings in no character that was not there |
| Training.QuotesTrimmed | app/services/training_service.py:24 | after the quote strips the key has no apostrophe at either end and gains no byte-order mark |
| Training.LookupFirst | app/services/training_service.py:29-31 | the lookup returns the value of the first matching entry |
| Training.LookupNone | app/services/training_service.py:32 | with no matching entry the lookup returns "" |
| Training.RowValueFirstMatch | app/services/training_service.py:27-31 | `_row_value` returns the value of the first key whose normalised form equals the normalised name |
| Training.RowValueMissing | app/services/training_service.py:27-32 | a missing row, or one with no matching key, gives "" |
| Training.SplitForTraining | app/services/training_service.py:35-61 | the method, with its loop and its break at the cap, computes the training chunks |
| Training.PackCapped | app/services/training_service.py:46-61 | the capped loop returns the first 12 chunks of the greedy packing |
| Training.TakeClosed | app/services/training_service.py:55-58 | once 12 groups are closed, their joins are the first 12 chunks of the packing |
| Training.TrainingChunksShape | app/services/training_service.py:35-61 | at most 12 chunks; none exactly for blank input; just the stripped text when it is at most the target; every chunk non-empty and stripped |
| Training.LongTrainingChunks | app/services/training_service.py:42-61 | a long stripped text has parts, so the `text[:target]` branch is never taken; its chunks are a non-empty prefix of the greedy packing, at most 12, each within the target or a single part |
| Training.LeadingChunksShape | app/services/training_service.py:46-61 | the first 12 packed chunks of stripped parts are non-empty and stripped, and each is within the target or a single part |
| Training.ChunksFit | app/services/training_service.py:52-56 | every packed chunk is within the target or is one part that was never split |
| Training.Repeat | app/services/training_service.py:105 | n copies of the label |
| Training.ExpandSamples | app/services/training_service.py:98-105 | the nested expansion loop computes the expanded texts and labels |
| Training.ExpandedStep | app/services/training_service.py:100-105 | each sample appends its cleaned chunks, and its label once per chunk kept |
| Training.ExpandSample | app/services/training_service.py:101-105 | one sample's inner loop appends its cleaned chunks and as many copies of its label |
| Training.AppendCleanChunks | app/services/training_service.py:101-105 | the inner loop appends each non-empty cleaned chunk and its label, keeping the two lists in step |
| Training.CleanChunksStep | app/services/training_service.py:102-105 | a chunk whose cleaned text is empty is dropped; any other appends its cleaned text |
| Training.ExpandedOfPrefix | app/services/training_service.py:100 | `zip` stops at the shorter list |
| Training.CleanChunksNormalized | app/services/training_service.py:102-104 | the kept texts are non-empty normalised texts, no more than the chunks |
| Training.SampleTextsShape | app/services/training_service.py:101-104 | a sample yields at most 12 training texts, each non-empty and normalised |
| Training.ExpandedShape | app/services/training_service.py:98-105 | the expanded lists have equal length, at most 12 texts per sample; every text is non-empty and normalised, and every label is a sample's label |
| Training.UseStratify | app/services/training_service.py:129-133 | the counting code decides the stratify rule: at least two distinct labels and every label at least twice |
| Training.LabelCounts | app/services/training_service.py:129-131 | the count map has exactly the labels present, each with its number of occurrences |
| Training.MinValue | app/services/training_service.py:132 | the minimum count is a count of some label and no label's count is smaller |
| Training.CountSnoc | app/services/training_service.py:130-131 | one more label adds one to its own count only |
| Training.CountPair | app/services/training_service.py:129-131 | two different labels' counts together are at most the number of samples |
| Training.StratifyNeedsFourSamples | app/services/training_service.py:133 | stratifying needs at least four samples |
| Training.SingletonLabelBlocksStratify | app/services/training_service.py:132-133 | a label seen once rules stratification out |
| Training.TwoLabelsTwiceStratify | app/services/training_service.py:132-133 | two distinct labels, with every label seen at least twice, turn stratification on |
| Security.FirstIndexOf | app/utils/security.py:12 | the position found holds the character, and no earlier position does |
| Security.LastIndexOf | app/utils/security.py:21 | the position found holds the character, and no later position does |
| Security.BlankControls | app/utils/security.py:13 | each carriage return, newline and tab becomes a space, in place; nothing else changes |
| Security.SanitizeText | app/utils/security.py:9-15 | the result has no complete tag, no carriage return, newline or tab, and no whitespace at either end |
| Security.NonStringIsEmpty | app/utils/security.py:10-11 | a value that is not a string sanitises to "" |
| Security.StripTagsLacks | app/utils/security.py:12 | tag removal brings in no character that was not there |
| Security.StripTagsLeavesNoTag | app/utils/security.py:12 | after tag removal no '<' is followed anywhere later by '>' |
| Security.StripTagsFixed | app/utils/security.py:12 | a text with no complete tag loses nothing to tag removal |
| Security.UnclosedBracketKept | app/utils/security.py:12 | a text with no '>' is left as it is |
| Security.BlankControlsClean | app/utils/security.py:13 | blanking keeps a tag-free text tag-free and leaves no control character |
| Security.StripKeepsClean | app/utils/security.py:14 | stripping keeps a text free of tags and control characters |
| Security.SanitizeIdempotent | app/utils/security.py:9-15 | sanitising a sanitised text changes nothing |
| Security.Extension | app/utils/security.py:21 | the extension is what follows a '.' after which there is no other '.' |
| Security.HasAllowedExtensionMeans | app/utils/security.py:20-21 | the check holds exactly when the name has a '.' with no later '.', and the lower-cased text after it is in the allowed set |
| Security.ExtensionAt | app/utils/security.py:21 | a '.' with no later '.' fixes the extension |
| Security.CaseIgnored | app/utils/security.py:21 | lower-casing the whole name never changes the verdict |
| Security.ExtensionOfLower | app/utils/security.py:21 | the extension of the lower-cased name is the lower-cased extension |
| Security.TextAndImageDisjoint | app/utils/security.py:17-18 | no name passes both the text and the image check |
| Security.UploadRefusesImages | app/utils/security.py:32-33 | the upload check refuses every name the image check accepts |
| Security.UpperCaseExtensionAccepted | app/utils/security.py:21 | "notes.TXT" is accepted |
| Security.LastExtensionCounts | app/utils/security.py:21 | "export.2024.csv" is accepted |
| Security.EarlierExtensionIgnored | app/utils/security.py:21 | "report.csv.exe" is refused |
| Security.DotEdgeCases | app/utils/security.py:21 | "csv" and "file." are refused, and ".csv" is accepted |

## Left out

- **Unicode.** `\w` and `str.lower()` cover ASCII only here; Python applies them to all of
  Unicode. Whitespace is exactly Python's `str.isspace()` set. On non-ASCII input, keyword
  matching can therefore differ in both directions:
  - Python lower-cases U+212A KELVIN SIGN to `k`, so "\u212Aill myself" is a crisis hit
    (model_service.py:139-140, 194) in Python and not in the model. This affects every keyword
    with a `k`, such as kill, thank, awkward, heartbroken and overthinking.
  - Python's `[^\w\s]` (nlp_pipeline.py:26) keeps non-ASCII letters, but the model blanks
    them. So "goodé job" gives a "good job" hit in the model and none in Python.
  The extension sets are ASCII and compared as whole strings, so for them ASCII lower-casing
  decides as Python does.
- Normalizer.Preprocess: takes a `string`, so the `None` case of `if not text`
  (nlp_pipeline.py:21-22) is not expressible. Both callers (model_service.py:226,
  training_service.py:102) pass strings; the empty string is modelled.
- **Raising classifier.** The classifier's `predict` and `predictProba` are total functions. A
  `predict` that raises is not modelled. A `predict_proba` that fails is modelled as an empty
  vector.
- **Floats.** Probabilities are exact reals. The "sums to 1" facts are exact here and only
  approximate for Python floats.
- **spaCy.** The spaCy branch of `preprocess_text` (nlp_pipeline.py:3-10, 30-32) is not
  modelled; the normaliser is the path where `nlp` is None.
- **Model loading and I/O.** `_load_active_model`, the MongoDB and file access, `joblib`, and
  the prediction logging (model_service.py:109-135, 261-272) have no effect on the answer.
  They are replaced by the `loaded` flag and the two classifier functions.
- **Class order.** The order of the classifier's own classes is treated as opaque. Its
  probability vector is taken position by position, as the source does.
- Hybrid.AnswerCanBeAggregated: requires the model's labels to be known (`ModelLabelsKnown`).
  With an unmapped label and a vector of the wrong length, the source raises `KeyError` at
  model_service.py:307. That crash is not modelled.
- Inference.PredictEmotion: requires `ModelLabelsKnown` when a model is loaded, for the same
  `KeyError` reason.
- **Unreachable fallback.** `_split_for_training`'s `text[:target]` branch (training_service.py:44)
  is kept in `Training.LongChunks`, but it is unreachable: `Training.LongTrainingChunks`
  proves it.
- Training.NormalizeKey: states the shape of the key (lower-case, no byte-order mark, no
  apostrophe at either end), not idempotence. Normalising twice can strip a quote that the
  first pass uncovered, e.g. `"'"x"'"`.
- Training.ExpandSample: receives the normaliser as the function that
  `Training.AppendCleanChunks` applies to each chunk, rather than calling it inline.
- **Long texts.** Inference.PredictEmotion does not promise Crisis for crisis language in a
  text over 900 characters. The code lets such a chunk be outvoted
  (`Inference.CrisisChunkCanBeOutvoted`), and a phrase cut by a chunk boundary is not seen.
- **Training I/O and fitting.** The rest of `train_from_mongo` is not modelled: MongoDB and
  CSV reading, the scikit-learn vectoriser, model fitting, metrics and file writes.
- **Flask and the database.** `get_client_ip` and `role_required` in security.py depend on the
  Flask request and the database.
- **Routes and other services.** Routes, app setup, the e-mail and OCR services and the
  offline training script are outside this model.
