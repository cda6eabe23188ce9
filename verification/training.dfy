/** The data-preparation helpers of the training service: CSV header normalisation, row lookup,
    the capped chunker, the expansion of samples into chunk-level samples and the rule that
    decides whether the train/test split is stratified. */
module Training {
  import opened Text
  import Chunking
  import Normalizer

  /** Target length of a training chunk. */
  const MAX_TRAIN_CHUNK_CHARS: nat := 450
  /** At most this many chunks are taken from one sample. */
  const MAX_CHUNKS_PER_SAMPLE: nat := 12
  /** The byte-order mark some CSV writers put before the first header. */
  const BOM: char := '﻿'

  // ---------------------------------------------------------------- header keys

  /** `s.replace(c, "")`. */
  function RemoveChar(s: string, c: char): (r: string)
  {
    if s == [] then [] else (if s[0] == c then [] else [s[0]]) + RemoveChar(s[1..], c)
  }

  /** Removing a character leaves none of it, and a text without it is left unchanged. */
  lemma {:induction false} RemoveCharEffect(s: string, c: char)
    ensures c !in RemoveChar(s, c)
    ensures c !in s ==> RemoveChar(s, c) == s
  {
    if s != [] {
      RemoveCharEffect(s[1..], c);
      assert s == [s[0]] + s[1..];
    }
  }

  predicate IsDoubleQuote(c: char) { c == '"' }

  predicate IsApostrophe(c: char) { c == '\'' }

  /** `_normalize_key(key)`: a missing key reads as empty; then the byte-order marks are
      removed, whitespace, double quotes and apostrophes are stripped from both ends, in that
      order, and the result is lower-cased. A normalised key has no upper-case letter, no
      byte-order mark, and no apostrophe at either end. */
  function NormalizeKey(key: Option<string>): (r: string)
    ensures NoUpper(r) && BOM !in r
    ensures r == [] || (r[0] != '\'' && r[|r| - 1] != '\'')
  {
    var s := if key.None? then "" else key.value;
    KeyTextShape(s);
    Lower(Trim(Trim(Strip(RemoveChar(s, BOM)), IsDoubleQuote), IsApostrophe))
  }

  /** Trimming keeps only characters of the text. */
  lemma TrimLacks(s: string, drop: char -> bool, c: char)
    requires c !in s
    ensures c !in Trim(s, drop)
  {
    var o := |s| - |TrimLeft(s, drop)|;
    var r := Trim(s, drop);
    assert r == s[o..o + |r|];
  }

  /** Lower-casing never produces a character that is not a letter unless it was there. */
  lemma LowerLacks(s: string, c: char)
    requires !('a' <= c <= 'z') && c !in s
    ensures c !in Lower(s)
  {
  }

  /** The contract of NormalizeKey, for the text of a present key. */
  lemma KeyTextShape(s: string)
    ensures var r := Lower(Trim(Trim(Strip(RemoveChar(s, BOM)), IsDoubleQuote), IsApostrophe));
            && NoUpper(r)
            && BOM !in r
            && (r == [] || (r[0] != '\'' && r[|r| - 1] != '\''))
  {
    RemoveCharEffect(s, BOM);
    TrimLacks(RemoveChar(s, BOM), IsSpace, BOM);
    UnquotedKeyShape(Strip(RemoveChar(s, BOM)));
  }

  /** The last two steps of KeyTextShape: quotes stripped, then lower-cased. */
  lemma UnquotedKeyShape(s: string)
    requires BOM !in s
    ensures var r := Lower(Trim(Trim(s, IsDoubleQuote), IsApostrophe));
            && NoUpper(r)
            && BOM !in r
            && (r == [] || (r[0] != '\'' && r[|r| - 1] != '\''))
  {
    QuotesTrimmed(s);
    LowerKey(Trim(Trim(s, IsDoubleQuote), IsApostrophe));
  }

  /** Stripping the quotes brings in no byte-order mark and leaves no apostrophe at either
      end. */
  lemma QuotesTrimmed(s: string)
    ensures var bare := Trim(Trim(s, IsDoubleQuote), IsApostrophe);
            && (BOM !in s ==> BOM !in bare)
            && (bare == [] || (bare[0] != '\'' && bare[|bare| - 1] != '\''))
  {
    if BOM !in s {
      TrimLacks(s, IsDoubleQuote, BOM);
      TrimLacks(Trim(s, IsDoubleQuote), IsApostrophe, BOM);
    }
  }

  /** Lower-casing keeps a text free of byte-order marks and of apostrophes at its ends. */
  lemma LowerKey(bare: string)
    requires BOM !in bare
    requires bare == [] || (bare[0] != '\'' && bare[|bare| - 1] != '\'')
    ensures var r := Lower(bare);
            && NoUpper(r)
            && BOM !in r
            && (r == [] || (r[0] != '\'' && r[|r| - 1] != '\''))
  {
    LowerLacks(bare, BOM);
    LowerHasNoUpper(bare);
  }

  /** A missing key normalises to the empty key. */
  lemma MissingKeyIsEmpty()
    ensures NormalizeKey(None) == ""
  {
    RemoveCharEffect("", BOM);
  }

  // ---------------------------------------------------------------- row lookup

  /** A CSV row: its keys, in order (a key is missing for surplus fields), and their values. */
  type Row = seq<(Option<string>, string)>

  /** The value of the first entry whose key normalises, under `norm`, to `target`, or "". */
  function Lookup(items: Row, norm: Option<string> -> string, target: string): string
  {
    if items == [] then ""
    else if norm(items[0].0) == target then items[0].1
    else Lookup(items[1..], norm, target)
  }

  /** `_row_value(row, name)`: a missing row reads as empty. */
  function RowValue(row: Option<Row>, name: string): string
  {
    Lookup(if row.None? then [] else row.value, NormalizeKey, NormalizeKey(Some(name)))
  }

  predicate Matches(items: Row, k: nat, norm: Option<string> -> string, target: string)
    requires k < |items|
  {
    norm(items[k].0) == target
  }

  lemma {:induction false} LookupFirst(items: Row, norm: Option<string> -> string, target: string, k: nat)
    requires k < |items| && Matches(items, k, norm, target)
    requires forall j :: 0 <= j < k ==> !Matches(items, j, norm, target)
    ensures Lookup(items, norm, target) == items[k].1
  {
    if k > 0 {
      assert !Matches(items, 0, norm, target);
      forall j | 0 <= j < k - 1
        ensures !Matches(items[1..], j, norm, target)
      {
        assert !Matches(items, j + 1, norm, target);
      }
      LookupFirst(items[1..], norm, target, k - 1);
    }
  }

  lemma {:induction false} LookupNone(items: Row, norm: Option<string> -> string, target: string)
    requires forall j :: 0 <= j < |items| ==> !Matches(items, j, norm, target)
    ensures Lookup(items, norm, target) == ""
  {
    if items != [] {
      assert !Matches(items, 0, norm, target);
      forall j | 0 <= j < |items| - 1
        ensures !Matches(items[1..], j, norm, target)
      {
        assert !Matches(items, j + 1, norm, target);
      }
      LookupNone(items[1..], norm, target);
    }
  }

  /** Entry `k` has a key that normalises like `name`. */
  predicate KeyMatches(row: Row, k: nat, name: string)
    requires k < |row|
  {
    Matches(row, k, NormalizeKey, NormalizeKey(Some(name)))
  }

  /** The value of the first key that normalises like `name` is returned; later matches are
      ignored. */
  lemma RowValueFirstMatch(row: Row, name: string, k: nat)
    requires k < |row| && KeyMatches(row, k, name)
    requires forall j :: 0 <= j < k ==> !KeyMatches(row, j, name)
    ensures RowValue(Some(row), name) == row[k].1
  {
    var target := NormalizeKey(Some(name));
    forall j | 0 <= j < k
      ensures !Matches(row, j, NormalizeKey, target)
    {
      assert !KeyMatches(row, j, name);
    }
    assert KeyMatches(row, k, name);
    LookupFirst(row, NormalizeKey, target, k);
  }

  /** With no matching key, or no row at all, the value is "". */
  lemma RowValueMissing(row: Option<Row>, name: string)
    requires row.Some? ==> forall j :: 0 <= j < |row.value| ==> !KeyMatches(row.value, j, name)
    ensures RowValue(row, name) == ""
  {
    if row.Some? {
      var target := NormalizeKey(Some(name));
      forall j | 0 <= j < |row.value|
        ensures !Matches(row.value, j, NormalizeKey, target)
      {
        assert !KeyMatches(row.value, j, name);
      }
      LookupNone(row.value, NormalizeKey, target);
    }
  }

  // ---------------------------------------------------------------- the capped chunker

  /** `_split_for_training(text, target)`. */
  function TrainingChunks(text: Option<string>, target: nat): seq<string>
  {
    var t := StripInput(text);
    if t == [] then []
    else if |t| <= target then [t]
    else LongChunks(t, target)
  }

  /** The long-text branch of `_split_for_training`: the leading chunks of the sentence
      packing, or the first `target` characters when the text has no sentence part. */
  function LongChunks(t: string, target: nat): seq<string>
    requires |t| > target
  {
    var parts := Chunking.SentenceParts(t);
    if parts == [] then [t[..target]]
    else Chunking.Take(Chunking.Chunks(parts, target), MAX_CHUNKS_PER_SAMPLE)
  }

  /** `_split_for_training(text, target)`. */
  method SplitForTraining(text: Option<string>, target: nat) returns (chunks: seq<string>)
    ensures chunks == TrainingChunks(text, target)
  {
    var t := if text.None? then "" else Strip(text.value);
    if t == [] {
      return [];
    }
    if |t| <= target {
      return [t];
    }
    var parts := Chunking.SentenceParts(t);
    if parts == [] {
      return [t[..target]];
    }
    chunks := PackCapped(parts, target);
  }

  /** The packing loop of `_split_for_training`: as in the inference-side chunker, but the
      loop stops as soon as MAX_CHUNKS_PER_SAMPLE chunks are closed, and the open chunk is
      appended at the end only while there is room. */
  method PackCapped(parts: seq<string>, target: nat) returns (chunks: seq<string>)
    requires forall k :: 0 <= k < |parts| ==> parts[k] != []
    ensures chunks == Chunking.Take(Chunking.Chunks(parts, target), MAX_CHUNKS_PER_SAMPLE)
  {
    ghost var all := Chunking.PackGroups([], parts, target);
    chunks := [];
    var current := "";
    ghost var group: seq<string> := [];
    ghost var done: seq<seq<string>> := [];
    for i := 0 to |parts|
      invariant current == JoinSpace(group)
      invariant group != [] ==> group[0] != [] && current != []
      invariant chunks == Chunking.JoinAll(done)
      invariant done + Chunking.PackGroups(group, parts[i..], target) == all
      invariant |done| < MAX_CHUNKS_PER_SAMPLE
    {
      var part := parts[i];
      Chunking.PackStep(group, parts[i..], target);
      assert parts[i..][0] == part && parts[i..][1..] == parts[i + 1..];
      if current == "" {
        current, group := part, [part];
        continue;
      }
      if |current| + 1 + |part| <= target {
        JoinSpaceSnoc(group, part);
        current, group := current + " " + part, group + [part];
      } else {
        chunks, done := chunks + [current], done + [group];
        current, group := part, [part];
        if |chunks| >= MAX_CHUNKS_PER_SAMPLE {
          TakeClosed(done, all);
          break;
        }
      }
      Chunking.JoinSpaceStartsWithFirst(group);
    }
    if current != "" && |chunks| < MAX_CHUNKS_PER_SAMPLE {
      chunks, done := chunks + [current], done + [group];
    }
    if |chunks| < MAX_CHUNKS_PER_SAMPLE {
      assert done == all;
    }
  }

  /** Once MAX_CHUNKS_PER_SAMPLE groups are closed, they are the first groups of the packing. */
  lemma TakeClosed(done: seq<seq<string>>, all: seq<seq<string>>)
    requires |done| == MAX_CHUNKS_PER_SAMPLE && done <= all
    ensures Chunking.JoinAll(done) == Chunking.Take(Chunking.JoinAll(all), MAX_CHUNKS_PER_SAMPLE)
  {
  }

  /** A chunk is within the target length, or is one sentence part that is longer. */
  predicate WithinTargetOrOnePart(chunk: string, parts: seq<string>, target: nat) {
    |chunk| <= target || chunk in parts
  }

  /** The training chunks of a sample: none for blank text, the stripped text itself when it
      is short enough, and otherwise the leading chunks of a long text (see
      LongTrainingChunks); at most MAX_CHUNKS_PER_SAMPLE of them, each non-empty and without
      surrounding whitespace. */
  lemma TrainingChunksShape(text: Option<string>, target: nat)
    ensures var t := StripInput(text);
            var cs := TrainingChunks(text, target);
            && |cs| <= MAX_CHUNKS_PER_SAMPLE
            && (cs == [] <==> t == [])
            && (0 < |t| <= target ==> cs == [t])
            && forall k :: 0 <= k < |cs| ==> cs[k] != [] && !IsSpace(cs[k][0]) && !IsSpace(cs[k][|cs[k]| - 1])
  {
    var t := StripInput(text);
    var cs := TrainingChunks(text, target);
    assert t == [] || (!IsSpace(t[0]) && !IsSpace(t[|t| - 1]));
    if |t| > target {
      LongTrainingChunks(t, target);
      assert cs == LongChunks(t, target);
    } else if t != [] {
      assert cs == [t];
    }
  }

  /** For a stripped, non-empty text longer than the target, the `t[:target]` fallback is never
      reached: the chunks are at most MAX_CHUNKS_PER_SAMPLE leading chunks of the sentence
      packing, each non-empty, without surrounding whitespace, and either within the target
      or a single sentence part (a part is never cut). */
  lemma LongTrainingChunks(t: string, target: nat)
    requires t != [] && !IsSpace(t[0]) && !IsSpace(t[|t| - 1]) && |t| > target
    ensures Chunking.SentenceParts(t) != []
    ensures var parts := Chunking.SentenceParts(t);
            var cs := LongChunks(t, target);
            && cs != []
            && |cs| <= MAX_CHUNKS_PER_SAMPLE
            && cs <= Chunking.Chunks(parts, target)
            && (forall k :: 0 <= k < |cs| ==> WithinTargetOrOnePart(cs[k], parts, target))
            && (forall k :: 0 <= k < |cs| ==> cs[k] != [] && !IsSpace(cs[k][0]) && !IsSpace(cs[k][|cs[k]| - 1]))
  {
    StripUnchanged(t);
    Chunking.NonBlankTextHasParts(t);
    var parts := Chunking.SentenceParts(t);
    assert LongChunks(t, target) == Chunking.Take(Chunking.Chunks(parts, target), MAX_CHUNKS_PER_SAMPLE);
    LeadingChunksShape(parts, target);
  }

  /** The leading chunks of the packing of non-empty stripped parts: at least one, at most
      MAX_CHUNKS_PER_SAMPLE, each non-empty, stripped, and within the target or a single part. */
  lemma LeadingChunksShape(parts: seq<string>, target: nat)
    requires parts != []
    requires forall k :: 0 <= k < |parts| ==> parts[k] != [] && !IsSpace(parts[k][0]) && !IsSpace(parts[k][|parts[k]| - 1])
    ensures var cs := Chunking.Take(Chunking.Chunks(parts, target), MAX_CHUNKS_PER_SAMPLE);
            && cs != []
            && |cs| <= MAX_CHUNKS_PER_SAMPLE
            && cs <= Chunking.Chunks(parts, target)
            && (forall k :: 0 <= k < |cs| ==> WithinTargetOrOnePart(cs[k], parts, target))
            && (forall k :: 0 <= k < |cs| ==> cs[k] != [] && !IsSpace(cs[k][0]) && !IsSpace(cs[k][|cs[k]| - 1]))
  {
    Chunking.ChunksOfParts(parts, target);
    ChunksFit(parts, target);
    var all := Chunking.Chunks(parts, target);
    var cs := Chunking.Take(all, MAX_CHUNKS_PER_SAMPLE);
    assert forall k :: 0 <= k < |cs| ==> cs[k] == all[k];
  }

  /** Every chunk of the packing is within the target or a single part. */
  lemma ChunksFit(parts: seq<string>, target: nat)
    ensures forall k :: 0 <= k < |Chunking.Chunks(parts, target)| ==>
              WithinTargetOrOnePart(Chunking.Chunks(parts, target)[k], parts, target)
  {
    var gs := Chunking.PackGroups([], parts, target);
    Chunking.PackGroupsFit([], parts, target);
    Chunking.PackKeepsParts([], parts, target);
    assert [] + parts == parts;
    forall k | 0 <= k < |gs|
      ensures WithinTargetOrOnePart(JoinSpace(gs[k]), parts, target)
    {
      if |gs[k]| == 1 {
        Chunking.FlattenContains(gs, k);
        assert JoinSpace(gs[k]) == gs[k][0];
      }
    }
  }

  // ---------------------------------------------------------------- sample expansion

  /** The chunks of one sample after `clean`, the empty ones dropped. */
  function CleanChunks(chunks: seq<string>, clean: string -> string): seq<string>
  {
    if chunks == [] then []
    else
      var c := clean(chunks[|chunks| - 1]);
      CleanChunks(chunks[..|chunks| - 1], clean) + (if c != [] then [c] else [])
  }

  /** `n` copies of `y`. */
  function Repeat<L>(y: L, n: nat): (r: seq<L>)
    ensures |r| == n && forall k :: 0 <= k < n ==> r[k] == y
  {
    if n == 0 then [] else Repeat(y, n - 1) + [y]
  }

  /** The zipped length of two lists. */
  function ZipLength<A, B>(xs: seq<A>, ys: seq<B>): nat {
    if |xs| < |ys| then |xs| else |ys|
  }

  /** The training texts one sample contributes: its chunks, normalised, the empty ones
      dropped. */
  function SampleTexts(text: Option<string>): seq<string>
  {
    CleanChunks(TrainingChunks(text, MAX_TRAIN_CHUNK_CHARS), Normalizer.Preprocess)
  }

  /** The training texts of `zip(texts, labels)`: every chunk of every sample, normalised,
      the empty ones dropped. */
  function ExpandedTexts<L>(texts: seq<Option<string>>, labels: seq<L>): seq<string>
    decreases |texts|
  {
    var n := ZipLength(texts, labels);
    if n == 0 then []
    else ExpandedTexts(texts[..n - 1], labels[..n - 1]) + SampleTexts(texts[n - 1])
  }

  /** The label of each training text: its sample's label. */
  function ExpandedLabels<L>(texts: seq<Option<string>>, labels: seq<L>): seq<L>
    decreases |texts|
  {
    var n := ZipLength(texts, labels);
    if n == 0 then []
    else ExpandedLabels(texts[..n - 1], labels[..n - 1]) + Repeat(labels[n - 1], |SampleTexts(texts[n - 1])|)
  }

  /** The chunk expansion of the training service: for each sample of `zip(texts, labels)`,
      its chunks are normalised and the non-empty ones appended, with the sample's label, to
      two parallel lists. */
  method ExpandSamples<L>(texts: seq<Option<string>>, labels: seq<L>) returns (expandedTexts: seq<string>, expandedLabels: seq<L>)
    ensures expandedTexts == ExpandedTexts(texts, labels)
    ensures expandedLabels == ExpandedLabels(texts, labels)
  {
    var n := if |texts| < |labels| then |texts| else |labels|;
    expandedTexts, expandedLabels := [], [];
    for i := 0 to n
      invariant expandedTexts == ExpandedTexts(texts[..i], labels[..i])
      invariant expandedLabels == ExpandedLabels(texts[..i], labels[..i])
    {
      ExpandedStep(texts, labels, i);
      expandedTexts, expandedLabels := ExpandSample(expandedTexts, expandedLabels, texts[i], labels[i]);
    }
    ExpandedOfPrefix(texts, labels, n);
  }

  /** Taking one more sample appends its texts and their labels. */
  lemma ExpandedStep<L>(texts: seq<Option<string>>, labels: seq<L>, i: nat)
    requires i < |texts| && i < |labels|
    ensures ExpandedTexts(texts[..i + 1], labels[..i + 1]) == ExpandedTexts(texts[..i], labels[..i]) + SampleTexts(texts[i])
    ensures ExpandedLabels(texts[..i + 1], labels[..i + 1]) == ExpandedLabels(texts[..i], labels[..i]) + Repeat(labels[i], |SampleTexts(texts[i])|)
  {
    assert texts[..i + 1][..i] == texts[..i] && labels[..i + 1][..i] == labels[..i];
    assert texts[..i + 1][i] == texts[i] && labels[..i + 1][i] == labels[i];
  }

  /** One sample of the expansion: its chunks are computed, then normalised and appended. */
  method ExpandSample<L>(textsIn: seq<string>, labelsIn: seq<L>, text: Option<string>, y: L)
    returns (textsOut: seq<string>, labelsOut: seq<L>)
    ensures textsOut == textsIn + SampleTexts(text)
    ensures labelsOut == labelsIn + Repeat(y, |SampleTexts(text)|)
  {
    var chunks := SplitForTraining(text, MAX_TRAIN_CHUNK_CHARS);
    textsOut, labelsOut := AppendCleanChunks(textsIn, labelsIn, chunks, y, Normalizer.Preprocess);
  }

  /** The inner loop of the expansion: each chunk is normalised by `clean` and, when
      non-empty, appended with the label `y`. */
  method AppendCleanChunks<L>(textsIn: seq<string>, labelsIn: seq<L>, chunks: seq<string>, y: L, clean: string -> string)
    returns (textsOut: seq<string>, labelsOut: seq<L>)
    ensures textsOut == textsIn + CleanChunks(chunks, clean)
    ensures labelsOut == labelsIn + Repeat(y, |CleanChunks(chunks, clean)|)
  {
    textsOut, labelsOut := textsIn, labelsIn;
    for j := 0 to |chunks|
      invariant textsOut == textsIn + CleanChunks(chunks[..j], clean)
      invariant labelsOut == labelsIn + Repeat(y, |textsOut| - |textsIn|)
    {
      var c := clean(chunks[j]);
      CleanChunksStep(chunks, j, clean);
      if c != "" {
        textsOut, labelsOut := textsOut + [c], labelsOut + [y];
      }
    }
    assert chunks[..|chunks|] == chunks;
  }

  /** Taking one more chunk appends it, cleaned, unless it cleans to nothing. */
  lemma CleanChunksStep(chunks: seq<string>, j: nat, clean: string -> string)
    requires j < |chunks|
    ensures var c := clean(chunks[j]);
            CleanChunks(chunks[..j + 1], clean) == CleanChunks(chunks[..j], clean) + (if c != [] then [c] else [])
  {
    assert chunks[..j + 1][..j] == chunks[..j] && chunks[..j + 1][j] == chunks[j];
  }

  /** Only the zipped prefix matters. */
  lemma ExpandedOfPrefix<L>(texts: seq<Option<string>>, labels: seq<L>, n: nat)
    requires n == ZipLength(texts, labels)
    ensures ExpandedTexts(texts[..n], labels[..n]) == ExpandedTexts(texts, labels)
    ensures ExpandedLabels(texts[..n], labels[..n]) == ExpandedLabels(texts, labels)
  {
    if n > 0 {
      assert texts[..n][..n - 1] == texts[..n - 1] && labels[..n][..n - 1] == labels[..n - 1];
    }
  }

  /** Every normalised chunk kept is non-empty and in normal form. */
  lemma {:induction false} CleanChunksNormalized(chunks: seq<string>)
    ensures var cs := CleanChunks(chunks, Normalizer.Preprocess);
            && |cs| <= |chunks|
            && forall k :: 0 <= k < |cs| ==> cs[k] != [] && Normalizer.IsNormalized(cs[k])
  {
    if chunks != [] {
      CleanChunksNormalized(chunks[..|chunks| - 1]);
      Normalizer.PreprocessIsNormalized(chunks[|chunks| - 1]);
    }
  }

  /** One sample contributes at most MAX_CHUNKS_PER_SAMPLE texts, each non-empty and
      normalised. */
  lemma SampleTextsShape(text: Option<string>)
    ensures var ts := SampleTexts(text);
            && |ts| <= MAX_CHUNKS_PER_SAMPLE
            && forall k :: 0 <= k < |ts| ==> ts[k] != [] && Normalizer.IsNormalized(ts[k])
  {
    TrainingChunksShape(text, MAX_TRAIN_CHUNK_CHARS);
    CleanChunksNormalized(TrainingChunks(text, MAX_TRAIN_CHUNK_CHARS));
  }

  /** The two lists have the same length; every training text is a non-empty normalised text;
      every label is one of the samples' labels; and no sample contributes more than
      MAX_CHUNKS_PER_SAMPLE texts. */
  lemma {:induction false} ExpandedShape<L>(texts: seq<Option<string>>, labels: seq<L>)
    ensures |ExpandedTexts(texts, labels)| == |ExpandedLabels(texts, labels)|
    ensures |ExpandedTexts(texts, labels)| <= MAX_CHUNKS_PER_SAMPLE * ZipLength(texts, labels)
    ensures forall k :: 0 <= k < |ExpandedTexts(texts, labels)| ==>
              ExpandedTexts(texts, labels)[k] != [] && Normalizer.IsNormalized(ExpandedTexts(texts, labels)[k])
    ensures forall k :: 0 <= k < |ExpandedLabels(texts, labels)| ==> ExpandedLabels(texts, labels)[k] in labels
    decreases |texts|
  {
    var n := ZipLength(texts, labels);
    if n > 0 {
      var pt := ExpandedTexts(texts[..n - 1], labels[..n - 1]);
      var pl := ExpandedLabels(texts[..n - 1], labels[..n - 1]);
      ExpandedShape(texts[..n - 1], labels[..n - 1]);
      var clean := SampleTexts(texts[n - 1]);
      SampleTextsShape(texts[n - 1]);
      var et := ExpandedTexts(texts, labels);
      var el := ExpandedLabels(texts, labels);
      assert et == pt + clean;
      assert el == pl + Repeat(labels[n - 1], |clean|);
      forall k | 0 <= k < |et|
        ensures et[k] != [] && Normalizer.IsNormalized(et[k])
      {
        if k >= |pt| {
          assert et[k] == clean[k - |pt|];
        }
      }
      forall k | 0 <= k < |el|
        ensures el[k] in labels
      {
        if k < |pl| {
          assert el[k] == pl[k] && pl[k] in labels[..n - 1];
        } else {
          assert el[k] == labels[n - 1];
        }
      }
    }
  }

  // ---------------------------------------------------------------- stratification

  /** How many times `l` occurs in `y`. */
  function Count<L(==)>(y: seq<L>, l: L): nat
  {
    if y == [] then 0 else Count(y[..|y| - 1], l) + (if y[|y| - 1] == l then 1 else 0)
  }

  /** `set(y)`. */
  function Distinct<L(==)>(y: seq<L>): set<L>
  {
    set l | l in y
  }

  /** The stratification rule: at least two distinct labels, and every label at least twice. */
  predicate StratifyRule<L(==)>(y: seq<L>) {
    |Distinct(y)| > 1 && forall k :: 0 <= k < |y| ==> Count(y, y[k]) >= 2
  }

  /** `label_counts` and `min_count`, then `use_stratify`. */
  method UseStratify<L(==)>(y: seq<L>) returns (use: bool)
    ensures use == StratifyRule(y)
  {
    var counts := LabelCounts(y);
    assert |y| > 0 ==> y[0] in y;
    var minCount := 0;
    if counts != map[] {
      minCount := MinValue(counts);
    }
    var distinct := set l | l in y;
    use := |distinct| > 1 && minCount >= 2;
    if counts != map[] {
      if minCount >= 2 {
        forall k | 0 <= k < |y|
          ensures Count(y, y[k]) >= 2
        {
          assert y[k] in counts;
        }
      } else {
        var l :| l in counts && counts[l] == minCount;
        var k :| 0 <= k < |y| && y[k] == l;
      }
    } else {
      assert distinct == {};
    }
  }

  /** `Counter(y)`: each label of `y` mapped to its number of occurrences. */
  method LabelCounts<L(==)>(y: seq<L>) returns (counts: map<L, nat>)
    ensures forall l :: l in counts <==> l in y
    ensures forall l :: l in counts ==> counts[l] == Count(y, l)
  {
    counts := map[];
    for k := 0 to |y|
      invariant forall l :: l in counts <==> l in y[..k]
      invariant forall l :: l in counts ==> counts[l] == Count(y[..k], l)
    {
      var l := y[k];
      assert y[..k + 1] == y[..k] + [l];
      forall l' ensures Count(y[..k + 1], l') == Count(y[..k], l') + (if l == l' then 1 else 0) {
        CountSnoc(y[..k], l, l');
      }
      if l !in counts {
        CountAbsent(y[..k], l);
      }
      counts := counts[l := (if l in counts then counts[l] else 0) + 1];
    }
    assert y[..|y|] == y;
  }

  /** A label that does not occur is counted zero times. */
  lemma {:induction false} CountAbsent<L>(y: seq<L>, l: L)
    requires l !in y
    ensures Count(y, l) == 0
  {
    if y != [] {
      assert forall x :: x in y[..|y| - 1] ==> x in y;
      CountAbsent(y[..|y| - 1], l);
    }
  }

  lemma CountSnoc<L>(y: seq<L>, x: L, l: L)
    ensures Count(y + [x], l) == Count(y, l) + (if x == l then 1 else 0)
  {
    assert (y + [x])[..|y|] == y;
  }

  /** `min(counts.values())`, one key at a time. */
  method MinValue<L>(counts: map<L, nat>) returns (m: nat)
    requires counts != map[]
    ensures exists l :: l in counts && counts[l] == m
    ensures forall l :: l in counts ==> m <= counts[l]
  {
    var keys := counts.Keys;
    var first :| first in keys;
    m := counts[first];
    keys := keys - {first};
    while keys != {}
      invariant keys <= counts.Keys
      invariant exists l :: l in counts && counts[l] == m
      invariant forall l :: l in counts && l !in keys ==> m <= counts[l]
      decreases |keys|
    {
      var l :| l in keys;
      if counts[l] < m {
        m := counts[l];
      }
      keys := keys - {l};
    }
  }

  /** Two different labels occur at most |y| times together. */
  lemma {:induction false} CountPair<L>(y: seq<L>, a: L, b: L)
    requires a != b
    ensures Count(y, a) + Count(y, b) <= |y|
  {
    if y != [] {
      CountPair(y[..|y| - 1], a, b);
    }
  }

  /** A label of `y` occurs at least once. */
  lemma {:induction false} CountPositive<L>(y: seq<L>, k: nat)
    requires k < |y|
    ensures Count(y, y[k]) >= 1
  {
    if k < |y| - 1 {
      assert y[..|y| - 1][k] == y[k];
      CountPositive(y[..|y| - 1], k);
    }
  }

  /** Stratification needs at least four samples: two labels, each twice. */
  lemma StratifyNeedsFourSamples<L>(y: seq<L>)
    requires StratifyRule(y)
    ensures |y| >= 4
  {
    var d := Distinct(y);
    var a :| a in d;
    assert |d - {a}| == |d| - 1;
    var b :| b in d - {a};
    var i :| 0 <= i < |y| && y[i] == a;
    var j :| 0 <= j < |y| && y[j] == b;
    CountPair(y, a, b);
  }

  /** A label that occurs once turns stratification off, however many labels there are. */
  lemma SingletonLabelBlocksStratify<L>(y: seq<L>, k: nat)
    requires k < |y| && Count(y, y[k]) == 1
    ensures !StratifyRule(y)
  {
  }

  /** Two or more labels, each present at least twice, turn stratification on. */
  lemma TwoLabelsTwiceStratify<L>(y: seq<L>, a: L, b: L)
    requires a != b && a in y && b in y
    requires forall k :: 0 <= k < |y| ==> Count(y, y[k]) >= 2
    ensures StratifyRule(y)
  {
    assert a in Distinct(y) && b in Distinct(y);
    assert {a, b} <= Distinct(y);
    assert |{a, b}| == 2;
    SubsetCardinality({a, b}, Distinct(y));
  }

  lemma SubsetCardinality<L>(a: set<L>, b: set<L>)
    requires a <= b
    ensures |a| <= |b|
  {
    assert b == a + (b - a);
  }
}
