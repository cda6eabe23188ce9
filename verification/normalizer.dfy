/** The text normaliser `preprocess_text`, on the path where no lemmatiser is installed. */
module Normalizer {
  import opened Text

  /** EMOJI_MAP, in its declared order. */
  const EMOJI_MAP: seq<(string, string)> := [(":)", "happy"), (":(", "sad"), (":D", "happy"), (":P", "playful")]

  predicate ValidEmojiTable(table: seq<(string, string)>) {
    forall k :: 0 <= k < |table| ==> table[k].0 != [] && table[k].0[0] == ':' && NoUpper(table[k].1)
  }

  /** The loop `for k, v in EMOJI_MAP.items(): text = text.replace(k, f" {v} ")`. */
  function ReplaceEmoji(s: string, table: seq<(string, string)>): string
    requires ValidEmojiTable(table)
    decreases |table|
  {
    if table == [] then s
    else ReplaceEmoji(ReplaceAll(s, table[0].0, " " + table[0].1 + " "), table[1..])
  }

  /** `re.sub(r"[^\w\s]", " ", s)`: every character that is neither a word character nor
      whitespace becomes a space. */
  function BlankNonWord(s: string): (r: string)
    ensures |r| == |s|
    ensures forall i :: 0 <= i < |s| ==> r[i] == if IsWordChar(s[i]) || IsSpace(s[i]) then s[i] else ' '
  {
    seq(|s|, i requires 0 <= i < |s| => if IsWordChar(s[i]) || IsSpace(s[i]) then s[i] else ' ')
  }

  /** `re.sub(r"\s+", " ", s)`: every maximal whitespace run becomes one space. */
  function SquashSpaces(s: string): string
    decreases |s|
  {
    if s == [] then []
    else if IsSpace(s[0]) then
      var rest := TrimLeft(s, IsSpace);
      " " + SquashSpaces(rest)
    else [s[0]] + SquashSpaces(s[1..])
  }

  /** `preprocess_text(text)` when the lemmatiser is absent. */
  function Preprocess(text: string): string
  {
    if text == "" then ""
    else Strip(SquashSpaces(BlankNonWord(ReplaceEmoji(Lower(text), EMOJI_MAP))))
  }

  /** A character the normaliser may output: a lower-case word character or a plain space. */
  predicate CleanChar(c: char) {
    c == ' ' || (IsWordChar(c) && !IsUpper(c))
  }

  /** Only clean characters, and never two spaces in a row. */
  predicate SingleSpaced(s: string) {
    && (forall i :: 0 <= i < |s| ==> CleanChar(s[i]))
    && (forall i :: 0 <= i < |s| - 1 ==> !(s[i] == ' ' && s[i + 1] == ' '))
  }

  /** The shape of every normalised text: single-spaced, with no space at either end. */
  predicate IsNormalized(s: string) {
    SingleSpaced(s) && (s == [] || (s[0] != ' ' && s[|s| - 1] != ' '))
  }

  lemma {:induction false} ReplaceEmojiNoUpper(s: string, table: seq<(string, string)>)
    requires ValidEmojiTable(table) && NoUpper(s)
    ensures NoUpper(ReplaceEmoji(s, table))
    decreases |table|
  {
    if table != [] {
      var rep := " " + table[0].1 + " ";
      ReplaceKeepsNoUpper(s, table[0].0, rep);
      ReplaceEmojiNoUpper(ReplaceAll(s, table[0].0, rep), table[1..]);
    }
  }

  /** Squashing a text of clean characters and whitespace gives a single-spaced text that starts
      with a space exactly when the input starts with whitespace. */
  lemma {:induction false} SquashSpacesShape(s: string)
    requires forall i :: 0 <= i < |s| ==> CleanChar(s[i]) || IsSpace(s[i])
    ensures var r := SquashSpaces(s); SingleSpaced(r) && (r == [] <==> s == [])
    ensures s != [] ==> (SquashSpaces(s)[0] == ' ' <==> IsSpace(s[0]))
    decreases |s|
  {
    if s != [] {
      if IsSpace(s[0]) {
        var rest := TrimLeft(s, IsSpace);
        assert forall i :: 0 <= i < |rest| ==> rest[i] == s[|s| - |rest| + i];
        SquashSpacesShape(rest);
        SingleSpacedCons(' ', SquashSpaces(rest));
      } else {
        assert forall i :: 0 <= i < |s[1..]| ==> s[1..][i] == s[i + 1];
        SquashSpacesShape(s[1..]);
        assert s[0] != ' ';
        SingleSpacedCons(s[0], SquashSpaces(s[1..]));
      }
    }
  }

  /** A clean character in front of a single-spaced text keeps it single-spaced, unless both are
      spaces. */
  lemma SingleSpacedCons(c: char, tail: string)
    requires CleanChar(c) && SingleSpaced(tail)
    requires c == ' ' ==> tail == [] || tail[0] != ' '
    ensures SingleSpaced([c] + tail)
  {
    var r := [c] + tail;
    assert forall i :: 1 <= i < |r| ==> r[i] == tail[i - 1];
  }

  /** A stretch of a single-spaced text is single-spaced. */
  lemma SingleSpacedSlice(s: string, a: nat, b: nat)
    requires a <= b <= |s| && SingleSpaced(s)
    ensures SingleSpaced(s[a..b])
  {
    var t := s[a..b];
    assert forall i :: 0 <= i < |t| ==> t[i] == s[a + i];
  }

  /** After blanking, a text without upper-case letters holds only clean characters and whitespace. */
  lemma BlankNonWordClean(s: string)
    requires NoUpper(s)
    ensures forall i :: 0 <= i < |s| ==> CleanChar(BlankNonWord(s)[i]) || IsSpace(BlankNonWord(s)[i])
  {
    var r := BlankNonWord(s);
    forall i | 0 <= i < |s|
      ensures CleanChar(r[i]) || IsSpace(r[i])
    {
      assert !IsUpper(s[i]);
    }
  }

  /** On the path without a lemmatiser the output is lower-case, holds only word characters and
      single spaces, and has no space at either end. */
  lemma PreprocessIsNormalized(text: string)
    ensures IsNormalized(Preprocess(text))
  {
    if text != "" {
      var lowered := Lower(text);
      LowerHasNoUpper(text);
      var replaced := ReplaceEmoji(lowered, EMOJI_MAP);
      ReplaceEmojiNoUpper(lowered, EMOJI_MAP);
      var blanked := BlankNonWord(replaced);
      BlankNonWordClean(replaced);
      var squashed := SquashSpaces(blanked);
      SquashSpacesShape(blanked);
      var r := Strip(squashed);
      assert Preprocess(text) == r;
      var o := |squashed| - |TrimLeft(squashed, IsSpace)|;
      SingleSpacedSlice(squashed, o, o + |r|);
    }
  }

  /** Lower-casing a text without upper-case letters changes nothing. */
  lemma LowerNoUpperFixed(s: string)
    requires NoUpper(s)
    ensures Lower(s) == s
  {
  }

  /** The emoji replacements do not touch a text without ':'. */
  lemma {:induction false} ReplaceEmojiFixed(s: string, table: seq<(string, string)>)
    requires ValidEmojiTable(table)
    requires forall i :: 0 <= i < |s| ==> s[i] != ':'
    ensures ReplaceEmoji(s, table) == s
    decreases |table|
  {
    if table != [] {
      NotContainedWhenCharMissing(s, table[0].0, 0);
      ReplaceAbsent(s, table[0].0, " " + table[0].1 + " ");
      ReplaceEmojiFixed(s, table[1..]);
    }
  }

  /** Squashing a single-spaced text changes nothing. */
  lemma {:induction false} SquashSpacesFixed(s: string)
    requires SingleSpaced(s)
    ensures SquashSpaces(s) == s
    decreases |s|
  {
    if s != [] {
      var tail := s[1..];
      SingleSpacedSlice(s, 1, |s|);
      SquashSpacesFixed(tail);
      if IsSpace(s[0]) {
        assert s[0] == ' ' && (tail == [] || tail[0] == s[1]);
        assert tail == [] || !IsSpace(tail[0]);
        assert TrimLeft(tail, IsSpace) == tail;
        assert SquashSpaces(s) == " " + SquashSpaces(tail);
      } else {
        assert SquashSpaces(s) == [s[0]] + SquashSpaces(tail);
      }
      assert s == [s[0]] + tail;
    }
  }

  /** Lower-casing and blanking leave a single-spaced text as it is; it holds no ':'. */
  lemma CleanTextUnchangedByLowerAndBlank(s: string)
    requires SingleSpaced(s)
    ensures Lower(s) == s && BlankNonWord(s) == s
    ensures forall i :: 0 <= i < |s| ==> s[i] != ':'
  {
    assert NoUpper(s);
    LowerNoUpperFixed(s);
    assert forall i :: 0 <= i < |s| ==> IsWordChar(s[i]) || IsSpace(s[i]);
  }

  /** A normalised text is a fixed point of the normaliser. */
  lemma NormalizedIsFixed(s: string)
    requires IsNormalized(s)
    ensures Preprocess(s) == s
  {
    if s != "" {
      CleanTextUnchangedByLowerAndBlank(s);
      ReplaceEmojiFixed(s, EMOJI_MAP);
      SquashSpacesFixed(s);
      assert !IsSpace(s[0]) && !IsSpace(s[|s| - 1]);
      StripUnchanged(s);
      calc {
        Preprocess(s);
        Strip(SquashSpaces(BlankNonWord(ReplaceEmoji(Lower(s), EMOJI_MAP))));
        Strip(SquashSpaces(BlankNonWord(s)));
        s;
      }
    }
  }

  /** Normalising twice is normalising once. */
  lemma PreprocessIdempotent(text: string)
    ensures Preprocess(Preprocess(text)) == Preprocess(text)
  {
    PreprocessIsNormalized(text);
    NormalizedIsFixed(Preprocess(text));
  }

  /** The ":D" and ":P" entries never fire: the text is lower-cased before the table is applied,
      so only the ":)" and ":(" entries can change it. */
  lemma UpperCaseEmojiNeverFire(text: string)
    ensures ReplaceEmoji(Lower(text), EMOJI_MAP) == ReplaceEmoji(Lower(text), EMOJI_MAP[..2])
  {
    var lowered := Lower(text);
    LowerHasNoUpper(text);
    var once := ReplaceAll(lowered, ":)", " happy ");
    ReplaceKeepsNoUpper(lowered, ":)", " happy ");
    var twice := ReplaceAll(once, ":(", " sad ");
    ReplaceKeepsNoUpper(once, ":(", " sad ");
    EmojiRounds(lowered);
    EmojiRounds(once);
    EmojiTableTailsValid(2);
    UpperCaseKeysInert(twice, EMOJI_MAP[2..]);
    FirstTwoRounds(lowered);
  }

  /** Entries whose key has an upper-case second character leave a text without upper-case
      letters unchanged. */
  lemma {:induction false} UpperCaseKeysInert(s: string, table: seq<(string, string)>)
    requires ValidEmojiTable(table) && NoUpper(s)
    requires forall k :: 0 <= k < |table| ==> |table[k].0| > 1 && IsUpper(table[k].0[1])
    ensures ReplaceEmoji(s, table) == s
    decreases |table|
  {
    if table != [] {
      NotContainedWhenCharMissing(s, table[0].0, 1);
      ReplaceAbsent(s, table[0].0, " " + table[0].1 + " ");
      UpperCaseKeysInert(s, table[1..]);
    }
  }

  /** The first two entries of the table, applied in order. */
  lemma FirstTwoRounds(s: string)
    ensures ReplaceEmoji(s, EMOJI_MAP[..2]) == ReplaceAll(ReplaceAll(s, ":)", " happy "), ":(", " sad ")
  {
    var head := EMOJI_MAP[..2];
    assert head[0] == (":)", "happy") && head[1..] == [(":(", "sad")] && head[1..][1..] == [];
    assert " " + "happy" + " " == " happy " && " " + "sad" + " " == " sad ";
    var once := ReplaceAll(s, ":)", " happy ");
    var twice := ReplaceAll(once, ":(", " sad ");
    assert ReplaceEmoji(s, head) == ReplaceEmoji(once, head[1..]);
    assert ReplaceEmoji(once, head[1..]) == ReplaceEmoji(twice, head[1..][1..]);
  }

  /** Strip of a word padded with one space on each side. */
  lemma StripPadded(w: string)
    requires w != [] && !IsSpace(w[0]) && !IsSpace(w[|w| - 1])
    ensures Strip(" " + w + " ") == w
  {
    var padded := " " + w + " ";
    assert padded[1..] == w + " ";
    assert TrimLeft(w + " ", IsSpace) == w + " ";
    assert TrimLeft(padded, IsSpace) == w + " ";
    assert (w + " ")[..|w|] == w;
    assert TrimRight(w, IsSpace) == w;
    assert TrimRight(w + " ", IsSpace) == w;
  }

  /** Replacing a whole text that is exactly the pattern gives the replacement. */
  lemma ReplaceWhole(pat: string, rep: string)
    requires pat != []
    ensures ReplaceAll(pat, pat, rep) == rep
  {
    assert pat[|pat|..] == [];
  }

  /** The first two rounds of the replacement loop, named by their table entries. */
  lemma EmojiRounds(s: string)
    ensures ReplaceEmoji(s, EMOJI_MAP) == ReplaceEmoji(ReplaceAll(s, ":)", " happy "), EMOJI_MAP[1..])
    ensures ReplaceEmoji(s, EMOJI_MAP[1..]) == ReplaceEmoji(ReplaceAll(s, ":(", " sad "), EMOJI_MAP[2..])
  {
    assert " " + "happy" + " " == " happy " && " " + "sad" + " " == " sad ";
    assert EMOJI_MAP[1..][1..] == EMOJI_MAP[2..];
  }

  lemma EmojiTableTailsValid(k: nat)
    requires k <= |EMOJI_MAP|
    ensures ValidEmojiTable(EMOJI_MAP[k..])
  {
  }

  /** Once a text is a padded lower-case word, the rest of the pipeline yields the word. */
  lemma PaddedWordSurvives(w: string, table: seq<(string, string)>)
    requires w != [] && forall i :: 0 <= i < |w| ==> 'a' <= w[i] <= 'z'
    requires ValidEmojiTable(table)
    ensures Strip(SquashSpaces(BlankNonWord(ReplaceEmoji(" " + w + " ", table)))) == w
  {
    var padded := " " + w + " ";
    PaddedWordSingleSpaced(w);
    CleanTextUnchangedByLowerAndBlank(padded);
    ReplaceEmojiFixed(padded, table);
    assert ReplaceEmoji(padded, table) == padded;
    PaddedWordUnchanged(w);
    assert SquashSpaces(BlankNonWord(padded)) == padded;
    StripPadded(w);
  }

  lemma SmileStages(smile: string, w: string)
    requires smile == ":)" && w == "happy"
    ensures Preprocess(smile) == w
  {
    LowerNoUpperFixed(smile);
    EmojiRounds(smile);
    ReplaceWhole(smile, " " + w + " ");
    EmojiTableTailsValid(1);
    PaddedWordSurvives(w, EMOJI_MAP[1..]);
  }

  lemma FrownStages(frown: string, w: string)
    requires frown == ":(" && w == "sad"
    ensures Preprocess(frown) == w
  {
    LowerNoUpperFixed(frown);
    EmojiRounds(frown);
    NotContainedWhenCharMissing(frown, ":)", 1);
    ReplaceAbsent(frown, ":)", " happy ");
    ReplaceWhole(frown, " " + w + " ");
    EmojiTableTailsValid(2);
    PaddedWordSurvives(w, EMOJI_MAP[2..]);
  }

  /** The emoticon ":)" is read as the word "happy". */
  lemma SmileReadAsHappy()
    ensures Preprocess(":)") == "happy"
  {
    SmileStages(":)", "happy");
  }

  /** The emoticon ":(" is read as the word "sad". */
  lemma FrownReadAsSad()
    ensures Preprocess(":(") == "sad"
  {
    FrownStages(":(", "sad");
  }

  /** A lower-case word padded with one space on each side is single-spaced. */
  lemma PaddedWordSingleSpaced(w: string)
    requires w != [] && forall i :: 0 <= i < |w| ==> 'a' <= w[i] <= 'z'
    ensures SingleSpaced(" " + w + " ")
  {
    var padded := " " + w + " ";
    assert forall i :: 0 < i < |padded| - 1 ==> padded[i] == w[i - 1];
    assert forall i :: 0 <= i < |padded| ==> CleanChar(padded[i]);
    assert forall i :: 0 < i < |padded| - 1 ==> padded[i] != ' ';
  }

  /** A lower-case word padded with one space on each side passes blanking and squashing as it is. */
  lemma PaddedWordUnchanged(w: string)
    requires w != [] && forall i :: 0 <= i < |w| ==> 'a' <= w[i] <= 'z'
    ensures BlankNonWord(" " + w + " ") == " " + w + " "
    ensures SquashSpaces(" " + w + " ") == " " + w + " "
  {
    PaddedWordSingleSpaced(w);
    CleanTextUnchangedByLowerAndBlank(" " + w + " ");
    SquashSpacesFixed(" " + w + " ");
  }

  /** Empty input is normalised to the empty string. */
  lemma EmptyStaysEmpty()
    ensures Preprocess("") == ""
  {
  }
}
