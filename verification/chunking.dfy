/** Sentence splitting and greedy packing of sentences into chunks, shared by the long-text
    path of inference (`_split_long_text`) and by training (`_split_for_training`). */
module Chunking {
  import opened Text

  predicate IsSentenceEnd(c: char) {
    c == '.' || c == '!' || c == '?'
  }

  predicate IsNewline(c: char) {
    c == '\n'
  }

  predicate Blank(s: string) {
    forall k :: 0 <= k < |s| ==> IsSpace(s[k])
  }

  /** The pieces `re.split(r"(?<=[.!?])\s+|\n+", s)` returns, for the scan that began its
      current piece at `start` and has reached `i`. A separator is either a maximal whitespace
      run right after '.', '!' or '?', or failing that a maximal run of newlines. */
  function SplitFrom(s: string, start: nat, i: nat): (pieces: seq<string>)
    requires start <= i <= |s|
    ensures pieces != []
    decreases |s| - i
  {
    if i == |s| then [s[start..]]
    else if i > 0 && IsSentenceEnd(s[i - 1]) && IsSpace(s[i]) then
      var j := |s| - |TrimLeft(s[i..], IsSpace)|;
      [s[start..i]] + SplitFrom(s, j, j)
    else if IsNewline(s[i]) then
      var j := |s| - |TrimLeft(s[i..], IsNewline)|;
      [s[start..i]] + SplitFrom(s, j, j)
    else SplitFrom(s, start, i + 1)
  }

  /** `[p.strip() for p in pieces if p.strip()]`. */
  function StrippedParts(pieces: seq<string>): (parts: seq<string>)
    ensures |parts| <= |pieces|
    ensures forall k :: 0 <= k < |parts| ==> parts[k] != [] && !IsSpace(parts[k][0]) && !IsSpace(parts[k][|parts[k]| - 1])
  {
    if pieces == [] then []
    else
      var p := Strip(pieces[0]);
      if p == [] then StrippedParts(pieces[1..]) else [p] + StrippedParts(pieces[1..])
  }

  /** The sentence parts of a text, as both chunkers compute them. */
  function SentenceParts(text: string): (parts: seq<string>)
  {
    StrippedParts(SplitFrom(text, 0, 0))
  }

  /** Stripping drops exactly the blank pieces. */
  lemma {:induction false} NoPartsMeansBlankPieces(pieces: seq<string>)
    requires StrippedParts(pieces) == []
    ensures forall k :: 0 <= k < |pieces| ==> Blank(pieces[k])
  {
    if pieces != [] {
      assert Strip(pieces[0]) == [];
      NoPartsMeansBlankPieces(pieces[1..]);
      assert forall k :: 0 < k < |pieces| ==> pieces[k] == pieces[1..][k - 1];
    }
  }

  /** A separator the scan skips is whitespace. */
  lemma SeparatorIsBlank(s: string, i: nat, drop: char -> bool)
    requires i <= |s|
    requires forall c :: drop(c) ==> IsSpace(c)
    ensures var j := |s| - |TrimLeft(s[i..], drop)|;
            i <= j && forall k :: i <= k < j ==> IsSpace(s[k])
  {
    var t := s[i..];
    var r := TrimLeft(t, drop);
    forall k | i <= k < |s| - |r|
      ensures IsSpace(s[k])
    {
      assert drop(t[k - i]);
    }
  }

  /** When every piece of a split is blank, so is the text from where the scan began. */
  lemma {:induction false} BlankPiecesBlankText(s: string, start: nat, i: nat)
    requires start <= i <= |s|
    requires forall k :: 0 <= k < |SplitFrom(s, start, i)| ==> Blank(SplitFrom(s, start, i)[k])
    ensures forall k :: start <= k < |s| ==> IsSpace(s[k])
    decreases |s| - i
  {
    var pieces := SplitFrom(s, start, i);
    if i == |s| {
      HeadPieceBlank(s, start, i, pieces);
    } else if i > 0 && IsSentenceEnd(s[i - 1]) && IsSpace(s[i]) {
      var j := |s| - |TrimLeft(s[i..], IsSpace)|;
      SeparatorIsBlank(s, i, IsSpace);
      CutBlank(s, start, i, j);
    } else if IsNewline(s[i]) {
      var j := |s| - |TrimLeft(s[i..], IsNewline)|;
      SeparatorIsBlank(s, i, IsNewline);
      CutBlank(s, start, i, j);
    } else {
      assert SplitFrom(s, start, i) == SplitFrom(s, start, i + 1);
      BlankPiecesBlankText(s, start, i + 1);
    }
  }

  /** The step of BlankPiecesBlankText at a separator `s[i..j]`. */
  lemma {:induction false} CutBlank(s: string, start: nat, i: nat, j: nat)
    requires start <= i < j <= |s|
    requires SplitFrom(s, start, i) == [s[start..i]] + SplitFrom(s, j, j)
    requires forall k :: 0 <= k < |SplitFrom(s, start, i)| ==> Blank(SplitFrom(s, start, i)[k])
    requires forall k :: i <= k < j ==> IsSpace(s[k])
    ensures forall k :: start <= k < |s| ==> IsSpace(s[k])
    decreases |s| - i, 0
  {
    var pieces := SplitFrom(s, start, i);
    var tail := SplitFrom(s, j, j);
    TailPiecesBlank(pieces, tail);
    BlankPiecesBlankText(s, j, j);
    HeadPieceBlank(s, start, i, pieces);
  }

  lemma TailPiecesBlank(pieces: seq<string>, tail: seq<string>)
    requires |pieces| == |tail| + 1 && pieces[1..] == tail
    requires forall k :: 0 <= k < |pieces| ==> Blank(pieces[k])
    ensures forall k :: 0 <= k < |tail| ==> Blank(tail[k])
  {
    assert forall k :: 0 <= k < |tail| ==> tail[k] == pieces[k + 1];
  }

  lemma HeadPieceBlank(s: string, start: nat, i: nat, pieces: seq<string>)
    requires start <= i <= |s| && pieces != [] && pieces[0] == s[start..i] && Blank(pieces[0])
    ensures forall k :: start <= k < i ==> IsSpace(s[k])
  {
    forall k | start <= k < i
      ensures IsSpace(s[k])
    {
      assert s[k] == pieces[0][k - start];
    }
  }

  /** A text that is not blank has at least one sentence part, so the chunkers' fallback for
      "no parts" is reached only by blank text. */
  lemma NonBlankTextHasParts(text: string)
    requires Strip(text) != []
    ensures SentenceParts(text) != []
  {
    if SentenceParts(text) == [] {
      NoPartsMeansBlankPieces(SplitFrom(text, 0, 0));
      BlankPiecesBlankText(text, 0, 0);
    }
  }

  /** Python's `" ".join` of each group. */
  function JoinAll(groups: seq<seq<string>>): (chunks: seq<string>)
    ensures |chunks| == |groups|
    ensures forall k :: 0 <= k < |groups| ==> chunks[k] == JoinSpace(groups[k])
  {
    seq(|groups|, k requires 0 <= k < |groups| => JoinSpace(groups[k]))
  }

  /** The concatenation of the groups, in order. */
  function Flatten(groups: seq<seq<string>>): seq<string>
  {
    if groups == [] then [] else groups[0] + Flatten(groups[1..])
  }

  /** The greedy packing: the open group `group` takes the next part while its joined length
      plus a space plus the part stays within `target`; otherwise the group is closed and the
      part opens the next one. */
  function PackGroups(group: seq<string>, rest: seq<string>, target: nat): seq<seq<string>>
    decreases |rest|
  {
    if rest == [] then (if group == [] then [] else [group])
    else if group == [] then PackGroups([rest[0]], rest[1..], target)
    else if |JoinSpace(group)| + 1 + |rest[0]| <= target then PackGroups(group + [rest[0]], rest[1..], target)
    else [group] + PackGroups([rest[0]], rest[1..], target)
  }

  /** `chunks[:n]`. */
  function Take(chunks: seq<string>, n: nat): (r: seq<string>)
    ensures r <= chunks && |r| == if |chunks| < n then |chunks| else n
  {
    if |chunks| > n then chunks[..n] else chunks
  }

  /** The chunks of a list of parts. */
  function Chunks(parts: seq<string>, target: nat): seq<string>
  {
    JoinAll(PackGroups([], parts, target))
  }

  /** The parts, in order and each whole, are exactly what the groups hold. */
  lemma {:induction false} PackKeepsParts(group: seq<string>, rest: seq<string>, target: nat)
    ensures Flatten(PackGroups(group, rest, target)) == group + rest
    decreases |rest|
  {
    if rest == [] {
      if group != [] {
        assert Flatten([group]) == group + Flatten([]);
      }
    } else if group == [] {
      PackKeepsParts([rest[0]], rest[1..], target);
    } else if |JoinSpace(group)| + 1 + |rest[0]| <= target {
      PackKeepsParts(group + [rest[0]], rest[1..], target);
      assert group + [rest[0]] + rest[1..] == group + rest;
    } else {
      PackKeepsParts([rest[0]], rest[1..], target);
      var tail := PackGroups([rest[0]], rest[1..], target);
      assert ([group] + tail)[1..] == tail;
      assert [rest[0]] + rest[1..] == rest;
    }
  }

  /** A group that holds one part, or that fits the target once joined. */
  predicate Fits(group: seq<string>, target: nat) {
    |group| <= 1 || |JoinSpace(group)| <= target
  }

  /** The group after group `k` is non-empty and its first part would not have fitted after
      group `k`. */
  predicate NextOverflows(gs: seq<seq<string>>, k: nat, target: nat)
    requires k + 1 < |gs|
  {
    gs[k + 1] != [] && |JoinSpace(gs[k])| + 1 + |gs[k + 1][0]| > target
  }

  /** No group is empty and every group fits. */
  predicate AllFit(gs: seq<seq<string>>, target: nat) {
    forall k :: 0 <= k < |gs| ==> gs[k] != [] && Fits(gs[k], target)
  }

  /** Every group but the last was closed because the next part did not fit. */
  predicate Greedy(gs: seq<seq<string>>, target: nat) {
    forall k :: 0 <= k < |gs| - 1 ==> NextOverflows(gs, k, target)
  }

  /** No group is empty, and a group of two or more parts joins to at most `target`
      characters. */
  lemma {:induction false} PackGroupsFit(group: seq<string>, rest: seq<string>, target: nat)
    requires Fits(group, target)
    ensures AllFit(PackGroups(group, rest, target), target)
    decreases |rest|
  {
    var gs := PackGroups(group, rest, target);
    if rest == [] {
    } else if group == [] {
      assert gs == PackGroups([rest[0]], rest[1..], target);
      PackGroupsFit([rest[0]], rest[1..], target);
    } else if |JoinSpace(group)| + 1 + |rest[0]| <= target {
      JoinSpaceSnoc(group, rest[0]);
      assert gs == PackGroups(group + [rest[0]], rest[1..], target);
      PackGroupsFit(group + [rest[0]], rest[1..], target);
    } else {
      var tail := PackGroups([rest[0]], rest[1..], target);
      assert gs == [group] + tail;
      PackGroupsFit([rest[0]], rest[1..], target);
      assert gs[0] == group;
      assert forall k :: 1 <= k < |gs| ==> gs[k] == tail[k - 1];
    }
  }

  /** The packing is greedy: a group is closed only when the next part does not fit after
      it. */
  lemma {:induction false} PackIsGreedy(group: seq<string>, rest: seq<string>, target: nat)
    ensures Greedy(PackGroups(group, rest, target), target)
    decreases |rest|
  {
    var gs := PackGroups(group, rest, target);
    if rest == [] {
    } else if group == [] {
      assert gs == PackGroups([rest[0]], rest[1..], target);
      PackIsGreedy([rest[0]], rest[1..], target);
    } else if |JoinSpace(group)| + 1 + |rest[0]| <= target {
      assert gs == PackGroups(group + [rest[0]], rest[1..], target);
      PackIsGreedy(group + [rest[0]], rest[1..], target);
    } else {
      var tail := PackGroups([rest[0]], rest[1..], target);
      assert gs == [group] + tail;
      PackIsGreedy([rest[0]], rest[1..], target);
      PackStartsWith([rest[0]], rest[1..], target);
      assert NextOverflows(gs, 0, target);
      forall k | 1 <= k < |gs| - 1
        ensures NextOverflows(gs, k, target)
      {
        assert NextOverflows(tail, k - 1, target);
        assert gs[k] == tail[k - 1] && gs[k + 1] == tail[k];
      }
    }
  }

  /** The first group extends the open group. */
  lemma {:induction false} PackStartsWith(group: seq<string>, rest: seq<string>, target: nat)
    requires group != []
    ensures var gs := PackGroups(group, rest, target);
            gs != [] && group <= gs[0]
    decreases |rest|
  {
    if rest != [] {
      if |JoinSpace(group)| + 1 + |rest[0]| <= target {
        PackStartsWith(group + [rest[0]], rest[1..], target);
      }
    }
  }

  /** The first part of a non-empty join is a prefix of it. */
  lemma {:induction false} JoinSpaceStartsWithFirst(parts: seq<string>)
    requires parts != []
    ensures parts[0] <= JoinSpace(parts)
    decreases |parts|
  {
    if |parts| > 1 {
      JoinSpaceStartsWithFirst(parts[..|parts| - 1]);
    }
  }

  /** Joining the joined groups is joining all their parts. */
  lemma {:induction false} JoinAllFlatten(groups: seq<seq<string>>)
    requires forall k :: 0 <= k < |groups| ==> groups[k] != []
    ensures JoinSpace(JoinAll(groups)) == JoinSpace(Flatten(groups))
    decreases |groups|
  {
    if |groups| == 1 {
      assert JoinAll(groups) == [JoinSpace(groups[0])];
      assert groups[1..] == [];
      assert Flatten(groups) == groups[0] + Flatten([]);
      assert groups[0] + [] == groups[0];
    } else if |groups| > 1 {
      var tail := groups[1..];
      JoinAllFlatten(tail);
      assert JoinAll(groups) == [JoinSpace(groups[0])] + JoinAll(tail);
      JoinSpaceAppend([JoinSpace(groups[0])], JoinAll(tail));
      assert Flatten(tail) != [] by {
        assert Flatten(tail) == tail[0] + Flatten(tail[1..]);
      }
      JoinSpaceAppend(groups[0], Flatten(tail));
    }
  }

  /** Every part of a group is one of the parts. */
  lemma {:induction false} FlattenContains(gs: seq<seq<string>>, k: nat)
    requires k < |gs|
    ensures forall m :: 0 <= m < |gs[k]| ==> gs[k][m] in Flatten(gs)
    decreases k
  {
    if k > 0 {
      FlattenContains(gs[1..], k - 1);
    }
  }

  /** A group of stripped, non-empty parts joins to a stripped, non-empty chunk. */
  lemma StrippedChunk(gs: seq<seq<string>>, parts: seq<string>, k: nat)
    requires Flatten(gs) == parts && k < |gs| && gs[k] != []
    requires forall m :: 0 <= m < |parts| ==> parts[m] != [] && !IsSpace(parts[m][0]) && !IsSpace(parts[m][|parts[m]| - 1])
    ensures var c := JoinSpace(gs[k]);
            c != [] && !IsSpace(c[0]) && !IsSpace(c[|c| - 1])
  {
    FlattenContains(gs, k);
    JoinSpaceEnds(gs[k]);
  }

  /** The chunks of stripped, non-empty parts: a non-empty list of non-empty, stripped chunks
      which, joined by single spaces, give back the parts joined by single spaces. */
  lemma ChunksOfParts(parts: seq<string>, target: nat)
    requires parts != []
    requires forall k :: 0 <= k < |parts| ==> parts[k] != [] && !IsSpace(parts[k][0]) && !IsSpace(parts[k][|parts[k]| - 1])
    ensures var cs := Chunks(parts, target);
            && cs != []
            && JoinSpace(cs) == JoinSpace(parts)
            && forall k :: 0 <= k < |cs| ==> cs[k] != [] && !IsSpace(cs[k][0]) && !IsSpace(cs[k][|cs[k]| - 1])
  {
    var gs := PackGroups([], parts, target);
    PackKeepsParts([], parts, target);
    assert [] + parts == parts;
    PackGroupsFit([], parts, target);
    JoinAllFlatten(gs);
    PackStartsWith([parts[0]], parts[1..], target);
    forall k | 0 <= k < |gs|
      ensures var c := JoinSpace(gs[k]); c != [] && !IsSpace(c[0]) && !IsSpace(c[|c| - 1])
    {
      StrippedChunk(gs, parts, k);
    }
  }

  /** One step of the packing, case by case. */
  lemma PackStep(group: seq<string>, rest: seq<string>, target: nat)
    requires rest != []
    ensures group == [] ==> PackGroups(group, rest, target) == PackGroups([rest[0]], rest[1..], target)
    ensures group != [] && |JoinSpace(group)| + 1 + |rest[0]| <= target ==>
              PackGroups(group, rest, target) == PackGroups(group + [rest[0]], rest[1..], target)
    ensures group != [] && |JoinSpace(group)| + 1 + |rest[0]| > target ==>
              PackGroups(group, rest, target) == [group] + PackGroups([rest[0]], rest[1..], target)
  {
  }

  /** `_split_long_text(text, target)`. */
  method SplitLongText(text: string, target: nat) returns (chunks: seq<string>)
    ensures var parts := SentenceParts(text);
            chunks == if parts == [] then [text] else Chunks(parts, target)
  {
    var parts := SentenceParts(text);
    if parts == [] {
      return [text];
    }
    chunks := PackParts(parts, target);
  }

  /** The packing loop of `_split_long_text`: `current` collects parts while they fit and is
      appended to `chunks` when the next part does not. */
  method PackParts(parts: seq<string>, target: nat) returns (chunks: seq<string>)
    requires forall k :: 0 <= k < |parts| ==> parts[k] != []
    ensures chunks == Chunks(parts, target)
  {
    chunks := [];
    var current := "";
    ghost var group: seq<string> := [];
    ghost var done: seq<seq<string>> := [];
    for i := 0 to |parts|
      invariant current == JoinSpace(group)
      invariant group != [] ==> group[0] != [] && current != []
      invariant chunks == JoinAll(done)
      invariant done + PackGroups(group, parts[i..], target) == PackGroups([], parts, target)
    {
      var part := parts[i];
      PackStep(group, parts[i..], target);
      assert parts[i..][0] == part && parts[i..][1..] == parts[i + 1..];
      if current == "" {
        current, group := part, [part];
      } else if |current| + 1 + |part| <= target {
        JoinSpaceSnoc(group, part);
        current, group := current + " " + part, group + [part];
      } else {
        chunks, done := chunks + [current], done + [group];
        current, group := part, [part];
      }
      JoinSpaceStartsWithFirst(group);
    }
    if current != "" {
      chunks, done := chunks + [current], done + [group];
    }
    assert done == PackGroups([], parts, target);
  }
}
