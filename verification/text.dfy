/** Character classes and the handful of Python string operations the engine relies on:
    `str.lower`, `in` (substring containment), `str.replace`, `str.strip` and `" ".join`. */
module Text {

  datatype Option<T> = None | Some(value: T)

  /** Exactly the characters for which Python's `str.isspace()` holds; the regex class `\s`
      on `str` patterns matches the same set. */
  predicate IsSpace(c: char) {
    || c == ' '
    || ('\t' <= c <= '\r')
    || ('\U{1C}' <= c <= '\U{1F}')
    || c == '\U{85}' || c == '\U{A0}' || c == '\U{1680}'
    || ('\U{2000}' <= c <= '\U{200A}')
    || c == '\U{2028}' || c == '\U{2029}' || c == '\U{202F}' || c == '\U{205F}' || c == '\U{3000}'
  }

  /** The regex class `\w`, restricted to ASCII: letters, digits and underscore. */
  predicate IsWordChar(c: char) {
    ('a' <= c <= 'z') || ('A' <= c <= 'Z') || ('0' <= c <= '9') || c == '_'
  }

  predicate IsUpper(c: char) {
    'A' <= c <= 'Z'
  }

  function LowerChar(c: char): (r: char)
    ensures !IsUpper(r)
    ensures IsUpper(c) ==> r as int == c as int + 32
    ensures !IsUpper(c) ==> r == c
  {
    if IsUpper(c) then (c as int + 32) as char else c
  }

  /** `str.lower()` on the ASCII letters. */
  function Lower(s: string): (r: string)
    ensures |r| == |s|
    ensures forall i :: 0 <= i < |s| ==> r[i] == LowerChar(s[i])
  {
    seq(|s|, i requires 0 <= i < |s| => LowerChar(s[i]))
  }

  predicate NoUpper(s: string) {
    forall i :: 0 <= i < |s| ==> !IsUpper(s[i])
  }

  lemma LowerHasNoUpper(s: string)
    ensures NoUpper(Lower(s))
  {
  }

  /** Python's `needle in haystack` for strings. */
  predicate Contains(haystack: string, needle: string)
    decreases |haystack|
  {
    needle <= haystack || (|haystack| > 0 && Contains(haystack[1..], needle))
  }

  /** A match at a known offset is a match. */
  lemma {:induction false} ContainsAt(haystack: string, needle: string, i: nat)
    requires i + |needle| <= |haystack| && haystack[i..i + |needle|] == needle
    ensures Contains(haystack, needle)
    decreases i
  {
    if i == 0 {
      assert needle <= haystack;
    } else {
      assert haystack[1..][i - 1..i - 1 + |needle|] == needle;
      ContainsAt(haystack[1..], needle, i - 1);
    }
  }

  /** A match is found at some offset of the haystack. */
  lemma {:induction false} ContainsWitness(haystack: string, needle: string) returns (i: nat)
    requires Contains(haystack, needle)
    ensures i + |needle| <= |haystack| && haystack[i..i + |needle|] == needle
    decreases |haystack|
  {
    if needle <= haystack {
      i := 0;
    } else {
      var j := ContainsWitness(haystack[1..], needle);
      i := j + 1;
      assert haystack[i..i + |needle|] == haystack[1..][j..j + |needle|];
    }
  }

  /** A needle holding a character the haystack lacks is never found. */
  lemma {:induction false} NotContainedWhenCharMissing(haystack: string, needle: string, k: nat)
    requires k < |needle|
    requires forall i :: 0 <= i < |haystack| ==> haystack[i] != needle[k]
    ensures !Contains(haystack, needle)
    decreases |haystack|
  {
    assert |haystack| <= k || haystack[k] != needle[k];
    if |haystack| > 0 {
      NotContainedWhenCharMissing(haystack[1..], needle, k);
    }
  }

  /** Python's `any(k in s for k in keys)`. */
  predicate AnyContained(s: string, keys: seq<string>) {
    exists k :: 0 <= k < |keys| && Contains(s, keys[k])
  }

  /** How many of `keys` occur in `s` (each key counted once, whatever its number of occurrences). */
  function CountContained(keys: seq<string>, s: string): (n: nat)
    ensures n <= |keys|
    ensures n == 0 <==> !AnyContained(s, keys)
  {
    if keys == [] then 0
    else
      var rest := CountContained(keys[..|keys| - 1], s);
      assert forall k :: 0 <= k < |keys| - 1 ==> keys[..|keys| - 1][k] == keys[k];
      rest + (if Contains(s, keys[|keys| - 1]) then 1 else 0)
  }

  /** Python's `s.replace(pat, rep)`: leftmost, non-overlapping occurrences. */
  function ReplaceAll(s: string, pat: string, rep: string): string
    requires pat != []
    decreases |s|
  {
    if s == [] then []
    else if pat <= s then rep + ReplaceAll(s[|pat|..], pat, rep)
    else [s[0]] + ReplaceAll(s[1..], pat, rep)
  }

  /** Replacing a pattern that does not occur leaves the text as it is. */
  lemma {:induction false} ReplaceAbsent(s: string, pat: string, rep: string)
    requires pat != [] && !Contains(s, pat)
    ensures ReplaceAll(s, pat, rep) == s
    decreases |s|
  {
    if s != [] {
      ReplaceAbsent(s[1..], pat, rep);
    }
  }

  /** Replacing by a text without upper-case letters adds none. */
  lemma {:induction false} ReplaceKeepsNoUpper(s: string, pat: string, rep: string)
    requires pat != [] && NoUpper(s) && NoUpper(rep)
    ensures NoUpper(ReplaceAll(s, pat, rep))
    decreases |s|
  {
    if s != [] {
      if pat <= s {
        ReplaceKeepsNoUpper(s[|pat|..], pat, rep);
      } else {
        ReplaceKeepsNoUpper(s[1..], pat, rep);
      }
    }
  }

  /** Python's `s.lstrip(chars)`, with the stripped characters given by `drop`. */
  function TrimLeft(s: string, drop: char -> bool): (r: string)
    ensures |r| <= |s| && r == s[|s| - |r|..]
    ensures r == [] || !drop(r[0])
    ensures forall i :: 0 <= i < |s| - |r| ==> drop(s[i])
    decreases |s|
  {
    if s != [] && drop(s[0]) then
      var r := TrimLeft(s[1..], drop);
      assert s[1..][|s| - 1 - |r|..] == s[|s| - |r|..];
      assert forall i :: 1 <= i < |s| - |r| ==> s[i] == s[1..][i - 1];
      r
    else s
  }

  /** Python's `s.rstrip(chars)`. */
  function TrimRight(s: string, drop: char -> bool): (r: string)
    ensures |r| <= |s| && r == s[..|r|]
    ensures r == [] || !drop(r[|r| - 1])
    ensures forall i :: |r| <= i < |s| ==> drop(s[i])
    decreases |s|
  {
    if s != [] && drop(s[|s| - 1]) then TrimRight(s[..|s| - 1], drop) else s
  }

  /** Python's `s.strip(chars)`: the longest middle part that neither starts nor ends with a
      dropped character. */
  function Trim(s: string, drop: char -> bool): (r: string)
    ensures r == [] || (!drop(r[0]) && !drop(r[|r| - 1]))
    ensures var o := |s| - |TrimLeft(s, drop)|; o + |r| <= |s| && r == s[o..o + |r|]
    ensures r == [] <==> forall i :: 0 <= i < |s| ==> drop(s[i])
  {
    var left := TrimLeft(s, drop);
    var r := TrimRight(left, drop);
    assert r == [] ==> left == [];
    r
  }

  /** Python's `s.strip()`. */
  function Strip(s: string): (r: string)
    ensures r == [] || (!IsSpace(r[0]) && !IsSpace(r[|r| - 1]))
    ensures var o := |s| - |TrimLeft(s, IsSpace)|; o + |r| <= |s| && r == s[o..o + |r|]
    ensures r == [] <==> forall i :: 0 <= i < |s| ==> IsSpace(s[i])
  {
    Trim(s, IsSpace)
  }

  /** Where the strip of `s` starts in `s`. */
  lemma StripOffset(s: string) returns (o: nat)
    ensures o + |Strip(s)| <= |s| && Strip(s) == s[o..o + |Strip(s)|]
  {
    o := |s| - |TrimLeft(s, IsSpace)|;
  }

  /** A text that neither starts nor ends with whitespace is its own strip. */
  lemma StripUnchanged(s: string)
    requires s != [] && !IsSpace(s[0]) && !IsSpace(s[|s| - 1])
    ensures Strip(s) == s
  {
    assert TrimLeft(s, IsSpace) == s;
    assert TrimRight(s, IsSpace) == s;
  }

  /** Python's `(text or "").strip()`: a missing text reads as empty. */
  function StripInput(text: Option<string>): string {
    if text.None? then "" else Strip(text.value)
  }

  /** Python's `" ".join(parts)`. */
  function JoinSpace(parts: seq<string>): string
  {
    if parts == [] then ""
    else if |parts| == 1 then parts[0]
    else JoinSpace(parts[..|parts| - 1]) + " " + parts[|parts| - 1]
  }

  /** Joining one more part appends a space and that part. */
  lemma JoinSpaceSnoc(parts: seq<string>, p: string)
    requires parts != []
    ensures JoinSpace(parts + [p]) == JoinSpace(parts) + " " + p
  {
    assert (parts + [p])[..|parts|] == parts;
  }

  /** Joining two non-empty lists is joining their joins. */
  lemma {:induction false} JoinSpaceAppend(a: seq<string>, b: seq<string>)
    requires a != [] && b != []
    ensures JoinSpace(a + b) == JoinSpace(a) + " " + JoinSpace(b)
    decreases |b|
  {
    if |b| == 1 {
      JoinSpaceSnoc(a, b[0]);
    } else {
      var b' := b[..|b| - 1];
      assert (a + b)[..|a + b| - 1] == a + b';
      JoinSpaceAppend(a, b');
    }
  }

  /** The join of non-empty parts, none of which starts or ends with a space, neither starts nor
      ends with a space. */
  lemma {:induction false} JoinSpaceEnds(parts: seq<string>)
    requires parts != []
    requires forall k :: 0 <= k < |parts| ==> parts[k] != [] && !IsSpace(parts[k][0]) && !IsSpace(parts[k][|parts[k]| - 1])
    ensures var j := JoinSpace(parts); j != [] && j[0] == parts[0][0] && j[|j| - 1] == parts[|parts| - 1][|parts[|parts| - 1]| - 1]
    decreases |parts|
  {
    if |parts| > 1 {
      JoinSpaceEnds(parts[..|parts| - 1]);
    }
  }
}
