/** The input hygiene helpers of the service: `sanitize_text`, which removes markup and control
    characters from free text, and the file-name checks that decide which uploads are accepted. */
module Security {
  import opened Text

  // ---------------------------------------------------------------- character positions

  /** Position of the first `c` in `s`. */
  function FirstIndexOf(s: string, c: char): (k: nat)
    requires c in s
    ensures k < |s| && s[k] == c && c !in s[..k]
  {
    if s[0] == c then 0
    else
      assert c in s[1..] by { assert s == [s[0]] + s[1..]; }
      var k := FirstIndexOf(s[1..], c);
      assert s[..k + 1] == [s[0]] + s[1..][..k];
      1 + k
  }

  /** Position of the last `c` in `s`. */
  function LastIndexOf(s: string, c: char): (k: nat)
    requires c in s
    ensures k < |s| && s[k] == c
    ensures forall j :: k < j < |s| ==> s[j] != c
  {
    if s[|s| - 1] == c then |s| - 1
    else
      assert c in s[..|s| - 1] by { assert s == s[..|s| - 1] + [s[|s| - 1]]; }
      LastIndexOf(s[..|s| - 1], c)
  }

  // ---------------------------------------------------------------- sanitize_text

  /** `re.sub(r"<[^>]*>", "", s)`: scanning from the left, a '<' that has a '>' somewhere
      after it starts a tag, which runs to the first such '>' and is removed; any other
      character, including a '<' with no '>' after it, is kept. */
  function StripTags(s: string): string
    decreases |s|
  {
    if s == [] then []
    else if s[0] == '<' && '>' in s[1..] then
      var rest := s[1..];
      StripTags(rest[FirstIndexOf(rest, '>') + 1..])
    else [s[0]] + StripTags(s[1..])
  }

  /** The characters of the class `[\r\n\t]`. */
  predicate IsControl(c: char) {
    c == '\r' || c == '\n' || c == '\t'
  }

  /** `re.sub(r"[\r\n\t]", " ", s)`. */
  function BlankControls(s: string): (r: string)
    ensures |r| == |s|
    ensures forall i :: 0 <= i < |s| ==> r[i] == (if IsControl(s[i]) then ' ' else s[i])
  {
    seq(|s|, i requires 0 <= i < |s| => if IsControl(s[i]) then ' ' else s[i])
  }

  /** `sanitize_text(text)`: a value that is not a string (None here) gives ""; otherwise the
      tags are removed, then carriage returns, newlines and tabs become spaces, then the
      surrounding whitespace is stripped. */
  function SanitizeText(text: Option<string>): (r: string)
    ensures NoTag(r) && NoControl(r)
    ensures r == [] || (!IsSpace(r[0]) && !IsSpace(r[|r| - 1]))
  {
    if text.None? then ""
    else
      var t := StripTags(text.value);
      StripTagsLeavesNoTag(text.value);
      var b := BlankControls(t);
      BlankControlsClean(t);
      StripKeepsClean(b);
      Strip(b)
  }

  /** No '<' is followed, anywhere later, by a '>': the text holds no complete tag. */
  predicate NoTag(s: string) {
    forall i, j :: 0 <= i < j < |s| && s[i] == '<' ==> s[j] != '>'
  }

  /** No carriage return, newline or tab. */
  predicate NoControl(s: string) {
    forall i :: 0 <= i < |s| ==> !IsControl(s[i])
  }

  /** Removing tags brings in no character that was not there. */
  lemma {:induction false} StripTagsLacks(s: string, c: char)
    requires c !in s
    ensures c !in StripTags(s)
    decreases |s|
  {
    if s != [] {
      var rest := s[1..];
      assert forall x :: x in rest ==> x in s;
      if s[0] == '<' && '>' in rest {
        var tail := rest[FirstIndexOf(rest, '>') + 1..];
        assert forall x :: x in tail ==> x in rest;
        StripTagsLacks(tail, c);
      } else {
        StripTagsLacks(rest, c);
      }
    }
  }

  /** After tag removal no complete tag is left. */
  lemma {:induction false} StripTagsLeavesNoTag(s: string)
    ensures NoTag(StripTags(s))
    decreases |s|
  {
    if s != [] {
      var rest := s[1..];
      if s[0] == '<' && '>' in rest {
        StripTagsLeavesNoTag(rest[FirstIndexOf(rest, '>') + 1..]);
      } else {
        var t := StripTags(rest);
        StripTagsLeavesNoTag(rest);
        if s[0] == '<' {
          StripTagsLacks(rest, '>');
        }
        var r := [s[0]] + t;
        assert StripTags(s) == r;
        forall i, j | 0 <= i < j < |r| && r[i] == '<'
          ensures r[j] != '>'
        {
          assert r[j] == t[j - 1];
          if i == 0 {
            assert t[j - 1] in t;
          } else {
            assert r[i] == t[i - 1];
          }
        }
      }
    }
  }

  /** A text with no complete tag loses nothing to tag removal. */
  lemma {:induction false} StripTagsFixed(s: string)
    requires NoTag(s)
    ensures StripTags(s) == s
    decreases |s|
  {
    if s != [] {
      var rest := s[1..];
      assert forall j :: 0 <= j < |rest| && s[0] == '<' ==> rest[j] != '>' by {
        assert forall j :: 0 <= j < |rest| ==> rest[j] == s[j + 1];
      }
      assert !(s[0] == '<' && '>' in rest);
      assert NoTag(rest) by {
        forall i, j | 0 <= i < j < |rest| && rest[i] == '<'
          ensures rest[j] != '>'
        {
          assert rest[i] == s[i + 1] && rest[j] == s[j + 1];
        }
      }
      StripTagsFixed(rest);
      assert s == [s[0]] + rest;
    }
  }

  /** A text with no '>' at all is left as it is: a '<' alone never opens a tag. */
  lemma UnclosedBracketKept(s: string)
    requires '>' !in s
    ensures StripTags(s) == s
  {
    StripTagsFixed(s);
  }

  /** A part of a text with no tag and no control character has neither. */
  lemma SliceClean(s: string, part: string, a: nat)
    requires a + |part| <= |s| && part == s[a..a + |part|] && NoTag(s) && NoControl(s)
    ensures NoTag(part) && NoControl(part)
  {
    assert forall i :: 0 <= i < |part| ==> part[i] == s[a + i];
  }

  /** Blanking control characters keeps '<' and '>' where they are. */
  lemma BlankControlsClean(s: string)
    requires NoTag(s)
    ensures NoTag(BlankControls(s)) && NoControl(BlankControls(s))
  {
    var b := BlankControls(s);
    forall i, j | 0 <= i < j < |b| && b[i] == '<'
      ensures b[j] != '>'
    {
      assert s[i] == '<';
    }
  }

  /** Stripping keeps a text free of tags and control characters. */
  lemma StripKeepsClean(b: string)
    requires NoTag(b) && NoControl(b)
    ensures NoTag(Strip(b)) && NoControl(Strip(b))
  {
    var o := StripOffset(b);
    SliceClean(b, Strip(b), o);
  }

  /** Sanitising a sanitised text changes nothing. */
  lemma SanitizeIdempotent(text: Option<string>)
    ensures SanitizeText(Some(SanitizeText(text))) == SanitizeText(text)
  {
    var r := SanitizeText(text);
    StripTagsFixed(r);
    assert BlankControls(r) == r;
    if r != [] {
      StripUnchanged(r);
    }
  }

  /** A value that is not a string sanitises to "". */
  lemma NonStringIsEmpty()
    ensures SanitizeText(None) == ""
  {
  }

  // ---------------------------------------------------------------- upload file names

  const ALLOWED_TEXT_EXTENSIONS: set<string> := {"txt", "csv"}
  const ALLOWED_IMAGE_EXTENSIONS: set<string> := {"png", "jpg", "jpeg", "webp"}

  /** `filename.rsplit('.', 1)[1]`: what follows the last '.'. */
  function Extension(filename: string): (ext: string)
    requires '.' in filename
    ensures var k := |filename| - |ext| - 1;
            && 0 <= k && filename[k] == '.' && ext == filename[k + 1..]
            && forall j :: k < j < |filename| ==> filename[j] != '.'
  {
    filename[LastIndexOf(filename, '.') + 1..]
  }

  /** `_has_allowed_extension(filename, allowed)`. */
  predicate HasAllowedExtension(filename: string, allowed: set<string>) {
    '.' in filename && Lower(Extension(filename)) in allowed
  }

  /** `allowed_text_file(filename)`. */
  predicate AllowedTextFile(filename: string) {
    HasAllowedExtension(filename, ALLOWED_TEXT_EXTENSIONS)
  }

  /** `allowed_image_file(filename)`. */
  predicate AllowedImageFile(filename: string) {
    HasAllowedExtension(filename, ALLOWED_IMAGE_EXTENSIONS)
  }

  /** `allowed_file(filename)`: the upload check accepts what the text check accepts. */
  predicate AllowedFile(filename: string) {
    AllowedTextFile(filename)
  }

  /** The name has a '.' at position `k` with no '.' after it, and what follows it is, once
      lower-cased, one of `allowed`. */
  predicate EndsWithAllowed(filename: string, allowed: set<string>, k: nat) {
    && k < |filename| && filename[k] == '.'
    && (forall j :: k < j < |filename| ==> filename[j] != '.')
    && Lower(filename[k + 1..]) in allowed
  }

  /** The extension check holds exactly when the part after the last '.' is, ignoring case,
      one of the allowed extensions. */
  lemma HasAllowedExtensionMeans(filename: string, allowed: set<string>)
    ensures HasAllowedExtension(filename, allowed) <==> exists k :: EndsWithAllowed(filename, allowed, k)
  {
    if HasAllowedExtension(filename, allowed) {
      assert EndsWithAllowed(filename, allowed, LastIndexOf(filename, '.'));
    }
    if k: nat :| EndsWithAllowed(filename, allowed, k) {
      ExtensionAt(filename, k);
    }
  }

  /** No file name passes both the text and the image check: the two sets share no
      extension. */
  lemma TextAndImageDisjoint(filename: string)
    ensures !(AllowedTextFile(filename) && AllowedImageFile(filename))
  {
  }

  /** The upload check refuses every image name. */
  lemma UploadRefusesImages(filename: string)
    requires AllowedImageFile(filename)
    ensures !AllowedFile(filename)
  {
    TextAndImageDisjoint(filename);
  }

  /** Lower-casing the whole name never changes a verdict: the check ignores case. */
  lemma CaseIgnored(filename: string, allowed: set<string>)
    ensures HasAllowedExtension(Lower(filename), allowed) == HasAllowedExtension(filename, allowed)
  {
    LowerKeepsDots(filename);
    if '.' in filename {
      ExtensionOfLower(filename);
      LowerTwice(Extension(filename));
    }
  }

  /** The extension of the lower-cased name is the lower-cased extension. */
  lemma ExtensionOfLower(filename: string)
    requires '.' in filename
    ensures '.' in Lower(filename) && Extension(Lower(filename)) == Lower(Extension(filename))
  {
    var m := LastIndexOf(filename, '.');
    LowerKeepsDots(filename);
    ExtensionAt(Lower(filename), m);
    LowerSuffix(filename, m + 1);
  }

  /** Lower-casing commutes with taking a suffix. */
  lemma LowerSuffix(s: string, a: nat)
    requires a <= |s|
    ensures Lower(s)[a..] == Lower(s[a..])
  {
    assert forall i :: 0 <= i < |s| - a ==> Lower(s)[a..][i] == Lower(s[a..])[i];
  }

  /** Lower-casing moves no '.'. */
  lemma LowerKeepsDots(s: string)
    ensures forall i :: 0 <= i < |s| ==> (Lower(s)[i] == '.' <==> s[i] == '.')
    ensures '.' in Lower(s) <==> '.' in s
  {
    var l := Lower(s);
    if '.' in l {
      var i :| 0 <= i < |l| && l[i] == '.';
      assert s[i] == '.';
    }
  }

  /** Lower-casing twice is lower-casing once. */
  lemma LowerTwice(s: string)
    ensures Lower(Lower(s)) == Lower(s)
  {
  }

  /** A '.' with no '.' after it is the last one: the extension is what follows it. */
  lemma ExtensionAt(filename: string, k: nat)
    requires k < |filename| && filename[k] == '.'
    requires forall j :: k < j < |filename| ==> filename[j] != '.'
    ensures '.' in filename && Extension(filename) == filename[k + 1..]
  {
    assert filename[k] in filename;
    assert LastIndexOf(filename, '.') == k;
  }

  /** An upper-case extension is accepted. */
  lemma UpperCaseExtensionAccepted()
    ensures AllowedTextFile("notes.TXT")
  {
    var f := "notes.TXT";
    ExtensionAt(f, 5);
    assert f[6..] == "TXT";
    assert Lower("TXT") == "txt";
  }

  /** Only the last extension counts: a name whose last extension is allowed passes ... */
  lemma LastExtensionCounts()
    ensures AllowedTextFile("export.2024.csv")
  {
    var f := "export.2024.csv";
    ExtensionAt(f, 11);
    assert f[12..] == "csv";
    assert Lower("csv") == "csv";
  }

  /** ... and one whose earlier extension is allowed but whose last one is not is refused. */
  lemma EarlierExtensionIgnored()
    ensures !AllowedTextFile("report.csv.exe")
  {
    var g := "report.csv.exe";
    ExtensionAt(g, 10);
    assert g[11..] == "exe";
    assert Lower("exe") == "exe";
  }

  /** A name with no '.' or with nothing after its last '.' is refused; a bare ".csv" is
      accepted. */
  lemma DotEdgeCases()
    ensures !AllowedTextFile("csv")
    ensures !AllowedTextFile("file.")
    ensures AllowedTextFile(".csv")
  {
    ExtensionAt("file.", 4);
    var f := ".csv";
    ExtensionAt(f, 0);
    assert f[1..] == "csv";
    assert Lower("csv") == "csv";
  }
}
