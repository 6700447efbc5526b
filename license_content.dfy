/**
 * Checking the text of license files against reference license texts, and
 * matching third-party license files to SBOM components by name and content.
 *
 * `difflib.SequenceMatcher(None, a, b).ratio()` is a parameter `ratio` of type
 * `(string, string) -> Ratio`, a function into [0, 1] about which nothing else
 * is assumed.
 */
module LicenseContent {
  import opened Wrappers
  import opened Strings
  import opened OrderedMap
  import ScaExceptions
  import LicenseUtils

  type Ratio = r: real | 0.0 <= r <= 1.0

  // ---------------------------------------------------------------- normalisation

  /** `re.sub(r'\s+', ' ', s)`: every run of whitespace becomes one space. */
  function CollapseWhitespace(s: string): (r: string)
    ensures |r| <= |s|
    ensures r == [] <==> s == []
    ensures s != [] && !IsSpace(s[0]) ==> r[0] == s[0]
    decreases |s|
  {
    if s == [] then []
    else if IsSpace(s[0]) then [' '] + CollapseWhitespace(LStripChars(s[1..], Whitespace))
    else [s[0]] + CollapseWhitespace(s[1..])
  }

  /** Whitespace appears only as single spaces. */
  predicate Collapsed(s: string) {
    forall i :: 0 <= i < |s| && IsSpace(s[i]) ==> s[i] == ' ' && (i + 1 == |s| || !IsSpace(s[i + 1]))
  }

  /** The characters that are not whitespace, in order. */
  function NonSpace(s: string): (r: string)
    ensures forall i :: 0 <= i < |r| ==> !IsSpace(r[i])
  {
    if s == [] then [] else (if IsSpace(s[0]) then [] else [s[0]]) + NonSpace(s[1..])
  }

  lemma {:induction false} NonSpaceOfSpaces(s: string)
    requires forall i :: 0 <= i < |s| ==> IsSpace(s[i])
    ensures NonSpace(s) == []
  {
    if s != [] {
      NonSpaceOfSpaces(s[1..]);
    }
  }

  lemma {:induction false} NonSpaceAppend(a: string, b: string)
    ensures NonSpace(a + b) == NonSpace(a) + NonSpace(b)
  {
    if a != [] {
      assert (a + b)[1..] == a[1..] + b;
      NonSpaceAppend(a[1..], b);
    } else {
      assert a + b == b;
    }
  }

  /** Collapsing leaves single spaces and keeps every other character in order. */
  lemma CollapseWhitespaceMeaning(s: string)
    ensures Collapsed(CollapseWhitespace(s))
    ensures NonSpace(CollapseWhitespace(s)) == NonSpace(s)
  {
    CollapseLeavesSingleSpaces(s);
    CollapseKeepsNonSpace(s);
  }

  lemma {:induction false} CollapseLeavesSingleSpaces(s: string)
    ensures Collapsed(CollapseWhitespace(s))
    decreases |s|
  {
    if s != [] {
      if IsSpace(s[0]) {
        var t := LStripChars(s[1..], Whitespace);
        CollapseLeavesSingleSpaces(t);
        var rest := CollapseWhitespace(t);
        assert rest == [] || !IsSpace(rest[0]);
        CollapsedCons(' ', rest);
      } else {
        CollapseLeavesSingleSpaces(s[1..]);
        CollapsedCons(s[0], CollapseWhitespace(s[1..]));
      }
    }
  }

  lemma {:induction false} CollapseKeepsNonSpace(s: string)
    ensures NonSpace(CollapseWhitespace(s)) == NonSpace(s)
    decreases |s|
  {
    if s != [] {
      if IsSpace(s[0]) {
        var t := LStripChars(s[1..], Whitespace);
        CollapseKeepsNonSpace(t);
        var rest := CollapseWhitespace(t);
        var dropped := s[1..][..|s| - 1 - |t|];
        assert s[1..] == dropped + t;
        NonSpaceOfSpaces(dropped);
        NonSpaceAppend(dropped, t);
        NonSpaceAppend([' '], rest);
        assert NonSpace(s) == NonSpace(s[1..]);
      } else {
        CollapseKeepsNonSpace(s[1..]);
      }
    }
  }

  /** A character in front of a collapsed text keeps it collapsed unless it starts a second space. */
  lemma CollapsedCons(c: char, rest: string)
    requires Collapsed(rest)
    requires IsSpace(c) ==> c == ' ' && (rest == [] || !IsSpace(rest[0]))
    ensures Collapsed([c] + rest)
  {
    var r := [c] + rest;
    forall i | 0 <= i < |r| && IsSpace(r[i]) ensures r[i] == ' ' && (i + 1 == |r| || !IsSpace(r[i + 1])) {
      if i > 0 {
        assert r[i] == rest[i - 1];
        if i + 1 < |r| {
          assert r[i + 1] == rest[i];
        }
      }
    }
  }

  /** Collapsing an already collapsed text changes nothing, so collapsing is idempotent. */
  lemma {:induction false} CollapseWhitespaceOfCollapsed(s: string)
    requires Collapsed(s)
    ensures CollapseWhitespace(s) == s
    decreases |s|
  {
    if s != [] {
      assert Collapsed(s[1..]) by {
        forall i | 0 <= i < |s[1..]| && IsSpace(s[1..][i])
          ensures s[1..][i] == ' ' && (i + 1 == |s[1..]| || !IsSpace(s[1..][i + 1]))
        {
          assert s[1..][i] == s[i + 1];
        }
      }
      if IsSpace(s[0]) {
        assert |s| == 1 || !IsSpace(s[1]);
        assert LStripChars(s[1..], Whitespace) == s[1..];
      }
      CollapseWhitespaceOfCollapsed(s[1..]);
    }
  }

  const YearPlaceholder: string := "[year]"
  const FullnamePlaceholder: string := "[fullname]"
  const OwnerPlaceholder: string := "[name of copyright owner]"
  const YearToken: string := "YYYY"
  const AuthorToken: string := "AUTHOR"

  /** The three placeholder replacements, in the source's order. */
  function ReplacePlaceholders(s: string): string {
    Replace(Replace(Replace(s, YearPlaceholder, YearToken), FullnamePlaceholder, AuthorToken), OwnerPlaceholder, AuthorToken)
  }

  /** `_normalize_license_content`. */
  function Normalize(content: string): string {
    Lower(ReplacePlaceholders(CollapseWhitespace(Strip(content))))
  }

  /** The only whitespace is the plain space. */
  predicate OnlyPlainSpaces(s: string) {
    forall i :: 0 <= i < |s| && IsSpace(s[i]) ==> s[i] == ' '
  }

  lemma {:induction false} ReplaceKeepsPlainSpaces(s: string, pattern: string, repl: string)
    requires pattern != []
    requires OnlyPlainSpaces(s) && OnlyPlainSpaces(repl)
    ensures OnlyPlainSpaces(Replace(s, pattern, repl))
    decreases |s|
  {
    if |s| >= |pattern| {
      var rest := if s[..|pattern|] == pattern then s[|pattern|..] else s[1..];
      assert OnlyPlainSpaces(rest) by {
        forall i | 0 <= i < |rest| && IsSpace(rest[i]) ensures rest[i] == ' ' {
          assert rest[i] == s[i + |s| - |rest|];
        }
      }
      ReplaceKeepsPlainSpaces(rest, pattern, repl);
    }
  }

  lemma TokensHaveNoSpace()
    ensures OnlyPlainSpaces(YearToken) && OnlyPlainSpaces(AuthorToken)
    ensures YearPlaceholder != [] && FullnamePlaceholder != [] && OwnerPlaceholder != []
  {
    assert forall i :: 0 <= i < |YearToken| ==> YearToken[i] == 'Y';
    assert forall i :: 0 <= i < |AuthorToken| ==> IsUpper(AuthorToken[i]);
  }

  lemma ReplacePlaceholdersKeepsPlainSpaces(s: string)
    requires OnlyPlainSpaces(s)
    ensures OnlyPlainSpaces(ReplacePlaceholders(s))
  {
    TokensHaveNoSpace();
    ReplaceKeepsPlainSpaces(s, YearPlaceholder, YearToken);
    var r1 := Replace(s, YearPlaceholder, YearToken);
    ReplaceKeepsPlainSpaces(r1, FullnamePlaceholder, AuthorToken);
    var r2 := Replace(r1, FullnamePlaceholder, AuthorToken);
    ReplaceKeepsPlainSpaces(r2, OwnerPlaceholder, AuthorToken);
  }

  lemma LowerKeepsPlainSpaces(s: string)
    requires OnlyPlainSpaces(s)
    ensures OnlyPlainSpaces(Lower(s))
    ensures forall i :: 0 <= i < |Lower(s)| ==> !IsUpper(Lower(s)[i])
  {
    forall i | 0 <= i < |s| && IsSpace(Lower(s)[i]) ensures Lower(s)[i] == ' ' {
      assert Lower(s)[i] == LowerChar(s[i]);
      assert !IsUpper(s[i]);
    }
    LowerHasNoUpper(s);
  }

  /** A normalised text has no capital letter and no whitespace other than plain spaces. */
  lemma NormalizeShape(content: string)
    ensures forall i :: 0 <= i < |Normalize(content)| ==> !IsUpper(Normalize(content)[i])
    ensures OnlyPlainSpaces(Normalize(content))
  {
    var collapsed := CollapseWhitespace(Strip(content));
    CollapseWhitespaceMeaning(Strip(content));
    assert OnlyPlainSpaces(collapsed);
    ReplacePlaceholdersKeepsPlainSpaces(collapsed);
    LowerKeepsPlainSpaces(ReplacePlaceholders(collapsed));
  }

  // ---------------------------------------------------------------- the validator

  const AllowedLicenses: set<string> :=
    {"LGPL-2.1", "LGPL-3.0", "Apache-2.0", "MIT", "BSD-2-Clause", "BSD-3-Clause", "EPL-1.0", "EPL-2.0", "PSF-2.0"}

  const SimilarityThreshold: real := 0.8
  const NoMatchFound: string := "No match found"

  function UnknownLicenseMessage(expected: string): string {
    "Unknown license type: " + expected
  }

  /** A `*.txt` file of the reference directory: its stem and its text, None when it cannot be read. */
  datatype ReferenceFile = ReferenceFile(stem: string, content: Option<string>)

  /** `_load_reference_licenses` adding the readable files, in glob order, to `d`. */
  function WithReferences(d: Dict<string>, files: seq<ReferenceFile>): Dict<string> {
    if files == [] then d
    else
      var f := files[|files| - 1];
      var before := WithReferences(d, files[..|files| - 1]);
      if f.content.Some? then Put(before, f.stem, Normalize(f.content.value)) else before
  }

  lemma WithReferencesStep(d: Dict<string>, files: seq<ReferenceFile>, k: nat)
    requires k < |files|
    ensures WithReferences(d, files[..k + 1])
         == if files[k].content.Some? then Put(WithReferences(d, files[..k]), files[k].stem, Normalize(files[k].content.value))
            else WithReferences(d, files[..k])
  {
    assert files[..k + 1][..k] == files[..k];
  }

  /** The stems of the readable files. */
  function ReadableStems(files: seq<ReferenceFile>): set<string> {
    set i | 0 <= i < |files| && files[i].content.Some? :: files[i].stem
  }

  lemma ReadableStemsSnoc(files: seq<ReferenceFile>)
    requires files != []
    ensures var f := files[|files| - 1];
      ReadableStems(files) == ReadableStems(files[..|files| - 1]) + (if f.content.Some? then {f.stem} else {})
  {
    var init := files[..|files| - 1];
    var f := files[|files| - 1];
    forall n | n in ReadableStems(files) ensures n in ReadableStems(init) + (if f.content.Some? then {f.stem} else {}) {
      var i :| 0 <= i < |files| && files[i].content.Some? && files[i].stem == n;
      if i < |init| {
        assert init[i] == files[i];
      }
    }
    forall n | n in ReadableStems(init) ensures n in ReadableStems(files) {
      var i :| 0 <= i < |init| && init[i].content.Some? && init[i].stem == n;
      assert files[i] == init[i];
    }
  }

  /** The loaded references are keyed by the stems of the readable files, each once. */
  lemma {:induction false} ReferencesLoadedKeys(files: seq<ReferenceFile>)
    ensures Keys(WithReferences([], files)) == ReadableStems(files)
    ensures DistinctKeys(WithReferences([], files))
  {
    if files != [] {
      var init := files[..|files| - 1];
      var f := files[|files| - 1];
      ReferencesLoadedKeys(init);
      ReadableStemsSnoc(files);
      if f.content.Some? {
        PutKeepsDistinct(WithReferences([], init), f.stem, Normalize(f.content.value));
      }
    }
  }

  /** A stem's reference is the normalised text of the last readable file with that stem. */
  lemma {:induction false} ReferencesLoadedValue(files: seq<ReferenceFile>, i: nat)
    requires i < |files| && files[i].content.Some?
    requires forall j :: i < j < |files| && files[j].content.Some? ==> files[j].stem != files[i].stem
    ensures Get(WithReferences([], files), files[i].stem) == Some(Normalize(files[i].content.value))
  {
    if i < |files| - 1 {
      ReferencesLoadedValue(files[..|files| - 1], i);
    }
  }

  /** The first reference with the highest score: `best_score` is `score` and it is reached first at `i`. */
  predicate FirstBest(refs: Dict<string>, content: string, ratio: (string, string) -> Ratio, i: int, score: real) {
    && 0 <= i < |refs|
    && ratio(content, refs[i].1) == score
    && (forall j :: 0 <= j < i ==> ratio(content, refs[j].1) < score)
  }

  /**
   * The fuzzy loop of `validate_license_content`: the name and score of the
   * first reference whose similarity is strictly above every earlier one and
   * above 0.
   */
  function BestMatch(refs: Dict<string>, content: string, ratio: (string, string) -> Ratio): (r: (Option<string>, real))
    ensures 0.0 <= r.1 <= 1.0
    ensures forall j :: 0 <= j < |refs| ==> ratio(content, refs[j].1) <= r.1
    ensures r.0.None? <==> r.1 == 0.0
    ensures r.0.Some? ==> exists i :: FirstBest(refs, content, ratio, i, r.1) && refs[i].0 == r.0.value
  {
    if refs == [] then (None, 0.0)
    else
      var init := refs[..|refs| - 1];
      var (best, score) := BestMatch(init, content, ratio);
      var last := refs[|refs| - 1];
      var similarity := ratio(content, last.1);
      assert forall j :: 0 <= j < |init| ==> init[j] == refs[j];
      if similarity > score then
        assert FirstBest(refs, content, ratio, |refs| - 1, similarity);
        (Some(last.0), similarity)
      else
        assert best.Some? ==> exists i :: FirstBest(refs, content, ratio, i, score) && refs[i].0 == best.value by {
          if best.Some? {
            var i :| FirstBest(init, content, ratio, i, score) && init[i].0 == best.value;
            assert FirstBest(refs, content, ratio, i, score);
          }
        }
        (best, score)
  }

  /** `validate_license_content` against the loaded references. */
  function Verdict(refs: Dict<string>, content: string, expected: string, ratio: (string, string) -> Ratio): (v: (bool, real, string)) {
    if expected !in AllowedLicenses then (false, 0.0, UnknownLicenseMessage(expected))
    else
      var normalized := Normalize(content);
      if Get(refs, expected) == Some(normalized) then (true, 1.0, expected)
      else
        var (best, score) := BestMatch(refs, normalized, ratio);
        if score >= SimilarityThreshold then (true, score, best.value)
        else (false, score, if best.None? || best.value == "" then NoMatchFound else best.value)
  }

  /** An expected license outside the allowed ones is refused whatever the content. */
  lemma UnknownLicenseRefused(refs: Dict<string>, content: string, expected: string, ratio: (string, string) -> Ratio)
    requires expected !in AllowedLicenses
    ensures Verdict(refs, content, expected, ratio) == (false, 0.0, UnknownLicenseMessage(expected))
  {
  }

  /** Content equal, once normalised, to the expected reference is accepted with score 1. */
  lemma ExactMatchAccepted(refs: Dict<string>, content: string, expected: string, ratio: (string, string) -> Ratio)
    requires expected in AllowedLicenses
    requires exists i :: (0 <= i < |refs| && refs[i] == (expected, Normalize(content))
      && (forall j :: 0 <= j < i ==> refs[j].0 != expected))
    ensures Verdict(refs, content, expected, ratio) == (true, 1.0, expected)
  {
    var i :| 0 <= i < |refs| && refs[i] == (expected, Normalize(content)) && (forall j :: 0 <= j < i ==> refs[j].0 != expected);
    GetFirst(refs, expected, i);
  }

  lemma {:induction false} GetFirst<V>(d: Dict<V>, k: string, i: nat)
    requires i < |d| && d[i].0 == k
    requires forall j :: 0 <= j < i ==> d[j].0 != k
    ensures Get(d, k) == Some(d[i].1)
  {
    if i > 0 {
      GetFirst(d[1..], k, i - 1);
    }
  }

  /**
   * Without an exact match, the verdict is the best fuzzy score: valid exactly
   * when it reaches 0.8, naming the first reference that reaches that score,
   * which need not be the expected one.
   */
  lemma FuzzyVerdict(refs: Dict<string>, content: string, expected: string, ratio: (string, string) -> Ratio)
    requires expected in AllowedLicenses
    requires Get(refs, expected) != Some(Normalize(content))
    ensures var v := Verdict(refs, content, expected, ratio);
      && (v.0 <==> v.1 >= SimilarityThreshold)
      && (forall j :: 0 <= j < |refs| ==> ratio(Normalize(content), refs[j].1) <= v.1)
      && (v.0 ==> exists i :: FirstBest(refs, Normalize(content), ratio, i, v.1) && refs[i].0 == v.2)
  {
  }

  /** With no references loaded, an allowed license gets no match. */
  lemma NoReferencesNoMatch(content: string, expected: string, ratio: (string, string) -> Ratio)
    requires expected in AllowedLicenses
    ensures Verdict([], content, expected, ratio) == (false, 0.0, NoMatchFound)
  {
  }

  /** The validator, with the references it loaded at construction. */
  class LicenseContentValidator {
    var referenceLicenses: Dict<string>

    /** `files` are the `*.txt` files of the reference directory, when it exists. */
    constructor (dirExists: bool, files: seq<ReferenceFile>)
      ensures referenceLicenses == if dirExists then WithReferences([], files) else []
    {
      referenceLicenses := [];
      new;
      LoadReferenceLicenses(dirExists, files);
    }

    method LoadReferenceLicenses(dirExists: bool, files: seq<ReferenceFile>)
      modifies this
      ensures referenceLicenses == if dirExists then WithReferences(old(referenceLicenses), files) else old(referenceLicenses)
    {
      if !dirExists {
        return;
      }
      ghost var start := referenceLicenses;
      for k := 0 to |files|
        invariant referenceLicenses == WithReferences(start, files[..k])
      {
        WithReferencesStep(start, files, k);
        var f := files[k];
        if f.content.Some? {
          referenceLicenses := Put(referenceLicenses, f.stem, Normalize(f.content.value));
        }
      }
      assert files[..|files|] == files;
    }

    /** The loop over the references keeping the strictly best score. */
    method ValidateLicenseContent(licenseContent: string, expectedLicense: string, ratio: (string, string) -> Ratio)
      returns (r: (bool, real, string))
      ensures r == Verdict(referenceLicenses, licenseContent, expectedLicense, ratio)
    {
      if expectedLicense !in AllowedLicenses {
        return (false, 0.0, UnknownLicenseMessage(expectedLicense));
      }
      var normalizedContent := Normalize(licenseContent);
      var reference := Get(referenceLicenses, expectedLicense);
      if reference == Some(normalizedContent) {
        return (true, 1.0, expectedLicense);
      }
      var bestMatch: Option<string> := None;
      var bestScore: real := 0.0;
      var k := 0;
      while k < |referenceLicenses|
        invariant 0 <= k <= |referenceLicenses|
        invariant (bestMatch, bestScore) == BestMatch(referenceLicenses[..k], normalizedContent, ratio)
      {
        assert referenceLicenses[..k + 1][..k] == referenceLicenses[..k];
        var (licenseName, referenceContent) := referenceLicenses[k];
        var similarity := ratio(normalizedContent, referenceContent);
        if similarity > bestScore {
          bestScore := similarity;
          bestMatch := Some(licenseName);
        }
        k := k + 1;
      }
      assert referenceLicenses[..k] == referenceLicenses;
      if bestScore >= SimilarityThreshold {
        return (true, bestScore, bestMatch.value);
      }
      return (false, bestScore, if bestMatch.None? || bestMatch.value == "" then NoMatchFound else bestMatch.value);
    }

    /** `validate_license_file`: `file` is the text read, or the message of the error that reading raised. */
    method ValidateLicenseFile(file: Result<string, string>, expectedLicense: string, ratio: (string, string) -> Ratio)
      returns (r: (bool, real, string))
      ensures file.Err? ==> r == (false, 0.0, "Error reading file: " + file.error)
      ensures file.Ok? ==> r == Verdict(referenceLicenses, file.value, expectedLicense, ratio)
    {
      if file.Err? {
        return (false, 0.0, "Error reading file: " + file.error);
      }
      r := ValidateLicenseContent(file.value, expectedLicense, ratio);
    }

    function GetAvailableLicenses(): (names: set<string>)
      reads this
      ensures forall n :: n in names <==> Get(referenceLicenses, n).Some?
    {
      Keys(referenceLicenses)
    }

    function GetAllowedLicenses(): (names: set<string>)
      ensures forall n :: n in names <==> n in AllowedLicenses
    {
      AllowedLicenses
    }
  }

  // ---------------------------------------------------------------- names

  const Txt: string := ".txt"
  const LicenseMarker: string := "-LICENSE"

  /** The matcher's `_extract_dependency_name_from_license_file`. */
  function FileDependencyName(filename: string): Option<string> {
    var name := Replace(filename, Txt, "");
    if EndsWith(name, LicenseMarker) then Some(name[..|name| - |LicenseMarker|]) else None
  }

  lemma {:induction false} NoDotNoTxt(s: string)
    requires '.' !in s
    ensures !Contains(s, Txt)
  {
    if s != [] {
      assert s[0] != '.';
      assert !StartsWith(s, Txt) by {
        if |Txt| <= |s| {
          assert s[..|Txt|][0] == s[0];
        }
      }
      assert '.' !in s[1..] by {
        forall i | 0 <= i < |s[1..]| ensures s[1..][i] != '.' {
          assert s[1..][i] == s[i + 1];
        }
      }
      NoDotNoTxt(s[1..]);
    }
  }

  /** Text without ".txt" passes through the replacement unchanged before a tail that cannot complete one. */
  lemma {:induction false} ReplaceTxtBefore(d: string, t: string)
    requires !Contains(d, Txt)
    requires t != [] && t[0] != 't' && t[0] != 'x'
    ensures Replace(d + t, Txt, "") == d + Replace(t, Txt, "")
    decreases |d|
  {
    if d == [] {
      assert d + t == t;
    } else {
      var s := d + t;
      var tail := d[1..] + t;
      assert s[1..] == tail;
      if |s| < |Txt| {
        assert Replace(t, Txt, "") == t;
      } else {
        NoTxtAtFront(d, t);
        assert Replace(s, Txt, "") == [s[0]] + Replace(tail, Txt, "");
        ReplaceTxtBefore(d[1..], t);
        assert [d[0]] + d[1..] == d;
      }
    }
  }

  lemma NoTxtAtFront(d: string, t: string)
    requires d != [] && !StartsWith(d, Txt)
    requires t != [] && t[0] != 't' && t[0] != 'x'
    requires |d + t| >= |Txt|
    ensures (d + t)[..|Txt|] != Txt
  {
    var s := d + t;
    if |d| >= |Txt| {
      assert s[..|Txt|] == d[..|Txt|];
    } else {
      assert s[|d|] == t[0];
      assert s[..|Txt|][|d|] == t[0];
    }
  }

  lemma ReplaceTxtAlone()
    ensures Replace(Txt, Txt, "") == ""
  {
    assert Txt[..|Txt|] == Txt;
    assert Txt[|Txt|..] == "";
  }

  lemma MarkerSurvivesReplace()
    ensures Replace(LicenseMarker + Txt, Txt, "") == LicenseMarker
  {
    NoDotNoTxt(LicenseMarker);
    ReplaceTxtAlone();
    assert Txt[0] == '.';
    ReplaceTxtBefore(LicenseMarker, Txt);
    assert LicenseMarker + "" == LicenseMarker;
  }

  /** "<name>-LICENSE.txt" names the dependency <name>, whatever its dots, as long as it has no ".txt" of its own. */
  lemma DependencyOfLicenseFile(dependency: string)
    requires !Contains(dependency, Txt)
    ensures FileDependencyName(dependency + LicenseMarker + Txt) == Some(dependency)
  {
    var tail := LicenseMarker + Txt;
    MarkerSurvivesReplace();
    assert tail[0] == '-';
    assert dependency + LicenseMarker + Txt == dependency + tail;
    ReplaceTxtBefore(dependency, tail);
    var name := dependency + LicenseMarker;
    assert Replace(dependency + tail, Txt, "") == name;
    assert name[|name| - |LicenseMarker|..] == LicenseMarker;
    assert name[..|name| - |LicenseMarker|] == dependency;
  }

  /** A ".txt" file whose name does not end in "-LICENSE" names no dependency. */
  lemma PlainFileHasNoDependency(stem: string)
    requires !Contains(stem, Txt) && !EndsWith(stem, LicenseMarker)
    ensures FileDependencyName(stem + Txt) == None
  {
    ReplaceTxtAlone();
    ReplaceTxtBefore(stem, Txt);
    assert stem + "" == stem;
  }

  /** The letters and digits of a name, in order. */
  function KeepAlnum(s: string): (r: string)
    ensures forall i :: 0 <= i < |r| ==> IsAlnum(r[i])
  {
    if s == [] then [] else (if IsAlnum(s[0]) then [s[0]] else []) + KeepAlnum(s[1..])
  }

  /** `re.sub(r'[^a-zA-Z0-9]', '', name.lower())`. */
  function NameKey(name: string): string {
    KeepAlnum(Lower(name))
  }

  /** `_names_match`. */
  predicate NamesMatch(a: string, b: string) {
    NameKey(a) == NameKey(b)
  }

  /** Matching names is an equivalence. */
  lemma NamesMatchEquivalence(a: string, b: string, c: string)
    ensures NamesMatch(a, a)
    ensures NamesMatch(a, b) ==> NamesMatch(b, a)
    ensures NamesMatch(a, b) && NamesMatch(b, c) ==> NamesMatch(a, c)
  {
  }

  lemma {:induction false} KeepAlnumAppend(a: string, b: string)
    ensures KeepAlnum(a + b) == KeepAlnum(a) + KeepAlnum(b)
  {
    if a != [] {
      assert (a + b)[1..] == a[1..] + b;
      KeepAlnumAppend(a[1..], b);
    } else {
      assert a + b == b;
    }
  }

  /** Case does not matter: "newtonsoft.json" and "Newtonsoft.Json" match. */
  lemma CaseIgnored(name: string)
    ensures NamesMatch(name, Lower(name))
  {
    LowerTwice(name);
  }

  /** A separator that is not a letter or digit does not matter: "Newtonsoft.Json" and "Newtonsoft-Json" match. */
  lemma SeparatorIgnored(a: string, sep1: char, sep2: char, b: string)
    requires !IsAlnum(LowerChar(sep1)) && !IsAlnum(LowerChar(sep2))
    ensures NamesMatch(a + [sep1] + b, a + [sep2] + b)
  {
    LowerAppend(a + [sep1], b);
    LowerAppend(a, [sep1]);
    LowerAppend(a + [sep2], b);
    LowerAppend(a, [sep2]);
    KeepAlnumAppend(Lower(a) + Lower([sep1]), Lower(b));
    KeepAlnumAppend(Lower(a), Lower([sep1]));
    KeepAlnumAppend(Lower(a) + Lower([sep2]), Lower(b));
    KeepAlnumAppend(Lower(a), Lower([sep2]));
    assert KeepAlnum(Lower([sep1])) == [] == KeepAlnum(Lower([sep2]));
  }

  // ---------------------------------------------------------------- the matcher

  /** One entry of a component's `licenses` list: an object with `id`/`expression`, or any other value's `str`. */
  datatype LicenseEntry = LicenseObject(id: Option<string>, expression: Option<string>) | LicenseValue(text: string)

  /** An SBOM component; `licenses` is [] when the key is absent. */
  datatype SbomComponent = SbomComponent(name: Option<string>, licenses: seq<LicenseEntry>)

  /** `_extract_license_type` of a non-empty list: its first entry's id, else its expression. */
  function LicenseTypeOf(licenses: seq<LicenseEntry>): (t: string)
    requires licenses != []
    ensures licenses[0].LicenseObject? && licenses[0].id.GetOr("") != "" ==> t == licenses[0].id.value
    ensures licenses[0].LicenseObject? && licenses[0].id.GetOr("") == "" ==> t == licenses[0].expression.GetOr("")
    ensures licenses[0].LicenseValue? ==> t == licenses[0].text
  {
    match licenses[0]
    case LicenseObject(id, expression) => if id.GetOr("") != "" then id.value else expression.GetOr("")
    case LicenseValue(text) => text
  }

  /** `_build_component_licenses_map`. */
  function ComponentLicenses(components: seq<SbomComponent>): Dict<string> {
    if components == [] then []
    else
      var c := components[|components| - 1];
      var before := ComponentLicenses(components[..|components| - 1]);
      if c.licenses != [] then Put(before, c.name.GetOr(""), LicenseTypeOf(c.licenses)) else before
  }

  function LicensedNames(components: seq<SbomComponent>): set<string> {
    set i | 0 <= i < |components| && components[i].licenses != [] :: components[i].name.GetOr("")
  }

  lemma LicensedNamesSnoc(components: seq<SbomComponent>)
    requires components != []
    ensures var c := components[|components| - 1];
      LicensedNames(components) == LicensedNames(components[..|components| - 1]) + (if c.licenses != [] then {c.name.GetOr("")} else {})
  {
    var init := components[..|components| - 1];
    var c := components[|components| - 1];
    forall n | n in LicensedNames(components) ensures n in LicensedNames(init) + (if c.licenses != [] then {c.name.GetOr("")} else {}) {
      var i :| 0 <= i < |components| && components[i].licenses != [] && components[i].name.GetOr("") == n;
      if i < |init| {
        assert init[i] == components[i];
      }
    }
    forall n | n in LicensedNames(init) ensures n in LicensedNames(components) {
      var i :| 0 <= i < |init| && init[i].licenses != [] && init[i].name.GetOr("") == n;
      assert components[i] == init[i];
    }
  }

  /** The map has one key per name of a component with licenses, each once. */
  lemma {:induction false} ComponentLicensesKeys(components: seq<SbomComponent>)
    ensures Keys(ComponentLicenses(components)) == LicensedNames(components)
    ensures DistinctKeys(ComponentLicenses(components))
  {
    if components != [] {
      var init := components[..|components| - 1];
      var c := components[|components| - 1];
      ComponentLicensesKeys(init);
      LicensedNamesSnoc(components);
      if c.licenses != [] {
        PutKeepsDistinct(ComponentLicenses(init), c.name.GetOr(""), LicenseTypeOf(c.licenses));
      }
    }
  }

  /** A later component with licenses and the same name overwrites an earlier one. */
  lemma {:induction false} ComponentLicensesValue(components: seq<SbomComponent>, i: nat)
    requires i < |components| && components[i].licenses != []
    requires forall j :: i < j < |components| && components[j].licenses != [] ==> components[j].name.GetOr("") != components[i].name.GetOr("")
    ensures Get(ComponentLicenses(components), components[i].name.GetOr("")) == Some(LicenseTypeOf(components[i].licenses))
  {
    if i < |components| - 1 {
      ComponentLicensesValue(components[..|components| - 1], i);
    }
  }

  /** `_find_matching_component`: the first entry, in insertion order, whose name matches. */
  function FirstMatch(dependency: string, licenseMap: Dict<string>): (r: Option<(string, string)>)
    ensures r.None? <==> forall i :: 0 <= i < |licenseMap| ==> !NamesMatch(dependency, licenseMap[i].0)
    ensures r.Some? ==> exists i :: (0 <= i < |licenseMap| && licenseMap[i] == r.value && NamesMatch(dependency, licenseMap[i].0)
      && forall j :: 0 <= j < i ==> !NamesMatch(dependency, licenseMap[j].0))
  {
    if licenseMap == [] then None
    else if NamesMatch(dependency, licenseMap[0].0) then Some(licenseMap[0])
    else
      var r := FirstMatch(dependency, licenseMap[1..]);
      assert forall j :: 1 <= j < |licenseMap| ==> licenseMap[j] == licenseMap[1..][j - 1];
      if r.Some? then
        var i :| (0 <= i < |licenseMap[1..]| && licenseMap[1..][i] == r.value && NamesMatch(dependency, licenseMap[1..][i].0)
          && forall j :: 0 <= j < i ==> !NamesMatch(dependency, licenseMap[1..][j].0));
        assert forall j :: 0 <= j < i + 1 ==> !NamesMatch(dependency, licenseMap[j].0);
        r
      else r
  }

  datatype MatchedLicense = MatchedLicense(
    artifact: string, licenseFile: string, dependencyName: string, componentName: string,
    expectedLicense: string, matchedLicense: string, similarityScore: real)

  datatype UnmatchedLicense = UnmatchedLicense(artifact: string, licenseFile: string, dependencyName: string, reason: string)

  datatype ValidationError =
    | NameError(artifact: string, licenseFile: string, error: string)
    | ContentMismatch(artifact: string, licenseFile: string, dependencyName: string, componentName: string,
        expectedLicense: string, matchedLicense: string, similarityScore: real, error: string)

  /** The `results` dictionary of `match_licenses_to_components`. */
  datatype MatchResults = MatchResults(
    matched: seq<MatchedLicense>, unmatched: seq<UnmatchedLicense>, errors: seq<ValidationError>, coverage: real)

  const NameErrorText: string := "Could not extract dependency name from filename"
  const NoComponentText: string := "No matching SBOM component found"
  const MismatchText: string := "License content does not match expected license"

  /** `_process_single_license_file`: the file lands in exactly one of the three lists. */
  function ProcessFile(results: MatchResults, artifact: string, file: LicenseUtils.LicenseRecord, licenseMap: Dict<string>,
                       refs: Dict<string>, ratio: (string, string) -> Ratio): MatchResults
  {
    var dependency := FileDependencyName(file.name);
    if dependency.None? || dependency.value == "" then
      results.(errors := results.errors + [NameError(artifact, file.name, NameErrorText)])
    else
      var found := FirstMatch(dependency.value, licenseMap);
      if found.None? || found.value.0 == "" then
        results.(unmatched := results.unmatched + [UnmatchedLicense(artifact, file.name, dependency.value, NoComponentText)])
      else
        var (component, expected) := found.value;
        var (isValid, similarity, matchedLicense) := Verdict(refs, file.content, expected, ratio);
        if isValid then
          results.(matched := results.matched + [MatchedLicense(artifact, file.name, dependency.value, component, expected, matchedLicense, similarity)])
        else
          results.(errors := results.errors + [ContentMismatch(artifact, file.name, dependency.value, component, expected, matchedLicense, similarity, MismatchText)])
  }

  /** The third-party files of one artifact, in order. */
  function ProcessFiles(results: MatchResults, artifact: string, files: seq<LicenseUtils.LicenseRecord>, licenseMap: Dict<string>,
                        refs: Dict<string>, ratio: (string, string) -> Ratio): MatchResults
  {
    if files == [] then results
    else
      var before := ProcessFiles(results, artifact, files[..|files| - 1], licenseMap, refs, ratio);
      var f := files[|files| - 1];
      if f.licenseType != ScaExceptions.ThirdParty then before else ProcessFile(before, artifact, f, licenseMap, refs, ratio)
  }

  /** `_process_license_files`. */
  function ProcessAll(results: MatchResults, extracted: Dict<seq<LicenseUtils.LicenseRecord>>, licenseMap: Dict<string>,
                      refs: Dict<string>, ratio: (string, string) -> Ratio): MatchResults
  {
    if extracted == [] then results
    else
      var (artifact, files) := extracted[|extracted| - 1];
      ProcessFiles(ProcessAll(results, extracted[..|extracted| - 1], licenseMap, refs, ratio), artifact, files, licenseMap, refs, ratio)
  }

  function MatchedComponents(matched: seq<MatchedLicense>): set<string> {
    set m | m in matched :: m.componentName
  }

  function Size(r: MatchResults): nat {
    |r.matched| + |r.unmatched| + |r.errors|
  }

  /**
   * Every matched entry names a key of the component map that matches its
   * dependency, expects an allowed license and reaches the similarity threshold.
   */
  predicate MatchesSound(r: MatchResults, licenseMap: Dict<string>) {
    forall m :: m in r.matched ==> MatchSound(m, licenseMap)
  }

  predicate MatchSound(m: MatchedLicense, licenseMap: Dict<string>) {
    && m.componentName in Keys(licenseMap) && m.componentName != "" && NamesMatch(m.dependencyName, m.componentName)
    && m.expectedLicense in AllowedLicenses && m.similarityScore >= SimilarityThreshold
  }

  lemma ProcessFileMeaning(results: MatchResults, artifact: string, file: LicenseUtils.LicenseRecord, licenseMap: Dict<string>,
                           refs: Dict<string>, ratio: (string, string) -> Ratio)
    requires MatchesSound(results, licenseMap)
    ensures Size(ProcessFile(results, artifact, file, licenseMap, refs, ratio)) == Size(results) + 1
    ensures MatchesSound(ProcessFile(results, artifact, file, licenseMap, refs, ratio), licenseMap)
    ensures ProcessFile(results, artifact, file, licenseMap, refs, ratio).coverage == results.coverage
  {
    var r := ProcessFile(results, artifact, file, licenseMap, refs, ratio);
    var dependency := FileDependencyName(file.name);
    if dependency.Some? && dependency.value != "" {
      var found := FirstMatch(dependency.value, licenseMap);
      if found.Some? && found.value.0 != "" {
        var (component, expected) := found.value;
        var v := Verdict(refs, file.content, expected, ratio);
        if v.0 {
          var added := MatchedLicense(artifact, file.name, dependency.value, component, expected, v.2, v.1);
          assert r.matched == results.matched + [added];
          ValidVerdictSound(refs, file.content, expected, ratio);
          var i :| 0 <= i < |licenseMap| && licenseMap[i] == found.value && NamesMatch(dependency.value, licenseMap[i].0);
          assert component in Keys(licenseMap);
          assert MatchSound(added, licenseMap);
        } else {
          assert r.matched == results.matched;
        }
      }
    }
  }

  /** A valid verdict is for an allowed license, with a score of at least 0.8. */
  lemma ValidVerdictSound(refs: Dict<string>, content: string, expected: string, ratio: (string, string) -> Ratio)
    ensures Verdict(refs, content, expected, ratio).0 ==>
      expected in AllowedLicenses && Verdict(refs, content, expected, ratio).1 >= SimilarityThreshold
  {
  }

  lemma {:induction false} ProcessFilesMeaning(results: MatchResults, artifact: string, files: seq<LicenseUtils.LicenseRecord>,
                                               licenseMap: Dict<string>, refs: Dict<string>, ratio: (string, string) -> Ratio)
    requires MatchesSound(results, licenseMap)
    ensures Size(ProcessFiles(results, artifact, files, licenseMap, refs, ratio)) == Size(results) + |LicenseUtils.ThirdPartyOf(files)|
    ensures MatchesSound(ProcessFiles(results, artifact, files, licenseMap, refs, ratio), licenseMap)
    ensures ProcessFiles(results, artifact, files, licenseMap, refs, ratio).coverage == results.coverage
  {
    if files != [] {
      ProcessFilesMeaning(results, artifact, files[..|files| - 1], licenseMap, refs, ratio);
      var f := files[|files| - 1];
      if f.licenseType == ScaExceptions.ThirdParty {
        ProcessFileMeaning(ProcessFiles(results, artifact, files[..|files| - 1], licenseMap, refs, ratio), artifact, f, licenseMap, refs, ratio);
      }
    }
  }

  /** Each third-party file lands in exactly one list, and nothing else does. */
  lemma {:induction false} ProcessAllMeaning(results: MatchResults, extracted: Dict<seq<LicenseUtils.LicenseRecord>>,
                                             licenseMap: Dict<string>, refs: Dict<string>, ratio: (string, string) -> Ratio)
    requires MatchesSound(results, licenseMap)
    ensures Size(ProcessAll(results, extracted, licenseMap, refs, ratio)) == Size(results) + |LicenseUtils.ThirdPartyLicenses(extracted)|
    ensures MatchesSound(ProcessAll(results, extracted, licenseMap, refs, ratio), licenseMap)
    ensures ProcessAll(results, extracted, licenseMap, refs, ratio).coverage == results.coverage
  {
    if extracted != [] {
      ProcessAllMeaning(results, extracted[..|extracted| - 1], licenseMap, refs, ratio);
      var (artifact, files) := extracted[|extracted| - 1];
      ProcessFilesMeaning(ProcessAll(results, extracted[..|extracted| - 1], licenseMap, refs, ratio), artifact, files, licenseMap, refs, ratio);
    }
  }

  lemma SubsetCard(a: set<string>, b: set<string>)
    requires a <= b
    ensures |a| <= |b|
  {
    assert b == a + (b - a);
  }

  lemma SubsetCardStrict(a: set<string>, b: set<string>)
    requires a <= b
    ensures |a| == |b| ==> a == b
  {
    if a != b {
      assert !(b <= a);
      var x :| x in b && x !in a;
      SubsetCard(a, b - {x});
    }
  }

  const EmptyResults: MatchResults := MatchResults([], [], [], 0.0)

  /** `match_licenses_to_components`: the buckets, then coverage over the distinct matched components. */
  function MatchReport(extracted: Dict<seq<LicenseUtils.LicenseRecord>>, components: seq<SbomComponent>,
                       refs: Dict<string>, ratio: (string, string) -> Ratio): MatchResults
  {
    var licenseMap := ComponentLicenses(components);
    var processed := ProcessAll(EmptyResults, extracted, licenseMap, refs, ratio);
    ProcessAllMeaning(EmptyResults, extracted, licenseMap, refs, ratio);
    SubsetCard(MatchedComponents(processed.matched), Keys(licenseMap));
    processed.(coverage := ScaExceptions.Coverage(|MatchedComponents(processed.matched)|, |Keys(licenseMap)|))
  }

  /**
   * Each third-party file is reported exactly once, every match names a
   * component of the map, and coverage is 100 exactly when every component
   * of a non-empty map is matched.
   */
  lemma MatchReportMeaning(extracted: Dict<seq<LicenseUtils.LicenseRecord>>, components: seq<SbomComponent>,
                           refs: Dict<string>, ratio: (string, string) -> Ratio)
    ensures var r := MatchReport(extracted, components, refs, ratio);
      && Size(r) == |LicenseUtils.ThirdPartyLicenses(extracted)|
      && MatchesSound(r, ComponentLicenses(components))
      && 0.0 <= r.coverage <= 100.0
      && (r.coverage == 100.0 <==> (Keys(ComponentLicenses(components)) != {}
           && MatchedComponents(r.matched) == Keys(ComponentLicenses(components))))
  {
    var licenseMap := ComponentLicenses(components);
    var processed := ProcessAll(EmptyResults, extracted, licenseMap, refs, ratio);
    ProcessAllMeaning(EmptyResults, extracted, licenseMap, refs, ratio);
    var matchedNames := MatchedComponents(processed.matched);
    SubsetCard(matchedNames, Keys(licenseMap));
    SubsetCardStrict(matchedNames, Keys(licenseMap));
  }

  /** The matcher; it validates content with its validator's references. */
  class LicenseContentMatcher {
    const validator: LicenseContentValidator

    constructor (validator: LicenseContentValidator)
      ensures this.validator == validator
    {
      this.validator := validator;
    }

    method MatchLicensesToComponents(extracted: Dict<seq<LicenseUtils.LicenseRecord>>, components: seq<SbomComponent>,
                                     ratio: (string, string) -> Ratio) returns (r: MatchResults)
      ensures r == MatchReport(extracted, components, validator.referenceLicenses, ratio)
    {
      var componentLicenses := BuildComponentLicensesMap(components);
      var results := ProcessLicenseFiles(extracted, componentLicenses, EmptyResults, ratio);
      ProcessAllMeaning(EmptyResults, extracted, componentLicenses, validator.referenceLicenses, ratio);
      var totalComponents := |Keys(componentLicenses)|;
      var matchedComponents := |MatchedComponents(results.matched)|;
      if totalComponents > 0 {
        SubsetCard(MatchedComponents(results.matched), Keys(componentLicenses));
        results := results.(coverage := ScaExceptions.Coverage(matchedComponents, totalComponents));
      }
      r := results;
    }

    method BuildComponentLicensesMap(components: seq<SbomComponent>) returns (licenseMap: Dict<string>)
      ensures licenseMap == ComponentLicenses(components)
    {
      licenseMap := [];
      var k := 0;
      while k < |components|
        invariant 0 <= k <= |components|
        invariant licenseMap == ComponentLicenses(components[..k])
      {
        assert components[..k + 1][..k] == components[..k];
        var component := components[k];
        var name := component.name.GetOr("");
        if component.licenses != [] {
          var licenseType := LicenseTypeOf(component.licenses);
          licenseMap := Put(licenseMap, name, licenseType);
        }
        k := k + 1;
      }
      assert components[..k] == components;
    }

    method ProcessLicenseFiles(extracted: Dict<seq<LicenseUtils.LicenseRecord>>, componentLicenses: Dict<string>,
                               results: MatchResults, ratio: (string, string) -> Ratio) returns (r: MatchResults)
      ensures r == ProcessAll(results, extracted, componentLicenses, validator.referenceLicenses, ratio)
    {
      r := results;
      var k := 0;
      while k < |extracted|
        invariant 0 <= k <= |extracted|
        invariant r == ProcessAll(results, extracted[..k], componentLicenses, validator.referenceLicenses, ratio)
      {
        assert extracted[..k + 1][..k] == extracted[..k];
        var (artifactName, licenseFiles) := extracted[k];
        ghost var before := r;
        var j := 0;
        while j < |licenseFiles|
          invariant 0 <= j <= |licenseFiles|
          invariant r == ProcessFiles(before, artifactName, licenseFiles[..j], componentLicenses, validator.referenceLicenses, ratio)
        {
          assert licenseFiles[..j + 1][..j] == licenseFiles[..j];
          if licenseFiles[j].licenseType == ScaExceptions.ThirdParty {
            r := ProcessSingleLicenseFile(artifactName, licenseFiles[j], componentLicenses, r, ratio);
          }
          j := j + 1;
        }
        assert licenseFiles[..j] == licenseFiles;
        k := k + 1;
      }
      assert extracted[..k] == extracted;
    }

    method ProcessSingleLicenseFile(artifactName: string, licenseFile: LicenseUtils.LicenseRecord, componentLicenses: Dict<string>,
                                    results: MatchResults, ratio: (string, string) -> Ratio) returns (r: MatchResults)
      ensures r == ProcessFile(results, artifactName, licenseFile, componentLicenses, validator.referenceLicenses, ratio)
    {
      var dependencyName := FileDependencyName(licenseFile.name);
      if dependencyName.None? || dependencyName.value == "" {
        return results.(errors := results.errors + [NameError(artifactName, licenseFile.name, NameErrorText)]);
      }
      var found := FindMatchingComponent(dependencyName.value, componentLicenses);
      if found.None? || found.value.0 == "" {
        return results.(unmatched := results.unmatched + [UnmatchedLicense(artifactName, licenseFile.name, dependencyName.value, NoComponentText)]);
      }
      var (matchedComponent, expectedLicense) := found.value;
      var verdict := validator.ValidateLicenseContent(licenseFile.content, expectedLicense, ratio);
      var (isValid, similarity, matchedLicense) := verdict;
      if isValid {
        r := results.(matched := results.matched + [MatchedLicense(artifactName, licenseFile.name, dependencyName.value,
          matchedComponent, expectedLicense, matchedLicense, similarity)]);
      } else {
        r := results.(errors := results.errors + [ContentMismatch(artifactName, licenseFile.name, dependencyName.value,
          matchedComponent, expectedLicense, matchedLicense, similarity, MismatchText)]);
      }
    }

    /** The search loop, returning at the first entry whose name matches. */
    method FindMatchingComponent(dependencyName: string, componentLicenses: Dict<string>) returns (r: Option<(string, string)>)
      ensures r == FirstMatch(dependencyName, componentLicenses)
    {
      var k := 0;
      while k < |componentLicenses|
        invariant 0 <= k <= |componentLicenses|
        invariant forall j :: 0 <= j < k ==> !NamesMatch(dependencyName, componentLicenses[j].0)
      {
        if NamesMatch(dependencyName, componentLicenses[k].0) {
          FirstMatchAt(dependencyName, componentLicenses, k);
          return Some(componentLicenses[k]);
        }
        k := k + 1;
      }
      return None;
    }
  }

  /** The first matching index determines the search result. */
  lemma FirstMatchAt(dependency: string, licenseMap: Dict<string>, k: nat)
    requires k < |licenseMap| && NamesMatch(dependency, licenseMap[k].0)
    requires forall j :: 0 <= j < k ==> !NamesMatch(dependency, licenseMap[j].0)
    ensures FirstMatch(dependency, licenseMap) == Some(licenseMap[k])
  {
    var r := FirstMatch(dependency, licenseMap);
    var i :| (0 <= i < |licenseMap| && licenseMap[i] == r.value && NamesMatch(dependency, licenseMap[i].0)
      && forall j :: 0 <= j < i ==> !NamesMatch(dependency, licenseMap[j].0));
    assert i == k;
  }
}
