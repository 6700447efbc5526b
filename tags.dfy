/**
 * The release tag grammar of the release action (release/main.py): the ref
 * becomes a version, the version must match
 * `^\d+\.\d+\.\d+(?:-M\d+)?[.+](\d+)$`, and the captured digits are the
 * build number.
 *
 * The regular expression is written out as a recogniser that consumes the
 * version from the left; `\d` is read as an ASCII digit.
 */
module ReleaseTag {
  import opened Wrappers
  import opened Strings

  const TagsPrefix: string := "refs/tags/"

  // ---------------------------------------------------------------- the pieces of the grammar

  /** The length of the leading run of digits. */
  function DigitRun(s: string): (n: nat)
    ensures n <= |s|
    ensures forall k :: 0 <= k < n ==> IsDigit(s[k])
    ensures n == |s| || !IsDigit(s[n])
  {
    if s != [] && IsDigit(s[0]) then 1 + DigitRun(s[1..]) else 0
  }

  /** What is left after `\d+`, None when no digit comes first. */
  function AfterNumber(s: string): (r: Option<string>)
    ensures r.Some? ==> |r.value| < |s| && r.value == s[|s| - |r.value|..]
  {
    var n := DigitRun(s);
    if n == 0 then None else Some(s[n..])
  }

  /** What is left after `\.\d+`. */
  function AfterDotNumber(s: string): Option<string> {
    if s != [] && s[0] == '.' then AfterNumber(s[1..]) else None
  }

  /** What is left after the optional `-M\d+`: the group when it matches, nothing consumed otherwise. */
  function AfterMilestone(s: string): string {
    if |s| >= 2 && s[0] == '-' && s[1] == 'M' && AfterNumber(s[2..]).Some? then AfterNumber(s[2..]).value else s
  }

  /** What is left after `\d+\.\d+\.\d+(?:-M\d+)?`, the part both tag grammars share. */
  function AfterCore(v: string): Option<string> {
    match AfterNumber(v)
    case None => None
    case Some(r1) =>
      match AfterDotNumber(r1)
      case None => None
      case Some(r2) =>
        match AfterDotNumber(r2)
        case None => None
        case Some(r3) => Some(AfterMilestone(r3))
  }

  /** `$`: the end, or a single newline that ends the text. */
  predicate AtEnd(s: string) {
    s == [] || s == "\n"
  }

  /** The build number a full match captures, None when the version does not match. */
  function ReleaseTagBuild(v: string): (r: Option<string>)
    ensures r.Some? ==> Number(r.value)
  {
    match AfterCore(v)
    case None => None
    case Some(rest) => BuildAfter(rest)
  }

  /** `[.+](\d+)$` on what follows the shared part. */
  function BuildAfter(rest: string): (r: Option<string>)
    ensures r.Some? ==> Number(r.value)
  {
    if rest == [] || (rest[0] != '.' && rest[0] != '+') then None
    else
      var n := DigitRun(rest[1..]);
      if n == 0 || !AtEnd(rest[1..][n..]) then None else Some(rest[1..][..n])
  }

  // ---------------------------------------------------------------- the tags the grammar describes

  /** A tag `major.minor.patch[-Mmilestone]<sep>build`, the parts as written. */
  datatype Tag = Tag(major: string, minor: string, patch: string, milestone: Option<string>, sep: char, build: string)

  predicate Number(s: string) {
    s != [] && AllDigits(s)
  }

  /** Every part a non-empty run of digits, the separator '.' or '+'. */
  predicate WellFormed(t: Tag) {
    Number(t.major) && Number(t.minor) && Number(t.patch)
    && (t.milestone.Some? ==> Number(t.milestone.value))
    && (t.sep == '.' || t.sep == '+')
    && Number(t.build)
  }

  function MilestoneText(m: Option<string>): string {
    if m.Some? then "-M" + m.value else ""
  }

  /** The text before the separator. */
  function CoreText(t: Tag): string {
    t.major + "." + t.minor + "." + t.patch + MilestoneText(t.milestone)
  }

  function TagText(t: Tag): string {
    CoreText(t) + [t.sep] + t.build
  }

  lemma {:induction false} DigitRunOf(d: string, rest: string)
    requires AllDigits(d)
    requires rest == [] || !IsDigit(rest[0])
    ensures DigitRun(d + rest) == |d|
  {
    if d == [] {
      assert d + rest == rest;
    } else {
      assert (d + rest)[1..] == d[1..] + rest;
      DigitRunOf(d[1..], rest);
    }
  }

  lemma NumberThen(d: string, rest: string)
    requires Number(d)
    requires rest == [] || !IsDigit(rest[0])
    ensures AfterNumber(d + rest) == Some(rest)
  {
    DigitRunOf(d, rest);
    assert (d + rest)[|d|..] == rest;
  }

  lemma DotNumberThen(d: string, rest: string)
    requires Number(d)
    requires rest == [] || !IsDigit(rest[0])
    ensures AfterDotNumber("." + d + rest) == Some(rest)
  {
    assert ("." + d + rest)[1..] == d + rest;
    NumberThen(d, rest);
  }

  lemma MilestoneThen(m: Option<string>, suffix: string)
    requires m.Some? ==> Number(m.value)
    requires suffix == [] || (!IsDigit(suffix[0]) && suffix[0] != '-')
    ensures AfterMilestone(MilestoneText(m) + suffix) == suffix
  {
    if m.Some? {
      var s := MilestoneText(m) + suffix;
      assert s[2..] == m.value + suffix;
      NumberThen(m.value, suffix);
    }
  }

  /** Reading the shared part in its three steps. */
  lemma CoreSteps(v: string, r1: string, r2: string, r3: string)
    requires AfterNumber(v) == Some(r1) && AfterDotNumber(r1) == Some(r2) && AfterDotNumber(r2) == Some(r3)
    ensures AfterCore(v) == Some(AfterMilestone(r3))
  {
  }

  lemma CoreTextShape(t: Tag, suffix: string)
    ensures CoreText(t) + suffix == t.major + ("." + t.minor + ("." + t.patch + (MilestoneText(t.milestone) + suffix)))
  {
  }

  /** The shared part consumes exactly the core of a well-formed tag. */
  lemma CoreOfTag(t: Tag, suffix: string)
    requires WellFormed(t)
    requires suffix == [] || (!IsDigit(suffix[0]) && suffix[0] != '-')
    ensures AfterCore(CoreText(t) + suffix) == Some(suffix)
  {
    var r3 := MilestoneText(t.milestone) + suffix;
    var r2 := "." + t.patch + r3;
    var r1 := "." + t.minor + r2;
    CoreTextShape(t, suffix);
    MilestoneThen(t.milestone, suffix);
    NumberThen(t.major, r1);
    DotNumberThen(t.minor, r2);
    DotNumberThen(t.patch, r3);
    CoreSteps(CoreText(t) + suffix, r1, r2, r3);
  }

  lemma TagShape(t: Tag, suffix: string)
    ensures TagText(t) + suffix == CoreText(t) + ([t.sep] + (t.build + suffix))
  {
  }

  lemma BuildAfterOf(sep: char, d: string, tail: string)
    requires sep == '.' || sep == '+'
    requires Number(d)
    requires tail == [] || !IsDigit(tail[0])
    ensures BuildAfter([sep] + (d + tail)) == if AtEnd(tail) then Some(d) else None
  {
    var rest := [sep] + (d + tail);
    assert rest[1..] == d + tail;
    DigitRunOf(d, tail);
    assert (d + tail)[..|d|] == d;
    assert (d + tail)[|d|..] == tail;
  }

  /** Every well-formed tag is accepted, with or without a final newline, and its build digits are captured. */
  lemma ReleaseTagAccepts(t: Tag, newline: bool)
    requires WellFormed(t)
    ensures ReleaseTagBuild(TagText(t) + (if newline then "\n" else "")) == Some(t.build)
  {
    var nl := if newline then "\n" else "";
    TagShape(t, nl);
    CoreOfTag(t, [t.sep] + (t.build + nl));
    BuildAfterOf(t.sep, t.build, nl);
  }

  lemma NumberSound(s: string) returns (d: string)
    requires AfterNumber(s).Some?
    ensures Number(d) && s == d + AfterNumber(s).value
  {
    d := s[..DigitRun(s)];
    assert s == d + s[DigitRun(s)..];
  }

  lemma DotNumberSound(s: string) returns (d: string)
    requires AfterDotNumber(s).Some?
    ensures Number(d) && s == "." + d + AfterDotNumber(s).value
  {
    d := NumberSound(s[1..]);
    assert s == "." + s[1..];
  }

  lemma MilestoneSound(s: string) returns (m: Option<string>)
    ensures m.Some? ==> Number(m.value)
    ensures s == MilestoneText(m) + AfterMilestone(s)
  {
    if |s| >= 2 && s[0] == '-' && s[1] == 'M' && AfterNumber(s[2..]).Some? {
      var tail := s[2..];
      var d := NumberSound(tail);
      var after := AfterNumber(tail).value;
      m := Some(d);
      assert AfterMilestone(s) == after;
      assert s == "-M" + tail;
      assert tail == d + after;
      assert "-M" + (d + after) == ("-M" + d) + after;
    } else {
      m := None;
      assert AfterMilestone(s) == s;
      assert MilestoneText(m) + s == s;
    }
  }

  /** The shared part matched only the core of some tag. */
  lemma CoreSound(v: string) returns (major: string, minor: string, patch: string, milestone: Option<string>, rest: string)
    requires AfterCore(v).Some?
    ensures Number(major) && Number(minor) && Number(patch) && (milestone.Some? ==> Number(milestone.value))
    ensures rest == AfterCore(v).value
    ensures v == major + "." + minor + "." + patch + MilestoneText(milestone) + rest
  {
    var r1 := AfterNumber(v).value;
    var r2 := AfterDotNumber(r1).value;
    var r3 := AfterDotNumber(r2).value;
    major := NumberSound(v);
    minor := DotNumberSound(r1);
    patch := DotNumberSound(r2);
    milestone := MilestoneSound(r3);
    rest := AfterMilestone(r3);
    CoreSteps(v, r1, r2, r3);
    Assemble(v, r1, r2, r3, major, minor, patch, MilestoneText(milestone), rest);
  }

  lemma Assemble(v: string, r1: string, r2: string, r3: string,
                 major: string, minor: string, patch: string, mtext: string, rest: string)
    requires v == major + r1 && r1 == "." + minor + r2 && r2 == "." + patch + r3 && r3 == mtext + rest
    ensures v == major + "." + minor + "." + patch + mtext + rest
  {
  }

  lemma BuildSound(rest: string) returns (d: string, newline: bool)
    requires BuildAfter(rest).Some?
    ensures rest[0] == '.' || rest[0] == '+'
    ensures Number(d) && BuildAfter(rest) == Some(d)
    ensures rest == [rest[0]] + (d + (if newline then "\n" else ""))
  {
    var tail := rest[1..];
    var n := DigitRun(tail);
    d := tail[..n];
    newline := tail[n..] != [];
    assert tail == d + tail[n..];
    assert rest == [rest[0]] + tail;
  }

  /** Nothing that is not a well-formed tag, possibly followed by one newline, is accepted. */
  lemma ReleaseTagSound(v: string) returns (t: Tag, newline: bool)
    requires ReleaseTagBuild(v).Some?
    ensures WellFormed(t)
    ensures v == TagText(t) + (if newline then "\n" else "")
    ensures ReleaseTagBuild(v) == Some(t.build)
  {
    var major, minor, patch, milestone, rest := CoreSound(v);
    var build;
    build, newline := BuildSound(rest);
    t := Tag(major, minor, patch, milestone, rest[0], build);
    assert v == CoreText(t) + rest;
    TagShape(t, if newline then "\n" else "");
  }

  /** The `+` form is the build-metadata form: the same parts are accepted with either separator. */
  lemma SeparatorsAlike(t: Tag)
    requires WellFormed(t)
    ensures ReleaseTagBuild(TagText(t.(sep := '.'))) == ReleaseTagBuild(TagText(t.(sep := '+')))
  {
    ReleaseTagAccepts(t.(sep := '.'), false);
    ReleaseTagAccepts(t.(sep := '+'), false);
    assert TagText(t.(sep := '.')) + "" == TagText(t.(sep := '.'));
    assert TagText(t.(sep := '+')) + "" == TagText(t.(sep := '+'));
  }

  /** Text after the build number, other than one newline, is refused. */
  lemma TrailingTextRefused(t: Tag, junk: string)
    requires WellFormed(t)
    requires junk != [] && !IsDigit(junk[0]) && junk != "\n"
    ensures ReleaseTagBuild(TagText(t) + junk) == None
  {
    TagShape(t, junk);
    CoreOfTag(t, [t.sep] + (t.build + junk));
    BuildAfterOf(t.sep, t.build, junk);
  }

  // ---------------------------------------------------------------- the start of main()

  /** `ref.replace('refs/tags/', '', 1)`. */
  function TagVersion(ref: string): string {
    ReplaceFirst(ref, TagsPrefix, "")
  }

  /** A tag ref gives the tag name. */
  lemma TagVersionOfTagRef(tag: string)
    ensures TagVersion(TagsPrefix + tag) == tag
  {
    var ref := TagsPrefix + tag;
    assert StartsWith(ref, TagsPrefix);
    assert ref[|TagsPrefix|..] == tag;
  }

  /** `organisation, project = repo.split("/")`: a ValueError unless there are exactly two parts. */
  function SplitRepo(repo: string): (r: Option<(string, string)>)
    ensures r.Some? <==> |Split(repo, '/')| == 2
    ensures r.Some? ==> repo == r.value.0 + "/" + r.value.1 && '/' !in r.value.0 && '/' !in r.value.1
  {
    var parts := Split(repo, '/');
    JoinSplit(repo, '/');
    SplitPartsLackSeparator(repo, '/');
    if |parts| == 2 then
      assert Join(parts, "/") == parts[0] + "/" + Join(parts[1..], "/");
      Some((parts[0], parts[1]))
    else None
  }

  lemma SplitRepoOf(organisation: string, project: string)
    requires '/' !in organisation && '/' !in project
    ensures SplitRepo(organisation + "/" + project) == Some((organisation, project))
  {
    SplitCons(organisation, '/', project);
    SplitNoSeparator(project, '/');
  }

  datatype Start =
    | Proceed(organisation: string, project: string, version: string, buildNumber: string)
    | RepoNotTwoParts      // the ValueError of the unpacking
    | WrongVersion(version: string)  // "::error Found wrong version", exit code 1

  /** How `main()` of the release action gets from the repository and ref to the build number. */
  function ReleaseStart(repo: string, ref: string): (r: Start)
    ensures r.RepoNotTwoParts? <==> SplitRepo(repo).None?
    ensures r.WrongVersion? <==> SplitRepo(repo).Some? && ReleaseTagBuild(TagVersion(ref)).None?
    ensures r.Proceed? ==> Number(r.buildNumber) && r.version == TagVersion(ref)
                           && repo == r.organisation + "/" + r.project
  {
    match SplitRepo(repo)
    case None => RepoNotTwoParts
    case Some((organisation, project)) =>
      var version := TagVersion(ref);
      match ReleaseTagBuild(version)
      case None => WrongVersion(version)
      case Some(buildNumber) => Proceed(organisation, project, version, buildNumber)
  }
}

/**
 * The older tag check of the root action (main.py): `re.match` of
 * `\d+\.\d+\.\d+(?:-M\d+)?\.\d+`, anchored only at the start, and the build
 * number taken as the text after the last '.'.
 */
module LegacyTag {
  import opened Wrappers
  import opened Strings
  import opened ReleaseTag

  /** A prefix of the version matches. */
  predicate LegacyAccepts(v: string) {
    match AfterCore(v)
    case None => false
    case Some(rest) => DotNumberStarts(rest)
  }

  /** `\.\d+` at the start, without anchoring its end. */
  predicate DotNumberStarts(rest: string) {
    |rest| >= 2 && rest[0] == '.' && IsDigit(rest[1])
  }

  /** `version.split(".")[-1]`. */
  function LegacyBuildNumber(v: string): string {
    Last(Split(v, '.'))
  }

  /** Any text may follow a '.'-separated tag. */
  lemma LegacyAcceptsPrefix(t: Tag, rest: string)
    requires WellFormed(t) && t.sep == '.'
    ensures LegacyAccepts(TagText(t) + rest)
  {
    var tail := [t.sep] + (t.build + rest);
    TagShape(t, rest);
    CoreOfTag(t, tail);
    assert tail[1] == t.build[0];
  }

  /** Whatever follows, only a '.'-separated tag at the version's start lets it through. */
  lemma LegacySound(v: string) returns (t: Tag, rest: string)
    requires LegacyAccepts(v)
    ensures WellFormed(t) && t.sep == '.'
    ensures v == TagText(t) + rest
  {
    var major, minor, patch, milestone, after := CoreSound(v);
    var build;
    build, rest := DotNumberStartsSound(after);
    t := Tag(major, minor, patch, milestone, '.', build);
    assert CoreText(t) == major + "." + minor + "." + patch + MilestoneText(milestone);
    TagShape(t, rest);
  }

  lemma DotNumberStartsSound(after: string) returns (d: string, rest: string)
    requires DotNumberStarts(after)
    ensures Number(d) && after == ['.'] + (d + rest)
  {
    d := [after[1]];
    rest := after[2..];
    assert after == [after[0]] + ([after[1]] + after[2..]);
  }

  /** The '+' form is never accepted, whatever follows it. */
  lemma PlusRefused(t: Tag, rest: string)
    requires WellFormed(t) && t.sep == '+'
    ensures !LegacyAccepts(TagText(t) + rest)
  {
    TagShape(t, rest);
    CoreOfTag(t, [t.sep] + (t.build + rest));
  }

  /** The build number is the text after the last '.', trailing text included. */
  lemma LegacyBuildOfTag(t: Tag, rest: string)
    requires WellFormed(t) && t.sep == '.'
    requires '.' !in rest
    ensures LegacyBuildNumber(TagText(t) + rest) == t.build + rest
  {
    TagShape(t, rest);
    assert [t.sep] + (t.build + rest) == ['.'] + (t.build + rest);
    assert CoreText(t) + (['.'] + (t.build + rest)) == CoreText(t) + ['.'] + (t.build + rest);
    SplitConcat(CoreText(t), '.', t.build + rest);
    assert forall k :: 0 <= k < |t.build| ==> t.build[k] != '.';
    assert '.' !in t.build + rest;
    SplitNoSeparator(t.build + rest, '.');
  }

  /** On a '.'-separated tag with nothing after it, both actions accept and agree on the build number. */
  lemma GrammarsAgree(t: Tag)
    requires WellFormed(t) && t.sep == '.'
    ensures LegacyAccepts(TagText(t))
    ensures ReleaseTagBuild(TagText(t)) == Some(LegacyBuildNumber(TagText(t)))
  {
    assert TagText(t) + "" == TagText(t);
    assert t.build + "" == t.build;
    LegacyAcceptsPrefix(t, "");
    LegacyBuildOfTag(t, "");
    ReleaseTagAccepts(t, false);
  }

  /** How `main()` of the root action gets from the repository and ref to the build number. */
  function LegacyStart(repo: string, ref: string): (r: Start)
    ensures r.RepoNotTwoParts? <==> SplitRepo(repo).None?
    ensures r.WrongVersion? <==> SplitRepo(repo).Some? && !LegacyAccepts(TagVersion(ref))
    ensures r.Proceed? ==> r.version == TagVersion(ref) && r.buildNumber == LegacyBuildNumber(r.version)
                           && repo == r.organisation + "/" + r.project
  {
    match SplitRepo(repo)
    case None => RepoNotTwoParts
    case Some((organisation, project)) =>
      var version := TagVersion(ref);
      if !LegacyAccepts(version) then WrongVersion(version)
      else Proceed(organisation, project, version, LegacyBuildNumber(version))
  }
}
