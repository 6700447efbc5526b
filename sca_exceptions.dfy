/**
 * SCA exceptions: the repository's lists of false positives (dependencies the
 * SCA tool reports but that need no license file) and false negatives
 * (dependencies it misses), the detection of license files in a licenses
 * directory, and the comparison of license files against the SCA report.
 *
 * Files are given by what reading them yields (absent, unparsable, or a JSON
 * document); writing one replaces that value.
 */
module ScaExceptions {
  import opened Wrappers
  import opened Strings
  import opened Json

  // ---------------------------------------------------------------- exception files

  /** What `json.load` finds at a path. */
  datatype StoredFile = Absent | Corrupt | Stored(data: Json)

  /** A JSON value Python can put in a set: lists and objects are unhashable. */
  predicate Hashable(j: Json) {
    !j.JArr? && !j.JObj?
  }

  /**
   * `set(value)` on a decoded JSON value; None is the TypeError. A list gives
   * its string elements, a string its characters, an object its keys.
   */
  function PySet(j: Json): (r: Option<set<string>>)
    ensures j.JArr? ==> (r.Some? <==> forall i :: 0 <= i < |j.items| ==> Hashable(j.items[i]))
    ensures j.JArr? && r.Some? ==> forall s :: s in r.value <==> JStr(s) in j.items
    ensures j.JObj? ==> r == Some(j.fields.Keys)
    ensures (j.JNull? || j.JBool? || j.JNum?) ==> r == None
  {
    match j
    case JArr(items) =>
      if forall i :: 0 <= i < |items| ==> Hashable(items[i]) then Some(StringItems(items)) else None
    case JStr(s) => Some(set i | 0 <= i < |s| :: [s[i]])
    case JObj(fields) => Some(fields.Keys)
    case _ => None
  }

  /** `_load_exceptions`: every failure, and every other shape, yields the empty set. */
  function LoadExceptions(f: StoredFile): set<string> {
    match f
    case Absent => {}
    case Corrupt => {}
    case Stored(data) =>
      if data.JArr? then PySet(data).GetOr({})
      else if data.JObj? && "exceptions" in data.fields then PySet(data.fields["exceptions"]).GetOr({})
      else {}
  }

  const Description: string := "SCA exceptions for this repository"

  /** The document `_save_exceptions` writes; `lastUpdated` is the timestamp text. */
  function SavePayload(exceptions: set<string>, lastUpdated: string): (j: Json)
    ensures j.JObj? && j.fields.Keys == {"exceptions", "description", "last_updated"}
    ensures j.fields["exceptions"] == JArr(StringArray(SortedList(exceptions)))
  {
    JObj(map[
      "exceptions" := JArr(StringArray(SortedList(exceptions))),
      "description" := JStr(Description),
      "last_updated" := JStr(lastUpdated)])
  }

  /** Saving a set and loading the file back gives the same set. */
  lemma SaveLoadRoundTrip(exceptions: set<string>, lastUpdated: string)
    ensures LoadExceptions(Stored(SavePayload(exceptions, lastUpdated))) == exceptions
  {
    var sorted := SortedList(exceptions);
    LoadPayload(exceptions, lastUpdated);
    StringArraySet(sorted);
  }

  lemma LoadPayload(exceptions: set<string>, lastUpdated: string)
    ensures LoadExceptions(Stored(SavePayload(exceptions, lastUpdated)))
         == PySet(JArr(StringArray(SortedList(exceptions)))).GetOr({})
  {
    var payload := SavePayload(exceptions, lastUpdated);
    assert payload.JObj? && "exceptions" in payload.fields;
  }

  /** A list of names loads as exactly those names. */
  lemma StringArraySet(names: seq<string>)
    ensures PySet(JArr(StringArray(names))).Some?
    ensures forall s :: s in PySet(JArr(StringArray(names))).value <==> s in names
  {
    var items := StringArray(names);
    assert forall i :: 0 <= i < |items| ==> Hashable(items[i]);
    forall s | s in names
      ensures JStr(s) in items
    {
      var i :| 0 <= i < |names| && names[i] == s;
      assert items[i] == JStr(s);
    }
    forall s | JStr(s) in items
      ensures s in names
    {
      var i :| 0 <= i < |items| && items[i] == JStr(s);
      assert names[i] == s;
    }
  }

  /** A list with an object in it cannot be made a set, so it loads as nothing. */
  lemma ObjectItemsLoadNothing(items: seq<Json>, i: nat)
    requires i < |items| && items[i].JObj?
    ensures LoadExceptions(Stored(JArr(items))) == {}
    ensures LoadExceptions(Stored(JObj(map["exceptions" := JArr(items)]))) == {}
  {
  }

  /** The list and the object form load the same strings. */
  lemma ListAndObjectFormsAgree(names: seq<string>)
    ensures LoadExceptions(Stored(JArr(StringArray(names))))
         == LoadExceptions(Stored(JObj(map["exceptions" := JArr(StringArray(names))])))
    ensures forall s :: s in LoadExceptions(Stored(JArr(StringArray(names)))) <==> s in names
  {
    var items := StringArray(names);
    assert forall i :: 0 <= i < |items| ==> Hashable(items[i]);
    forall s | s in names
      ensures JStr(s) in items
    {
      var i :| 0 <= i < |names| && names[i] == s;
      assert items[i] == JStr(s);
    }
  }

  /**
   * The manager of the two exception sets and the two files that hold them.
   * `writeSucceeds` stands for the outcome of creating the directory and
   * writing the file; a failed save is logged and leaves the file as it was.
   */
  class ScaExceptionManager {
    var falsePositives: set<string>
    var falseNegatives: set<string>
    var fpFile: StoredFile
    var fnFile: StoredFile

    constructor (fp: StoredFile, fn: StoredFile)
      ensures fpFile == fp && fnFile == fn
      ensures falsePositives == LoadExceptions(fp)
      ensures falseNegatives == LoadExceptions(fn)
    {
      fpFile := fp;
      fnFile := fn;
      falsePositives := LoadExceptions(fp);
      falseNegatives := LoadExceptions(fn);
    }

    function GetFalsePositives(): (r: set<string>)
      reads this
      ensures forall d :: d in r <==> IsFalsePositive(d)
    {
      falsePositives
    }

    function GetFalseNegatives(): (r: set<string>)
      reads this
      ensures forall d :: d in r <==> IsFalseNegative(d)
    {
      falseNegatives
    }

    predicate IsFalsePositive(dependency: string)
      reads this
    {
      dependency in falsePositives
    }

    predicate IsFalseNegative(dependency: string)
      reads this
    {
      dependency in falseNegatives
    }

    /** Adds a false positive and saves the set; the negatives and their file are untouched. */
    method AddFalsePositive(dependency: string, lastUpdated: string, writeSucceeds: bool)
      modifies this
      ensures falsePositives == old(falsePositives) + {dependency}
      ensures IsFalsePositive(dependency) && dependency in GetFalsePositives()
      ensures falseNegatives == old(falseNegatives) && fnFile == old(fnFile)
      ensures fpFile == if writeSucceeds then Stored(SavePayload(falsePositives, lastUpdated)) else old(fpFile)
      ensures writeSucceeds ==> LoadExceptions(fpFile) == falsePositives
    {
      falsePositives := falsePositives + {dependency};
      SaveFalsePositives(lastUpdated, writeSucceeds);
    }

    /** Adds a false negative and saves the set; the positives and their file are untouched. */
    method AddFalseNegative(dependency: string, lastUpdated: string, writeSucceeds: bool)
      modifies this
      ensures falseNegatives == old(falseNegatives) + {dependency}
      ensures IsFalseNegative(dependency) && dependency in GetFalseNegatives()
      ensures falsePositives == old(falsePositives) && fpFile == old(fpFile)
      ensures fnFile == if writeSucceeds then Stored(SavePayload(falseNegatives, lastUpdated)) else old(fnFile)
      ensures writeSucceeds ==> LoadExceptions(fnFile) == falseNegatives
    {
      falseNegatives := falseNegatives + {dependency};
      SaveFalseNegatives(lastUpdated, writeSucceeds);
    }

    method SaveFalsePositives(lastUpdated: string, writeSucceeds: bool)
      modifies this
      ensures falsePositives == old(falsePositives) && falseNegatives == old(falseNegatives)
      ensures fnFile == old(fnFile)
      ensures fpFile == if writeSucceeds then Stored(SavePayload(falsePositives, lastUpdated)) else old(fpFile)
      ensures writeSucceeds ==> LoadExceptions(fpFile) == falsePositives
    {
      if writeSucceeds {
        fpFile := Stored(SavePayload(falsePositives, lastUpdated));
        SaveLoadRoundTrip(falsePositives, lastUpdated);
      }
    }

    method SaveFalseNegatives(lastUpdated: string, writeSucceeds: bool)
      modifies this
      ensures falsePositives == old(falsePositives) && falseNegatives == old(falseNegatives)
      ensures fpFile == old(fpFile)
      ensures fnFile == if writeSucceeds then Stored(SavePayload(falseNegatives, lastUpdated)) else old(fnFile)
      ensures writeSucceeds ==> LoadExceptions(fnFile) == falseNegatives
    {
      if writeSucceeds {
        fnFile := Stored(SavePayload(falseNegatives, lastUpdated));
        SaveLoadRoundTrip(falseNegatives, lastUpdated);
      }
    }

    /** Writes an empty list to each exception file that does not exist; the sets stay as loaded. */
    method CreateTemplateFiles(lastUpdated: string, writeSucceeds: bool)
      modifies this
      ensures falsePositives == old(falsePositives) && falseNegatives == old(falseNegatives)
      ensures fpFile == if old(fpFile).Absent? && writeSucceeds then Stored(SavePayload({}, lastUpdated)) else old(fpFile)
      ensures fnFile == if old(fnFile).Absent? && writeSucceeds then Stored(SavePayload({}, lastUpdated)) else old(fnFile)
    {
      if fpFile.Absent? && writeSucceeds {
        fpFile := Stored(SavePayload({}, lastUpdated));
      }
      if fnFile.Absent? && writeSucceeds {
        fnFile := Stored(SavePayload({}, lastUpdated));
      }
    }
  }

  /** A fresh manager over files written by an earlier one holds the sets that one saved. */
  method ReloadAfterAdd(fp: StoredFile, fn: StoredFile, dependency: string, lastUpdated: string)
    returns (before: set<string>, reloaded: set<string>)
    ensures reloaded == before + {dependency}
    ensures before == LoadExceptions(fp)
  {
    var manager := new ScaExceptionManager(fp, fn);
    before := manager.GetFalsePositives();
    manager.AddFalsePositive(dependency, lastUpdated, true);
    var again := new ScaExceptionManager(manager.fpFile, manager.fnFile);
    reloaded := again.GetFalsePositives();
  }

  // ---------------------------------------------------------------- license files

  datatype LicenseType = Main | ThirdParty
  datatype FileFormat = Html | Text

  /** One detected license file: its path, its name, the kind of license and the format. */
  datatype LicenseInfo = LicenseInfo(path: string, name: string, licenseType: LicenseType, format: FileFormat)

  const LicenseExtensions: seq<string> := [".txt", ".html", ".htm", ".md"]
  const MainLicenseNames: seq<string> := ["license.txt", "license.html", "license.htm", "license.md"]
  const ThirdPartyDirectory: string := "THIRD_PARTY_LICENSES"

  /** A file under a THIRD_PARTY_LICENSES path is third party; else a LICENSE file is the main one. */
  function DetermineLicenseType(filePath: string, file: string): (t: LicenseType)
    ensures t == Main <==> !Contains(filePath, ThirdPartyDirectory) && Lower(file) in MainLicenseNames
  {
    if Contains(filePath, ThirdPartyDirectory) then ThirdParty
    else if Lower(file) in MainLicenseNames then Main
    else ThirdParty
  }

  function DetermineFileFormat(fileExt: string): (f: FileFormat)
    ensures f == Html <==> fileExt == ".html" || fileExt == ".htm"
  {
    if fileExt in [".html", ".htm"] then Html else Text
  }

  /** The lower-cased extension of a file name, as the detector compares it. */
  function Extension(file: string): string {
    Lower(SplitExt(file).1)
  }

  function CreateLicenseInfo(filePath: string, file: string, fileExt: string): LicenseInfo {
    LicenseInfo(filePath, file, DetermineLicenseType(filePath, file), DetermineFileFormat(fileExt))
  }

  /**
   * The license files among the walked entries, each a (directory, file name)
   * pair in the order of the walk.
   */
  function LicenseFiles(entries: seq<(string, string)>): (r: seq<LicenseInfo>)
    ensures |r| <= |entries|
  {
    if entries == [] then []
    else
      var (root, file) := entries[|entries| - 1];
      var ext := Extension(file);
      LicenseFiles(entries[..|entries| - 1])
        + (if ext in LicenseExtensions then [CreateLicenseInfo(PathJoin(root, file), file, ext)] else [])
  }

  /** `detect_license_files`: a missing directory yields no files. */
  method DetectLicenseFiles(directoryExists: bool, entries: seq<(string, string)>) returns (licenseFiles: seq<LicenseInfo>)
    ensures licenseFiles == if directoryExists then LicenseFiles(entries) else []
  {
    licenseFiles := [];
    if !directoryExists {
      return;
    }
    var k := 0;
    while k < |entries|
      invariant 0 <= k <= |entries|
      invariant licenseFiles == LicenseFiles(entries[..k])
    {
      LicenseFilesSnoc(entries[..k], entries[k]);
      assert entries[..k + 1] == entries[..k] + [entries[k]];
      var (root, file) := entries[k];
      var fileExt := Extension(file);
      if fileExt in LicenseExtensions {
        licenseFiles := licenseFiles + [CreateLicenseInfo(PathJoin(root, file), file, fileExt)];
      }
      k := k + 1;
    }
    assert entries[..k] == entries;
  }

  /** Each detected file comes from an entry with a license extension, and names it. */
  lemma {:induction false} LicenseFilesFromEntries(entries: seq<(string, string)>)
    ensures forall info :: info in LicenseFiles(entries) ==>
      exists k :: (0 <= k < |entries| && info.name == entries[k].1
        && Extension(entries[k].1) in LicenseExtensions
        && info.path == PathJoin(entries[k].0, entries[k].1)
        && info.format == DetermineFileFormat(Extension(entries[k].1)))
  {
    if entries != [] {
      var init := entries[..|entries| - 1];
      LicenseFilesFromEntries(init);
      forall info | info in LicenseFiles(entries)
        ensures exists k :: (0 <= k < |entries| && info.name == entries[k].1
          && Extension(entries[k].1) in LicenseExtensions
          && info.path == PathJoin(entries[k].0, entries[k].1)
          && info.format == DetermineFileFormat(Extension(entries[k].1)))
      {
        if info in LicenseFiles(init) {
          var k :| 0 <= k < |init| && info.name == init[k].1
            && Extension(init[k].1) in LicenseExtensions
            && info.path == PathJoin(init[k].0, init[k].1)
            && info.format == DetermineFileFormat(Extension(init[k].1));
          assert entries[k] == init[k];
        } else {
          assert entries[|entries| - 1].1 == info.name;
        }
      }
    }
  }

  /** The last entry adds its file when its extension is a license extension. */
  lemma LicenseFilesSnoc(entries: seq<(string, string)>, e: (string, string))
    ensures LicenseFiles(entries + [e])
         == LicenseFiles(entries)
            + (if Extension(e.1) in LicenseExtensions then [CreateLicenseInfo(PathJoin(e.0, e.1), e.1, Extension(e.1))] else [])
  {
    assert (entries + [e])[..|entries|] == entries;
  }

  /** Every entry with a license extension is detected. */
  lemma {:induction false} EntriesWithLicenseExtensionDetected(entries: seq<(string, string)>, k: nat)
    requires k < |entries| && Extension(entries[k].1) in LicenseExtensions
    ensures CreateLicenseInfo(PathJoin(entries[k].0, entries[k].1), entries[k].1, Extension(entries[k].1))
         in LicenseFiles(entries)
  {
    if k < |entries| - 1 {
      EntriesWithLicenseExtensionDetected(entries[..|entries| - 1], k);
    }
  }

  /** The letter case of a file name never changes its classification. */
  lemma LicenseTypeIgnoresCase(filePath: string, file: string)
    ensures DetermineLicenseType(filePath, file) == DetermineLicenseType(filePath, Lower(file))
  {
    LowerTwice(file);
  }

  lemma ThirdPartyPathIsThirdParty(before: string, after: string, file: string)
    ensures DetermineLicenseType(before + ThirdPartyDirectory + after, file) == ThirdParty
  {
    ContainsConcat(before, ThirdPartyDirectory, after);
  }

  // ---------------------------------------------------------------- dependency names

  const LicenseSuffixes: seq<string> := [
    "-LICENSE", "_LICENSE", "-license", "_license",
    "-License", "_License", "-License.txt", "_License.txt",
    "-LICENSE.txt", "_LICENSE.txt", "-license.txt", "_license.txt"]

  /** The index of the first suffix in list order that `name` ends with. */
  function FirstSuffix(name: string, suffixes: seq<string>): (r: Option<nat>)
    ensures r.Some? ==> (r.value < |suffixes| && EndsWith(name, suffixes[r.value])
      && forall j :: 0 <= j < r.value ==> !EndsWith(name, suffixes[j]))
    ensures r.None? ==> forall j :: 0 <= j < |suffixes| ==> !EndsWith(name, suffixes[j])
  {
    if suffixes == [] then None
    else if EndsWith(name, suffixes[0]) then Some(0)
    else match FirstSuffix(name, suffixes[1..])
      case None => None
      case Some(i) => Some(i + 1)
  }

  /** `name` without the first suffix in list order that it ends with, if any. */
  function WithoutFirstSuffix(name: string, suffixes: seq<string>): (r: string)
    ensures FirstSuffix(name, suffixes).None? ==> r == name
    ensures FirstSuffix(name, suffixes).Some? ==> r + suffixes[FirstSuffix(name, suffixes).value] == name
  {
    match FirstSuffix(name, suffixes)
    case None => name
    case Some(i) =>
      assert name[..|name| - |suffixes[i]|] + name[|name| - |suffixes[i]|..] == name;
      name[..|name| - |suffixes[i]|]
  }

  lemma FirstSuffixAt(name: string, suffixes: seq<string>, k: nat)
    requires k < |suffixes| && EndsWith(name, suffixes[k])
    requires forall j :: 0 <= j < k ==> !EndsWith(name, suffixes[j])
    ensures WithoutFirstSuffix(name, suffixes) == name[..|name| - |suffixes[k]|]
  {
    assert FirstSuffix(name, suffixes) == Some(k);
    var r := WithoutFirstSuffix(name, suffixes);
    assert r + suffixes[k] == name;
    assert r == (r + suffixes[k])[..|r|];
  }

  /** The dependency a license file name stands for. */
  function DependencyName(fileName: string): string {
    Strip(WithoutFirstSuffix(SplitExt(fileName).0, LicenseSuffixes))
  }

  /** `extract_dependency_name_from_license_file`, with the suffix loop that stops at the first match. */
  method ExtractDependencyName(fileName: string) returns (name: string)
    ensures name == DependencyName(fileName)
  {
    var stem := SplitExt(fileName).0;
    name := stem;
    var k := 0;
    while k < |LicenseSuffixes|
      invariant 0 <= k <= |LicenseSuffixes|
      invariant name == stem
      invariant forall j :: 0 <= j < k ==> !EndsWith(stem, LicenseSuffixes[j])
    {
      if EndsWith(name, LicenseSuffixes[k]) {
        name := name[..|name| - |LicenseSuffixes[k]|];
        FirstSuffixAt(stem, LicenseSuffixes, k);
        break;
      }
      k := k + 1;
    }
    assert name == WithoutFirstSuffix(stem, LicenseSuffixes);
    name := Strip(name);
  }

  /** The name drops the extension and the first matching suffix, and nothing else. */
  lemma DependencyNameOfSuffixed(dependency: string, i: nat, ext: string)
    requires '/' !in dependency && HasNonDot(dependency, 0, |dependency|)
    requires |ext| > 0 && ext[0] == '.' && '.' !in ext[1..] && '/' !in ext
    requires i < |LicenseSuffixes| && '.' !in LicenseSuffixes[i]
    requires forall j :: 0 <= j < i ==> !EndsWith(dependency + LicenseSuffixes[i], LicenseSuffixes[j])
    ensures DependencyName(dependency + LicenseSuffixes[i] + ext) == Strip(dependency)
  {
    var suffix := LicenseSuffixes[i];
    var stem := dependency + suffix;
    assert HasNonDot(stem, 0, |stem|) by {
      var k :| 0 <= k < |dependency| && dependency[k] != '.';
      assert stem[k] == dependency[k];
    }
    SuffixesHaveNoSlash();
    assert '/' !in stem;
    SplitExtOf(stem, ext);
    assert SplitExt(stem + ext).0 == stem;
    assert stem + ext == dependency + LicenseSuffixes[i] + ext;
    assert EndsWith(stem, suffix) by {
      assert stem[|stem| - |suffix|..] == suffix;
    }
    assert FirstSuffix(stem, LicenseSuffixes) == Some(i);
    var without := WithoutFirstSuffix(stem, LicenseSuffixes);
    assert without + suffix == dependency + suffix;
    assert without == (without + suffix)[..|without|];
    assert without == dependency;
  }

  lemma SuffixesHaveNoSlash()
    ensures forall j :: 0 <= j < |LicenseSuffixes| ==> '/' !in LicenseSuffixes[j]
  {
  }

  /** A name with no license suffix before its extension keeps its whole stem. */
  lemma DependencyNameOfPlain(dependency: string, ext: string)
    requires '/' !in dependency && HasNonDot(dependency, 0, |dependency|)
    requires |ext| > 0 && ext[0] == '.' && '.' !in ext[1..] && '/' !in ext
    requires forall j :: 0 <= j < |LicenseSuffixes| ==> !EndsWith(dependency, LicenseSuffixes[j])
    ensures DependencyName(dependency + ext) == Strip(dependency)
  {
    SplitExtOf(dependency, ext);
  }

  /** Only the first matching suffix goes: a name ending in two suffixes keeps the earlier one. */
  lemma OnlyOneSuffixRemoved(dependency: string, ext: string)
    requires '/' !in dependency && HasNonDot(dependency, 0, |dependency|)
    requires |ext| > 0 && ext[0] == '.' && '.' !in ext[1..] && '/' !in ext
    ensures DependencyName(dependency + "-LICENSE" + "-LICENSE" + ext) == Strip(dependency + "-LICENSE")
  {
    assert LicenseSuffixes[0] == "-LICENSE";
    assert dependency + "-LICENSE" + "-LICENSE" + ext == (dependency + "-LICENSE") + LicenseSuffixes[0] + ext;
    assert HasNonDot(dependency + "-LICENSE", 0, |dependency + "-LICENSE"|) by {
      var k :| 0 <= k < |dependency| && dependency[k] != '.';
      assert (dependency + "-LICENSE")[k] == dependency[k];
    }
    DependencyNameOfSuffixed(dependency + "-LICENSE", 0, ext);
  }

  // ---------------------------------------------------------------- comparison engine

  /** The comparison result; coverage is the exact percentage. */
  datatype Comparison = Comparison(
    expected: set<string>,
    actual: set<string>,
    missing: set<string>,
    extra: set<string>,
    coverage: real,
    falsePositivesUsed: set<string>,
    falseNegativesUsed: set<string>,
    totalExpected: nat,
    totalActual: nat,
    matchedCount: nat)

  /** The percentage of `total` that `matched` is, or 0 when nothing is expected. */
  function Coverage(matched: nat, total: nat): (c: real)
    requires matched <= total
    ensures 0.0 <= c <= 100.0
    ensures c == 100.0 <==> total > 0 && matched == total
  {
    if total > 0 then
      var ratio := matched as real / total as real;
      RatioBounds(matched as real, total as real);
      ratio * 100.0
    else 0.0
  }

  lemma RatioBounds(m: real, t: real)
    requires 0.0 <= m <= t && t > 0.0
    ensures 0.0 <= m / t <= 1.0
    ensures m / t == 1.0 <==> m == t
  {
    assert (m / t) * t == m;
  }

  lemma IntersectionCard(e: set<string>, a: set<string>)
    ensures |e * a| + |e - a| == |e|
  {
    assert e == (e * a) + (e - a);
    assert (e * a) * (e - a) == {};
  }

  /**
   * `compare_with_exceptions`: the expected dependencies are the SCA ones plus
   * the false negatives, minus the false positives; the actual ones are those
   * with license files.
   */
  function CompareWithExceptions(licenseDependencies: set<string>, scaDependencies: set<string>,
                                 fps: set<string>, fns: set<string>): (c: Comparison)
    ensures c.expected == (scaDependencies + fns) - fps && c.actual == licenseDependencies
    ensures c.missing == c.expected - c.actual && c.extra == c.actual - c.expected
    ensures c.matchedCount == |c.expected * c.actual| <= c.totalExpected == |c.expected|
    ensures c.coverage == Coverage(c.matchedCount, c.totalExpected)
  {
    var expected := (scaDependencies + fns) - fps;
    var actual := licenseDependencies;
    IntersectionCard(expected, actual);
    var matched := |expected * actual|;
    Comparison(expected, actual, expected - actual, actual - expected,
      Coverage(matched, |expected|), fps, fns, |expected|, |actual|, matched)
  }

  /** `is_compliant`: nothing missing, nothing extra, and full coverage. */
  predicate IsCompliant(c: Comparison) {
    |c.missing| == 0 && |c.extra| == 0 && c.coverage == 100.0
  }

  /** A false positive is never expected nor missing; a false negative that is not one is expected. */
  lemma ExceptionsApplied(licenseDependencies: set<string>, scaDependencies: set<string>,
                          fps: set<string>, fns: set<string>, d: string)
    ensures var c := CompareWithExceptions(licenseDependencies, scaDependencies, fps, fns);
      && (d in fps ==> d !in c.expected && d !in c.missing)
      && (d in fns && d !in fps ==> d in c.expected)
  {
  }

  /** Missing and extra are disjoint, and missing with the matched ones make up the expected set. */
  lemma MissingAndMatchedPartitionExpected(licenseDependencies: set<string>, scaDependencies: set<string>,
                                           fps: set<string>, fns: set<string>)
    ensures var c := CompareWithExceptions(licenseDependencies, scaDependencies, fps, fns);
      && c.missing * c.extra == {}
      && c.missing + (c.expected * c.actual) == c.expected
      && c.missing * (c.expected * c.actual) == {}
  {
  }

  /** Compliant exactly when the license files are the expected dependencies and there is one at least. */
  lemma CompliantIffExactMatch(licenseDependencies: set<string>, scaDependencies: set<string>,
                               fps: set<string>, fns: set<string>)
    ensures IsCompliant(CompareWithExceptions(licenseDependencies, scaDependencies, fps, fns))
        <==> (scaDependencies + fns) - fps == licenseDependencies && licenseDependencies != {}
  {
    var c := CompareWithExceptions(licenseDependencies, scaDependencies, fps, fns);
    IntersectionCard(c.expected, c.actual);
    if IsCompliant(c) {
      assert c.missing == {} && c.extra == {};
      assert c.expected == c.actual;
      assert c.totalExpected > 0;
    }
  }
}
