/**
 * License Packaging Standard checks: pulling license files out of the
 * released artifacts, comparing them with the SBOM components, and listing
 * what an artifact lacks.
 *
 * The filesystem is a snapshot: which directories exist and which files
 * `os.walk` finds under each, the text of each readable file, and for each
 * archive the temporary directory it is unpacked into and whether it opens.
 */
module LicenseUtils {
  import opened Wrappers
  import opened Strings
  import opened OrderedMap
  import opened ScaExceptions

  // ---------------------------------------------------------------- the filesystem

  /** An archive on disk: the temporary directory made for it, and whether unpacking it succeeds. */
  datatype Extraction = Extraction(tempDir: string, opens: bool)

  datatype Fs = Fs(
    directories: map<string, seq<(string, string)>>,   // existing directory -> (root, file) pairs of its walk
    contents: map<string, string>,                      // readable file -> its text
    archives: map<string, Extraction>)                  // existing artifact or inner archive -> its extraction

  predicate DirExists(fs: Fs, dir: string) {
    dir in fs.directories
  }

  function Walk(fs: Fs, dir: string): seq<(string, string)> {
    if dir in fs.directories then fs.directories[dir] else []
  }

  /** `_read_file_content`: the text, or "" when the file cannot be read. */
  function ReadFileContent(fs: Fs, path: string): string {
    if path in fs.contents then fs.contents[path] else ""
  }

  // ---------------------------------------------------------------- license records

  /** One license file found in an artifact, tagged with where it was found. */
  datatype LicenseRecord = LicenseRecord(
    licenseType: LicenseType,
    source: string,
    path: string,
    name: string,
    format: FileFormat,
    content: string)

  /** The records for detected license files, all with the same source tag. */
  function RecordsOf(fs: Fs, infos: seq<LicenseInfo>, source: string): (r: seq<LicenseRecord>)
    ensures |r| == |infos|
    ensures forall i :: 0 <= i < |r| ==> (
      && r[i].source == source
      && r[i].name == infos[i].name && r[i].path == infos[i].path
      && r[i].licenseType == infos[i].licenseType && r[i].format == infos[i].format)
  {
    if infos == [] then []
    else
      var info := infos[|infos| - 1];
      RecordsOf(fs, infos[..|infos| - 1], source)
        + [LicenseRecord(info.licenseType, source, info.path, info.name, info.format, ReadFileContent(fs, info.path))]
  }

  lemma RecordsStep(fs: Fs, infos: seq<LicenseInfo>, k: nat, source: string)
    requires k < |infos|
    ensures RecordsOf(fs, infos[..k + 1], source)
         == RecordsOf(fs, infos[..k], source)
            + [LicenseRecord(infos[k].licenseType, source, infos[k].path, infos[k].name, infos[k].format, ReadFileContent(fs, infos[k].path))]
  {
    assert infos[..k + 1][..k] == infos[..k];
  }

  /** `_extract_licenses_from_directory` for an existing directory. */
  function DirectoryRecords(fs: Fs, dir: string, source: string): seq<LicenseRecord> {
    RecordsOf(fs, LicenseFiles(Walk(fs, dir)), source)
  }

  const MainSource: string := "main"
  const InnerPrefix: string := "inner_"
  const DedicatedPrefix: string := "dedicated_"
  const LicensesDir: string := "licenses"

  /** `_is_archive_file`. */
  predicate IsArchiveFile(filename: string) {
    EndsWith(filename, ".zip") || EndsWith(filename, ".tgz") || EndsWith(filename, ".txz") || EndsWith(filename, ".xz")
  }

  /** The inner archive formats `_extract_archive_to_temp` can unpack. */
  predicate IsExtractable(filename: string) {
    EndsWith(filename, ".zip") || EndsWith(filename, ".tgz")
  }

  /** The directory beside an inner archive that holds its licenses. */
  function DedicatedDirName(filename: string): (r: string)
    ensures EndsWith(r, "-licenses")
  {
    var r := SplitExt(filename).0 + "-licenses";
    assert r[|r| - 9..] == "-licenses";
    r
  }

  /** The license records found in the licenses directory of an existing directory, tagged `source`. */
  function LicensesIn(fs: Fs, dir: string, source: string): seq<LicenseRecord> {
    if DirExists(fs, dir) then DirectoryRecords(fs, dir, source) else []
  }

  /**
   * `_process_inner_archive`: nothing unless the archive is a zip or a tgz
   * that unpacks; then the records of its own licenses directory, then those of
   * the dedicated directory beside it.
   */
  function InnerArchiveRecords(fs: Fs, archivePath: string, filename: string, rootDir: string): seq<LicenseRecord> {
    if !IsExtractable(filename) || archivePath !in fs.archives || !fs.archives[archivePath].opens then []
    else
      LicensesIn(fs, PathJoin(fs.archives[archivePath].tempDir, LicensesDir), InnerPrefix + filename)
        + LicensesIn(fs, PathJoin(rootDir, DedicatedDirName(filename)), DedicatedPrefix + filename)
  }

  /** `_extract_from_inner_archives` over a walk, in walk order. */
  function InnerArchivesRecords(fs: Fs, walk: seq<(string, string)>): seq<LicenseRecord> {
    if walk == [] then []
    else
      var (root, file) := walk[|walk| - 1];
      InnerArchivesRecords(fs, walk[..|walk| - 1])
        + (if IsArchiveFile(file) then InnerArchiveRecords(fs, PathJoin(root, file), file, root) else [])
  }

  lemma InnerArchivesStep(fs: Fs, walk: seq<(string, string)>, k: nat)
    requires k < |walk|
    ensures var (root, file) := walk[k];
      InnerArchivesRecords(fs, walk[..k + 1]) == InnerArchivesRecords(fs, walk[..k])
        + (if IsArchiveFile(file) then InnerArchiveRecords(fs, PathJoin(root, file), file, root) else [])
  {
    assert walk[..k + 1][..k] == walk[..k];
  }

  /** `_extract_from_inner_archives`: nothing without a temporary directory. */
  function InnerRecordsOf(fs: Fs, tempDir: Option<string>): seq<LicenseRecord> {
    if tempDir.None? || tempDir.value == "" then [] else InnerArchivesRecords(fs, Walk(fs, tempDir.value))
  }

  /** `_extract_from_archive`: the main licenses directory, then every inner archive. */
  function ArchiveRecords(fs: Fs, tempDir: string): seq<LicenseRecord> {
    LicensesIn(fs, PathJoin(tempDir, LicensesDir), MainSource) + InnerRecordsOf(fs, Some(tempDir))
  }

  /** The artifact formats that are unpacked. */
  predicate IsJarOrZip(path: string) {
    EndsWith(path, ".jar") || EndsWith(path, ".zip")
  }

  /** `_extract_licenses_from_artifact`: only an existing .jar or .zip that unpacks yields records. */
  function ArtifactRecords(fs: Fs, artifactPath: string): seq<LicenseRecord> {
    if artifactPath !in fs.archives then []
    else if !IsJarOrZip(artifactPath) then []
    else if !fs.archives[artifactPath].opens then []
    else ArchiveRecords(fs, fs.archives[artifactPath].tempDir)
  }

  /** An artifact to check: its path on disk and the name it is reported under. */
  datatype Artifact = Artifact(path: string, name: string)

  /** `extract_licenses_from_artifacts`: one entry per artifact name, a later artifact of the same name replacing the value. */
  function ExtractedLicenses(fs: Fs, artifacts: seq<Artifact>): Dict<seq<LicenseRecord>> {
    if artifacts == [] then []
    else
      var a := artifacts[|artifacts| - 1];
      Put(ExtractedLicenses(fs, artifacts[..|artifacts| - 1]), a.name, ArtifactRecords(fs, a.path))
  }

  /** The temporary directory of the extractor after it handles one artifact: a new one when the artifact exists. */
  function TempDirAfter(fs: Fs, before: Option<string>, artifactPath: string): Option<string> {
    if artifactPath in fs.archives then Some(fs.archives[artifactPath].tempDir) else before
  }

  /** The temporary directory of the extractor after it handles these artifacts in order. */
  function LastTempDir(fs: Fs, before: Option<string>, artifacts: seq<Artifact>): Option<string> {
    if artifacts == [] then before
    else TempDirAfter(fs, LastTempDir(fs, before, artifacts[..|artifacts| - 1]), artifacts[|artifacts| - 1].path)
  }

  /** One more artifact: its entry is assigned and the extractor's directory follows it. */
  lemma ExtractionStep(fs: Fs, before: Option<string>, artifacts: seq<Artifact>, k: nat)
    requires k < |artifacts|
    ensures ExtractedLicenses(fs, artifacts[..k + 1])
      == Put(ExtractedLicenses(fs, artifacts[..k]), artifacts[k].name, ArtifactRecords(fs, artifacts[k].path))
    ensures LastTempDir(fs, before, artifacts[..k + 1])
      == TempDirAfter(fs, LastTempDir(fs, before, artifacts[..k]), artifacts[k].path)
  {
    assert artifacts[..k + 1][..k] == artifacts[..k];
  }

  /** The extractor; `tempDir` is the directory the last existing artifact was unpacked into. */
  class LicenseExtractor {
    var tempDir: Option<string>

    constructor ()
      ensures tempDir == None
    {
      tempDir := None;
    }

    method ExtractLicensesFromArtifacts(fs: Fs, artifacts: seq<Artifact>) returns (results: Dict<seq<LicenseRecord>>)
      modifies this
      ensures results == ExtractedLicenses(fs, artifacts)
      ensures tempDir == LastTempDir(fs, old(tempDir), artifacts)
    {
      results := [];
      ghost var before := tempDir;
      var k := 0;
      while k < |artifacts|
        invariant 0 <= k <= |artifacts|
        invariant results == ExtractedLicenses(fs, artifacts[..k])
        invariant tempDir == LastTempDir(fs, before, artifacts[..k])
      {
        ExtractionStep(fs, before, artifacts, k);
        var artifact := artifacts[k];
        var licenses := ExtractLicensesFromArtifact(fs, artifact.path);
        results := Put(results, artifact.name, licenses);
        k := k + 1;
      }
      assert artifacts[..k] == artifacts;
    }

    method ExtractLicensesFromArtifact(fs: Fs, artifactPath: string) returns (licenses: seq<LicenseRecord>)
      modifies this
      ensures licenses == ArtifactRecords(fs, artifactPath)
      ensures tempDir == TempDirAfter(fs, old(tempDir), artifactPath)
    {
      licenses := [];
      if artifactPath !in fs.archives {
        return;
      }
      tempDir := Some(fs.archives[artifactPath].tempDir);
      if IsJarOrZip(artifactPath) && fs.archives[artifactPath].opens {
        licenses := ExtractFromArchive(fs);
      }
    }

    /** `_extract_from_archive` on the directory the artifact was unpacked into. */
    method ExtractFromArchive(fs: Fs) returns (licenses: seq<LicenseRecord>)
      requires tempDir.Some?
      ensures licenses == ArchiveRecords(fs, tempDir.value)
    {
      licenses := [];
      var dir := PathJoin(tempDir.value, LicensesDir);
      if DirExists(fs, dir) {
        var main := ExtractLicensesFromDirectory(fs, dir, MainSource);
        licenses := licenses + main;
      }
      var inner := ExtractFromInnerArchives(fs);
      licenses := licenses + inner;
    }

    /** The inner-archive loop over the walk of the temporary directory. */
    method ExtractFromInnerArchives(fs: Fs) returns (licenses: seq<LicenseRecord>)
      ensures licenses == InnerRecordsOf(fs, tempDir)
    {
      licenses := [];
      if tempDir.None? || tempDir.value == "" {
        return;
      }
      var walk := Walk(fs, tempDir.value);
      assert InnerRecordsOf(fs, tempDir) == InnerArchivesRecords(fs, walk);
      var k := 0;
      while k < |walk|
        invariant 0 <= k <= |walk|
        invariant licenses == InnerArchivesRecords(fs, walk[..k])
      {
        InnerArchivesStep(fs, walk, k);
        var (root, file) := walk[k];
        if IsArchiveFile(file) {
          licenses := licenses + InnerArchiveRecords(fs, PathJoin(root, file), file, root);
        }
        k := k + 1;
      }
      assert walk[..k] == walk;
    }

    /** The loop that turns detected license files into records. */
    method ExtractLicensesFromDirectory(fs: Fs, dir: string, source: string) returns (licenses: seq<LicenseRecord>)
      ensures licenses == DirectoryRecords(fs, dir, source)
    {
      var files := DetectLicenseFiles(DirExists(fs, dir), Walk(fs, dir));
      assert files == LicenseFiles(Walk(fs, dir));
      licenses := RecordsFromFiles(fs, files, source);
    }
  }

  /** The loop body of `_extract_licenses_from_directory`: one record per file, content read from the file. */
  method RecordsFromFiles(fs: Fs, files: seq<LicenseInfo>, source: string) returns (licenses: seq<LicenseRecord>)
    ensures licenses == RecordsOf(fs, files, source)
  {
    licenses := [];
    for k := 0 to |files|
      invariant licenses == RecordsOf(fs, files[..k], source)
    {
      RecordsStep(fs, files, k, source);
      var f := files[k];
      licenses := licenses + [LicenseRecord(f.licenseType, source, f.path, f.name, f.format, ReadFileContent(fs, f.path))];
    }
    assert files[..|files|] == files;
  }

  /** The names of the artifacts. */
  function ArtifactNames(artifacts: seq<Artifact>): set<string> {
    set i | 0 <= i < |artifacts| :: artifacts[i].name
  }

  /** The result has one key per artifact name, each once; no artifacts give the empty dictionary. */
  lemma {:induction false} ExtractedLicensesKeys(fs: Fs, artifacts: seq<Artifact>)
    ensures Keys(ExtractedLicenses(fs, artifacts)) == ArtifactNames(artifacts)
    ensures DistinctKeys(ExtractedLicenses(fs, artifacts))
    ensures artifacts == [] ==> ExtractedLicenses(fs, artifacts) == []
  {
    if artifacts != [] {
      var init := artifacts[..|artifacts| - 1];
      var a := artifacts[|artifacts| - 1];
      ExtractedLicensesKeys(fs, init);
      PutKeepsDistinct(ExtractedLicenses(fs, init), a.name, ArtifactRecords(fs, a.path));
      ArtifactNamesSnoc(artifacts);
    }
  }

  lemma ArtifactNamesSnoc(artifacts: seq<Artifact>)
    requires artifacts != []
    ensures ArtifactNames(artifacts) == ArtifactNames(artifacts[..|artifacts| - 1]) + {artifacts[|artifacts| - 1].name}
  {
    var init := artifacts[..|artifacts| - 1];
    forall n | n in ArtifactNames(artifacts) ensures n in ArtifactNames(init) + {artifacts[|artifacts| - 1].name} {
      var i :| 0 <= i < |artifacts| && artifacts[i].name == n;
      if i < |init| {
        assert init[i] == artifacts[i];
      }
    }
    forall n | n in ArtifactNames(init) ensures n in ArtifactNames(artifacts) {
      var i :| 0 <= i < |init| && init[i].name == n;
      assert artifacts[i] == init[i];
    }
  }

  /** An artifact's entry holds what the last artifact of that name yields, and nothing from the others. */
  lemma {:induction false} ExtractedLicensesValue(fs: Fs, artifacts: seq<Artifact>, i: nat)
    requires i < |artifacts|
    requires forall j :: i < j < |artifacts| ==> artifacts[j].name != artifacts[i].name
    ensures Get(ExtractedLicenses(fs, artifacts), artifacts[i].name) == Some(ArtifactRecords(fs, artifacts[i].path))
  {
    if i < |artifacts| - 1 {
      ExtractedLicensesValue(fs, artifacts[..|artifacts| - 1], i);
    }
  }

  /** A missing artifact, or one that is not a .jar or .zip, yields no records. */
  lemma UnsupportedArtifactsYieldNothing(fs: Fs, artifactPath: string)
    requires artifactPath !in fs.archives || !IsJarOrZip(artifactPath)
    ensures ArtifactRecords(fs, artifactPath) == []
  {
  }

  /** Archives ending in .txz or .xz are recognised but contribute nothing. */
  lemma CompressedArchivesContributeNothing(fs: Fs, archivePath: string, filename: string, rootDir: string)
    requires EndsWith(filename, ".txz") || EndsWith(filename, ".xz")
    ensures IsArchiveFile(filename)
    ensures InnerArchiveRecords(fs, archivePath, filename, rootDir) == []
  {
    var n := |filename|;
    assert filename[n - 1] == 'z' && filename[n - 2] == 'x';
    assert !EndsWith(filename, ".zip") by {
      if n >= 4 {
        assert filename[n - 4..][3] == filename[n - 1];
      }
    }
    assert !EndsWith(filename, ".tgz") by {
      if n >= 4 {
        assert filename[n - 4..][2] == filename[n - 2];
      }
    }
  }

  /** Every record of an inner archive is tagged inner_ or dedicated_ followed by the archive's file name. */
  lemma InnerRecordSources(fs: Fs, archivePath: string, filename: string, rootDir: string)
    ensures forall r :: r in InnerArchiveRecords(fs, archivePath, filename, rootDir) ==>
      r.source == InnerPrefix + filename || r.source == DedicatedPrefix + filename
  {
  }

  /** Every record of an unpacked artifact is tagged main, or inner_/dedicated_ and the name of an inner archive. */
  lemma {:induction false} InnerArchivesRecordSources(fs: Fs, walk: seq<(string, string)>)
    ensures forall r :: r in InnerArchivesRecords(fs, walk) ==> (
      exists k :: (0 <= k < |walk| && IsExtractable(walk[k].1)
        && (r.source == InnerPrefix + walk[k].1 || r.source == DedicatedPrefix + walk[k].1)))
  {
    if walk != [] {
      var init := walk[..|walk| - 1];
      InnerArchivesRecordSources(fs, init);
      forall r | r in InnerArchivesRecords(fs, walk)
        ensures exists k :: (0 <= k < |walk| && IsExtractable(walk[k].1)
          && (r.source == InnerPrefix + walk[k].1 || r.source == DedicatedPrefix + walk[k].1))
      {
        if r in InnerArchivesRecords(fs, init) {
          var k :| 0 <= k < |init| && IsExtractable(init[k].1)
            && (r.source == InnerPrefix + init[k].1 || r.source == DedicatedPrefix + init[k].1);
          assert walk[k] == init[k];
        } else {
          var (root, file) := walk[|walk| - 1];
          InnerRecordSources(fs, PathJoin(root, file), file, root);
        }
      }
    }
  }

  // ---------------------------------------------------------------- comparison with the SBOM

  /** An SBOM component; `name` is None when it has no "name" key. */
  datatype Component = Component(name: Option<string>)

  /** A decoded SBOM: its "components" list if present, and whether it has any other key. */
  datatype Sbom = Sbom(components: Option<seq<Component>>, otherKeys: bool)

  /** The document is a non-empty dictionary. */
  predicate SbomTruthy(s: Sbom) {
    s.components.Some? || s.otherKeys
  }

  /** `sbom_data.get('components', [])`. */
  function SbomComponents(s: Sbom): seq<Component> {
    s.components.GetOr([])
  }

  /** `_extract_component_names`: the non-empty names, in order. */
  function ComponentNames(components: seq<Component>): (names: seq<string>)
    ensures |names| <= |components|
    ensures forall i :: 0 <= i < |names| ==> names[i] != ""
    ensures forall c :: c in components && c.name.Some? && c.name.value != "" ==> c.name.value in names
    ensures forall n :: n in names ==> Component(Some(n)) in components
  {
    if components == [] then []
    else
      var c := components[|components| - 1];
      ComponentNames(components[..|components| - 1])
        + (if c.name.Some? && c.name.value != "" then [c.name.value] else [])
  }

  /** A name kept by `_extract_license_names`. */
  predicate KeptLicenseName(name: string) {
    name != "" && Lower(name) != "license" && Lower(name) != "licenses"
  }

  /** `_extract_license_names`: the dependency names of the files, without bare LICENSE files. */
  function LicenseNames(licenses: seq<LicenseRecord>): (names: seq<string>)
    ensures |names| <= |licenses|
    ensures forall i :: 0 <= i < |names| ==> KeptLicenseName(names[i])
  {
    if licenses == [] then []
    else
      var name := DependencyName(licenses[|licenses| - 1].name);
      LicenseNames(licenses[..|licenses| - 1]) + (if KeptLicenseName(name) then [name] else [])
  }

  /** The third-party records of all artifacts, artifact by artifact in dictionary order. */
  function ThirdPartyLicenses(extracted: Dict<seq<LicenseRecord>>): (r: seq<LicenseRecord>)
    ensures forall x :: x in r ==> x.licenseType == ThirdParty
  {
    if extracted == [] then []
    else ThirdPartyLicenses(extracted[..|extracted| - 1]) + ThirdPartyOf(extracted[|extracted| - 1].1)
  }

  function ThirdPartyOf(licenses: seq<LicenseRecord>): (r: seq<LicenseRecord>)
    ensures forall x :: x in r ==> x.licenseType == ThirdParty && x in licenses
    ensures forall x :: x in licenses && x.licenseType == ThirdParty ==> x in r
  {
    if licenses == [] then []
    else
      var l := licenses[|licenses| - 1];
      ThirdPartyOf(licenses[..|licenses| - 1]) + (if l.licenseType == ThirdParty then [l] else [])
  }

  function SetOf(names: seq<string>): (s: set<string>)
    ensures forall n :: n in s <==> n in names
  {
    set i | 0 <= i < |names| :: names[i]
  }

  /** `compare_licenses_with_sbom`; missing, extra and matched are the sets whose `list` the source returns. */
  datatype SbomComparison = SbomComparison(
    totalArtifacts: nat,
    totalLicensesFound: nat,
    totalSbomComponents: nat,
    missingLicenses: set<string>,
    extraLicenses: set<string>,
    matchedLicenses: set<string>,
    coverage: real,
    falsePositivesUsed: set<string>,
    falseNegativesUsed: set<string>,
    isCompliant: bool)

  function SbomReport(extracted: Dict<seq<LicenseRecord>>, components: seq<Component>,
                      fps: set<string>, fns: set<string>): SbomComparison
  {
    var thirdParty := ThirdPartyLicenses(extracted);
    var c := CompareWithExceptions(SetOf(LicenseNames(thirdParty)), SetOf(ComponentNames(components)), fps, fns);
    SbomComparison(|extracted|, |thirdParty|, |components|, c.missing, c.extra, c.expected * c.actual,
      c.coverage, c.falsePositivesUsed, c.falseNegativesUsed, IsCompliant(c))
  }

  /** The report's counts and sets, and compliance exactly when the license names are the expected ones. */
  lemma SbomReportMeaning(extracted: Dict<seq<LicenseRecord>>, components: seq<Component>,
                          fps: set<string>, fns: set<string>)
    ensures var r := SbomReport(extracted, components, fps, fns);
      var actual := SetOf(LicenseNames(ThirdPartyLicenses(extracted)));
      var expected := (SetOf(ComponentNames(components)) + fns) - fps;
      && r.totalArtifacts == |extracted|
      && r.totalLicensesFound == |ThirdPartyLicenses(extracted)|
      && r.totalSbomComponents == |components|
      && r.missingLicenses == expected - actual
      && r.extraLicenses == actual - expected
      && r.matchedLicenses == expected * actual
      && r.falsePositivesUsed == fps && r.falseNegativesUsed == fns
      && 0.0 <= r.coverage <= 100.0
      && (r.isCompliant <==> expected == actual && actual != {})
  {
    var actual := SetOf(LicenseNames(ThirdPartyLicenses(extracted)));
    var sca := SetOf(ComponentNames(components));
    CompliantIffExactMatch(actual, sca, fps, fns);
  }

  /**
   * The comparator: the SBOM components last loaded and the exception
   * manager built from the repository's two exception files.
   */
  class LicenseComparator {
    var sbomComponents: seq<Component>
    const exceptionManager: ScaExceptionManager

    constructor (fpFile: StoredFile, fnFile: StoredFile)
      ensures sbomComponents == []
      ensures fresh(exceptionManager)
      ensures exceptionManager.falsePositives == LoadExceptions(fpFile)
      ensures exceptionManager.falseNegatives == LoadExceptions(fnFile)
    {
      sbomComponents := [];
      exceptionManager := new ScaExceptionManager(fpFile, fnFile);
    }

    method LoadSbom(sbom: Sbom)
      modifies this
      ensures sbomComponents == SbomComponents(sbom)
    {
      sbomComponents := SbomComponents(sbom);
    }

    /** The comparison, with the loops of the source over the dictionary and the component list. */
    method CompareLicensesWithSbom(extracted: Dict<seq<LicenseRecord>>) returns (r: SbomComparison)
      ensures r == SbomReport(extracted, sbomComponents,
        exceptionManager.falsePositives, exceptionManager.falseNegatives)
    {
      var thirdParty := CollectThirdParty(extracted);
      var componentNames := ExtractComponentNames(sbomComponents);
      var licenseNames := ExtractLicenseNames(thirdParty);
      var fps := exceptionManager.GetFalsePositives();
      var fns := exceptionManager.GetFalseNegatives();
      var c := CompareWithExceptions(SetOf(licenseNames), SetOf(componentNames), fps, fns);
      r := SbomComparison(|extracted|, |thirdParty|, |sbomComponents|, c.missing, c.extra,
        c.expected * c.actual, c.coverage, c.falsePositivesUsed, c.falseNegativesUsed, IsCompliant(c));
    }
  }

  method CollectThirdParty(extracted: Dict<seq<LicenseRecord>>) returns (all: seq<LicenseRecord>)
    ensures all == ThirdPartyLicenses(extracted)
  {
    all := [];
    var k := 0;
    while k < |extracted|
      invariant 0 <= k <= |extracted|
      invariant all == ThirdPartyLicenses(extracted[..k])
    {
      assert extracted[..k + 1][..k] == extracted[..k];
      var licenses := extracted[k].1;
      var j := 0;
      ghost var before := all;
      while j < |licenses|
        invariant 0 <= j <= |licenses|
        invariant all == before + ThirdPartyOf(licenses[..j])
      {
        assert licenses[..j + 1][..j] == licenses[..j];
        if licenses[j].licenseType == ThirdParty {
          all := all + [licenses[j]];
        }
        j := j + 1;
      }
      assert licenses[..j] == licenses;
      k := k + 1;
    }
    assert extracted[..k] == extracted;
  }

  method ExtractComponentNames(components: seq<Component>) returns (names: seq<string>)
    ensures names == ComponentNames(components)
  {
    names := [];
    var k := 0;
    while k < |components|
      invariant 0 <= k <= |components|
      invariant names == ComponentNames(components[..k])
    {
      assert components[..k + 1][..k] == components[..k];
      var name := components[k].name.GetOr("");
      if name != "" {
        names := names + [name];
      }
      k := k + 1;
    }
    assert components[..k] == components;
  }

  lemma LicenseNamesStep(licenses: seq<LicenseRecord>, k: nat)
    requires k < |licenses|
    ensures var name := DependencyName(licenses[k].name);
      LicenseNames(licenses[..k + 1]) == LicenseNames(licenses[..k]) + (if KeptLicenseName(name) then [name] else [])
  {
    assert licenses[..k + 1][..k] == licenses[..k];
  }

  method ExtractLicenseNames(licenses: seq<LicenseRecord>) returns (names: seq<string>)
    ensures names == LicenseNames(licenses)
  {
    names := [];
    var k := 0;
    while k < |licenses|
      invariant 0 <= k <= |licenses|
      invariant names == LicenseNames(licenses[..k])
    {
      LicenseNamesStep(licenses, k);
      var cleanName := ExtractDependencyName(licenses[k].name);
      if KeptLicenseName(cleanName) {
        names := names + [cleanName];
      }
      k := k + 1;
    }
    assert licenses[..k] == licenses;
  }

  // ---------------------------------------------------------------- LPS validation

  function MissingMainIssue(artifactName: string): string {
    "Missing main LICENSE.txt in " + artifactName
  }

  function NoThirdPartyIssue(artifactName: string): string {
    "No third-party licenses found in " + artifactName
  }

  function NoLicensesDirIssue(artifactName: string): string {
    "No licenses/ directory found in " + artifactName
  }

  predicate HasMain(licenses: seq<LicenseRecord>) {
    exists l :: l in licenses && l.licenseType == Main
  }

  predicate HasThirdParty(licenses: seq<LicenseRecord>) {
    exists l :: l in licenses && l.licenseType == ThirdParty
  }

  predicate HasLicensesDir(licenses: seq<LicenseRecord>) {
    exists l :: l in licenses && Contains(l.path, LicensesDir)
  }

  /** The issues of one artifact, in the order the source checks them. */
  function ArtifactIssues(artifactName: string, licenses: seq<LicenseRecord>): (issues: seq<string>)
    ensures |issues| <= 3
  {
    (if HasMain(licenses) then [] else [MissingMainIssue(artifactName)])
      + (if HasThirdParty(licenses) then [] else [NoThirdPartyIssue(artifactName)])
      + (if HasLicensesDir(licenses) then [] else [NoLicensesDirIssue(artifactName)])
  }

  /** `_check_lps_compliance`. */
  function LpsIssues(extracted: Dict<seq<LicenseRecord>>): (issues: seq<string>)
    ensures |issues| <= 3 * |extracted|
  {
    if extracted == [] then []
    else
      var (name, licenses) := extracted[|extracted| - 1];
      LpsIssues(extracted[..|extracted| - 1]) + ArtifactIssues(name, licenses)
  }

  method CheckLpsCompliance(extracted: Dict<seq<LicenseRecord>>) returns (issues: seq<string>)
    ensures issues == LpsIssues(extracted)
  {
    issues := [];
    var k := 0;
    while k < |extracted|
      invariant 0 <= k <= |extracted|
      invariant issues == LpsIssues(extracted[..k])
    {
      assert extracted[..k + 1][..k] == extracted[..k];
      var found := CheckArtifact(extracted[k].0, extracted[k].1);
      issues := issues + found;
      k := k + 1;
    }
    assert extracted[..k] == extracted;
  }

  /** The three checks on one artifact. */
  method CheckArtifact(artifactName: string, licenses: seq<LicenseRecord>) returns (issues: seq<string>)
    ensures issues == ArtifactIssues(artifactName, licenses)
  {
    issues := [];
    var hasMain := exists l :: l in licenses && l.licenseType == Main;
    if !hasMain {
      issues := issues + [MissingMainIssue(artifactName)];
    }
    var hasThirdParty := exists l :: l in licenses && l.licenseType == ThirdParty;
    if !hasThirdParty {
      issues := issues + [NoThirdPartyIssue(artifactName)];
    }
    var hasLicensesDir := exists l :: l in licenses && Contains(l.path, LicensesDir);
    if !hasLicensesDir {
      issues := issues + [NoLicensesDirIssue(artifactName)];
    }
  }

  /** An artifact with a main and a third-party record under a licenses path raises no issue. */
  lemma CompliantArtifactHasNoIssues(artifactName: string, licenses: seq<LicenseRecord>)
    requires HasMain(licenses) && HasThirdParty(licenses) && HasLicensesDir(licenses)
    ensures ArtifactIssues(artifactName, licenses) == []
  {
  }

  /** An artifact with no records at all gets all three issues. */
  lemma EmptyArtifactHasThreeIssues(artifactName: string)
    ensures ArtifactIssues(artifactName, []) ==
      [MissingMainIssue(artifactName), NoThirdPartyIssue(artifactName), NoLicensesDirIssue(artifactName)]
  {
  }

  /** The issues are the artifacts' issues in dictionary order. */
  lemma {:induction false} LpsIssuesAppend(a: Dict<seq<LicenseRecord>>, name: string, licenses: seq<LicenseRecord>)
    ensures LpsIssues(a + [(name, licenses)]) == LpsIssues(a) + ArtifactIssues(name, licenses)
  {
    assert (a + [(name, licenses)])[..|a|] == a;
  }

  /** The nearest whole number; an exact half goes to the even neighbour, as `format` rounds. */
  function RoundHalfEven(y: real): (t: nat)
    requires y >= 0.0
    ensures t as real - 0.5 <= y <= t as real + 0.5
    ensures (y == t as real - 0.5 || y == t as real + 0.5) ==> t % 2 == 0
  {
    var f: nat := y.Floor;
    var fraction := y - f as real;
    if fraction < 0.5 then f
    else if fraction > 0.5 then f + 1
    else if f % 2 == 0 then f
    else f + 1
  }

  /** `{:.1f}` of a non-negative percentage: the nearest tenth, an exact tie to the even digit. */
  function OneDecimal(x: real): string
    requires x >= 0.0
  {
    var t := RoundHalfEven(x * 10.0);
    NatToString(t / 10) + "." + NatToString(t % 10)
  }

  function MissingLicensesIssue(count: nat): string {
    "Missing licenses for " + NatToString(count) + " SBOM components"
  }

  function LowCoverageIssue(coverage: real): string
    requires coverage >= 0.0
  {
    "Low license coverage: " + OneDecimal(coverage) + "%"
  }

  /** One matched dependency of sixteen is 6.25%, a tie that goes down to the even digit; 6.75% goes up. */
  lemma LowCoverageTie()
    ensures LowCoverageIssue(6.25) == "Low license coverage: 6.2%"
    ensures LowCoverageIssue(6.75) == "Low license coverage: 6.8%"
  {
    assert RoundHalfEven(62.5) == 62;
    assert RoundHalfEven(67.5) == 68;
  }

  const MinimumCoverage: real := 80.0

  /** The issues the SBOM comparison adds. */
  function SbomIssues(c: SbomComparison): seq<string>
    requires c.coverage >= 0.0
  {
    (if c.missingLicenses != {} then [MissingLicensesIssue(|c.missingLicenses|)] else [])
      + (if c.coverage < MinimumCoverage then [LowCoverageIssue(c.coverage)] else [])
  }

  /** The two SBOM checks, appended in order. */
  method AddSbomIssues(issues: seq<string>, c: SbomComparison) returns (r: seq<string>)
    requires c.coverage >= 0.0
    ensures r == issues + SbomIssues(c)
  {
    r := issues;
    if c.missingLicenses != {} {
      r := r + [MissingLicensesIssue(|c.missingLicenses|)];
    }
    if c.coverage < MinimumCoverage {
      r := r + [LowCoverageIssue(c.coverage)];
    }
  }

  /** What `validate_artifacts` returns. */
  datatype Validation = Validation(
    lpsCompliant: bool,
    artifactsProcessed: nat,
    licensesExtracted: Dict<seq<LicenseRecord>>,
    sbomComparison: Option<SbomComparison>,
    issues: seq<string>)

  /** The validator: an extractor and a comparator. */
  class LpsValidator {
    const extractor: LicenseExtractor
    const comparator: LicenseComparator

    constructor (fpFile: StoredFile, fnFile: StoredFile)
      ensures fresh(extractor) && fresh(comparator) && fresh(comparator.exceptionManager)
      ensures extractor.tempDir == None && comparator.sbomComponents == []
      ensures comparator.exceptionManager.falsePositives == LoadExceptions(fpFile)
      ensures comparator.exceptionManager.falseNegatives == LoadExceptions(fnFile)
    {
      extractor := new LicenseExtractor();
      comparator := new LicenseComparator(fpFile, fnFile);
    }

    /** `validate_artifacts`; `sbom` is None when no SBOM is given. */
    method ValidateArtifacts(fs: Fs, artifacts: seq<Artifact>, sbom: Option<Sbom>) returns (v: Validation)
      modifies extractor, comparator
      ensures v.licensesExtracted == ExtractedLicenses(fs, artifacts)
      ensures v.artifactsProcessed == |v.licensesExtracted|
      ensures v.lpsCompliant <==> v.issues == []
      ensures (sbom.None? || !SbomTruthy(sbom.value)) ==> v.sbomComparison.None? && v.issues == LpsIssues(v.licensesExtracted)
      ensures sbom.Some? && SbomTruthy(sbom.value) ==>
        && comparator.sbomComponents == SbomComponents(sbom.value)
        && v.sbomComparison == Some(SbomReport(v.licensesExtracted, SbomComponents(sbom.value),
             comparator.exceptionManager.falsePositives, comparator.exceptionManager.falseNegatives))
        && v.issues == LpsIssues(v.licensesExtracted) + SbomIssues(v.sbomComparison.value)
    {
      var extracted := extractor.ExtractLicensesFromArtifacts(fs, artifacts);
      var issues := CheckLpsCompliance(extracted);
      var comparison: Option<SbomComparison> := None;
      if sbom.Some? && SbomTruthy(sbom.value) {
        comparator.LoadSbom(sbom.value);
        var c := comparator.CompareLicensesWithSbom(extracted);
        comparison := Some(c);
        issues := AddSbomIssues(issues, c);
      }
      v := Validation(issues == [], |extracted|, extracted, comparison, issues);
    }
  }

  /** Without an SBOM the verdict is the structural check alone. */
  lemma NoSbomVerdict(fs: Fs, artifacts: seq<Artifact>)
    ensures LpsIssues(ExtractedLicenses(fs, artifacts)) == [] <==>
      forall k :: 0 <= k < |ExtractedLicenses(fs, artifacts)| ==>
        var (name, licenses) := ExtractedLicenses(fs, artifacts)[k];
        HasMain(licenses) && HasThirdParty(licenses) && HasLicensesDir(licenses)
  {
    LpsIssuesEmpty(ExtractedLicenses(fs, artifacts));
  }

  lemma {:induction false} LpsIssuesEmpty(d: Dict<seq<LicenseRecord>>)
    ensures LpsIssues(d) == [] <==>
      forall k :: 0 <= k < |d| ==> HasMain(d[k].1) && HasThirdParty(d[k].1) && HasLicensesDir(d[k].1)
  {
    if d != [] {
      var init := d[..|d| - 1];
      LpsIssuesEmpty(init);
      var (name, licenses) := d[|d| - 1];
      assert LpsIssues(d) == LpsIssues(init) + ArtifactIssues(name, licenses);
      assert forall k :: 0 <= k < |init| ==> init[k] == d[k];
    }
  }
}
