/**
 * Downloading the artifacts a build publishes from Artifactory: the
 * `group:artifact[:version]:extension[:…]` coordinates, the repository, file
 * name and URL each one is fetched from, and the loop over the build's list.
 *
 * The HTTP reads are parameters: `fetchBuildInfo` gives the decoded build
 * info at a URL (or the message of the exception raised), `fetch` gives the
 * number of bytes written to the temporary file (None when reading or
 * writing raises), and `firstSuitable` stands for
 * `BuildInfo.get_first_suitable_artifact`.
 */
module Artifactory {
  import opened Wrappers
  import opened Strings
  import opened Json
  import opened Buildinfo

  const DefaultBaseUrl: string := "https://repox.jfrog.io/repox"
  const RepoxSuffix: string := "/repox"
  const Nupkg: string := "nupkg"
  const ComPrefix: string := "com."
  const NugetPrivate: string := "sonarsource-nuget-private-builds"
  const NugetPublic: string := "sonarsource-nuget-public"
  const PrivateBuilds: string := "sonarsource-private-builds"
  const PublicBuilds: string := "sonarsource-public-builds"
  const SonarApplication: string := "sonar-application"
  const SonarqubePrefix: string := "sonarqube-"
  const ZipSuffix: string := ".zip"
  const BuildInfoFailure: string := "Failed to get build info: "
  const DownloadFailure: string := "Failed to download artifacts: "

  /** The client's settings; neither changes after construction. */
  datatype Client = Client(accessToken: string, baseUrl: string)

  /** The fields of the action's context the download reads. */
  datatype Context = Context(version: string, repository: string)

  /** The dictionary `_parse_artifact_string` returns. */
  datatype ArtifactInfo = ArtifactInfo(
    groupId: string, artifactId: string, version: string, extension: string,
    classifier: Option<string>, actualFilename: Option<string>, originalRepo: Option<string>)

  /** The dictionary `_download_single_artifact` returns. */
  datatype Downloaded = Downloaded(
    path: string, size: nat, groupId: string, artifactId: string, version: string,
    extension: string, classifier: Option<string>, name: string)

  // ---------------------------------------------------------------- coordinates

  /** `_parse_artifact_string`. */
  function ParseArtifactString(s: string, context: Context): (r: Option<ArtifactInfo>)
    ensures r.None? <==> |Split(s, ':')| < 3
    ensures r.Some? ==> r.value.groupId == Split(s, ':')[0] && r.value.artifactId == Split(s, ':')[1]
  {
    var parts := Split(s, ':');
    if |parts| < 3 then None
    else if |parts| >= 6 then Some(ArtifactInfo(parts[0], parts[1], parts[2], parts[3], None, Some(parts[4]), Some(parts[5])))
    else if |parts| == 5 then Some(ArtifactInfo(parts[0], parts[1], parts[2], parts[3], Some(parts[4]), None, None))
    else if |parts| == 4 then Some(ArtifactInfo(parts[0], parts[1], parts[2], parts[3], None, None, None))
    else Some(ArtifactInfo(parts[0], parts[1], context.version, parts[2], None, None, None))
  }

  predicate ColonFree(s: string) {
    ':' !in s
  }

  /** Information that some coordinate string of four or more fields describes. */
  predicate Describable(info: ArtifactInfo) {
    && ColonFree(info.groupId) && ColonFree(info.artifactId) && ColonFree(info.version) && ColonFree(info.extension)
    && (info.actualFilename.Some? <==> info.originalRepo.Some?)
    && (info.actualFilename.Some? ==> info.classifier.None? && ColonFree(info.actualFilename.value) && ColonFree(info.originalRepo.value))
    && (info.classifier.Some? ==> ColonFree(info.classifier.value))
  }

  /** The coordinate string for an artifact: `g:a:v:e`, `g:a:v:e:classifier` or `g:a:v:e:file:repo`. */
  function Coordinates(info: ArtifactInfo): seq<string> {
    var head := [info.groupId, info.artifactId, info.version, info.extension];
    if info.actualFilename.Some? then head + [info.actualFilename.value, info.originalRepo.GetOr("")]
    else if info.classifier.Some? then head + [info.classifier.value]
    else head
  }

  /** Parsing the coordinates of an artifact gives the artifact back. */
  lemma ParseCoordinates(info: ArtifactInfo, context: Context)
    requires Describable(info)
    ensures ParseArtifactString(Join(Coordinates(info), ":"), context) == Some(info)
  {
    var fields := Coordinates(info);
    assert forall k :: 0 <= k < |fields| ==> ':' !in fields[k];
    SplitJoin(fields, ':');
  }

  /** Three fields `g:a:e` take their version from the context. */
  lemma ParseShortCoordinates(groupId: string, artifactId: string, extension: string, context: Context)
    requires ColonFree(groupId) && ColonFree(artifactId) && ColonFree(extension)
    ensures ParseArtifactString(Join([groupId, artifactId, extension], ":"), context)
         == Some(ArtifactInfo(groupId, artifactId, context.version, extension, None, None, None))
  {
    SplitJoin([groupId, artifactId, extension], ':');
  }

  // ---------------------------------------------------------------- where an artifact lives

  /** The repository: NuGet packages and the rest, private under a `com.` group. */
  function Repository(extension: string, groupId: string): (r: string)
    ensures r in {NugetPrivate, NugetPublic, PrivateBuilds, PublicBuilds}
    ensures (r == NugetPrivate || r == NugetPublic) <==> Lower(extension) == Nupkg
    ensures (r == NugetPrivate || r == PrivateBuilds) <==> StartsWith(groupId, ComPrefix)
  {
    if Lower(extension) == Nupkg then (if StartsWith(groupId, ComPrefix) then NugetPrivate else NugetPublic)
    else if StartsWith(groupId, ComPrefix) then PrivateBuilds else PublicBuilds
  }

  /** Whether the build info named the exact file to fetch. */
  predicate HasActualFilename(info: ArtifactInfo) {
    info.actualFilename.Some? && info.actualFilename.value != ""
  }

  /** The name of the downloaded file. */
  function Filename(info: ArtifactInfo): string {
    if HasActualFilename(info) then info.actualFilename.value
    else if info.artifactId == SonarApplication then SonarqubePrefix + info.version + ZipSuffix
    else
      var suffix := if info.classifier.Some? && info.classifier.value != "" then "-" + info.classifier.value else "";
      info.artifactId + "-" + info.version + suffix + "." + info.extension
  }

  /** A Maven file is `artifact-version`, then `-classifier` when there is one, then `.extension`. */
  lemma MavenFilename(info: ArtifactInfo)
    requires !HasActualFilename(info) && info.artifactId != SonarApplication
    ensures StartsWith(Filename(info), info.artifactId + "-" + info.version)
    ensures EndsWith(Filename(info), "." + info.extension)
    ensures info.classifier.None? ==> Filename(info) == info.artifactId + "-" + info.version + "." + info.extension
  {
    var name := Filename(info);
    var prefix := info.artifactId + "-" + info.version;
    var suffix := if info.classifier.Some? && info.classifier.value != "" then "-" + info.classifier.value else "";
    assert name == prefix + (suffix + "." + info.extension);
    assert name[..|prefix|] == prefix;
    assert name == (prefix + suffix) + ("." + info.extension);
    assert name[|name| - |"." + info.extension|..] == "." + info.extension;
  }

  /** `base_url` without a trailing `/repox`. */
  function WithoutRepox(baseUrl: string): (r: string)
    ensures EndsWith(baseUrl, RepoxSuffix) ==> r + RepoxSuffix == baseUrl
    ensures !EndsWith(baseUrl, RepoxSuffix) ==> r == baseUrl
  {
    if EndsWith(baseUrl, RepoxSuffix) then baseUrl[..|baseUrl| - |RepoxSuffix|] else baseUrl
  }

  /** Only the last `/repox` goes: the default base keeps its host. */
  lemma WithoutRepoxOfSuffixed(host: string)
    ensures WithoutRepox(host + RepoxSuffix) == host
  {
    var u := host + RepoxSuffix;
    assert u[|u| - |RepoxSuffix|..] == RepoxSuffix;
    assert u[..|u| - |RepoxSuffix|] == host;
  }

  /** The group id as a Maven path. */
  function GroupPath(groupId: string): string {
    Replace(groupId, ".", "/")
  }

  /** A Maven path has every dot of the group turned into a slash. */
  lemma {:induction false} GroupPathHasNoDot(groupId: string)
    ensures '.' !in GroupPath(groupId)
    decreases |groupId|
  {
    if |groupId| >= 1 {
      GroupPathHasNoDot(groupId[1..]);
      if groupId[..1] == "." {
        assert GroupPath(groupId) == "/" + GroupPath(groupId[1..]);
      } else {
        assert GroupPath(groupId) == [groupId[0]] + GroupPath(groupId[1..]);
        assert groupId[0] != '.' by {
          assert groupId[..1] == [groupId[0]];
        }
      }
    }
  }

  /** `org.sonarsource` style groups become `org/sonarsource`. */
  lemma GroupPathOfTwoParts(org: string, name: string)
    requires '.' !in org && '.' !in name
    ensures GroupPath(org + "." + name) == org + "/" + name
  {
    assert org + "." + name == org + ("." + name);
    ReplaceCharBefore(org, '.', '/', "." + name);
    assert ("." + name)[..1] == ".";
    assert ("." + name)[1..] == name;
    assert Replace("." + name, ".", "/") == "/" + Replace(name, ".", "/");
    assert !Contains(name, ".") by {
      if Contains(name, ".") {
        ContainsHasChar(name, '.');
      }
    }
    ReplaceAbsent(name, ".", "/");
  }

  /** A text free of the replaced character passes through a one-character replacement unchanged. */
  lemma {:induction false} ReplaceCharBefore(d: string, c: char, x: char, t: string)
    requires c !in d
    ensures Replace(d + t, [c], [x]) == d + Replace(t, [c], [x])
    decreases |d|
  {
    if d != [] {
      var s := d + t;
      assert s[..1] == [d[0]];
      assert s[1..] == d[1..] + t;
      ReplaceCharBefore(d[1..], c, x, t);
    } else {
      assert d + t == t;
    }
  }

  lemma {:induction false} ContainsHasChar(s: string, c: char)
    requires Contains(s, [c])
    ensures c in s
    decreases |s|
  {
    if !StartsWith(s, [c]) {
      ContainsHasChar(s[1..], c);
    } else {
      assert s[0] == [c][0];
    }
  }

  /** The repository's folder under the Artifactory root. */
  function RepositoryRoot(client: Client, info: ArtifactInfo): string {
    WithoutRepox(client.baseUrl) + "/artifactory/" + Repository(info.extension, info.groupId) + "/"
  }

  /** The folders between the repository and the file: none for a named file, else the Maven layout. */
  function MavenFolders(info: ArtifactInfo): string {
    if HasActualFilename(info) then ""
    else GroupPath(info.groupId) + "/" + info.artifactId + "/" + info.version + "/"
  }

  /** The URL the artifact is read from. */
  function ArtifactUrl(client: Client, info: ArtifactInfo): string {
    RepositoryRoot(client, info) + MavenFolders(info) + Filename(info)
  }

  /** Every URL lies under the chosen repository of the Artifactory root and names the file. */
  lemma UrlUnderRepository(client: Client, info: ArtifactInfo)
    ensures StartsWith(ArtifactUrl(client, info), RepositoryRoot(client, info))
    ensures EndsWith(ArtifactUrl(client, info), Filename(info))
  {
    ConcatEnds(RepositoryRoot(client, info), MavenFolders(info), Filename(info));
  }

  /** `_download_single_artifact`: None when the read or the write raises. */
  function DownloadSingleArtifact(client: Client, info: ArtifactInfo, fetch: string -> Option<nat>, tempDir: string): (r: Option<Downloaded>)
    ensures r.Some? ==> fetch(ArtifactUrl(client, info)).Some? && r.value.name == Filename(info)
  {
    var filename := Filename(info);
    match fetch(ArtifactUrl(client, info))
    case None => None
    case Some(size) =>
      Some(Downloaded(PathJoin(tempDir, filename), size, info.groupId, info.artifactId, info.version,
                      info.extension, info.classifier, filename))
  }

  // ---------------------------------------------------------------- the build's list

  /** The build number is the version's text after its last dot. */
  function BuildNumber(version: string): (r: string)
    ensures '.' !in r
  {
    if '.' in version then SplitPartsLackSeparator(version, '.'); Last(Split(version, '.')) else version
  }

  function BuildInfoUrl(client: Client, project: string, buildNumber: string): string {
    client.baseUrl + "/api/build/" + project + "/" + buildNumber
  }

  /** The list to download: the build's own when it is not blank, else the fallback; None when neither is. */
  function ArtifactsList(info: BuildInfo, firstSuitable: BuildInfo -> Result<Option<string>, string>): Result<Option<string>, string> {
    match info.GetArtifactsToPublish()
    case Err(e) => Err(e)
    case Ok(artifacts) =>
      if Truthy(artifacts) && !artifacts.JStr? then Err(AttributeErrorText)
      else if Truthy(artifacts) && Strip(artifacts.s) != "" then Ok(Some(artifacts.s))
      else
        match firstSuitable(info)
        case Err(e) => Err(e)
        case Ok(fallback) => if fallback.GetOr("") != "" then Ok(Some(fallback.value)) else Ok(None)
  }

  /** What one entry of the list contributes: nothing, or its download. */
  function DownloadEntry(client: Client, context: Context, entry: string, fetch: string -> Option<nat>, tempDir: string): seq<Downloaded> {
    var artifact := Strip(entry);
    if artifact == "" then []
    else
      match ParseArtifactString(artifact, context)
      case None => []
      case Some(info) =>
        match DownloadSingleArtifact(client, info, fetch, tempDir)
        case None => []
        case Some(d) => [d]
  }

  /** The downloads of a list of entries, in list order. */
  function Downloads(client: Client, context: Context, entries: seq<string>, fetch: string -> Option<nat>, tempDir: string): seq<Downloaded> {
    if entries == [] then []
    else Downloads(client, context, entries[..|entries| - 1], fetch, tempDir)
         + DownloadEntry(client, context, entries[|entries| - 1], fetch, tempDir)
  }

  lemma DownloadsStep(client: Client, context: Context, entries: seq<string>, k: nat, fetch: string -> Option<nat>, tempDir: string)
    requires k < |entries|
    ensures Downloads(client, context, entries[..k + 1], fetch, tempDir)
         == Downloads(client, context, entries[..k], fetch, tempDir) + DownloadEntry(client, context, entries[k], fetch, tempDir)
  {
    assert entries[..k + 1][..k] == entries[..k];
  }

  /** `download_artifacts_from_build_info`, every failure wrapped in one ArtifactoryError. */
  function DownloadedFromBuildInfo(client: Client, context: Context, fetchBuildInfo: string -> Result<Json, string>,
                                   firstSuitable: BuildInfo -> Result<Option<string>, string>,
                                   fetch: string -> Option<nat>, tempDir: string): Result<seq<Downloaded>, string> {
    match fetchBuildInfo(BuildInfoUrl(client, context.repository, BuildNumber(context.version)))
    case Err(e) => Err(DownloadFailure + BuildInfoFailure + e)
    case Ok(json) =>
      match ArtifactsList(BuildInfo(json), firstSuitable)
      case Err(e) => Err(DownloadFailure + e)
      case Ok(None) => Ok([])
      case Ok(Some(list)) => Ok(Downloads(client, context, Split(list, ','), fetch, tempDir))
  }

  /** The loop of `download_artifacts_from_build_info` over the split list. */
  method DownloadEach(client: Client, context: Context, entries: seq<string>, fetch: string -> Option<nat>, tempDir: string)
    returns (downloaded: seq<Downloaded>)
    ensures downloaded == Downloads(client, context, entries, fetch, tempDir)
  {
    downloaded := [];
    for k := 0 to |entries|
      invariant downloaded == Downloads(client, context, entries[..k], fetch, tempDir)
    {
      DownloadsStep(client, context, entries, k, fetch, tempDir);
      var artifactStr := Strip(entries[k]);
      if artifactStr == "" {
        continue;
      }
      var info := ParseArtifactString(artifactStr, context);
      if info.Some? {
        var d := DownloadSingleArtifact(client, info.value, fetch, tempDir);
        if d.Some? {
          downloaded := downloaded + [d.value];
        }
      }
    }
    assert entries[..|entries|] == entries;
  }

  method DownloadArtifactsFromBuildInfo(client: Client, context: Context, fetchBuildInfo: string -> Result<Json, string>,
                                        firstSuitable: BuildInfo -> Result<Option<string>, string>,
                                        fetch: string -> Option<nat>, tempDir: string)
    returns (r: Result<seq<Downloaded>, string>)
    ensures r == DownloadedFromBuildInfo(client, context, fetchBuildInfo, firstSuitable, fetch, tempDir)
  {
    var buildNumber := if '.' in context.version then Last(Split(context.version, '.')) else context.version;
    var fetched := fetchBuildInfo(BuildInfoUrl(client, context.repository, buildNumber));
    if fetched.Err? {
      return Err(DownloadFailure + BuildInfoFailure + fetched.error);
    }
    var buildInfo := BuildInfo(fetched.value);
    var list := ArtifactsList(buildInfo, firstSuitable);
    if list.Err? {
      return Err(DownloadFailure + list.error);
    }
    if list.value.None? {
      return Ok([]);
    }
    var downloaded := DownloadEach(client, context, Split(list.value.value, ','), fetch, tempDir);
    return Ok(downloaded);
  }

  /** A blank publish list with no fallback downloads nothing. */
  lemma NothingToPublish(info: BuildInfo, firstSuitable: BuildInfo -> Result<Option<string>, string>)
    requires info.GetArtifactsToPublish().Ok?
    requires info.GetArtifactsToPublish().value == JNull
          || (info.GetArtifactsToPublish().value.JStr? && Strip(info.GetArtifactsToPublish().value.s) == "")
    requires firstSuitable(info) == Ok(None)
    ensures ArtifactsList(info, firstSuitable) == Ok(None)
  {
  }

  /** `d` is the download of a non-blank entry that parses, under the file name its coordinates give. */
  predicate NamedByEntry(d: Downloaded, entry: string, context: Context) {
    Strip(entry) != "" && ParseArtifactString(Strip(entry), context).Some?
    && d.name == Filename(ParseArtifactString(Strip(entry), context).value)
  }

  /** Each download comes from an entry that parses, under the file name its coordinates give. */
  lemma {:induction false} DownloadsSound(client: Client, context: Context, entries: seq<string>, fetch: string -> Option<nat>, tempDir: string)
    ensures |Downloads(client, context, entries, fetch, tempDir)| <= |entries|
    ensures forall d :: d in Downloads(client, context, entries, fetch, tempDir) ==>
              exists i :: 0 <= i < |entries| && NamedByEntry(d, entries[i], context)
  {
    if entries != [] {
      var init := entries[..|entries| - 1];
      var last := entries[|entries| - 1];
      DownloadsSound(client, context, init, fetch, tempDir);
      DownloadEntrySound(client, context, last, fetch, tempDir);
      forall d | d in Downloads(client, context, entries, fetch, tempDir)
        ensures exists i :: 0 <= i < |entries| && NamedByEntry(d, entries[i], context)
      {
        if d in Downloads(client, context, init, fetch, tempDir) {
          var i :| 0 <= i < |init| && NamedByEntry(d, init[i], context);
          assert init[i] == entries[i];
        } else {
          assert NamedByEntry(d, entries[|entries| - 1], context);
        }
      }
    }
  }

  lemma DownloadEntrySound(client: Client, context: Context, entry: string, fetch: string -> Option<nat>, tempDir: string)
    ensures |DownloadEntry(client, context, entry, fetch, tempDir)| <= 1
    ensures forall d :: d in DownloadEntry(client, context, entry, fetch, tempDir) ==> NamedByEntry(d, entry, context)
  {
  }

  /** When every entry is well-formed and every read succeeds, each entry gives exactly one download. */
  lemma {:induction false} DownloadsComplete(client: Client, context: Context, entries: seq<string>, fetch: string -> Option<nat>, tempDir: string)
    requires forall i :: 0 <= i < |entries| ==> Strip(entries[i]) != "" && |Split(Strip(entries[i]), ':')| >= 3
    requires forall url :: fetch(url).Some?
    ensures |Downloads(client, context, entries, fetch, tempDir)| == |entries|
  {
    if entries != [] {
      DownloadsComplete(client, context, entries[..|entries| - 1], fetch, tempDir);
    }
  }
}
