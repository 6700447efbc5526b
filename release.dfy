/**
 * Publishing a released build's artifacts to the binaries bucket, and
 * revoking a release.
 *
 * Artifactory and the binaries bucket are collaborators whose calls are
 * recorded, in order, as actions; whether a call raises, and the temporary
 * file a download gives, are fixed by two functions the collaborators are
 * built with. A build info is represented by the three answers these steps
 * read from it.
 */
module Release {
  import opened Wrappers
  import opened Strings

  const Deleting: string := "deleting"
  const Publishing: string := "publishing"
  const DeployRepoProperty: string := "buildInfo.env.ARTIFACTORY_DEPLOY_REPO"
  const IndexErrorText: string := "IndexError: list index out of range"
  const AttributeErrorText: string := "AttributeError: 'NoneType' object has no attribute 'replace'"

  /** One call into a collaborator. */
  datatype Action =
    | ReceiveBuildInfo(project: string, buildNumber: string)
    | Promote(project: string, buildNumber: string, revoke: bool)
    | S3Delete(filename: string, gid: string, aid: string, version: string)
    | Download(repo: string, gid: string, aid: string, qual: string, ext: string, version: string)
    | S3Upload(tempFile: string, filename: string, gid: string, aid: string, version: string)

  /** The fields of a release request these steps use. */
  datatype ReleaseRequest = ReleaseRequest(project: string, buildNumber: string)

  /**
   * What the steps read from the build info: the deploy-repo property (None
   * when absent), the version text, and the artifacts to publish (None when
   * absent).
   */
  datatype ReleaseBuildInfo = ReleaseBuildInfo(deployRepo: Option<string>, version: string, artifacts: Option<string>)

  /** The calls made and the error that stopped them, if any. */
  datatype Run = Run(actions: seq<Action>, error: Option<string>)

  /** `get_action`. */
  function GetAction(revoke: bool): (r: string)
    ensures r == Deleting <==> revoke
    ensures r == Publishing <==> !revoke
  {
    if revoke then Deleting else Publishing
  }

  /** The bucket file name: `aid-version.ext`, or `aid-version-qual.ext` with a qualifier. */
  function ReleaseFilename(aid: string, version: string, ext: string, qual: string): string {
    if qual != "" then aid + "-" + version + "-" + qual + "." + ext else aid + "-" + version + "." + ext
  }

  /** Every file name starts with the artifact and version and ends with the extension. */
  lemma FilenameShape(aid: string, version: string, ext: string, qual: string)
    ensures StartsWith(ReleaseFilename(aid, version, ext, qual), aid + "-" + version)
    ensures EndsWith(ReleaseFilename(aid, version, ext, qual), "." + ext)
  {
    var name := ReleaseFilename(aid, version, ext, qual);
    var head := aid + "-" + version;
    var middle := if qual != "" then "-" + qual else "";
    assert name == head + (middle + "." + ext);
    assert name[..|head|] == head;
    assert name == (head + middle) + ("." + ext);
    assert name[|name| - |"." + ext|..] == "." + ext;
  }

  /** Two qualifiers of one artifact never share a file. */
  lemma QualifiersKeepFilesApart(aid: string, version: string, ext: string, q1: string, q2: string)
    requires q1 != "" && q2 != "" && q1 != q2
    requires '.' !in ext
    ensures ReleaseFilename(aid, version, ext, q1) != ReleaseFilename(aid, version, ext, q2)
  {
    var head := aid + "-" + version + "-";
    var n1 := ReleaseFilename(aid, version, ext, q1);
    var n2 := ReleaseFilename(aid, version, ext, q2);
    if n1 == n2 {
      assert n1 == head + q1 + "." + ext && n2 == head + q2 + "." + ext;
      assert n1[|head|..] == q1 + "." + ext;
      assert n2[|head|..] == q2 + "." + ext;
      DotExtSuffix(q1, q2, ext);
    }
  }

  /** A name followed by `.ext` with a dot-free extension determines the name. */
  lemma DotExtSuffix(a: string, b: string, ext: string)
    requires a + "." + ext == b + "." + ext
    ensures a == b
  {
    var s := a + "." + ext;
    assert |a| == |b|;
    assert a == s[..|a|];
    assert b == (b + "." + ext)[..|b|];
  }

  /** The repository a release downloads from: 'builds' becomes 'releases'. */
  function ReleasesRepo(repo: string): string {
    Replace(repo, "builds", "releases")
  }

  /** The deploy repository with 'qa' turned into 'builds'. */
  function BuildsRepo(deployRepo: string): string {
    Replace(deployRepo, "qa", "builds")
  }

  /** The recorded collaborators: Artifactory and the binaries bucket. */
  class Collaborators {
    var actions: seq<Action>
    /** The message of the exception a call raises, None when it succeeds. */
    const raises: Action -> Option<string>
    /** The temporary file `artifactory.download` writes for its arguments. */
    const downloadedTo: Action -> string

    constructor(raises: Action -> Option<string>, downloadedTo: Action -> string)
      ensures actions == [] && this.raises == raises && this.downloadedTo == downloadedTo
    {
      actions := [];
      this.raises := raises;
      this.downloadedTo := downloadedTo;
    }

    /** Makes one call. */
    method Call(a: Action) returns (error: Option<string>)
      modifies this
      ensures actions == old(actions) + [a] && error == raises(a)
    {
      actions := actions + [a];
      error := raises(a);
    }

    /** `artifactory.download`: the call and the file it wrote. */
    method DownloadFile(a: Action) returns (tempFile: string, error: Option<string>)
      requires a.Download?
      modifies this
      ensures actions == old(actions) + [a] && error == raises(a) && tempFile == downloadedTo(a)
    {
      actions := actions + [a];
      error := raises(a);
      tempFile := downloadedTo(a);
    }
  }

  // ---------------------------------------------------------------- one artifact

  /** The calls `publish_artifact` makes for one `gid:aid:ext[:qual]` entry. */
  function ArtifactRun(raises: Action -> Option<string>, downloadedTo: Action -> string,
                       entry: string, version: string, repo: string, revoke: bool): Run {
    var fields := Split(entry, ':');
    if |fields| < 3 then Run([], Some(IndexErrorText))
    else
      var gid := fields[0];
      var aid := fields[1];
      var ext := fields[2];
      var qual := if |fields| > 3 then fields[3] else "";
      var filename := ReleaseFilename(aid, version, ext, qual);
      if revoke then
        var delete := S3Delete(filename, gid, aid, version);
        Run([delete], raises(delete))
      else
        var download := Download(ReleasesRepo(repo), gid, aid, qual, ext, version);
        if raises(download).Some? then Run([download], raises(download))
        else
          var upload := S3Upload(downloadedTo(download), filename, gid, aid, version);
          Run([download, upload], raises(upload))
  }

  /** `publish_artifact`. */
  method PublishArtifact(c: Collaborators, entry: string, version: string, repo: string, revoke: bool)
    returns (error: Option<string>)
    modifies c
    ensures c.actions == old(c.actions) + ArtifactRun(c.raises, c.downloadedTo, entry, version, repo, revoke).actions
    ensures error == ArtifactRun(c.raises, c.downloadedTo, entry, version, repo, revoke).error
  {
    var artifact := Split(entry, ':');
    if |artifact| < 3 {
      return Some(IndexErrorText);
    }
    var gid := artifact[0];
    var aid := artifact[1];
    var ext := artifact[2];
    var qual := "";
    if |artifact| > 3 {
      qual := artifact[3];
    }
    var artifactoryRepo := Replace(repo, "builds", "releases");
    var filename := aid + "-" + version + "." + ext;
    if qual != "" {
      filename := aid + "-" + version + "-" + qual + "." + ext;
    }
    if revoke {
      error := c.Call(S3Delete(filename, gid, aid, version));
    } else {
      var tempFile;
      tempFile, error := c.DownloadFile(Download(artifactoryRepo, gid, aid, qual, ext, version));
      if error.Some? {
        return;
      }
      error := c.Call(S3Upload(tempFile, filename, gid, aid, version));
    }
  }

  /** Revoking deletes the bucket file and nothing else: no download, no upload. */
  lemma RevokeOnlyDeletes(raises: Action -> Option<string>, downloadedTo: Action -> string,
                          entry: string, version: string, repo: string)
    requires |Split(entry, ':')| >= 3
    ensures var run := ArtifactRun(raises, downloadedTo, entry, version, repo, true);
            |run.actions| == 1 && run.actions[0].S3Delete?
  {
  }

  /**
   * Publishing downloads from the releases repository and uploads that very
   * file under the bucket name; the download goes first.
   */
  lemma PublishDownloadsThenUploads(raises: Action -> Option<string>, downloadedTo: Action -> string,
                                    entry: string, version: string, repo: string)
    requires |Split(entry, ':')| >= 3
    ensures var run := ArtifactRun(raises, downloadedTo, entry, version, repo, false);
            && run.actions[0].Download? && run.actions[0].repo == ReleasesRepo(repo)
            && (|run.actions| == 2 <==> raises(run.actions[0]).None?)
            && (|run.actions| == 2 ==> run.actions[1].S3Upload? && run.actions[1].tempFile == downloadedTo(run.actions[0]))
  {
  }

  /** The coordinates and the name a `gid:aid:ext:qual` entry is published under. */
  lemma EntryCoordinates(raises: Action -> Option<string>, downloadedTo: Action -> string,
                         gid: string, aid: string, ext: string, qual: string, version: string, repo: string)
    requires ':' !in gid && ':' !in aid && ':' !in ext && ':' !in qual
    ensures ArtifactRun(raises, downloadedTo, Join([gid, aid, ext, qual], ":"), version, repo, true).actions
         == [S3Delete(ReleaseFilename(aid, version, ext, qual), gid, aid, version)]
  {
    SplitJoin([gid, aid, ext, qual], ':');
  }

  // ---------------------------------------------------------------- every artifact

  /** Runs `next` after `first` unless `first` raised. */
  function Then(first: Run, next: Run): Run {
    if first.error.Some? then first else Run(first.actions + next.actions, next.error)
  }

  /** The entries in order, stopping at the first that raises. */
  function EntriesRun(raises: Action -> Option<string>, downloadedTo: Action -> string,
                      entries: seq<string>, version: string, repo: string, revoke: bool): Run {
    if entries == [] then Run([], None)
    else Then(EntriesRun(raises, downloadedTo, entries[..|entries| - 1], version, repo, revoke),
              ArtifactRun(raises, downloadedTo, entries[|entries| - 1], version, repo, revoke))
  }

  /** The calls `publish_all_artifacts_to_binaries` makes; a missing deploy-repo property raises at `.replace`. */
  function AllArtifactsRun(raises: Action -> Option<string>, downloadedTo: Action -> string,
                           buildInfo: ReleaseBuildInfo, revoke: bool): Run {
    match buildInfo.deployRepo
    case None => Run([], Some(AttributeErrorText))
    case Some(deployRepo) =>
      if buildInfo.artifacts.GetOr("") == "" then Run([], None)
      else EntriesRun(raises, downloadedTo, Split(buildInfo.artifacts.value, ','), buildInfo.version, BuildsRepo(deployRepo), revoke)
  }

  /** `publish_all_artifacts_to_binaries`. */
  method PublishAllArtifactsToBinaries(c: Collaborators, request: ReleaseRequest, buildInfo: ReleaseBuildInfo, revoke: bool)
    returns (error: Option<string>)
    modifies c
    ensures c.actions == old(c.actions) + AllArtifactsRun(c.raises, c.downloadedTo, buildInfo, revoke).actions
    ensures error == AllArtifactsRun(c.raises, c.downloadedTo, buildInfo, revoke).error
  {
    if buildInfo.deployRepo.None? {
      return Some(AttributeErrorText);
    }
    var repo := Replace(buildInfo.deployRepo.value, "qa", "builds");
    var version := buildInfo.version;
    var allArtifacts := buildInfo.artifacts;
    error := None;
    if allArtifacts.GetOr("") != "" {
      error := PublishEntries(c, Split(allArtifacts.value, ','), version, repo, revoke);
    }
  }

  /** The loop of `publish_all_artifacts_to_binaries`: one `publish_artifact` per entry, in order. */
  method PublishEntries(c: Collaborators, artifacts: seq<string>, version: string, repo: string, revoke: bool)
    returns (error: Option<string>)
    modifies c
    ensures c.actions == old(c.actions) + EntriesRun(c.raises, c.downloadedTo, artifacts, version, repo, revoke).actions
    ensures error == EntriesRun(c.raises, c.downloadedTo, artifacts, version, repo, revoke).error
  {
    error := None;
    var start := c.actions;
    var i := 0;
    while i < |artifacts| && error.None?
      invariant i <= |artifacts|
      invariant c.actions == start + EntriesRun(c.raises, c.downloadedTo, artifacts[..i], version, repo, revoke).actions
      invariant error == EntriesRun(c.raises, c.downloadedTo, artifacts[..i], version, repo, revoke).error
    {
      EntriesStep(c.raises, c.downloadedTo, artifacts, i, version, repo, revoke);
      error := PublishArtifact(c, artifacts[i], version, repo, revoke);
      i := i + 1;
    }
    if error.Some? {
      ErrorStopsEntries(c.raises, c.downloadedTo, artifacts, i, version, repo, revoke);
    } else {
      assert artifacts[..i] == artifacts;
    }
  }

  lemma EntriesStep(raises: Action -> Option<string>, downloadedTo: Action -> string,
                    entries: seq<string>, i: nat, version: string, repo: string, revoke: bool)
    requires i < |entries|
    requires EntriesRun(raises, downloadedTo, entries[..i], version, repo, revoke).error.None?
    ensures var run := ArtifactRun(raises, downloadedTo, entries[i], version, repo, revoke);
            var done := EntriesRun(raises, downloadedTo, entries[..i], version, repo, revoke);
            EntriesRun(raises, downloadedTo, entries[..i + 1], version, repo, revoke) == Run(done.actions + run.actions, run.error)
  {
    assert entries[..i + 1][..i] == entries[..i];
  }

  /** Once an entry has raised, the entries after it are not attempted. */
  lemma {:induction false} ErrorStopsEntries(raises: Action -> Option<string>, downloadedTo: Action -> string,
                                             entries: seq<string>, k: nat, version: string, repo: string, revoke: bool)
    requires k <= |entries|
    requires EntriesRun(raises, downloadedTo, entries[..k], version, repo, revoke).error.Some?
    ensures EntriesRun(raises, downloadedTo, entries, version, repo, revoke)
         == EntriesRun(raises, downloadedTo, entries[..k], version, repo, revoke)
    decreases |entries|
  {
    if k < |entries| {
      var init := entries[..|entries| - 1];
      assert init[..k] == entries[..k];
      ErrorStopsEntries(raises, downloadedTo, init, k, version, repo, revoke);
    } else {
      assert entries[..k] == entries;
    }
  }

  /** When no call raises, each entry of a well-formed list costs one deletion, or a download and an upload. */
  lemma {:induction false} OneStepPerEntry(raises: Action -> Option<string>, downloadedTo: Action -> string,
                                           entries: seq<string>, version: string, repo: string, revoke: bool)
    requires forall a :: raises(a).None?
    requires forall i :: 0 <= i < |entries| ==> |Split(entries[i], ':')| >= 3
    ensures EntriesRun(raises, downloadedTo, entries, version, repo, revoke).error.None?
    ensures |EntriesRun(raises, downloadedTo, entries, version, repo, revoke).actions| == (if revoke then 1 else 2) * |entries|
  {
    if entries != [] {
      OneStepPerEntry(raises, downloadedTo, entries[..|entries| - 1], version, repo, revoke);
    }
  }

  /** Revoking every artifact never downloads or uploads anything. */
  lemma {:induction false} RevokeNeverTransfers(raises: Action -> Option<string>, downloadedTo: Action -> string,
                                                entries: seq<string>, version: string, repo: string)
    ensures forall a :: a in EntriesRun(raises, downloadedTo, entries, version, repo, true).actions ==> a.S3Delete?
  {
    if entries != [] {
      RevokeNeverTransfers(raises, downloadedTo, entries[..|entries| - 1], version, repo);
    }
  }

  /** Without artifacts to publish nothing is called. */
  lemma NothingToPublish(raises: Action -> Option<string>, downloadedTo: Action -> string, buildInfo: ReleaseBuildInfo, revoke: bool)
    requires buildInfo.deployRepo.Some? && buildInfo.artifacts.GetOr("") == ""
    ensures AllArtifactsRun(raises, downloadedTo, buildInfo, revoke) == Run([], None)
  {
  }

  // ---------------------------------------------------------------- revoking

  /**
   * `revoke_release`: read the build info, un-promote, then delete from the
   * binaries bucket when there is one; `buildInfo` is what the read returns.
   */
  function RevokeRun(raises: Action -> Option<string>, downloadedTo: Action -> string,
                     hasBinaries: bool, request: ReleaseRequest, buildInfo: ReleaseBuildInfo): Run {
    var read := ReceiveBuildInfo(request.project, request.buildNumber);
    var unpromote := Promote(request.project, request.buildNumber, true);
    Then(Run([read], raises(read)),
         Then(Run([unpromote], raises(unpromote)),
              if hasBinaries then AllArtifactsRun(raises, downloadedTo, buildInfo, true) else Run([], None)))
  }

  method RevokeRelease(c: Collaborators, hasBinaries: bool, request: ReleaseRequest, buildInfo: ReleaseBuildInfo)
    returns (error: Option<string>)
    modifies c
    ensures c.actions == old(c.actions) + RevokeRun(c.raises, c.downloadedTo, hasBinaries, request, buildInfo).actions
    ensures error == RevokeRun(c.raises, c.downloadedTo, hasBinaries, request, buildInfo).error
  {
    error := c.Call(ReceiveBuildInfo(request.project, request.buildNumber));
    if error.Some? {
      return;
    }
    error := c.Call(Promote(request.project, request.buildNumber, true));
    if error.Some? {
      return;
    }
    if hasBinaries {
      error := PublishAllArtifactsToBinaries(c, request, buildInfo, true);
    }
  }

  /**
   * The build info is read first, then the release is un-promoted; a read or
   * an un-promotion that raises stops everything, and without binaries
   * nothing follows the un-promotion.
   */
  lemma RevokeOrder(raises: Action -> Option<string>, downloadedTo: Action -> string,
                    hasBinaries: bool, request: ReleaseRequest, buildInfo: ReleaseBuildInfo)
    ensures var run := RevokeRun(raises, downloadedTo, hasBinaries, request, buildInfo);
            && |run.actions| >= 1 && run.actions[0] == ReceiveBuildInfo(request.project, request.buildNumber)
            && (raises(run.actions[0]).Some? ==> |run.actions| == 1 && run.error == raises(run.actions[0]))
            && (raises(run.actions[0]).None? ==>
                  && |run.actions| >= 2 && run.actions[1] == Promote(request.project, request.buildNumber, true)
                  && (raises(run.actions[1]).Some? || !hasBinaries ==> |run.actions| == 2)
                  && (raises(run.actions[1]).Some? ==> run.error == raises(run.actions[1])))
  {
  }
}
