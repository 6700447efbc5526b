/**
 * Reading an Artifactory build-info document: properties, the first module's
 * properties, version, repositories and the artifacts to publish.
 *
 * The document is whatever `json.load` gave, so every lookup can meet a
 * value of the wrong kind. A missing key (KeyError) or an empty list
 * (IndexError) is caught where the source catches it; any other failure
 * (TypeError, AttributeError) escapes to the caller, an Err here. Python's
 * None is JSON null.
 */
module Buildinfo {
  import opened Wrappers
  import opened Strings
  import opened Json

  const BuildInfoKey: string := "buildInfo"
  const PropertiesKey: string := "properties"
  const ModulesKey: string := "modules"
  const IdKey: string := "id"
  const StatusesKey: string := "statuses"
  const RepositoryKey: string := "repository"
  const ArtifactsKey: string := "artifactsToPublish"
  const EnvArtifactsKey: string := "buildInfo.env.ARTIFACTS_TO_PUBLISH"
  const PublicMarker: string := "org.sonarsource"
  const BuildsType: string := "builds"
  const ReleasesType: string := "releases"
  const TypeErrorText: string := "TypeError"
  const AttributeErrorText: string := "AttributeError"

  // ---------------------------------------------------------------- subscripting

  /** One subscript: `[key]`, or `[0]`. */
  datatype Step = Field(key: string) | Head

  /** What a chain of subscripts gives. */
  datatype Access = Found(value: Json) | KeyMissing | IndexMissing | Raised(error: string)

  /** Python's `value[key]` and `value[0]` on a decoded JSON value. */
  function Subscript(value: Json, step: Step): (r: Access)
    ensures r.Found? && step.Field? ==> value.JObj? && step.key in value.fields && r.value == value.fields[step.key]
    ensures r.Found? && step.Head? && value.JArr? ==> |value.items| > 0 && r.value == value.items[0]
  {
    match step
    case Field(key) =>
      if value.JObj? then (if key in value.fields then Found(value.fields[key]) else KeyMissing)
      else Raised(TypeErrorText)
    case Head =>
      match value
      case JArr(items) => if items != [] then Found(items[0]) else IndexMissing
      case JObj(_) => KeyMissing      // 0 is never a key of a decoded object
      case JStr(s) => if s != [] then Found(JStr([s[0]])) else IndexMissing
      case _ => Raised(TypeErrorText)
  }

  /** A chain of subscripts, stopping at the first one that fails. */
  function Navigate(value: Json, path: seq<Step>): Access
    decreases |path|
  {
    if path == [] then Found(value)
    else
      match Subscript(value, path[0])
      case Found(v) => Navigate(v, path[1..])
      case other => other
  }

  /** A subscript that succeeds hands the rest of the chain its value. */
  lemma NavigateFound(value: Json, step: Step, rest: seq<Step>)
    requires Subscript(value, step).Found?
    ensures Navigate(value, [step] + rest) == Navigate(Subscript(value, step).value, rest)
  {
    assert ([step] + rest)[0] == step;
    assert ([step] + rest)[1..] == rest;
  }

  // ---------------------------------------------------------------- the accessors

  datatype BuildInfo = BuildInfo(json: Json) {

    /** `get_property`: only a KeyError falls back to the default. */
    function GetProperty(name: string, default: Json): (r: Result<Json, string>)
      ensures r.Ok? && r.value != default ==> Navigate(json, [Field(BuildInfoKey), Field(PropertiesKey), Field(name)]).Found?
    {
      match Navigate(json, [Field(BuildInfoKey), Field(PropertiesKey), Field(name)])
      case Found(v) => Ok(v)
      case KeyMissing => Ok(default)
      case IndexMissing => Err("IndexError")
      case Raised(e) => Err(e)
    }

    /** `get_module_property`: a KeyError or an IndexError falls back to the default. */
    function GetModuleProperty(name: string, default: Json): (r: Result<Json, string>)
      ensures r.Ok? && r.value != default ==> Navigate(json, ModulePath(name)).Found?
    {
      match Navigate(json, ModulePath(name))
      case Found(v) => Ok(v)
      case KeyMissing => Ok(default)
      case IndexMissing => Ok(default)
      case Raised(e) => Err(e)
    }

    /** `get_version`: the last ':' field of the first module's id; None without one. */
    function GetVersion(): (r: Result<Option<string>, string>)
      ensures r.Ok? && r.value.Some? ==> ':' !in r.value.value
    {
      match Navigate(json, [Field(BuildInfoKey), Field(ModulesKey), Head, Field(IdKey)])
      case Found(v) =>
        if v.JStr? then
          SplitPartsLackSeparator(v.s, ':');
          Ok(Some(Last(Split(v.s, ':'))))
        else Err(AttributeErrorText)
      case Raised(e) => Err(e)
      case _ => Ok(None)
    }

    /** `get_source_and_target_repos`: (None, None) when there is no first status. */
    function GetSourceAndTargetRepos(revoke: bool): Result<(Option<string>, Option<string>), string> {
      match Navigate(json, [Field(BuildInfoKey), Field(StatusesKey), Head, Field(RepositoryKey)])
      case Found(v) =>
        if v.JStr? then
          var repo := v.s;
          var repoType := Last(Split(repo, '-'));
          if revoke then Ok((Some(Replace(repo, repoType, ReleasesType)), Some(Replace(repo, repoType, BuildsType))))
          else Ok((Some(Replace(repo, repoType, BuildsType)), Some(Replace(repo, repoType, ReleasesType))))
        else Err(AttributeErrorText)
      case Raised(e) => Err(e)
      case _ => Ok((None, None))
    }

    /**
     * `get_artifacts_to_publish`: the first module's property, or else the
     * build property, which is looked up first because it is the default
     * argument.
     */
    function GetArtifactsToPublish(): (r: Result<Json, string>)
      ensures GetProperty(EnvArtifactsKey, JNull).Err? ==> r.Err?
    {
      match GetProperty(EnvArtifactsKey, JNull)
      case Err(e) => Err(e)
      case Ok(fallback) => GetModuleProperty(ArtifactsKey, fallback)
    }

    /** `is_public`: `in` on the artifacts value when it is truthy. */
    function IsPublic(): (r: Result<bool, string>)
      ensures GetArtifactsToPublish().Ok? && GetArtifactsToPublish().value.JStr? ==>
                r == Ok(GetArtifactsToPublish().value.s != "" && Contains(GetArtifactsToPublish().value.s, PublicMarker))
      ensures r == Ok(true) ==> GetArtifactsToPublish().Ok? && Truthy(GetArtifactsToPublish().value)
    {
      match GetArtifactsToPublish()
      case Err(e) => Err(e)
      case Ok(artifacts) =>
        if !Truthy(artifacts) then Ok(false)
        else
          match artifacts
          case JStr(s) => Ok(Contains(s, PublicMarker))
          case JArr(items) => Ok(JStr(PublicMarker) in items)
          case JObj(fields) => Ok(PublicMarker in fields)
          case _ => Err(TypeErrorText)
    }

    /** `get_package`: the group id of the first comma-separated entry. */
    function GetPackage(): Result<Option<string>, string> {
      match GetArtifactsToPublish()
      case Err(e) => Err(e)
      case Ok(all) =>
        if !Truthy(all) then Ok(None)
        else if !all.JStr? then Err(AttributeErrorText)
        else
          var artifact := Strip(Split(all.s, ',')[0]);
          if artifact == "" then Ok(None)
          else
            var parts := Split(artifact, ':');
            if |parts| >= 2 then Ok(Some(Strip(parts[0]))) else Ok(None)
    }
  }

  function ModulePath(name: string): seq<Step> {
    [Field(BuildInfoKey), Field(ModulesKey), Head, Field(PropertiesKey), Field(name)]
  }

  // ---------------------------------------------------------------- a well-formed document

  /**
   * The shape Artifactory writes: build properties, modules with an id and
   * properties, and statuses naming a repository.
   */
  datatype Module = Module(id: string, properties: map<string, Json>)
  datatype Build = Build(properties: map<string, Json>, modules: seq<Module>, repositories: seq<string>)

  function ModuleJson(m: Module): Json {
    JObj(map[IdKey := JStr(m.id), PropertiesKey := JObj(m.properties)])
  }

  function StatusJson(repository: string): Json {
    JObj(map[RepositoryKey := JStr(repository)])
  }

  function ModulesJson(modules: seq<Module>): seq<Json> {
    seq(|modules|, i requires 0 <= i < |modules| => ModuleJson(modules[i]))
  }

  function StatusesJson(repositories: seq<string>): seq<Json> {
    seq(|repositories|, i requires 0 <= i < |repositories| => StatusJson(repositories[i]))
  }

  /** The `buildInfo` object of a build. */
  function Sections(b: Build): map<string, Json> {
    map[PropertiesKey := JObj(b.properties), ModulesKey := JArr(ModulesJson(b.modules)),
        StatusesKey := JArr(StatusesJson(b.repositories))]
  }

  function Document(b: Build): BuildInfo {
    BuildInfo(JObj(map[BuildInfoKey := JObj(Sections(b))]))
  }

  /** `json['buildInfo'][key]` of a build is its section. */
  lemma SectionOfDocument(b: Build, key: string, rest: seq<Step>)
    requires key in Sections(b)
    ensures Navigate(Document(b).json, [Field(BuildInfoKey), Field(key)] + rest) == Navigate(Sections(b)[key], rest)
  {
    assert [Field(BuildInfoKey), Field(key)] + rest == [Field(BuildInfoKey)] + ([Field(key)] + rest);
    NavigateFound(Document(b).json, Field(BuildInfoKey), [Field(key)] + rest);
    NavigateFound(JObj(Sections(b)), Field(key), rest);
  }

  /** The last subscript of a chain. */
  lemma NavigateLast(value: Json, step: Step)
    ensures Navigate(value, [step]) == Subscript(value, step)
  {
    assert [step][1..] == [];
  }

  /** A build property, or the default exactly when the key is missing. */
  lemma PropertyOfBuild(b: Build, name: string, default: Json)
    ensures Document(b).GetProperty(name, default) == Ok(if name in b.properties then b.properties[name] else default)
  {
    assert [Field(BuildInfoKey), Field(PropertiesKey), Field(name)] == [Field(BuildInfoKey), Field(PropertiesKey)] + [Field(name)];
    SectionOfDocument(b, PropertiesKey, [Field(name)]);
    NavigateLast(JObj(b.properties), Field(name));
  }

  /** The first module's property; the default when there is no module or no such key. */
  lemma ModulePropertyOfBuild(b: Build, name: string, default: Json)
    ensures Document(b).GetModuleProperty(name, default)
         == Ok(if |b.modules| > 0 && name in b.modules[0].properties then b.modules[0].properties[name] else default)
  {
    var rest := [Head, Field(PropertiesKey), Field(name)];
    assert ModulePath(name) == [Field(BuildInfoKey), Field(ModulesKey)] + rest;
    SectionOfDocument(b, ModulesKey, rest);
    var modules := JArr(ModulesJson(b.modules));
    if |b.modules| > 0 {
      assert rest == [Head] + [Field(PropertiesKey), Field(name)];
      NavigateFound(modules, Head, [Field(PropertiesKey), Field(name)]);
      assert [Field(PropertiesKey), Field(name)] == [Field(PropertiesKey)] + [Field(name)];
      NavigateFound(ModuleJson(b.modules[0]), Field(PropertiesKey), [Field(name)]);
      NavigateLast(JObj(b.modules[0].properties), Field(name));
    }
  }

  /** The version is the id's text after its last ':'; None when there are no modules. */
  lemma VersionOfBuild(b: Build)
    ensures Document(b).GetVersion() == Ok(if |b.modules| == 0 then None else Some(Last(Split(b.modules[0].id, ':'))))
  {
    var rest := [Head, Field(IdKey)];
    assert [Field(BuildInfoKey), Field(ModulesKey), Head, Field(IdKey)] == [Field(BuildInfoKey), Field(ModulesKey)] + rest;
    SectionOfDocument(b, ModulesKey, rest);
    if |b.modules| > 0 {
      assert rest == [Head] + [Field(IdKey)];
      NavigateFound(JArr(ModulesJson(b.modules)), Head, [Field(IdKey)]);
      NavigateLast(ModuleJson(b.modules[0]), Field(IdKey));
    }
  }

  /** An id `g:a:v` with a colon-free version gives that version. */
  lemma VersionIsLastField(b: Build, prefix: string, version: string)
    requires |b.modules| > 0 && b.modules[0].id == prefix + ":" + version
    requires ':' !in version
    ensures Document(b).GetVersion() == Ok(Some(version))
  {
    VersionOfBuild(b);
    SplitConcat(prefix, ':', version);
    SplitNoSeparator(version, ':');
    assert prefix + [':'] + version == prefix + ":" + version;
  }

  /** The source and target repositories from the first status; none without one. */
  lemma ReposOfBuild(b: Build, revoke: bool)
    ensures |b.repositories| == 0 ==> Document(b).GetSourceAndTargetRepos(revoke) == Ok((None, None))
    ensures |b.repositories| > 0 ==>
      var repo := b.repositories[0];
      var repoType := Last(Split(repo, '-'));
      Document(b).GetSourceAndTargetRepos(revoke)
        == Ok((Some(Replace(repo, repoType, if revoke then ReleasesType else BuildsType)),
               Some(Replace(repo, repoType, if revoke then BuildsType else ReleasesType))))
  {
    var rest := [Head, Field(RepositoryKey)];
    assert [Field(BuildInfoKey), Field(StatusesKey), Head, Field(RepositoryKey)] == [Field(BuildInfoKey), Field(StatusesKey)] + rest;
    SectionOfDocument(b, StatusesKey, rest);
    if |b.repositories| > 0 {
      assert rest == [Head] + [Field(RepositoryKey)];
      NavigateFound(JArr(StatusesJson(b.repositories)), Head, [Field(RepositoryKey)]);
      NavigateLast(StatusJson(b.repositories[0]), Field(RepositoryKey));
    }
  }

  /** Revoking swaps the source and the target. */
  lemma RevokeSwaps(bi: BuildInfo)
    ensures bi.GetSourceAndTargetRepos(false).Ok? <==> bi.GetSourceAndTargetRepos(true).Ok?
    ensures bi.GetSourceAndTargetRepos(false).Ok? ==>
      var (source, target) := bi.GetSourceAndTargetRepos(false).value;
      bi.GetSourceAndTargetRepos(true).value == (target, source)
  {
  }

  /** `s.replace(t, x)` where t occurs only at the very end. */
  lemma {:induction false} ReplaceOnlyAtEnd(a: string, t: string, x: string)
    requires t != []
    requires forall i :: 0 <= i < |a| ==> !StartsWith((a + t)[i..], t)
    ensures Replace(a + t, t, x) == a + x
    decreases |a|
  {
    var s := a + t;
    if a == [] {
      assert s == t && s[..|t|] == t && s[|t|..] == [];
      assert Replace(s, t, x) == x + Replace([], t, x);
    } else {
      assert s[0..] == s;
      assert s[..|t|] != t;
      var tail := a[1..] + t;
      assert s[1..] == tail;
      forall i | 0 <= i < |a[1..]| ensures !StartsWith(tail[i..], t) {
        assert tail[i..] == s[i + 1..];
      }
      ReplaceOnlyAtEnd(a[1..], t, x);
      assert Replace(s, t, x) == [s[0]] + Replace(tail, t, x);
      assert [a[0]] + a[1..] == a;
    }
  }

  /**
   * A repository `base-type`, whose type occurs nowhere else, is released
   * from `base-builds` to `base-releases` and revoked the other way round.
   */
  lemma ReposSwapTheType(b: Build, base: string, repoType: string, revoke: bool)
    requires |b.repositories| > 0 && b.repositories[0] == base + "-" + repoType
    requires repoType != [] && '-' !in repoType
    requires forall i :: 0 <= i < |base| + 1 ==> !StartsWith(b.repositories[0][i..], repoType)
    ensures Document(b).GetSourceAndTargetRepos(revoke)
         == Ok((Some(base + "-" + (if revoke then ReleasesType else BuildsType)),
                Some(base + "-" + (if revoke then BuildsType else ReleasesType))))
  {
    var repo := b.repositories[0];
    ReposOfBuild(b, revoke);
    assert repo == base + ['-'] + repoType;
    SplitConcat(base, '-', repoType);
    SplitNoSeparator(repoType, '-');
    assert Last(Split(repo, '-')) == repoType;
    assert repo == (base + "-") + repoType;
    ReplaceOnlyAtEnd(base + "-", repoType, ReleasesType);
    ReplaceOnlyAtEnd(base + "-", repoType, BuildsType);
  }

  /** The module's list wins whenever its key exists, even when it is empty; otherwise the build property. */
  lemma ArtifactsOfBuild(b: Build)
    ensures Document(b).GetArtifactsToPublish()
         == Ok(if |b.modules| > 0 && ArtifactsKey in b.modules[0].properties then b.modules[0].properties[ArtifactsKey]
               else if EnvArtifactsKey in b.properties then b.properties[EnvArtifactsKey]
               else JNull)
  {
    PropertyOfBuild(b, EnvArtifactsKey, JNull);
    var fallback := if EnvArtifactsKey in b.properties then b.properties[EnvArtifactsKey] else JNull;
    ModulePropertyOfBuild(b, ArtifactsKey, fallback);
  }

  /** The group id of an entry `group:rest` that starts the list. */
  lemma PackageOfFirstEntry(bi: BuildInfo, group: string, rest: string, tail: string)
    requires bi.GetArtifactsToPublish() == Ok(JStr(group + ":" + rest + tail))
    requires group != [] && ':' !in group
    requires ',' !in group + ":" + rest
    requires forall i :: 0 <= i < |group + ":" + rest| ==> !IsSpace((group + ":" + rest)[i])
    requires tail == [] || tail[0] == ','
    ensures bi.GetPackage() == Ok(Some(group))
  {
    PackageText(group, rest, tail);
  }

  /** The text half of the lemma above. */
  lemma PackageText(group: string, rest: string, tail: string)
    requires group != [] && ':' !in group
    requires ',' !in group + ":" + rest
    requires forall i :: 0 <= i < |group + ":" + rest| ==> !IsSpace((group + ":" + rest)[i])
    requires tail == [] || tail[0] == ','
    ensures var artifact := Strip(Split(group + ":" + rest + tail, ',')[0]);
            artifact != "" && |Split(artifact, ':')| >= 2 && Strip(Split(artifact, ':')[0]) == group
  {
    var entry := group + ":" + rest;
    assert group + ":" + rest + tail == entry + tail;
    StrippedFirstEntry(entry, tail);
    GroupOfEntry(group, rest);
  }

  /** A space-free, comma-free first entry is taken whole. */
  lemma StrippedFirstEntry(entry: string, tail: string)
    requires ',' !in entry
    requires forall i :: 0 <= i < |entry| ==> !IsSpace(entry[i])
    requires tail == [] || tail[0] == ','
    ensures Strip(Split(entry + tail, ',')[0]) == entry
  {
    FirstEntry(entry, tail);
    StripNoSpace(entry);
  }

  /** The first comma-separated entry of a list that starts with a comma-free entry. */
  lemma FirstEntry(entry: string, tail: string)
    requires ',' !in entry
    requires tail == [] || tail[0] == ','
    ensures Split(entry + tail, ',')[0] == entry
  {
    if tail == [] {
      SplitNoSeparator(entry, ',');
      assert entry + tail == entry;
    } else {
      assert entry + tail == entry + [','] + tail[1..];
      SplitCons(entry, ',', tail[1..]);
    }
  }

  /** A space-free entry `group:rest` has the group as its first of two or more ':' fields. */
  lemma GroupOfEntry(group: string, rest: string)
    requires ':' !in group
    requires forall i :: 0 <= i < |group + ":" + rest| ==> !IsSpace((group + ":" + rest)[i])
    ensures |Split(group + ":" + rest, ':')| >= 2 && Strip(Split(group + ":" + rest, ':')[0]) == group
  {
    assert group + ":" + rest == group + [':'] + rest;
    SplitCons(group, ':', rest);
    assert forall i :: 0 <= i < |group| ==> group[i] == (group + ":" + rest)[i];
    StripNoSpace(group);
  }

  /** A first entry without a ':' names no package. */
  lemma NoGroupSeparatorNoPackage(bi: BuildInfo, all: string)
    requires bi.GetArtifactsToPublish() == Ok(JStr(all))
    requires ':' !in Strip(Split(all, ',')[0])
    ensures bi.GetPackage() == Ok(None)
  {
    SplitNoSeparator(Strip(Split(all, ',')[0]), ':');
  }
}
