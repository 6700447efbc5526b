/**
 * Fetching a product repository's SCA exception files through the GitHub API.
 *
 * The API, the environment and `json.loads` are parameters: a fetch outcome
 * per requested file, the value of GH_TOKEN, and the decoded document (None
 * when the text is not JSON).
 */
module GitHubClient {
  import opened Wrappers
  import opened Json
  import ScaExceptions

  // ---------------------------------------------------------------- the client

  /** A constructed client; the PyGithub object it wraps is not part of this model. */
  datatype Client = Client(token: string)

  const TokenRequired: string := "GitHub token is required. Set GH_TOKEN environment variable or pass token parameter."

  /** `__init__`: the argument if it is a non-empty string, else GH_TOKEN; neither gives the ValueError. */
  function NewClient(token: Option<string>, ghTokenEnv: Option<string>): (r: Result<Client, string>)
    ensures r.Err? <==> token.GetOr("") == "" && ghTokenEnv.GetOr("") == ""
    ensures r.Err? ==> r.error == TokenRequired
    ensures r.Ok? && token.GetOr("") != "" ==> r.value.token == token.value
    ensures r.Ok? && token.GetOr("") == "" ==> r.value.token == ghTokenEnv.value
  {
    var chosen := if token.GetOr("") != "" then token else ghTokenEnv;
    if chosen.GetOr("") == "" then Err(TokenRequired) else Ok(Client(chosen.value))
  }

  /**
   * What one `get_contents` call gives: the file with its base64 `content`
   * and the decoded text (None when decoding raises), a GithubException with
   * its status, or any other exception.
   */
  datatype FetchOutcome =
    | Fetched(encoded: string, decoded: Option<string>)
    | ApiError(status: int)
    | Unexpected

  /** `get_file_content`. */
  function GetFileContent(outcome: FetchOutcome): Option<string> {
    match outcome
    case Fetched(encoded, decoded) => if encoded != "" && decoded.Some? then decoded else None
    case ApiError(status) => None     // 404, 403 and every other status alike
    case Unexpected => None
  }

  /** The text is returned only for a fetched, non-empty file that decodes; every error gives None. */
  lemma FileContentMeaning(outcome: FetchOutcome)
    ensures GetFileContent(outcome).Some? <==> outcome.Fetched? && outcome.encoded != "" && outcome.decoded.Some?
    ensures GetFileContent(outcome).Some? ==> GetFileContent(outcome) == outcome.decoded
    ensures outcome.ApiError? || outcome.Unexpected? ==> GetFileContent(outcome) == None
  {
  }

  // ---------------------------------------------------------------- the exception files

  const ExceptionsKey: string := "exceptions"
  const NameKey: string := "name"

  /** An item of the list that carries a name. */
  predicate NamedItem(item: Json) {
    item.JObj? && NameKey in item.fields
  }

  const Unhashable: string := "unhashable type"

  /** The names of the list's named items; adding an unhashable one raises the TypeError, Err here. */
  function NamesOf(items: seq<Json>): (r: Result<set<Json>, string>)
    ensures r.Err? ==> r.error == Unhashable
    ensures r.Err? <==> exists i :: 0 <= i < |items| && NamedItem(items[i]) && !ScaExceptions.Hashable(items[i].fields[NameKey])
    ensures r.Ok? ==> forall x :: x in r.value <==> exists i :: (0 <= i < |items| && NamedItem(items[i]) && items[i].fields[NameKey] == x)
  {
    if items == [] then Ok({})
    else
      var init := items[..|items| - 1];
      var item := items[|items| - 1];
      assert forall i :: 0 <= i < |init| ==> init[i] == items[i];
      match NamesOf(init)
      case Err(e) => Err(e)
      case Ok(names) =>
        if !NamedItem(item) then Ok(names)
        else if !ScaExceptions.Hashable(item.fields[NameKey]) then Err(Unhashable)
        else Ok(names + {item.fields[NameKey]})
  }

  /** A document of the recognised shape: an object whose "exceptions" is a list. */
  predicate HasExceptionsList(data: Json) {
    data.JObj? && ExceptionsKey in data.fields && data.fields[ExceptionsKey].JArr?
  }

  /** `_extract_exceptions_from_data`. */
  function ExtractExceptions(data: Json): Result<set<Json>, string> {
    if !data.JObj? || ExceptionsKey !in data.fields then Ok({})
    else if !data.fields[ExceptionsKey].JArr? then Ok({})
    else NamesOf(data.fields[ExceptionsKey].items)
  }

  /** The loop of `_extract_exceptions_from_data`, raising at the first unhashable name. */
  method ExtractExceptionsFromData(data: Json) returns (r: Result<set<Json>, string>)
    ensures r == ExtractExceptions(data)
  {
    if !data.JObj? || ExceptionsKey !in data.fields {
      return Ok({});
    }
    var exceptions := data.fields[ExceptionsKey];
    if !exceptions.JArr? {
      return Ok({});
    }
    var items := exceptions.items;
    var result: set<Json> := {};
    var k := 0;
    while k < |items|
      invariant 0 <= k <= |items|
      invariant NamesOf(items[..k]) == Ok(result)
    {
      assert items[..k + 1][..k] == items[..k];
      var item := items[k];
      if item.JObj? && NameKey in item.fields {
        if !ScaExceptions.Hashable(item.fields[NameKey]) {
          NamesOfErrSticks(items, k + 1);
          return Err(Unhashable);
        }
        result := result + {item.fields[NameKey]};
      }
      k := k + 1;
    }
    assert items[..k] == items;
    r := Ok(result);
  }

  /** Once adding a name has raised, later items do not matter. */
  lemma {:induction false} NamesOfErrSticks(items: seq<Json>, k: nat)
    requires k <= |items| && NamesOf(items[..k]).Err?
    ensures NamesOf(items).Err?
  {
    var i :| 0 <= i < k && NamedItem(items[..k][i]) && !ScaExceptions.Hashable(items[..k][i].fields[NameKey]);
    assert items[..k][i] == items[i];
  }

  /** `_parse_exceptions_json`: any failure, of decoding or of extracting, gives the empty set. */
  function ParseExceptionsJson(decoded: Option<Json>): set<Json> {
    match decoded
    case None => {}
    case Some(data) =>
      match ExtractExceptions(data)
      case Ok(names) => names
      case Err(_) => {}
  }

  /**
   * The shapes the parser recognises: an object whose "exceptions" is a list
   * gives the names of its named items; a document that is not JSON, not an
   * object, lacks the key or holds no list gives the empty set.
   */
  lemma ParseExceptionsMeaning(decoded: Option<Json>)
    ensures decoded.None? ==> ParseExceptionsJson(decoded) == {}
    ensures decoded.Some? && !HasExceptionsList(decoded.value) ==> ParseExceptionsJson(decoded) == {}
    ensures decoded.Some? && HasExceptionsList(decoded.value)
      && (forall i :: 0 <= i < |decoded.value.fields[ExceptionsKey].items| ==>
            var item := decoded.value.fields[ExceptionsKey].items[i];
            NamedItem(item) ==> ScaExceptions.Hashable(item.fields[NameKey]))
      ==> (forall x :: x in ParseExceptionsJson(decoded) <==>
            exists item :: item in decoded.value.fields[ExceptionsKey].items && NamedItem(item) && item.fields[NameKey] == x)
  {
    if decoded.Some? && HasExceptionsList(decoded.value) {
      var items := decoded.value.fields[ExceptionsKey].items;
      var r := NamesOf(items);
      if r.Ok? {
        forall x ensures x in r.value <==> exists item :: item in items && NamedItem(item) && item.fields[NameKey] == x {
          if x in r.value {
            var i :| 0 <= i < |items| && NamedItem(items[i]) && items[i].fields[NameKey] == x;
            assert items[i] in items;
          }
        }
      }
    }
  }

  /** Items without a name, and items that are not objects, are skipped: {"dep1"} from a list with one named item. */
  lemma OnlyNamedItemsCount(named: Json, others: seq<Json>)
    requires NamedItem(named) && named.fields[NameKey].JStr?
    requires forall i :: 0 <= i < |others| ==> !NamedItem(others[i])
    ensures NamesOf([named] + others) == Ok({named.fields[NameKey]})
  {
    var items := [named] + others;
    var name := named.fields[NameKey];
    assert forall i :: 1 <= i < |items| ==> items[i] == others[i - 1];
    assert items[0] == named;
    var r := NamesOf(items);
    assert r.Ok?;
    forall x ensures x in r.value <==> x == name {
      if x == name {
        assert 0 <= 0 < |items| && NamedItem(items[0]) && items[0].fields[NameKey] == x;
      }
    }
    assert r.value == {name};
  }

  // ---------------------------------------------------------------- both files

  const FalsePositivesPath: string := ".sca-exceptions/false-positives.json"
  const FalseNegativesPath: string := ".sca-exceptions/false-negatives.json"
  const FalsePositivesKey: string := "false_positives"
  const FalseNegativesKey: string := "false_negatives"

  /** The names read from one fetched file; a missing, empty or failed file gives none. */
  function ExceptionsFrom(outcome: FetchOutcome, loads: string -> Option<Json>): set<Json> {
    var content := GetFileContent(outcome);
    if content.Some? && content.value != "" then ParseExceptionsJson(loads(content.value)) else {}
  }

  /**
   * `get_sca_exceptions`: the false-positives file, then the false-negatives
   * file; `fetch` answers each request for a path at `ref`.
   */
  method GetScaExceptions(client: Client, owner: string, repo: string, ref: string,
                          fetch: (string, string, string, string) -> FetchOutcome, loads: string -> Option<Json>)
    returns (exceptions: map<string, set<Json>>)
    ensures exceptions.Keys == {FalsePositivesKey, FalseNegativesKey}
    ensures exceptions[FalsePositivesKey] == ExceptionsFrom(fetch(owner, repo, FalsePositivesPath, ref), loads)
    ensures exceptions[FalseNegativesKey] == ExceptionsFrom(fetch(owner, repo, FalseNegativesPath, ref), loads)
  {
    exceptions := map[FalsePositivesKey := {}, FalseNegativesKey := {}];
    var fpContent := GetFileContent(fetch(owner, repo, FalsePositivesPath, ref));
    if fpContent.Some? && fpContent.value != "" {
      var fpData := ParseExceptionsJson(loads(fpContent.value));
      exceptions := exceptions[FalsePositivesKey := fpData];
    }
    var fnContent := GetFileContent(fetch(owner, repo, FalseNegativesPath, ref));
    if fnContent.Some? && fnContent.value != "" {
      var fnData := ParseExceptionsJson(loads(fnContent.value));
      exceptions := exceptions[FalseNegativesKey := fnData];
    }
  }

  /** A file that cannot be had leaves its own set empty and does not touch the other one. */
  lemma MissingFileEmptiesOnlyItsKey(outcome: FetchOutcome, loads: string -> Option<Json>)
    requires outcome.ApiError? || outcome.Unexpected? || (outcome.Fetched? && outcome.encoded == "")
    ensures ExceptionsFrom(outcome, loads) == {}
  {
  }
}
