/**
 * The releasability-status action: turning the JSON of reported check
 * results into the action's three outputs (status, state, message).
 *
 * The result dictionary keeps `json.loads` order, so it is an ordered list
 * of pairs; `set_output` appends a (name, value) pair to the sequence of
 * outputs the method returns.
 */
module ReleasabilityStatus {
  import opened Wrappers
  import opened Strings
  import opened Json
  import opened OrderedMap

  const StatusName: string := "status"
  const StateName: string := "state"
  const MessageName: string := "message"
  const StateSuccess: string := "success"
  const StateFailure: string := "failure"
  const CheckPrefix: string := "releasability"
  const Passed: string := "PASSED"
  const NotRelevant: string := "NOT_RELEVANT"
  const Plane: string := "\U{2708} "
  const PassedText: string := " passed releasability checks"
  const OptionalText: string := " failed optional checks -> "
  const FailedText: string := " failed checks -> "
  const KeyErrorText: string := "KeyError: 'status'"

  /** The characters `lstrip('releasability')` removes: a set, not a prefix. */
  const PrefixChars: set<char> := set c | c in CheckPrefix

  datatype Output = Output(name: string, value: Json)

  // ---------------------------------------------------------------- failed checks

  /** A key that reports a check whose value is neither PASSED nor NOT_RELEVANT. */
  predicate IsFailure(entry: (string, Json)) {
    StartsWith(entry.0, CheckPrefix) && entry.1 != JStr(Passed) && entry.1 != JStr(NotRelevant)
  }

  /** The reported name of a check key. */
  function CheckName(key: string): string {
    LStripChars(key, PrefixChars)
  }

  /** The names of the failed checks, in key order. */
  function FailedChecks(result: Dict<Json>): (r: seq<string>)
    ensures |r| <= |result|
  {
    if result == [] then []
    else
      var last := result[|result| - 1];
      FailedChecks(result[..|result| - 1]) + (if IsFailure(last) then [CheckName(last.0)] else [])
  }

  /** `find_failed_checks`. */
  method FindFailedChecks(result: Dict<Json>) returns (failed: seq<string>)
    ensures failed == FailedChecks(result)
  {
    failed := [];
    for k := 0 to |result|
      invariant failed == FailedChecks(result[..k])
    {
      assert result[..k + 1][..k] == result[..k];
      var key := result[k].0;
      if StartsWith(key, CheckPrefix) && result[k].1 != JStr(Passed) && result[k].1 != JStr(NotRelevant) {
        failed := failed + [LStripChars(key, PrefixChars)];
      }
    }
    assert result[..|result|] == result;
  }

  /** A name is reported exactly when some failing check key yields it. */
  lemma {:induction false} FailedChecksMembers(result: Dict<Json>, name: string)
    ensures name in FailedChecks(result) <==> exists i :: 0 <= i < |result| && IsFailure(result[i]) && CheckName(result[i].0) == name
  {
    if result != [] {
      var init := result[..|result| - 1];
      FailedChecksMembers(init, name);
      assert forall i :: 0 <= i < |init| ==> init[i] == result[i];
    }
  }

  /** Keys that do not start with `releasability`, such as `status`, never count. */
  lemma {:induction false} OtherKeysIgnored(result: Dict<Json>, key: string, value: Json)
    requires !StartsWith(key, CheckPrefix)
    ensures FailedChecks(result + [(key, value)]) == FailedChecks(result)
  {
    assert (result + [(key, value)])[..|result|] == result;
  }

  /** Results reported in two parts fail the checks of the first part, then those of the second. */
  lemma {:induction false} FailedChecksAppend(a: Dict<Json>, b: Dict<Json>)
    ensures FailedChecks(a + b) == FailedChecks(a) + FailedChecks(b)
    decreases |b|
  {
    if b == [] {
      assert a + b == a;
    } else {
      var bInit := b[..|b| - 1];
      assert (a + b)[..|a + b| - 1] == a + bInit;
      FailedChecksAppend(a, bInit);
    }
  }

  /** `releasabilityQA` is reported as `QA`: a name starting outside the stripped set survives whole. */
  lemma CheckNameOfCamelCase(name: string)
    requires name == [] || name[0] !in PrefixChars
    ensures CheckName(CheckPrefix + name) == name
  {
    LStripPrefix(CheckPrefix, name);
  }

  /** A name made only of the stripped letters is lost entirely. */
  lemma CheckNameOverStrips(name: string)
    requires forall i :: 0 <= i < |name| ==> name[i] in PrefixChars
    ensures CheckName(CheckPrefix + name) == []
  {
    var key := CheckPrefix + name;
    assert forall i :: 0 <= i < |key| ==> key[i] in PrefixChars by {
      forall i | 0 <= i < |key| ensures key[i] in PrefixChars {
        if i >= |CheckPrefix| {
          assert key[i] == name[i - |CheckPrefix|];
        } else {
          assert key[i] == CheckPrefix[i];
        }
      }
    }
    LStripAll(key, PrefixChars);
  }

  lemma {:induction false} LStripPrefix(p: string, rest: string)
    requires forall i :: 0 <= i < |p| ==> p[i] in PrefixChars
    requires rest == [] || rest[0] !in PrefixChars
    ensures LStripChars(p + rest, PrefixChars) == rest
    decreases |p|
  {
    if p == [] {
      assert p + rest == rest;
    } else {
      assert (p + rest)[0] == p[0];
      assert (p + rest)[1..] == p[1..] + rest;
      LStripPrefix(p[1..], rest);
    }
  }

  lemma {:induction false} LStripAll(s: string, chars: set<char>)
    requires forall i :: 0 <= i < |s| ==> s[i] in chars
    ensures LStripChars(s, chars) == []
    decreases |s|
  {
    if s != [] {
      LStripAll(s[1..], chars);
    }
  }

  // ---------------------------------------------------------------- the outputs

  /** The three outputs of a run, in the order status, state, message. */
  function Triple(status: Json, state: string, message: string): seq<Output> {
    [Output(StatusName, status), Output(StateName, JStr(state)), Output(MessageName, JStr(message))]
  }

  /** Every failed name is an optional check. */
  predicate AllOptional(failed: seq<string>, optionalChecks: seq<string>) {
    forall i :: 0 <= i < |failed| ==> failed[i] in optionalChecks
  }

  lemma AllOptionalStep(failed: seq<string>, k: nat, optionalChecks: seq<string>)
    requires k < |failed|
    ensures AllOptional(failed[..k + 1], optionalChecks) <==> AllOptional(failed[..k], optionalChecks) && failed[k] in optionalChecks
  {
    assert forall i :: 0 <= i < k ==> failed[..k + 1][i] == failed[..k][i];
    assert failed[..k + 1][k] == failed[k];
  }

  /** What `parse_releasability_output` emits; a result without "status" raises a KeyError. */
  function Outputs(version: string, result: Dict<Json>, optionalChecks: seq<string>): Result<seq<Output>, string> {
    match Get(result, StatusName)
    case None => Err(KeyErrorText)
    case Some(status) =>
      if status == JStr("0") then Ok(Triple(status, StateSuccess, Plane + version + PassedText))
      else
        var failed := FailedChecks(result);
        if AllOptional(failed, optionalChecks) then Ok(Triple(JStr("0"), StateSuccess, Plane + version + OptionalText + Join(failed, ",")))
        else Ok(Triple(status, StateFailure, Plane + version + FailedText + Join(failed, ",")))
  }

  /** `parse_releasability_output`, emitting through `set_output`. */
  method ParseReleasabilityOutput(version: string, result: Dict<Json>, optionalChecks: seq<string>)
    returns (r: Result<seq<Output>, string>)
    ensures r == Outputs(version, result, optionalChecks)
  {
    var status := Get(result, StatusName);
    if status.None? {
      return Err(KeyErrorText);
    }
    var emitted: seq<Output> := [];
    if status.value == JStr("0") {
      emitted := emitted + [Output(StatusName, status.value)];
      emitted := emitted + [Output(StateName, JStr(StateSuccess))];
      emitted := emitted + [Output(MessageName, JStr(Plane + version + PassedText))];
      assert emitted == Triple(status.value, StateSuccess, Plane + version + PassedText);
      return Ok(emitted);
    }
    var failed := FindFailedChecks(result);
    var failedChecks := Join(failed, ",");
    var subset := true;
    for k := 0 to |failed|
      invariant subset <==> AllOptional(failed[..k], optionalChecks)
    {
      AllOptionalStep(failed, k, optionalChecks);
      if failed[k] !in optionalChecks {
        subset := false;
      }
    }
    assert failed[..|failed|] == failed;
    if subset {
      emitted := emitted + [Output(StatusName, JStr("0"))];
      emitted := emitted + [Output(StateName, JStr(StateSuccess))];
      emitted := emitted + [Output(MessageName, JStr(Plane + version + OptionalText + failedChecks))];
      assert emitted == Triple(JStr("0"), StateSuccess, Plane + version + OptionalText + failedChecks);
      return Ok(emitted);
    }
    emitted := emitted + [Output(StatusName, status.value)];
    emitted := emitted + [Output(StateName, JStr(StateFailure))];
    emitted := emitted + [Output(MessageName, JStr(Plane + version + FailedText + failedChecks))];
    assert emitted == Triple(status.value, StateFailure, Plane + version + FailedText + failedChecks);
    return Ok(emitted);
  }

  /** Every run with a status emits exactly three outputs, named status, state and message. */
  lemma ThreeOutputs(version: string, result: Dict<Json>, optionalChecks: seq<string>)
    ensures Outputs(version, result, optionalChecks).Ok? <==> StatusName in Keys(result)
    ensures Outputs(version, result, optionalChecks).Ok? ==>
      var out := Outputs(version, result, optionalChecks).value;
      |out| == 3 && out[0].name == StatusName && out[1].name == StateName && out[2].name == MessageName
  {
  }

  /** The state is success exactly when the status is "0" or only optional checks failed; success reports status "0". */
  lemma SuccessMeaning(version: string, result: Dict<Json>, optionalChecks: seq<string>)
    requires StatusName in Keys(result)
    ensures var out := Outputs(version, result, optionalChecks).value;
            (out[1].value == JStr(StateSuccess) <==>
               (Get(result, StatusName).value == JStr("0") || AllOptional(FailedChecks(result), optionalChecks)))
    ensures var out := Outputs(version, result, optionalChecks).value;
            out[1].value == JStr(StateSuccess) ==> out[0].value == JStr("0")
    ensures var out := Outputs(version, result, optionalChecks).value;
            out[1].value != JStr(StateSuccess) ==> out[1].value == JStr(StateFailure) && out[0].value == Get(result, StatusName).value
  {
  }

  /** A status of "0" passes whatever the checks report. */
  lemma StatusZeroPasses(version: string, result: Dict<Json>, other: Dict<Json>, optionalChecks: seq<string>)
    requires Get(result, StatusName) == Some(JStr("0")) && Get(other, StatusName) == Some(JStr("0"))
    ensures Outputs(version, result, optionalChecks) == Outputs(version, other, [])
  {
  }

  /** With no failed check a failing status still reports success, as the empty set is a subset of any. */
  lemma NoFailedCheckSucceeds(version: string, result: Dict<Json>, optionalChecks: seq<string>)
    requires StatusName in Keys(result)
    requires NoFailures(result)
    ensures Outputs(version, result, optionalChecks).Ok?
    ensures Outputs(version, result, optionalChecks).value[1].value == JStr(StateSuccess)
  {
    ThreeOutputs(version, result, optionalChecks);
    NoFailureReported(result);
    assert AllOptional(FailedChecks(result), optionalChecks);
    SuccessMeaning(version, result, optionalChecks);
  }

  predicate NoFailures(result: Dict<Json>) {
    forall i :: 0 <= i < |result| ==> !IsFailure(result[i])
  }

  lemma {:induction false} NoFailureReported(result: Dict<Json>)
    requires NoFailures(result)
    ensures FailedChecks(result) == []
  {
    if result != [] {
      NoFailureReported(result[..|result| - 1]);
    }
  }
}
