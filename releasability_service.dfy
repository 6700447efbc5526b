/**
 * The releasability service: it triggers the remote checks of a release by
 * publishing a request, runs the inline checks itself, and collects the
 * remote results from a queue, keeping only the messages of its own request.
 *
 * The queue is given as the sequence of batches that successive polls return
 * before the ten-minute timeout; the publish call is recorded, not performed.
 */
module ReleasabilityService {
  import opened Wrappers
  import opened Strings
  import opened Json
  import opened CheckResult
  import opened InlineCheck
  import opened CheckRegistry
  import opened VersionHelper

  const FetchCheckResultTimeoutSeconds: nat := 60 * 10
  const ArnSns: string := "arn:aws:sns"
  const ArnSqs: string := "arn:aws:sqs"
  const AckType: string := "ACK"
  const TriggerTopicName: string := "ReleasabilityTriggerTopic"
  const ResultTopicName: string := "ReleasabilityResultTopic"
  const ResultQueueName: string := "ReleasabilityResultQueue"

  /** The remote checks whose results the service waits for. */
  const ExpectedCheckNames: set<string> := {
    "CheckDependencies",
    "QA",
    "Jira",
    "CheckPeacheeLanguagesStatistics",
    "QualityGate",
    "ParentPOM",
    "GitHub",
    "CheckManifestValues"
  }

  /** The names the service waits for are the registry's remote checks, eight of them. */
  lemma ExpectedNamesAreRegistryLambdaNames()
    ensures ExpectedCheckNames == LambdaCheckNames
    ensures |ExpectedCheckNames| == 8
  {
    LambdaCheckCount();
  }

  // ---------------------------------------------------------------- ARNs and URLs

  function TriggerTopicArn(region: string, account: string): string {
    ArnSns + ":" + region + ":" + account + ":" + TriggerTopicName
  }

  function ResultTopicArn(region: string, account: string): string {
    ArnSns + ":" + region + ":" + account + ":" + ResultTopicName
  }

  function ResultQueueArn(region: string, account: string): string {
    ArnSqs + ":" + region + ":" + account + ":" + ResultQueueName
  }

  datatype ArnError =
    | IndexError              // a colon field that is read does not exist
    | InvalidSqsArn(arn: string)  // the ValueError for a service other than sqs

  /** The queue URL for an SQS ARN arn:aws:sqs:region:account:queue. */
  function ArnToSqsUrl(arn: string): (r: Result<string, ArnError>)
    ensures r.Ok? <==> |Split(arn, ':')| >= 6 && Split(arn, ':')[2] == "sqs"
    ensures r.Err? && r.error.InvalidSqsArn? <==> |Split(arn, ':')| >= 3 && Split(arn, ':')[2] != "sqs"
  {
    var parts := Split(arn, ':');
    if |parts| < 3 then Err(IndexError)
    else if parts[2] != "sqs" then Err(InvalidSqsArn(arn))
    else if |parts| < 6 then Err(IndexError)
    else Ok("https://sqs." + parts[3] + ".amazonaws.com/" + parts[4] + "/" + parts[5])
  }

  lemma SplitArn(service: string, region: string, account: string, resource: string)
    requires ':' !in service && ':' !in region && ':' !in account && ':' !in resource
    ensures Split("arn:aws:" + service + ":" + region + ":" + account + ":" + resource, ':')
         == ["arn", "aws", service, region, account, resource]
  {
    var s5 := account + [':'] + resource;
    var s4 := region + [':'] + s5;
    var s3 := service + [':'] + s4;
    var s2 := "aws" + [':'] + s3;
    assert "arn:aws:" + service + ":" + region + ":" + account + ":" + resource == "arn" + [':'] + s2;
    SplitNoSeparator(resource, ':');
    SplitCons(account, ':', resource);
    SplitCons(region, ':', s5);
    SplitCons(service, ':', s4);
    SplitCons("aws", ':', s3);
    SplitCons("arn", ':', s2);
  }

  /** An SQS ARN arn:aws:sqs:region:account:queue becomes that queue's URL. */
  lemma SqsArnToUrl(region: string, account: string, queue: string)
    requires ':' !in region && ':' !in account && ':' !in queue
    ensures ArnToSqsUrl(ArnSqs + ":" + region + ":" + account + ":" + queue)
         == Ok("https://sqs." + region + ".amazonaws.com/" + account + "/" + queue)
  {
    var arn := ArnSqs + ":" + region + ":" + account + ":" + queue;
    assert arn == "arn:aws:" + "sqs" + ":" + region + ":" + account + ":" + queue;
    SplitArn("sqs", region, account, queue);
  }

  /** The result queue's ARN turns into the queue URL of that region and account. */
  lemma ResultQueueUrl(region: string, account: string)
    requires ':' !in region && ':' !in account
    ensures ArnToSqsUrl(ResultQueueArn(region, account))
         == Ok("https://sqs." + region + ".amazonaws.com/" + account + "/" + ResultQueueName)
  {
    SqsArnToUrl(region, account, ResultQueueName);
  }

  /** A topic ARN is refused as a queue ARN. */
  lemma TopicArnIsNotAQueue(region: string, account: string)
    requires ':' !in region && ':' !in account
    ensures ArnToSqsUrl(ResultTopicArn(region, account)) == Err(InvalidSqsArn(ResultTopicArn(region, account)))
  {
    assert ResultTopicArn(region, account)
        == "arn:aws:" + "sns" + ":" + region + ":" + account + ":" + ResultTopicName;
    SplitArn("sns", region, account, ResultTopicName);
  }

  // ---------------------------------------------------------------- the trigger request

  /** The payload published to the trigger topic; its seven keys. */
  function SnsRequest(correlationId: string, resultTopicArn: string, organization: string,
                      projectName: string, branchName: string, revision: string, version: string)
    : (r: Result<map<string, Json>, VersionError>)
    ensures r.Ok? <==> ExtractBuildNumber(version).Ok?
    ensures r.Ok? ==> (r.value.Keys
      == {"uuid", "responseToARN", "repoSlug", "version", "vcsRevision", "artifactoryBuildNumber", "branchName"})
    ensures r.Ok? ==> (
      && r.value["repoSlug"] == JStr(organization + "/" + projectName)
      && r.value["artifactoryBuildNumber"] == JNum(ExtractBuildNumber(version).value)
      && r.value["uuid"] == JStr(correlationId)
      && r.value["responseToARN"] == JStr(resultTopicArn)
      && r.value["version"] == JStr(version)
      && r.value["vcsRevision"] == JStr(revision)
      && r.value["branchName"] == JStr(branchName))
    ensures r.Err? ==> r.error == ExtractBuildNumber(version).error
  {
    var buildNumber :- ExtractBuildNumber(version);
    Ok(map[
      "uuid" := JStr(correlationId),
      "responseToARN" := JStr(resultTopicArn),
      "repoSlug" := JStr(organization + "/" + projectName),
      "version" := JStr(version),
      "vcsRevision" := JStr(revision),
      "artifactoryBuildNumber" := JNum(buildNumber),
      "branchName" := JStr(branchName)])
  }

  lemma SnsRequestHasSevenKeys(correlationId: string, resultTopicArn: string, organization: string,
                               projectName: string, branchName: string, revision: string, version: string)
    requires ExtractBuildNumber(version).Ok?
    ensures |SnsRequest(correlationId, resultTopicArn, organization, projectName, branchName, revision, version).value| == 7
  {
    var r := SnsRequest(correlationId, resultTopicArn, organization, projectName, branchName, revision, version).value;
    assert r.Keys == RequestKeys;
    RequestKeysCount();
    assert |r| == |r.Keys|;
  }

  const RequestKeys: set<string> := {"uuid", "responseToARN", "repoSlug", "version", "vcsRevision", "artifactoryBuildNumber", "branchName"}

  /** The seven key names are distinct (their lengths already differ). */
  lemma RequestKeysCount()
    ensures |RequestKeys| == 7
  {
    assert |"uuid"| == 4;
    assert |"responseToARN"| == 13;
    assert |"repoSlug"| == 8;
    assert |"version"| == 7;
    assert |"vcsRevision"| == 11;
    assert |"artifactoryBuildNumber"| == 22;
    assert |"branchName"| == 10;
  }

  // ---------------------------------------------------------------- result messages

  /** One decoded message from the result queue. */
  datatype Message = Message(
    requestUuid: string,
    msgType: string,
    checkName: string,
    message: Option<string>,
    receiptHandle: string)

  predicate MatchCorrelationId(m: Message, correlationId: string) {
    m.requestUuid == correlationId
  }

  predicate NotAnAckMessage(m: Message) {
    m.msgType != AckType
  }

  /** The messages of one request, in queue order. */
  function Matching(batch: seq<Message>, correlationId: string): (r: seq<Message>)
    ensures forall m :: m in r <==> m in batch && MatchCorrelationId(m, correlationId)
    ensures |r| <= |batch|
  {
    if batch == [] then []
    else (if MatchCorrelationId(batch[0], correlationId) then [batch[0]] else []) + Matching(batch[1..], correlationId)
  }

  function DropAcks(msgs: seq<Message>): (r: seq<Message>)
    ensures forall m :: m in r <==> m in msgs && NotAnAckMessage(m)
  {
    if msgs == [] then []
    else (if NotAnAckMessage(msgs[0]) then [msgs[0]] else []) + DropAcks(msgs[1..])
  }

  predicate Relevant(m: Message, correlationId: string) {
    MatchCorrelationId(m, correlationId) && NotAnAckMessage(m)
  }

  /** What one fetch returns (the relevant messages) and what it deletes. */
  datatype Fetched = Fetched(relevant: seq<Message>, deleted: seq<Message>)

  function FetchFilteredCheckResults(batch: seq<Message>, correlationId: string): (f: Fetched)
    ensures forall m :: m in f.deleted <==> m in batch && MatchCorrelationId(m, correlationId)
    ensures forall m :: m in f.relevant <==> m in batch && Relevant(m, correlationId)
  {
    var current := Matching(batch, correlationId);
    Fetched(DropAcks(current), current)
  }

  /** The result recorded for a message: its check name, its type as state, its message if any. */
  function ResultOf(m: Message): (r: CheckResult)
    ensures r.name == m.checkName && r.state == m.msgType && r.message == m.message && r.details == []
  {
    NewCheckResult(m.checkName, m.msgType, m.message, None)
  }

  /** The names still awaited and the results received so far. */
  datatype Progress = Progress(awaiting: set<string>, received: seq<CheckResult>)

  function Record(p: Progress, m: Message): Progress {
    if m.checkName in p.awaiting then Progress(p.awaiting - {m.checkName}, p.received + [ResultOf(m)])
    else p
  }

  function RecordAll(p: Progress, msgs: seq<Message>): Progress
    decreases |msgs|
  {
    if msgs == [] then p else RecordAll(Record(p, msgs[0]), msgs[1..])
  }

  datatype PollState = PollState(progress: Progress, deleted: seq<Message>)

  /** The polling loop: it stops when nothing is awaited or when time (the batches) runs out. */
  function PollLoop(s: PollState, correlationId: string, polls: seq<seq<Message>>): PollState
    decreases |polls|
  {
    if s.progress.awaiting == {} || polls == [] then s
    else
      var f := FetchFilteredCheckResults(polls[0], correlationId);
      PollLoop(PollState(RecordAll(s.progress, f.relevant), s.deleted + f.deleted), correlationId, polls[1..])
  }

  /** The exception raised when some expected check has not reported in time. */
  datatype RetrieveError = CouldNotRetrieve(receivedCount: nat, total: nat, missing: set<string>)

  /** Its message, given the order in which the set of missing names is listed. */
  function RetrieveErrorMessage(e: RetrieveError, listing: seq<string>): string
    requires forall n :: n in listing <==> n in e.missing
  {
    "Received " + NatToString(e.receivedCount) + "/" + NatToString(e.total)
    + " check result(s) messages within allowed time (" + NatToString(FetchCheckResultTimeoutSeconds)
    + " seconds) (no results received for check(s): " + Join(listing, ",") + ")"
  }

  datatype Collected = Collected(result: Result<seq<CheckResult>, RetrieveError>, deleted: seq<Message>)

  /** The results received by the time the loop stops, whether or not some are missing. */
  function Received(expected: set<string>, correlationId: string, polls: seq<seq<Message>>): seq<CheckResult> {
    PollLoop(PollState(Progress(expected, []), []), correlationId, polls).progress.received
  }

  /** What collecting the results of `expected` from the polled batches yields. */
  function CheckResults(expected: set<string>, correlationId: string, polls: seq<seq<Message>>): Collected {
    var s := PollLoop(PollState(Progress(expected, []), []), correlationId, polls);
    var p := s.progress;
    if p.awaiting == {} then Collected(Ok(p.received), s.deleted)
    else Collected(Err(CouldNotRetrieve(|p.received|, |expected|, p.awaiting)), s.deleted)
  }

  /** `_get_check_results`, as the loop over batches and messages that the source runs. */
  method GetCheckResults(correlationId: string, polls: seq<seq<Message>>) returns (c: Collected)
    ensures c == CheckResults(ExpectedCheckNames, correlationId, polls)
  {
    c := CollectResults(ExpectedCheckNames, correlationId, polls);
  }

  /** The polling loop for any set of awaited names. */
  method CollectResults(expected: set<string>, correlationId: string, polls: seq<seq<Message>>) returns (c: Collected)
    ensures c == CheckResults(expected, correlationId, polls)
  {
    var awaiting := expected;
    var received: seq<CheckResult> := [];
    var deleted: seq<Message> := [];
    ghost var start := PollState(Progress(awaiting, []), []);
    var k := 0;
    while awaiting != {} && k < |polls|
      invariant 0 <= k <= |polls|
      decreases |polls| - k
      invariant PollLoop(PollState(Progress(awaiting, received), deleted), correlationId, polls[k..])
             == PollLoop(start, correlationId, polls)
    {
      var f := FetchFilteredCheckResults(polls[k], correlationId);
      ghost var before := PollState(Progress(awaiting, received), deleted);
      assert polls[k..][0] == polls[k] && polls[k..][1..] == polls[k + 1..];
      assert PollLoop(before, correlationId, polls[k..])
          == PollLoop(PollState(RecordAll(before.progress, f.relevant), deleted + f.deleted), correlationId, polls[k + 1..]);
      deleted := deleted + f.deleted;
      awaiting, received := RecordMessages(awaiting, received, f.relevant);
      k := k + 1;
    }
    assert PollLoop(PollState(Progress(awaiting, received), deleted), correlationId, polls[k..])
        == PollState(Progress(awaiting, received), deleted);
    if awaiting == {} {
      c := Collected(Ok(received), deleted);
    } else {
      c := Collected(Err(CouldNotRetrieve(|received|, |expected|, awaiting)), deleted);
    }
  }

  /** The loop over one batch: record each message whose check is still awaited. */
  method RecordMessages(awaiting0: set<string>, received0: seq<CheckResult>, msgs: seq<Message>)
    returns (awaiting: set<string>, received: seq<CheckResult>)
    ensures Progress(awaiting, received) == RecordAll(Progress(awaiting0, received0), msgs)
  {
    awaiting, received := awaiting0, received0;
    var j := 0;
    while j < |msgs|
      invariant 0 <= j <= |msgs|
      invariant RecordAll(Progress(awaiting, received), msgs[j..]) == RecordAll(Progress(awaiting0, received0), msgs)
    {
      assert msgs[j..][1..] == msgs[j + 1..];
      var m := msgs[j];
      if m.checkName in awaiting {
        received := received + [ResultOf(m)];
        awaiting := awaiting - {m.checkName};
      }
      j := j + 1;
    }
  }

  // ---------------------------------------------------------------- what collecting guarantees

  function Names(rs: seq<CheckResult>): (names: seq<string>)
    ensures |names| == |rs|
    ensures forall i :: 0 <= i < |rs| ==> names[i] == rs[i].name
  {
    if rs == [] then [] else [rs[0].name] + Names(rs[1..])
  }

  predicate Distinct(s: seq<string>) {
    forall i, j :: 0 <= i < j < |s| ==> s[i] != s[j]
  }

  /** Received names and awaited names partition the expected names; no name is received twice. */
  predicate Accounted(expected: set<string>, p: Progress) {
    && Distinct(Names(p.received))
    && (forall i :: 0 <= i < |p.received| ==> p.received[i].name in expected && p.received[i].name !in p.awaiting)
    && p.awaiting <= expected
    && (forall n :: n in expected && n !in p.awaiting ==> n in Names(p.received))
  }

  lemma RecordAccounted(expected: set<string>, p: Progress, m: Message)
    requires Accounted(expected, p)
    ensures Accounted(expected, Record(p, m))
  {
    if m.checkName in p.awaiting {
      var q := Record(p, m);
      assert Names(q.received) == Names(p.received) + [m.checkName];
      forall n | n in expected && n !in q.awaiting
        ensures n in Names(q.received)
      {
        if n != m.checkName {
          assert n in Names(p.received);
        }
      }
    }
  }

  lemma {:induction false} RecordAllAccounted(expected: set<string>, p: Progress, msgs: seq<Message>)
    requires Accounted(expected, p)
    ensures Accounted(expected, RecordAll(p, msgs))
    decreases |msgs|
  {
    if msgs != [] {
      RecordAccounted(expected, p, msgs[0]);
      RecordAllAccounted(expected, Record(p, msgs[0]), msgs[1..]);
    }
  }

  lemma {:induction false} PollLoopAccounted(expected: set<string>, s: PollState, id: string, polls: seq<seq<Message>>)
    requires Accounted(expected, s.progress)
    ensures Accounted(expected, PollLoop(s, id, polls).progress)
    decreases |polls|
  {
    if s.progress.awaiting != {} && polls != [] {
      var f := FetchFilteredCheckResults(polls[0], id);
      RecordAllAccounted(expected, s.progress, f.relevant);
      PollLoopAccounted(expected, PollState(RecordAll(s.progress, f.relevant), s.deleted + f.deleted), id, polls[1..]);
    }
  }

  lemma {:induction false} DistinctNamesCount(rs: seq<CheckResult>, names: set<string>)
    requires Distinct(Names(rs))
    requires forall i :: 0 <= i < |rs| ==> rs[i].name in names
    requires forall n :: n in names ==> n in Names(rs)
    ensures |rs| == |names|
    decreases |rs|
  {
    if rs == [] {
      assert names == {};
    } else {
      var n := rs[0].name;
      var tail := rs[1..];
      assert Names(rs) == [n] + Names(tail);
      forall i | 0 <= i < |tail|
        ensures tail[i].name in names - {n}
      {
        assert Names(rs)[0] != Names(rs)[i + 1];
      }
      forall x | x in names - {n}
        ensures x in Names(tail)
      {
        assert x in Names(rs);
      }
      DistinctNamesCount(tail, names - {n});
    }
  }

  /** On success every expected check has exactly one result, and nothing else has one. */
  lemma CheckResultsComplete(expected: set<string>, id: string, polls: seq<seq<Message>>)
    requires CheckResults(expected, id, polls).result.Ok?
    ensures var rs := CheckResults(expected, id, polls).result.value;
      && Distinct(Names(rs))
      && (forall i :: 0 <= i < |rs| ==> rs[i].name in expected)
      && (forall n :: n in expected ==> n in Names(rs))
      && |rs| == |expected|
  {
    var start := PollState(Progress(expected, []), []);
    PollLoopAccounted(expected, start, id, polls);
    var p := PollLoop(start, id, polls).progress;
    DistinctNamesCount(p.received, expected);
  }

  /** With the service's own expected names, a successful collection has eight results. */
  lemma EightResults(id: string, polls: seq<seq<Message>>)
    requires CheckResults(ExpectedCheckNames, id, polls).result.Ok?
    ensures |CheckResults(ExpectedCheckNames, id, polls).result.value| == 8
  {
    CheckResultsComplete(ExpectedCheckNames, id, polls);
    ExpectedNamesAreRegistryLambdaNames();
  }

  /** The exception lists exactly the expected names without a result, and counts the others. */
  lemma CheckResultsMissing(expected: set<string>, id: string, polls: seq<seq<Message>>)
    requires CheckResults(expected, id, polls).result.Err?
    ensures var e := CheckResults(expected, id, polls).result.error;
      var p := PollLoop(PollState(Progress(expected, []), []), id, polls).progress;
      && e.missing != {}
      && e.missing <= expected
      && e.total == |expected|
      && e.receivedCount == |p.received|
      && (forall n :: n in e.missing <==> n in expected && n !in Names(p.received))
      && e.receivedCount + |e.missing| == e.total
  {
    var start := PollState(Progress(expected, []), []);
    PollLoopAccounted(expected, start, id, polls);
    var p := PollLoop(start, id, polls).progress;
    assert forall n :: n in expected && n !in p.awaiting ==> n in Names(p.received);
    forall n | n in p.awaiting
      ensures n !in Names(p.received)
    {
      assert forall i :: 0 <= i < |p.received| ==> Names(p.received)[i] != n;
    }
    var got := expected - p.awaiting;
    forall i | 0 <= i < |p.received|
      ensures p.received[i].name in got
    {
    }
    DistinctNamesCount(p.received, got);
    assert expected == got + p.awaiting;
  }

  // ---------------------------------------------------------------- which messages count

  /** The message at batch k, place j of the polls, is for this request and not an ACK. */
  predicate PolledRelevant(polls: seq<seq<Message>>, k: int, j: int, id: string) {
    0 <= k < |polls| && 0 <= j < |polls[k]| && Relevant(polls[k][j], id)
  }

  /** Every message of the polled batches that is for this request and not an ACK. */
  ghost function Pool(polls: seq<seq<Message>>, id: string): (pool: set<Message>)
    ensures forall k, j :: PolledRelevant(polls, k, j, id) ==> polls[k][j] in pool
    ensures forall m :: m in pool ==> Relevant(m, id)
    decreases |polls|
  {
    if polls == [] then {}
    else
      var rest := Pool(polls[1..], id);
      assert forall k, j :: 0 < k && PolledRelevant(polls, k, j, id) ==> PolledRelevant(polls[1..], k - 1, j, id);
      (set m | m in polls[0] && Relevant(m, id)) + rest
  }

  lemma {:induction false} PoolOfSuffix(polls: seq<seq<Message>>, id: string)
    requires polls != []
    ensures Pool(polls[1..], id) <= Pool(polls, id)
    ensures forall m :: m in polls[0] && Relevant(m, id) ==> m in Pool(polls, id)
  {
  }

  /** The result is that of some message in the pool. */
  ghost predicate FromPool(r: CheckResult, pool: set<Message>) {
    exists m :: m in pool && ResultOf(m) == r
  }

  ghost predicate AllFromPool(rs: seq<CheckResult>, pool: set<Message>) {
    forall i :: 0 <= i < |rs| ==> FromPool(rs[i], pool)
  }

  lemma {:induction false} RecordAllFrom(p: Progress, msgs: seq<Message>, pool: set<Message>)
    requires AllFromPool(p.received, pool)
    requires forall i :: 0 <= i < |msgs| ==> msgs[i] in pool
    ensures AllFromPool(RecordAll(p, msgs).received, pool)
    decreases |msgs|
  {
    if msgs != [] {
      var q := Record(p, msgs[0]);
      assert FromPool(ResultOf(msgs[0]), pool);
      assert forall i :: 0 <= i < |msgs[1..]| ==> msgs[1..][i] == msgs[i + 1];
      assert AllFromPool(q.received, pool);
      assert RecordAll(p, msgs) == RecordAll(q, msgs[1..]);
      RecordAllFrom(q, msgs[1..], pool);
    }
  }

  lemma {:induction false} PollLoopFrom(s: PollState, id: string, polls: seq<seq<Message>>, pool: set<Message>)
    requires Pool(polls, id) <= pool
    requires AllFromPool(s.progress.received, pool)
    ensures AllFromPool(PollLoop(s, id, polls).progress.received, pool)
    decreases |polls|
  {
    if s.progress.awaiting != {} && polls != [] {
      var f := FetchFilteredCheckResults(polls[0], id);
      PoolOfSuffix(polls, id);
      forall i | 0 <= i < |f.relevant|
        ensures f.relevant[i] in pool
      {
        assert f.relevant[i] in f.relevant;
      }
      RecordAllFrom(s.progress, f.relevant, pool);
      var s' := PollState(RecordAll(s.progress, f.relevant), s.deleted + f.deleted);
      assert PollLoop(s, id, polls) == PollLoop(s', id, polls[1..]);
      PollLoopFrom(s', id, polls[1..], pool);
    }
  }

  /**
   * Every result is the result of a polled message of this request that is
   * not an ACK: its name, state and message are that message's.
   */
  lemma ResultsComeFromRelevantMessages(expected: set<string>, id: string, polls: seq<seq<Message>>)
    ensures forall i :: 0 <= i < |Received(expected, id, polls)| ==>
      exists m :: m in Pool(polls, id) && Relevant(m, id) && Received(expected, id, polls)[i] == ResultOf(m)
  {
    var pool := Pool(polls, id);
    var start := PollState(Progress(expected, []), []);
    PollLoopFrom(start, id, polls, pool);
    var rs := Received(expected, id, polls);
    assert AllFromPool(rs, pool);
    forall i | 0 <= i < |rs|
      ensures exists m :: m in pool && Relevant(m, id) && rs[i] == ResultOf(m)
    {
      assert FromPool(rs[i], pool);
      var m :| m in pool && ResultOf(m) == rs[i];
      assert Relevant(m, id);
    }
  }

  /** After recording a batch, no relevant message in it names a check that is still awaited. */
  lemma {:induction false} RecordAllClears(p: Progress, msgs: seq<Message>)
    ensures forall i :: 0 <= i < |msgs| ==> msgs[i].checkName !in RecordAll(p, msgs).awaiting
    ensures RecordAll(p, msgs).awaiting <= p.awaiting
    decreases |msgs|
  {
    if msgs != [] {
      RecordAllClears(Record(p, msgs[0]), msgs[1..]);
      forall i | 0 <= i < |msgs|
        ensures msgs[i].checkName !in RecordAll(p, msgs).awaiting
      {
        if i > 0 {
          assert msgs[i] == msgs[1..][i - 1];
        }
      }
    }
  }

  lemma {:induction false} PollLoopClears(s: PollState, id: string, polls: seq<seq<Message>>)
    ensures var q := PollLoop(s, id, polls).progress;
      && q.awaiting <= s.progress.awaiting
      && (q.awaiting != {} ==> forall k, j :: PolledRelevant(polls, k, j, id) ==> polls[k][j].checkName !in q.awaiting)
    decreases |polls|
  {
    if s.progress.awaiting != {} && polls != [] {
      var f := FetchFilteredCheckResults(polls[0], id);
      var s' := PollState(RecordAll(s.progress, f.relevant), s.deleted + f.deleted);
      RecordAllClears(s.progress, f.relevant);
      PollLoopClears(s', id, polls[1..]);
      var q := PollLoop(s, id, polls).progress;
      if q.awaiting != {} {
        forall k, j | PolledRelevant(polls, k, j, id)
          ensures polls[k][j].checkName !in q.awaiting
        {
          if k == 0 {
            assert polls[0][j] in f.relevant;
            var i :| 0 <= i < |f.relevant| && f.relevant[i] == polls[0][j];
          } else {
            assert PolledRelevant(polls[1..], k - 1, j, id);
          }
        }
      }
    }
  }

  /** A check is reported missing only if no polled message of this request names it. */
  lemma MissingMeansNeverReported(expected: set<string>, id: string, polls: seq<seq<Message>>)
    requires CheckResults(expected, id, polls).result.Err?
    ensures var missing := CheckResults(expected, id, polls).result.error.missing;
      forall k, j :: PolledRelevant(polls, k, j, id) ==> polls[k][j].checkName !in missing
  {
    PollLoopClears(PollState(Progress(expected, []), []), id, polls);
  }

  lemma {:induction false} PollLoopDeletes(s: PollState, id: string, polls: seq<seq<Message>>)
    requires forall i :: 0 <= i < |s.deleted| ==> MatchCorrelationId(s.deleted[i], id)
    ensures var d := PollLoop(s, id, polls).deleted;
      forall i :: 0 <= i < |d| ==> MatchCorrelationId(d[i], id)
    decreases |polls|
  {
    if s.progress.awaiting != {} && polls != [] {
      var f := FetchFilteredCheckResults(polls[0], id);
      var d := s.deleted + f.deleted;
      forall i | 0 <= i < |d|
        ensures MatchCorrelationId(d[i], id)
      {
        if i >= |s.deleted| {
          assert d[i] == f.deleted[i - |s.deleted|];
          assert d[i] in f.deleted;
        }
      }
      var s' := PollState(RecordAll(s.progress, f.relevant), d);
      assert PollLoop(s, id, polls) == PollLoop(s', id, polls[1..]);
      PollLoopDeletes(s', id, polls[1..]);
    }
  }

  /** Only messages of this request are deleted; messages of other requests stay in the queue. */
  lemma OnlyOwnMessagesDeleted(expected: set<string>, id: string, polls: seq<seq<Message>>)
    ensures var d := CheckResults(expected, id, polls).deleted;
      forall i :: 0 <= i < |d| ==> MatchCorrelationId(d[i], id)
  {
    var start := PollState(Progress(expected, []), []);
    PollLoopDeletes(start, id, polls);
    assert CheckResults(expected, id, polls).deleted == PollLoop(start, id, polls).deleted;
  }

  /** A fetch deletes the acknowledgements of its request too, but does not return them. */
  lemma AcksDeletedNotReturned(batch: seq<Message>, id: string, m: Message)
    requires m in batch && MatchCorrelationId(m, id) && m.msgType == AckType
    ensures m in FetchFilteredCheckResults(batch, id).deleted
    ensures m !in FetchFilteredCheckResults(batch, id).relevant
  {
  }

  // ---------------------------------------------------------------- the service

  /** What running an inline check yields: its result, or an ERROR result carrying the exception text. */
  function InlineResult(name: string, check: InlineCheck, context: CheckContext): (r: CheckResult)
    ensures Execute(check, context).Raises? ==>
      r == NewCheckResult(name, CheckError, Some(Execute(check, context).error), None) && !r.Passed()
    ensures Execute(check, context).Returns? ==> r == Execute(check, context).result
  {
    match Execute(check, context)
    case Returns(result) => result
    case Raises(e) => NewCheckResult(name, CheckError, Some(e), None)
  }

  /** The publish call that the trigger step makes. */
  datatype Published = Published(topicArn: string, request: map<string, Json>)

  datatype Started = Started(correlationId: string, inlineResults: seq<CheckResult>)

  class ReleasabilityService {
    const triggerTopicArn: string
    const resultTopicArn: string
    const resultQueueArn: string
    const registry: CheckRegistry

    /** The service for an AWS region and account, with the license check registered. */
    constructor (region: string, account: string)
      ensures triggerTopicArn == TriggerTopicArn(region, account)
      ensures resultTopicArn == ResultTopicArn(region, account)
      ensures resultQueueArn == ResultQueueArn(region, account)
      ensures fresh(registry)
      ensures registry.lambdaChecks == LambdaCheckNames
      ensures registry.inlineChecks == map[CheckLicensesName := CheckLicenses]
    {
      triggerTopicArn := TriggerTopicArn(region, account);
      resultTopicArn := ResultTopicArn(region, account);
      resultQueueArn := ResultQueueArn(region, account);
      var r := new CheckRegistry();
      r.RegisterInlineCheck(CheckLicenses);
      registry := r;
    }

    /**
     * Runs every registered inline check once, in the (unspecified) order in
     * which the set of names is iterated; `order` is that order.
     */
    method ExecuteInlineChecks(context: CheckContext) returns (results: seq<CheckResult>, ghost order: seq<string>)
      ensures |order| == |results|
      ensures Distinct(order)
      ensures forall n :: n in order <==> n in registry.inlineChecks
      ensures forall i :: 0 <= i < |results| ==>
        results[i] == InlineResult(order[i], registry.inlineChecks[order[i]], context)
    {
      var names := registry.GetInlineCheckNames();
      results := [];
      order := [];
      while names != {}
        decreases names
        invariant names <= registry.inlineChecks.Keys
        invariant |order| == |results|
        invariant Distinct(order)
        invariant forall n :: n in order <==> n in registry.inlineChecks && n !in names
        invariant forall i :: 0 <= i < |results| ==>
          results[i] == InlineResult(order[i], registry.inlineChecks[order[i]], context)
      {
        var name :| name in names;
        var check := registry.GetInlineCheck(name);
        var outcome := Execute(check.value, context);
        match outcome {
          case Returns(r) =>
            results := results + [r];
          case Raises(e) =>
            results := results + [NewCheckResult(name, CheckError, Some(e), None)];
        }
        order := order + [name];
        names := names - {name};
      }
    }

    /**
     * Triggers the remote checks: the version must have a build number
     * (otherwise the ValueError propagates and nothing is published).
     */
    method StartLambdaChecks(context: CheckContext, correlationId: string)
      returns (r: Result<string, VersionError>, published: Option<Published>)
      ensures r.Ok? <==> ExtractBuildNumber(context.version).Ok?
      ensures r.Ok? ==> r.value == correlationId
      ensures r.Ok? ==> published == Some(Published(triggerTopicArn,
        SnsRequest(correlationId, resultTopicArn, context.organization, context.repository,
                   context.branch, context.commitSha, context.version).value))
      ensures r.Err? ==> published.None? && r.error == ExtractBuildNumber(context.version).error
    {
      var valid := ExtractBuildNumber(context.version);
      if valid.Err? {
        return Err(valid.error), None;
      }
      var request := SnsRequest(correlationId, resultTopicArn, context.organization, context.repository,
                                context.branch, context.commitSha, context.version);
      published := Some(Published(triggerTopicArn, request.value));
      r := Ok(correlationId);
    }

    /** The entry point: trigger the remote checks first, then run the inline ones. */
    method StartReleasabilityChecks(context: CheckContext, correlationId: string)
      returns (r: Result<Started, VersionError>, published: Option<Published>, ghost order: seq<string>)
      ensures r.Ok? <==> ExtractBuildNumber(context.version).Ok?
      ensures r.Err? ==> published.None? && r.error == ExtractBuildNumber(context.version).error
      ensures r.Ok? ==> published == Some(Published(triggerTopicArn,
        SnsRequest(correlationId, resultTopicArn, context.organization, context.repository,
                   context.branch, context.commitSha, context.version).value))
      ensures r.Ok? ==> r.value.correlationId == correlationId
      ensures r.Ok? ==> (
        && |r.value.inlineResults| == |order| && Distinct(order)
        && (forall n :: n in order <==> n in registry.inlineChecks)
        && (forall i :: 0 <= i < |order| ==>
              r.value.inlineResults[i] == InlineResult(order[i], registry.inlineChecks[order[i]], context)))
    {
      var id;
      id, published := StartLambdaChecks(context, correlationId);
      if id.Err? {
        return Err(id.error), published, [];
      }
      var inline;
      inline, order := ExecuteInlineChecks(context);
      r := Ok(Started(id.value, inline));
    }

    /** The remote results (after polling) appended to the inline results. */
    method GetCombinedReport(correlationId: string, inlineResults: seq<CheckResult>, polls: seq<seq<Message>>)
      returns (r: Result<seq<CheckResult>, RetrieveError>, deleted: seq<Message>)
      ensures var c := CheckResults(ExpectedCheckNames, correlationId, polls);
        && deleted == c.deleted
        && (c.result.Err? ==> r == Err(c.result.error))
        && (c.result.Ok? ==> r == Ok(inlineResults + c.result.value))
    {
      var lambda := GetCheckResults(correlationId, polls);
      deleted := lambda.deleted;
      if lambda.result.Err? {
        return Err(lambda.result.error), deleted;
      }
      r := Ok(inlineResults + lambda.result.value);
    }
  }
}
