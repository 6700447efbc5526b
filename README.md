# Releasability actions — a Dafny model

The releasability actions decide whether a SonarSource product build may be
released, and then publish it. This project models the sequential logic of
those actions and proves properties of it:

- **Check aggregation.** The releasability service publishes a trigger for
  the remote ("lambda") checks. It runs the inline checks registered in the
  check registry and polls a result queue until every expected check has
  reported or the polls run out. Check results know whether they passed and
  render as a one-line report with a detail block.
- **Version tags.** The four-part Sonar version helper, the anchored tag
  grammar of the release action (`X.Y.Z[-Mn](.|+)BUILD`), and the prefix-only
  grammar of the root action.
- **License compliance (License Packaging Standard).** The SCA exception
  lists and their JSON files, license-file detection and classification, and
  the set comparison with the SCA report. Also license extraction from
  artifacts, the SBOM comparison, the structural checks, reference-text
  validation with a similarity ratio, and matching license files to SBOM
  components. The exception files can also be fetched from GitHub.
- **Build metadata and artifacts.** Build-info accessors, artifact
  coordinates, repository, file name and URL selection, the download loop,
  and the publish/revoke steps of the release action.
- **Status roll-up.** The releasability-status action turns the reported
  check results into its status, state and message outputs.

One Dafny module per source file. Three helper modules provide what all of
them share:

- `Wrappers`: Option and Result, which stand for None and raised exceptions.
- `Strings`: the Python `str` operations the code uses, on ASCII text.
- `Json` and `OrderedMap`: decoded JSON values, and dictionaries whose
  insertion order matters.

Pure Python code is modelled as functions. Code that loops or mutates is
modelled as methods with loop invariants, and mutated objects as classes.
Each such method is proved equal to a specification function, and the lemmas
state the properties of that function.

Collaborators that do I/O are replaced by parameters:

- the AWS queue, as the sequence of batches successive polls return;
- HTTP reads and file reads, as functions from a URL or path to what they
  yield;
- `json.loads`, as the decoded value or None;
- `difflib`'s similarity ratio, as an arbitrary function into [0, 1];
- the Artifactory and binaries-bucket calls, as a recorded trace of
  actions, with a fixed function saying which calls raise.

Where the code and its documentation disagree, the model follows the code:

- `SCAExceptionManager._load_exceptions` builds a set from the items of an
  exceptions list. An item that is an object (`{"name": …}`) is unhashable,
  so the TypeError is caught and the whole result is the empty set. Only
  lists of names load.
- Only the second definition of `start_releasability_checks` is modelled,
  because in Python it replaces the first.
- The detail item lines begin with the three characters the source text
  holds, "â€¢", not with the bullet U+2022 the code evidently means (see
  "## Findings"). `CheckResult.Render` prints the former;
  `CheckResult.IntendedRender` is the report with U+2022.

## Model

| member | source | states |
|---|---|---|
| VersionHelper.ExtractBuildNumber | src/utils/version_helper.py:4-10 | a result exists only for exactly four dot-separated parts and is `int()` of the fourth; any other part count gives the not-standardized ValueError |
| VersionHelper.ExtractSemanticVersion | src/utils/version_helper.py:13-19 | fails exactly when there are fewer than three parts, with the semantic-versioning ValueError |
| VersionHelper.SemanticVersionOfParts | src/utils/version_helper.py:13-19 | for any version of three or more dot-free parts, the semantic version is the first three parts joined by "." |
| VersionHelper.SemanticVersionOfThreeParts | src/utils/version_helper.py:13-19 | a three-part version is its own semantic version |
| VersionHelper.ValidSonarVersionIffFourParts | src/utils/version_helper.py:22-29 | a version is valid if and only if it splits into four parts (the no-dot test is subsumed) |
| VersionHelper.IsValidSonarVersion | src/utils/version_helper.py:22-29 | false without a '.', otherwise whether there are exactly four dot-separated parts; ValidSonarVersionIffFourParts and BuildNumberImpliesValid state its meaning |
| VersionHelper.BuildNumberImpliesValid | src/utils/version_helper.py:4-29 | every version whose build number can be extracted is a valid Sonar version |
| VersionHelper.ExtractBuildNumberRoundTrip | src/utils/version_helper.py:4-10 | writing a number as the fourth part of a dot-free major.minor.patch and extracting it gives the number back |
| VersionHelper.SemanticVersionOfFourParts | src/utils/version_helper.py:13-19 | the semantic version of a four-part version is its first three parts, and the version is that plus "." plus the build |
| VersionHelper.BuildNumberExamples | tests/utils/version_helper_test.py:9-25 | "1.2.3.1234" gives 1234; "1.2.3", "5.4.3.2.1" and "42.2" raise |
| VersionHelper.SemanticVersionRejects | tests/utils/version_helper_test.py:27-33 | "42.2" has no semantic version |
| VersionHelper.SemanticVersionOnePartExample | tests/utils/version_helper_test.py:27-33 | "55" has no semantic version |
| VersionHelper.SemanticVersionFourExample | tests/utils/version_helper_test.py:35-42 | "1.2.3.1234" has the semantic version "1.2.3" |
| VersionHelper.SemanticVersionThreeExample | tests/utils/version_helper_test.py:35-42 | "4.3.2" has the semantic version "4.3.2" |
| VersionHelper.ValidVersionExample | tests/utils/version_helper_test.py:44-59 | "3.2.1.12345" is valid |
| VersionHelper.InvalidVersionExample | tests/utils/version_helper_test.py:44-59 | "3.2.1" is not valid |
| CheckResult.NewCheckResult | src/releasability/releasability_check_result.py:20-25 | keeps name, state and message; missing details become the empty dictionary |
| CheckResult.HasPassed | src/releasability/releasability_check_result.py:73-84 | PASSED and NOT_RELEVANT pass, every other state does not; tied to the prefix by PassedIffGreenPrefix |
| CheckResult.Prefix | src/releasability/releasability_check_result.py:60-71 | the success mark for PASSED, the optional mark for NOT_RELEVANT, the failure mark for FAILED and ERROR, the unknown mark otherwise; its meaning is proved by PassedIffGreenPrefix |
| CheckResult.PassedIffGreenPrefix | src/releasability/releasability_check_result.py:60-84 | a state has passed exactly when its prefix is the success or optional mark; FAILED and ERROR get the failure mark; every other state the unknown mark |
| CheckResult.ItemLines | src/releasability/releasability_check_result.py:51-52 | one item line per item, in order |
| CheckResult.FormatDetails | src/releasability/releasability_check_result.py:42-58 | the loop builds exactly the detail text, the entries' lines joined by newlines, with item lines that begin with the bullet as written ("â€¢") |
| CheckResult.DetailText | src/releasability/releasability_check_result.py:42-58 | the entries' lines joined by newlines; FormatDetails is proved equal to it, and EntryLinesShape, SkippedEntries and DetailTextEmpty state its lines |
| CheckResult.AppendEntry | src/releasability/releasability_check_result.py:48-56 | one loop pass appends exactly that entry's lines, its item lines with the bullet as written |
| CheckResult.AppendItems | src/releasability/releasability_check_result.py:51-52 | appends "  â€¢ item" for each of the first five items (fewer when the list is shorter), in order |
| CheckResult.DetailLinesAppend | src/releasability/releasability_check_result.py:47-58 | the lines of a dictionary split in two are the lines of the first part followed by those of the second |
| CheckResult.EntryLinesShape | src/releasability/releasability_check_result.py:49-54 | a non-empty list gives a "key: n items" header, at most five item lines in order, and a "... and n-5 more" line exactly when there are more than five |
| CheckResult.SkippedEntries | src/releasability/releasability_check_result.py:49-56 | an entry contributes no line if and only if it is an empty list or a falsy value |
| CheckResult.LongListTruncated | src/releasability/releasability_check_result.py:49-54 | a list of more than five items gives exactly seven lines: header, five items, remainder; this holds for any bullet, so for the one as written |
| CheckResult.Render | src/releasability/releasability_check_result.py:27-40 | the report as the program prints it: it starts with the state's prefix, a space, the name and a space, then " - message" when there is one, and ends with a newline and the detail text (bullet as written) when that text is not empty |
| CheckResult.Report | src/releasability/releasability_check_result.py:27-40 | the report for a given bullet: prefix, name, message part and detail tail; ReportStart, ReportMessage and ReportEnd prove its shape for every bullet |
| CheckResult.IntendedRender | src/releasability/releasability_check_result.py:27-40 | the same report with U+2022 as the bullet: the same prefix and message, ending with the intended detail text |
| CheckResult.OneItemLines | src/releasability/releasability_check_result.py:47-58 | a single one-item list gives the text "key: 1 items", a newline, and the item line |
| CheckResult.AsWrittenDetailExample | src/releasability/releasability_check_result.py:52 | the details {"k": ["x"]} give "k: 1 items\n  â€¢ x" as the program prints them |
| CheckResult.IntendedDetailExample | src/releasability/releasability_check_result.py:52 | the details {"k": ["x"]} give "k: 1 items\n  • x" with the intended bullet |
| CheckResult.ItemLinesWider | src/releasability/releasability_check_result.py:51-52 | the item lines as written are two characters longer in all than the intended ones for every item |
| CheckResult.EntryLinesWider | src/releasability/releasability_check_result.py:49-56 | an entry has as many lines with either bullet, two characters longer in all for every item line it shows |
| CheckResult.DetailLinesWider | src/releasability/releasability_check_result.py:44-58 | the detail lines with either bullet are as many, two characters longer in all per shown item line |
| CheckResult.EntryLinesNonEmpty | src/releasability/releasability_check_result.py:49-56 | no line of an entry is empty |
| CheckResult.DetailLinesNonEmpty | src/releasability/releasability_check_result.py:44-58 | no detail line is empty |
| CheckResult.DetailTextEmpty | src/releasability/releasability_check_result.py:44-58 | the detail text is empty exactly when there are no detail lines |
| CheckResult.RenderDiffersFromIntended | src/releasability/releasability_check_result.py:27-58 | the program's report is exactly two characters longer than the intended one for every item line it shows, and otherwise the same length |
| CheckResult.RenderWithoutDetails | src/releasability/releasability_check_result.py:27-40 | without details the report is prefix, name and " - message", or just prefix and name when there is no message |
| CheckResult.RenderIgnoresSkippedDetails | src/releasability/releasability_check_result.py:35-38 | details whose entries are all skipped add nothing to the report |
| CheckResult.SkippedDetailsHaveNoText | src/releasability/releasability_check_result.py:44-58 | details whose entries are all skipped have no lines, for any bullet |
| CheckResult.RenderPassedExample | src/releasability/releasability_check_result.py:27-40 | a passed check "check name" with message "it works" renders as "✅ check name  - it works" |
| CheckResult.AsWrittenBulletIsMisdecoded | src/releasability/releasability_check_result.py:52 | the bullet as written is the three UTF-8 bytes of U+2022 read as Windows-1252, so each item line is two characters longer than intended |
| CheckResult.BulletItemLine | src/releasability/releasability_check_result.py:52 | with U+2022 an item line is two spaces, the bullet, a space and the item |
| InlineCheck.ContextToStringIgnoresBranch | src/releasability/inline_check.py:16-17 | the printed context does not depend on the branch |
| InlineCheck.ContextToString | src/releasability/inline_check.py:16-17 | "organization/repository#version@sha"; the branch is not shown (ContextToStringIgnoresBranch, ContextToStringShape) |
| InlineCheck.ContextToStringShape | src/releasability/inline_check.py:16-17 | the printed context starts with "organization/" and ends with "@sha" |
| InlineCheck.ToString | src/releasability/inline_check.py:42-43 | `str(check)` is "InlineCheck(" followed by the check's name and ")" |
| InlineCheck.LicenseCheckMessageMentions | src/releasability/checks/check_licenses.py:23 | the license check's message names the repository and says it is a placeholder |
| InlineCheck.CheckLicensesPasses | src/releasability/checks/check_licenses.py:9-29 | the license check always returns a PASSED, passed result named "CheckLicenses", without details, whose message names the repository |
| InlineCheck.Execute | src/releasability/inline_check.py:30-40 | what running a check gives: for the license check the result that CheckLicensesPasses describes, for any other check its own outcome |
| InlineCheck.CheckLicensesDependsOnRepositoryOnly | src/releasability/checks/check_licenses.py:12-29 | two contexts with the same repository give the same result |
| CheckRegistry.LambdaCheckCount | src/releasability/check_registry.py:10-19 | the remote checks are eight distinct names |
| CheckRegistry.CheckRegistry.constructor | src/releasability/check_registry.py:8-22 | a new registry holds the eight remote checks and no inline check |
| CheckRegistry.CheckRegistry.RegisterInlineCheck | src/releasability/check_registry.py:24-31 | the check is stored under its name, replacing an earlier one; other names and the remote checks are unchanged; the name joins the set of all names |
| CheckRegistry.CheckRegistry.GetInlineCheck | src/releasability/check_registry.py:33-46 | returns the registered check if and only if the name is registered; otherwise the KeyError |
| CheckRegistry.CheckRegistry.GetAllCheckNames | src/releasability/check_registry.py:48-50 | a name is listed if and only if it is an inline or a remote check |
| CheckRegistry.CheckRegistry.GetInlineCheckNames | src/releasability/check_registry.py:52-54 | a name is listed if and only if an inline check is registered under it |
| CheckRegistry.CheckRegistry.GetLambdaCheckNames | src/releasability/check_registry.py:56-58 | a name is listed if and only if it is a remote check |
| CheckRegistry.CheckRegistry.IsInlineCheck | src/releasability/check_registry.py:60-62 | a name is an inline check exactly when one is registered under it (RegisterLicenseCheck) |
| CheckRegistry.CheckRegistry.IsLambdaCheck | src/releasability/check_registry.py:64-66 | a name is a lambda check exactly when it is one of the remote names (NewRegistryContents) |
| CheckRegistry.NewRegistryContents | src/releasability/check_registry.py:8-22 | a fresh registry lists exactly the eight remote names and no inline name |
| CheckRegistry.RegisterLicenseCheck | src/releasability/check_registry.py:24-66 | after registering the license check it is an inline check, not a remote one, and the names are the eight plus "CheckLicenses" |
| ReleasabilityService.ExpectedNamesAreRegistryLambdaNames | src/releasability/releasability_service.py:39-48 | the eight names the service waits for are exactly the registry's remote check names (src/releasability/check_registry.py:10-19) |
| ReleasabilityService.ArnToSqsUrl | src/releasability/releasability_service.py:116-126 | a URL comes back exactly for an ARN with at least six ':' fields whose service field is "sqs"; a three-field-or-longer ARN of another service gives the invalid-ARN ValueError (shorter ones the IndexError) |
| ReleasabilityService.SqsArnToUrl | src/releasability/releasability_service.py:116-126 | an sqs ARN of region, account and queue gives https://sqs.region.amazonaws.com/account/queue |
| ReleasabilityService.ResultQueueUrl | src/releasability/releasability_service.py:65-68 | the result queue's ARN converts to its queue URL |
| ReleasabilityService.TriggerTopicArn | src/releasability/releasability_service.py:66 | "arn:aws:sns:region:account:" and the trigger topic name |
| ReleasabilityService.ResultTopicArn | src/releasability/releasability_service.py:67 | "arn:aws:sns:region:account:" and the result topic name (TopicArnIsNotAQueue) |
| ReleasabilityService.ResultQueueArn | src/releasability/releasability_service.py:68 | "arn:aws:sqs:region:account:" and the result queue name, which ResultQueueUrl converts |
| ReleasabilityService.TopicArnIsNotAQueue | src/releasability/releasability_service.py:65-68 | the result topic's ARN is refused as an sqs ARN |
| ReleasabilityService.SnsRequest | src/releasability/releasability_service.py:92-113 | the request exists exactly when the build number can be extracted, and then has the seven keys with the slug "organization/project", the build number and the other inputs; otherwise the extraction error |
| ReleasabilityService.SnsRequestHasSevenKeys | src/releasability/releasability_service.py:104-112 | the request has seven entries |
| ReleasabilityService.Matching | src/releasability/releasability_service.py:164-165 | keeps exactly the messages of the batch whose request id matches |
| ReleasabilityService.MatchCorrelationId | src/releasability/releasability_service.py:163-165 | a message belongs to the request whose id it carries (Matching) |
| ReleasabilityService.NotAnAckMessage | src/releasability/releasability_service.py:167-169 | a message is not an ACK when its type differs from "ACK" (DropAcks) |
| ReleasabilityService.DropAcks | src/releasability/releasability_service.py:168-169 | keeps exactly the messages that are not ACKs |
| ReleasabilityService.FetchFilteredCheckResults | src/releasability/releasability_service.py:171-176 | deletes exactly the batch's messages of this request, and returns exactly those that are not ACKs |
| ReleasabilityService.ResultOf | src/releasability/releasability_service.py:145-151 | a result carries the message's check name, type as state and message, and no details |
| ReleasabilityService.GetCheckResults | src/releasability/releasability_service.py:133-161 | the polling loop computes the reference outcome for the eight expected checks |
| ReleasabilityService.CollectResults | src/releasability/releasability_service.py:138-152 | the polling loop, for any expected set, equals the reference outcome |
| ReleasabilityService.PollLoop | src/releasability/releasability_service.py:138-152 | polls batch after batch until nothing is awaited or the batches (the time) run out, recording the awaited results and the deleted messages |
| ReleasabilityService.CheckResults | src/releasability/releasability_service.py:133-161 | the received results when nothing is awaited any more, else the exception naming the checks still awaited with the received and expected counts; CollectResults and CheckResultsMissing are proved against it |
| ReleasabilityService.RecordMessages | src/releasability/releasability_service.py:140-152 | the inner loop over one batch equals recording its messages one by one |
| ReleasabilityService.RecordAccounted | src/releasability/releasability_service.py:143-152 | recording a message keeps every expected check either awaited or received exactly once |
| ReleasabilityService.RecordAllAccounted | src/releasability/releasability_service.py:140-152 | recording a batch keeps that invariant |
| ReleasabilityService.PollLoopAccounted | src/releasability/releasability_service.py:138-152 | the whole polling loop keeps that invariant |
| ReleasabilityService.CheckResultsComplete | src/releasability/releasability_service.py:154-155 | a successful outcome holds one result per expected check: names distinct, all expected, none missing |
| ReleasabilityService.EightResults | src/releasability/releasability_service.py:154-155 | a successful outcome has eight results |
| ReleasabilityService.CheckResultsMissing | src/releasability/releasability_service.py:156-161 | on failure the exception names a non-empty set of expected checks, exactly those still awaited, with the received count and a total of the expected count |
| ReleasabilityService.RetrieveErrorMessage | src/releasability/releasability_service.py:156-161 | "Received n/total check result(s) messages within allowed time (...) (no results received for check(s): ...)" for a listing of exactly the missing names |
| ReleasabilityService.ResultsComeFromRelevantMessages | src/releasability/releasability_service.py:139-151 | every received result was built from a polled, matching, non-ACK message |
| ReleasabilityService.MissingMeansNeverReported | src/releasability/releasability_service.py:138-161 | a check reported missing was never named by a relevant polled message |
| ReleasabilityService.PollLoopDeletes | src/releasability/releasability_service.py:171-182 | every message the loop deletes belongs to this request |
| ReleasabilityService.OnlyOwnMessagesDeleted | src/releasability/releasability_service.py:171-182 | messages of other requests are never deleted |
| ReleasabilityService.AcksDeletedNotReturned | src/releasability/releasability_service.py:171-176 | an ACK of this request is deleted and not returned |
| ReleasabilityService.InlineResult | src/releasability/releasability_service.py:244-257 | a check that raises becomes an ERROR result under its name with the exception text, which does not pass; otherwise the check's own result |
| ReleasabilityService.ReleasabilityService.constructor | src/releasability/releasability_service.py:55-68 | the three ARNs from region and account, and a registry holding the remote checks and the license check |
| ReleasabilityService.ReleasabilityService.ExecuteInlineChecks | src/releasability/releasability_service.py:222-261 | one result per registered inline check, each name once, in the set's iteration order |
| ReleasabilityService.ReleasabilityService.StartLambdaChecks | src/releasability/releasability_service.py:263-299 | publishes the request to the trigger topic and returns the correlation id exactly when the version has a build number; otherwise publishes nothing |
| ReleasabilityService.ReleasabilityService.StartReleasabilityChecks | src/releasability/releasability_service.py:328-353 | starts the remote checks by publishing the seven-key request to the trigger topic, then runs every inline check; a bad version stops it with the extraction ValueError before anything is published |
| ReleasabilityService.ReleasabilityService.GetCombinedReport | src/releasability/releasability_service.py:313-326 | the inline results followed by the remote results, or the remote failure |
| ScaExceptions.PySet | src/utils/sca_exceptions.py:47-50 | `set()` of a decoded value: a list gives its strings and fails (TypeError) exactly when an element is unhashable; an object gives its keys; other scalars fail |
| ScaExceptions.LoadExceptions | src/utils/sca_exceptions.py:38-56 | a missing or unreadable file, and any shape but a list or an object with "exceptions", loads as the empty set; a list goes through `set()` (SaveLoadRoundTrip, ObjectItemsLoadNothing, ListAndObjectFormsAgree) |
| ScaExceptions.SavePayload | src/utils/sca_exceptions.py:91-95 | the saved document has exactly "exceptions", "description" and "last_updated", the exceptions as a sorted list |
| ScaExceptions.SaveLoadRoundTrip | src/utils/sca_exceptions.py:38-56 | loading a file that `_save_exceptions` wrote gives back the saved set |
| ScaExceptions.ObjectItemsLoadNothing | src/utils/sca_exceptions.py:44-56 | a list holding an object, bare or under "exceptions", cannot become a set and loads as the empty set |
| ScaExceptions.ListAndObjectFormsAgree | src/utils/sca_exceptions.py:47-50 | the bare-list and the object form load the same names, exactly the listed strings |
| ScaExceptions.ScaExceptionManager.constructor | src/utils/sca_exceptions.py:21-36 | both sets are loaded from their files |
| ScaExceptions.ScaExceptionManager.GetFalsePositives | src/utils/sca_exceptions.py:58-60 | a copy holding exactly the known false positives |
| ScaExceptions.ScaExceptionManager.GetFalseNegatives | src/utils/sca_exceptions.py:62-64 | a copy holding exactly the known false negatives |
| ScaExceptions.ScaExceptionManager.IsFalsePositive | src/utils/sca_exceptions.py:66-68 | a dependency is a false positive exactly when it is in the loaded set |
| ScaExceptions.ScaExceptionManager.IsFalseNegative | src/utils/sca_exceptions.py:70-72 | a dependency is a false negative exactly when it is in the loaded set |
| ScaExceptions.ScaExceptionManager.AddFalsePositive | src/utils/sca_exceptions.py:74-77 | the dependency joins the false positives, which are saved (when the write succeeds) so that reloading gives them; the negatives and their file are untouched |
| ScaExceptions.ScaExceptionManager.AddFalseNegative | src/utils/sca_exceptions.py:79-82 | the same for false negatives |
| ScaExceptions.ScaExceptionManager.SaveFalsePositives | src/utils/sca_exceptions.py:84-102 | the file holds the saved payload when the write succeeds and is unchanged when it fails; no set changes |
| ScaExceptions.ScaExceptionManager.SaveFalseNegatives | src/utils/sca_exceptions.py:84-102 | the same for the false-negatives file |
| ScaExceptions.ScaExceptionManager.CreateTemplateFiles | src/utils/sca_exceptions.py:104-112 | only a missing file is written, with the empty list; the sets stay as loaded |
| ScaExceptions.ReloadAfterAdd | src/utils/sca_exceptions.py:21-82 | a new manager over a file an earlier one saved after adding a dependency holds the earlier set plus that dependency |
| ScaExceptions.DetermineLicenseType | src/utils/sca_exceptions.py:162-169 | main exactly when the path has no THIRD_PARTY_LICENSES and the lower-cased name is one of the four LICENSE names |
| ScaExceptions.DetermineFileFormat | src/utils/sca_exceptions.py:172-174 | html exactly for ".html" and ".htm" |
| ScaExceptions.DetectLicenseFiles | src/utils/sca_exceptions.py:119-146 | a missing directory gives no files; otherwise the loop gives the license files of the walk |
| ScaExceptions.LicenseFiles | src/utils/sca_exceptions.py:137-144 | no more license files than walked entries, one per entry with a license extension in walk order; DetectLicenseFiles is proved equal to it and LicenseFilesFromEntries and EntriesWithLicenseExtensionDetected state its meaning |
| ScaExceptions.CreateLicenseInfo | src/utils/sca_exceptions.py:149-160 | the path, the name, the license type and the file format that DetermineLicenseType and DetermineFileFormat give |
| ScaExceptions.LicenseFilesFromEntries | src/utils/sca_exceptions.py:137-144 | every detected file comes from a walked entry with a license extension, with its joined path, name and format |
| ScaExceptions.EntriesWithLicenseExtensionDetected | src/utils/sca_exceptions.py:137-144 | every walked entry with a license extension is detected |
| ScaExceptions.LicenseTypeIgnoresCase | src/utils/sca_exceptions.py:162-169 | the letter case of a file name never changes whether it is the main license |
| ScaExceptions.ThirdPartyPathIsThirdParty | src/utils/sca_exceptions.py:164-165 | every file under a THIRD_PARTY_LICENSES path is third party |
| ScaExceptions.FirstSuffix | src/utils/sca_exceptions.py:201-204 | the index of the first suffix in list order that the name ends with, or none when it ends with none |
| ScaExceptions.WithoutFirstSuffix | src/utils/sca_exceptions.py:201-204 | the name is the result followed by that suffix; unchanged when there is none |
| ScaExceptions.ExtractDependencyName | src/utils/sca_exceptions.py:177-206 | the loop computes the dependency name: extension dropped, first matching suffix dropped, stripped |
| ScaExceptions.DependencyName | src/utils/sca_exceptions.py:177-206 | the file stem without its first matching license suffix, stripped (DependencyNameOfSuffixed, DependencyNameOfPlain, OnlyOneSuffixRemoved) |
| ScaExceptions.DependencyNameOfSuffixed | src/utils/sca_exceptions.py:189-206 | dependency + suffix + extension gives the stripped dependency |
| ScaExceptions.DependencyNameOfPlain | src/utils/sca_exceptions.py:189-206 | a name without any suffix keeps its whole stem, stripped |
| ScaExceptions.OnlyOneSuffixRemoved | src/utils/sca_exceptions.py:201-204 | a name ending in two "-LICENSE" suffixes keeps the first |
| ScaExceptions.Coverage | src/utils/sca_exceptions.py:249-253 | between 0 and 100, and 100 exactly when something is expected and everything matched |
| ScaExceptions.CompareWithExceptions | src/utils/sca_exceptions.py:221-266 | expected is SCA plus false negatives minus false positives; missing and extra are the two differences; the matched count and coverage follow |
| ScaExceptions.ExceptionsApplied | src/utils/sca_exceptions.py:241 | a false positive is never expected nor missing; a false negative that is not also a false positive is expected |
| ScaExceptions.MissingAndMatchedPartitionExpected | src/utils/sca_exceptions.py:241-253 | missing and extra are disjoint, and the missing and matched dependencies partition the expected ones |
| ScaExceptions.CompliantIffExactMatch | src/utils/sca_exceptions.py:268-279 | compliant exactly when the license files are precisely the expected dependencies and there is at least one |
| ScaExceptions.IsCompliant | src/utils/sca_exceptions.py:268-279 | nothing missing, nothing extra and 100% coverage; CompliantIffExactMatch states what that means for the two sets |
| LicenseUtils.RecordsOf | src/utils/license_utils.py:188-196 | one record per detected file, in order, with its type, path, name and format and the given source tag |
| LicenseUtils.DedicatedDirName | src/utils/license_utils.py:169 | the dedicated directory name ends in "-licenses" |
| LicenseUtils.LicenseExtractor.constructor | src/utils/license_utils.py:25-26 | no temporary directory yet |
| LicenseUtils.LicenseExtractor.ExtractLicensesFromArtifacts | src/utils/license_utils.py:28-54 | the loop builds the reference dictionary, one entry per artifact name, later artifacts replacing earlier ones, and leaves the last temporary directory |
| LicenseUtils.LicenseExtractor.ExtractLicensesFromArtifact | src/utils/license_utils.py:56-81 | the records of one artifact; a missing artifact leaves the temporary directory as it was |
| LicenseUtils.LicenseExtractor.ExtractFromArchive | src/utils/license_utils.py:83-99 | the main licenses directory's records, then those of the inner archives |
| LicenseUtils.LicenseExtractor.ExtractFromInnerArchives | src/utils/license_utils.py:101-118 | the loop over the walk gives the inner-archive records, none without a temporary directory |
| LicenseUtils.LicenseExtractor.ExtractLicensesFromDirectory | src/utils/license_utils.py:181-198 | the loop gives the records of the detected files with the given source |
| LicenseUtils.RecordsFromFiles | src/utils/license_utils.py:188-196 | one record per detected file, in order, carrying its type, path, name and format, the given source and the file's content |
| LicenseUtils.ExtractedLicensesKeys | src/utils/license_utils.py:38-54 | the result's keys are exactly the artifact names, each once; no artifacts give an empty result |
| LicenseUtils.ExtractedLicensesValue | src/utils/license_utils.py:40-52 | an artifact's entry holds what the last artifact of that name yields |
| LicenseUtils.UnsupportedArtifactsYieldNothing | src/utils/license_utils.py:60-71 | a missing artifact, or one that is not .jar or .zip, yields no records |
| LicenseUtils.IsArchiveFile | src/utils/license_utils.py:120-122 | a name ending in ".zip", ".tgz", ".txz" or ".xz" |
| LicenseUtils.ArtifactRecords | src/utils/license_utils.py:56-81 | the records of one artifact: none when it is missing, not a jar or zip, or does not open, else its archive's records; ExtractLicensesFromArtifact is proved equal to it |
| LicenseUtils.ExtractedLicenses | src/utils/license_utils.py:28-54 | the dictionary from artifact name to records, in artifact order, a later artifact of a name replacing an earlier one; ExtractedLicensesKeys and ExtractedLicensesValue state both |
| LicenseUtils.CompressedArchivesContributeNothing | src/utils/license_utils.py:120-158 | .txz and .xz files count as archives but give no records |
| LicenseUtils.InnerRecordSources | src/utils/license_utils.py:160-173 | every record of an inner archive is tagged "inner_" or "dedicated_" plus its file name |
| LicenseUtils.InnerArchivesRecordSources | src/utils/license_utils.py:109-116 | every inner record names an extractable archive of the walk in its tag |
| LicenseUtils.ComponentNames | src/utils/license_utils.py:284-291 | the non-empty component names, each coming from a component and every named component represented |
| LicenseUtils.LicenseNames | src/utils/license_utils.py:293-301 | no more names than files, none empty and none "license" or "licenses" in any case |
| LicenseUtils.ThirdPartyLicenses | src/utils/license_utils.py:253-257 | only third-party records are collected |
| LicenseUtils.ThirdPartyOf | src/utils/license_utils.py:255-257 | exactly the third-party records of an artifact |
| LicenseUtils.SbomReportMeaning | src/utils/license_utils.py:229-282 | the counts, the missing, extra and matched names against the expected set with exceptions applied, and compliance exactly when the names equal the expected set |
| LicenseUtils.SbomReport | src/utils/license_utils.py:229-282 | the comparison of the third-party license names with the SBOM component names, with exceptions applied; SbomReportMeaning states each field |
| LicenseUtils.LicenseComparator.constructor | src/utils/license_utils.py:213-222 | no components yet, and freshly loaded exceptions |
| LicenseUtils.LicenseComparator.LoadSbom | src/utils/license_utils.py:224-227 | the components are the SBOM's "components", or none |
| LicenseUtils.LicenseComparator.CompareLicensesWithSbom | src/utils/license_utils.py:229-282 | the loops compute the reference report with the manager's exceptions |
| LicenseUtils.CollectThirdParty | src/utils/license_utils.py:253-257 | the nested loop collects exactly the reference third-party list |
| LicenseUtils.ExtractComponentNames | src/utils/license_utils.py:284-291 | the loop computes the component names |
| LicenseUtils.ExtractLicenseNames | src/utils/license_utils.py:293-301 | the loop computes the license names |
| LicenseUtils.ArtifactIssues | src/utils/license_utils.py:374-388 | at most three issues per artifact |
| LicenseUtils.LpsIssues | src/utils/license_utils.py:370-390 | at most three issues per artifact in all |
| LicenseUtils.CheckLpsCompliance | src/utils/license_utils.py:370-390 | the loop gives the reference issues |
| LicenseUtils.CheckArtifact | src/utils/license_utils.py:376-388 | one artifact's issues, in the order main, third party, licenses directory |
| LicenseUtils.CompliantArtifactHasNoIssues | src/utils/license_utils.py:376-388 | an artifact with a main record, a third-party record and a path under licenses has no issue |
| LicenseUtils.EmptyArtifactHasThreeIssues | src/utils/license_utils.py:376-388 | an artifact with no records gets all three issues, in order |
| LicenseUtils.LpsIssuesAppend | src/utils/license_utils.py:374 | the issues follow the dictionary order of the artifacts |
| LicenseUtils.AddSbomIssues | src/utils/license_utils.py:353-357 | the missing-licenses and low-coverage issues are appended in that order |
| LicenseUtils.SbomIssues | src/utils/license_utils.py:353-357 | a missing-licenses issue when some component lacks a license, then a low-coverage issue below 80%; AddSbomIssues appends exactly these |
| LicenseUtils.LowCoverageIssue | src/utils/license_utils.py:357 | "Low license coverage: " and the coverage with one decimal, rounded half to even (LowCoverageTie) |
| LicenseUtils.RoundHalfEven | src/utils/license_utils.py:357 | the nearest whole number, within one half, and even on an exact tie, as `{:.1f}` rounds the exact value |
| LicenseUtils.LowCoverageTie | src/utils/license_utils.py:357 | a coverage of 6.25% is reported as "6.2%" (one matched dependency of sixteen), 6.75% as "6.8%" |
| LicenseUtils.LpsValidator.constructor | src/utils/license_utils.py:307-315 | a fresh extractor and a comparator with freshly loaded exceptions |
| LicenseUtils.LpsValidator.ValidateArtifacts | src/utils/license_utils.py:317-368 | the extracted licenses, their count, the structural issues with SBOM issues added only when an SBOM is given, and compliance exactly when there is no issue |
| LicenseUtils.NoSbomVerdict | src/utils/license_utils.py:343-361 | without an SBOM the artifacts comply exactly when every artifact has a main record, a third-party record and a licenses path |
| LicenseUtils.LpsIssuesEmpty | src/utils/license_utils.py:370-390 | no issues exactly when every artifact passes all three checks |
| LicenseContent.CollapseWhitespace | src/utils/license_content_validator.py:52 | collapsing never lengthens the text, empties only the empty text and keeps a leading non-space character |
| LicenseContent.NonSpace | src/utils/license_content_validator.py:52 | the kept characters are all non-whitespace |
| LicenseContent.NonSpaceAppend | src/utils/license_content_validator.py:52 | dropping whitespace distributes over concatenation |
| LicenseContent.CollapseWhitespaceMeaning | src/utils/license_content_validator.py:52 | the collapsed text has only single spaces as whitespace and the same non-space characters in order |
| LicenseContent.CollapseWhitespaceOfCollapsed | src/utils/license_content_validator.py:52 | collapsing an already collapsed text changes nothing |
| LicenseContent.ReplaceKeepsPlainSpaces | src/utils/license_content_validator.py:54-56 | replacing with a text without other whitespace introduces none |
| LicenseContent.ReplacePlaceholdersKeepsPlainSpaces | src/utils/license_content_validator.py:53-56 | the three placeholder replacements introduce no whitespace other than spaces |
| LicenseContent.LowerKeepsPlainSpaces | src/utils/license_content_validator.py:58 | lower-casing leaves no capital letter and introduces no whitespace |
| LicenseContent.NormalizeShape | src/utils/license_content_validator.py:49-58 | a normalised text has no capital letter and no whitespace other than plain spaces |
| LicenseContent.Normalize | src/utils/license_content_validator.py:49-58 | strip, collapse whitespace, replace the placeholders, lower-case; NormalizeShape proves the result has no capital letter and only plain spaces |
| LicenseContent.ReadableStemsSnoc | src/utils/license_content_validator.py:39-47 | a file that cannot be read adds no stem |
| LicenseContent.ReferencesLoadedKeys | src/utils/license_content_validator.py:33-47 | the loaded references are keyed by the stems of the readable files, each once |
| LicenseContent.ReferencesLoadedValue | src/utils/license_content_validator.py:39-44 | a stem's reference is the normalised content of the last readable file with that stem |
| LicenseContent.BestMatch | src/utils/license_content_validator.py:83-90 | the best score is within 0 and 1, at least every reference's score, zero exactly when no reference is named, and reached first by the named reference |
| LicenseContent.UnknownLicenseRefused | src/utils/license_content_validator.py:71-72 | an expected license outside the allowed set is refused with score 0 and the unknown-type message |
| LicenseContent.ExactMatchAccepted | src/utils/license_content_validator.py:76-80 | content equal, once normalised, to the expected reference is accepted with score 1 |
| LicenseContent.GetFirst | src/utils/license_content_validator.py:77-78 | a key reads the first entry stored under it |
| LicenseContent.FuzzyVerdict | src/utils/license_content_validator.py:82-96 | without an exact match the content is valid exactly when the best score reaches 0.8, which no reference exceeds, naming the first reference that reaches it |
| LicenseContent.Verdict | src/utils/license_content_validator.py:60-96 | the verdict for an expected license: refused when not allowed, accepted with score 1.0 on an exact normalised match, else decided by the best fuzzy score (UnknownLicenseRefused, ExactMatchAccepted, FuzzyVerdict) |
| LicenseContent.NoReferencesNoMatch | src/utils/license_content_validator.py:83-96 | with no references an allowed license is refused with score 0 and "No match found" |
| LicenseContent.LicenseContentValidator.constructor | src/utils/license_content_validator.py:27-31 | the references are those loaded from the directory, or none when it does not exist |
| LicenseContent.LicenseContentValidator.LoadReferenceLicenses | src/utils/license_content_validator.py:33-47 | the loop adds the normalised readable files, or changes nothing when the directory does not exist |
| LicenseContent.LicenseContentValidator.ValidateLicenseContent | src/utils/license_content_validator.py:60-96 | the loop computes the reference verdict |
| LicenseContent.LicenseContentValidator.ValidateLicenseFile | src/utils/license_content_validator.py:98-115 | a read error gives (false, 0, "Error reading file: " and the message); otherwise the verdict of the content |
| LicenseContent.LicenseContentValidator.GetAvailableLicenses | src/utils/license_content_validator.py:117-119 | exactly the names that have a reference |
| LicenseContent.LicenseContentValidator.GetAllowedLicenses | src/utils/license_content_validator.py:121-123 | exactly the allowed licenses |
| LicenseContent.NoDotNoTxt | src/utils/license_content_validator.py:293 | a text without '.' holds no ".txt" |
| LicenseContent.ReplaceTxtBefore | src/utils/license_content_validator.py:293 | a prefix without ".txt" passes the replacement unchanged |
| LicenseContent.DependencyOfLicenseFile | src/utils/license_content_validator.py:290-297 | "name-LICENSE.txt" gives the dependency name when the name holds no ".txt" |
| LicenseContent.FileDependencyName | src/utils/license_content_validator.py:290-297 | the name with ".txt" removed, less a trailing "-LICENSE", or none without one (DependencyOfLicenseFile, PlainFileHasNoDependency) |
| LicenseContent.PlainFileHasNoDependency | src/utils/license_content_validator.py:290-297 | a ".txt" name whose stem does not end in "-LICENSE" gives no dependency |
| LicenseContent.KeepAlnum | src/utils/license_content_validator.py:302-303 | only letters and digits are kept |
| LicenseContent.KeepAlnumAppend | src/utils/license_content_validator.py:302-303 | keeping letters and digits distributes over concatenation |
| LicenseContent.NamesMatchEquivalence | src/utils/license_content_validator.py:299-304 | matching names is reflexive, symmetric and transitive |
| LicenseContent.NamesMatch | src/utils/license_content_validator.py:299-304 | two names match when their lower-cased letters and digits agree; proved an equivalence that ignores case and separators |
| Strings.LowerTwice | src/utils/license_content_validator.py:302-303 | lower-casing is idempotent |
| LicenseContent.CaseIgnored | src/utils/license_content_validator.py:299-304 | a name matches its lower-cased form |
| LicenseContent.SeparatorIgnored | src/utils/license_content_validator.py:299-304 | two names differing only in one separator that is not a letter or digit match |
| LicenseContent.LicenseTypeOf | src/utils/license_content_validator.py:178-183 | the first entry's id when non-empty, else its expression, or the entry's text when it is not an object |
| LicenseContent.LicensedNamesSnoc | src/utils/license_content_validator.py:170-175 | a component without licenses adds no name |
| LicenseContent.ComponentLicensesKeys | src/utils/license_content_validator.py:167-176 | one key per name of a component with licenses, each once |
| LicenseContent.ComponentLicensesValue | src/utils/license_content_validator.py:170-175 | a name holds the license type of the last component with licenses under that name |
| LicenseContent.ComponentLicenses | src/utils/license_content_validator.py:167-176 | the map from each licensed component name to its license type, a later component of a name replacing an earlier one; BuildComponentLicensesMap is proved equal to it and ComponentLicensesKeys and ComponentLicensesValue state both |
| LicenseContent.FirstMatch | src/utils/license_content_validator.py:217-223 | none exactly when no name matches; otherwise the first entry in insertion order whose name matches |
| LicenseContent.FirstMatchAt | src/utils/license_content_validator.py:217-223 | the first matching index determines the result |
| LicenseContent.ProcessFileMeaning | src/utils/license_content_validator.py:194-288 | one file adds exactly one entry to one of the three lists, a match only for a matching component, an allowed license and a score of at least 0.8, and leaves coverage alone |
| LicenseContent.ProcessFile | src/utils/license_content_validator.py:194-288 | one license file's outcome added to the results; ProcessSingleLicenseFile is proved equal to it and ProcessFileMeaning states it |
| LicenseContent.ProcessFilesMeaning | src/utils/license_content_validator.py:189-192 | one entry per third-party file of an artifact, others skipped, all matches sound |
| LicenseContent.ProcessAllMeaning | src/utils/license_content_validator.py:185-192 | one entry per third-party file over all artifacts, all matches sound |
| LicenseContent.SubsetCard | src/utils/license_content_validator.py:160-163 | the matched components are no more than the components |
| LicenseContent.MatchReportMeaning | src/utils/license_content_validator.py:133-165 | each third-party file reported once, matches sound, coverage within 0 and 100 and 100 exactly when every component of a non-empty map is matched |
| LicenseContent.MatchReport | src/utils/license_content_validator.py:133-165 | the matching of every third-party file against the SBOM components; MatchLicensesToComponents is proved equal to it and MatchReportMeaning states it |
| LicenseContent.LicenseContentMatcher.constructor | src/utils/license_content_validator.py:129-131 | keeps the validator |
| LicenseContent.LicenseContentMatcher.MatchLicensesToComponents | src/utils/license_content_validator.py:133-165 | computes the reference report with the validator's references |
| LicenseContent.LicenseContentMatcher.BuildComponentLicensesMap | src/utils/license_content_validator.py:167-176 | the loop builds the reference component map |
| LicenseContent.LicenseContentMatcher.ProcessLicenseFiles | src/utils/license_content_validator.py:185-192 | the nested loop gives the reference processing of all files |
| LicenseContent.LicenseContentMatcher.ProcessSingleLicenseFile | src/utils/license_content_validator.py:194-288 | one file's outcome, through the four recording helpers |
| LicenseContent.LicenseContentMatcher.FindMatchingComponent | src/utils/license_content_validator.py:217-223 | the search loop returns the first matching entry |
| GitHubClient.NewClient | src/utils/github_client.py:22-33 | a ValueError exactly when neither the argument nor GH_TOKEN is a non-empty string; otherwise the argument wins over GH_TOKEN |
| GitHubClient.FileContentMeaning | src/utils/github_client.py:35-73 | the text only for a fetched, non-empty file that decodes; an API error or any other failure gives None |
| GitHubClient.GetFileContent | src/utils/github_client.py:35-73 | the decoded text of a fetched, non-empty file, and None for every API error or failure (FileContentMeaning) |
| GitHubClient.NamesOf | src/utils/github_client.py:132-150 | the names of the named items and nothing else, or the TypeError exactly when some named item's name is unhashable |
| GitHubClient.ExtractExceptionsFromData | src/utils/github_client.py:132-150 | the loop computes the reference name set |
| GitHubClient.ExtractExceptions | src/utils/github_client.py:132-150 | the names of the "exceptions" list of an object, the empty set for any other shape, or the TypeError of an unhashable name (NamesOf, OnlyNamedItemsCount) |
| GitHubClient.NamesOfErrSticks | src/utils/github_client.py:146-148 | once adding a name has raised, later items do not matter |
| GitHubClient.ParseExceptionsMeaning | src/utils/github_client.py:112-130 | no JSON or no "exceptions" list gives the empty set; otherwise the names of the named items |
| GitHubClient.ParseExceptionsJson | src/utils/github_client.py:112-130 | the extracted names, and the empty set when the text does not decode or the extraction raises (ParseExceptionsMeaning) |
| GitHubClient.OnlyNamedItemsCount | src/utils/github_client.py:140-148 | items without a name, or that are not objects, are skipped |
| GitHubClient.GetScaExceptions | src/utils/github_client.py:75-110 | the result has exactly the two keys, and each key holds what its own file yields: the names of a fetched, non-empty, decodable list, otherwise nothing |
| GitHubClient.MissingFileEmptiesOnlyItsKey | src/utils/github_client.py:93-107 | a file that cannot be had or is empty yields the empty set |
| Buildinfo.Subscript | src/utils/buildinfo.py:13 | a found subscript is the object's field or the non-empty list's first item |
| Buildinfo.NavigateFound | src/utils/buildinfo.py:13 | a chain of subscripts continues from the value the first one finds |
| Buildinfo.BuildInfo.GetProperty | src/utils/buildinfo.py:11-15 | a value other than the default was found under buildInfo.properties |
| Buildinfo.BuildInfo.GetModuleProperty | src/utils/buildinfo.py:17-21 | a value other than the default was found under the first module's properties |
| Buildinfo.BuildInfo.GetVersion | src/utils/buildinfo.py:23-27 | a version holds no ':' |
| Buildinfo.BuildInfo.GetArtifactsToPublish | src/utils/buildinfo.py:43-47 | an error in the build-property lookup, evaluated first as the default argument, is an error of the whole call |
| Buildinfo.BuildInfo.IsPublic | src/utils/buildinfo.py:49-54 | a string list is public exactly when it is non-empty and holds "org.sonarsource"; true only for a truthy list |
| Buildinfo.SectionOfDocument | src/utils/buildinfo.py:13 | subscripting buildInfo and a key of a build reaches that section |
| Buildinfo.PropertyOfBuild | src/utils/buildinfo.py:11-15 | the build property, or the default exactly when the key is missing |
| Buildinfo.ModulePropertyOfBuild | src/utils/buildinfo.py:17-21 | the first module's property; the default when there is no module or no such key |
| Buildinfo.VersionOfBuild | src/utils/buildinfo.py:23-27 | the text after the last ':' of the first module's id; None without modules |
| Buildinfo.VersionIsLastField | src/utils/buildinfo.py:25 | an id "prefix:version" with a colon-free version gives that version |
| Buildinfo.ReposOfBuild | src/utils/buildinfo.py:29-41 | the first status's repository with its last '-' field replaced by builds and releases, in the order revoke asks; none without a status |
| Buildinfo.BuildInfo.GetSourceAndTargetRepos | src/utils/buildinfo.py:29-41 | the first status's repository with its last '-' field turned into builds and releases, swapped when revoking; (None, None) without a status (ReposOfBuild, RevokeSwaps, ReposSwapTheType) |
| Buildinfo.RevokeSwaps | src/utils/buildinfo.py:33-39 | revoking swaps the source and the target |
| Buildinfo.ReplaceOnlyAtEnd | src/utils/buildinfo.py:34-38 | replacing a text that occurs only at the end replaces just that end |
| Buildinfo.ReposSwapTheType | src/utils/buildinfo.py:29-39 | "base-type", whose type occurs nowhere else, goes from base-builds to base-releases, and back when revoking |
| Buildinfo.ArtifactsOfBuild | src/utils/buildinfo.py:43-47 | the module's list whenever its key exists, even empty; otherwise the build property, else null |
| Buildinfo.PackageOfFirstEntry | src/utils/buildinfo.py:56-69 | a list starting with a space-free entry "group:rest" has that group as package |
| Buildinfo.BuildInfo.GetPackage | src/utils/buildinfo.py:56-69 | the stripped group of the first comma-separated artifact entry, none when the list is falsy, blank or the entry has no ':' (PackageOfFirstEntry, NoGroupSeparatorNoPackage) |
| Buildinfo.PackageText | src/utils/buildinfo.py:60-68 | the first entry of such a list is non-empty, has two or more ':' fields, and its first is the group |
| Buildinfo.StrippedFirstEntry | src/utils/buildinfo.py:60-63 | a space-free, comma-free first entry is taken whole |
| Buildinfo.FirstEntry | src/utils/buildinfo.py:60 | the first ',' field of a list starting with a comma-free entry is that entry |
| Buildinfo.GroupOfEntry | src/utils/buildinfo.py:66-68 | a space-free "group:rest" has the group as the first of at least two ':' fields |
| Buildinfo.NoGroupSeparatorNoPackage | src/utils/buildinfo.py:63-69 | a first entry without ':' names no package |
| Artifactory.ParseArtifactString | src/utils/artifactory.py:94-144 | None exactly when there are fewer than three ':' fields; otherwise the group and artifact are the first two |
| Artifactory.ParseCoordinates | src/utils/artifactory.py:97-144 | parsing the colon-joined coordinates of an artifact of every supported shape gives it back |
| Artifactory.ParseShortCoordinates | src/utils/artifactory.py:131-134 | "group:artifact:extension" takes its version from the context |
| Artifactory.Repository | src/utils/artifactory.py:157-163 | one of the four repositories, a NuGet one exactly for a nupkg extension in any case, a private one exactly for a "com." group |
| Artifactory.MavenFilename | src/utils/artifactory.py:185-189 | "artifact-version", then "-classifier" when there is one, then ".extension" |
| Artifactory.Filename | src/utils/artifactory.py:166-192 | the actual file name when there is one, "sonarqube-version.zip" for sonar-application, otherwise the Maven file name |
| Artifactory.WithoutRepox | src/utils/artifactory.py:171-174 | a trailing "/repox" is removed, anything else kept |
| Artifactory.WithoutRepoxOfSuffixed | src/utils/artifactory.py:196-199 | removing the suffix from host + "/repox" gives the host |
| Artifactory.GroupPathHasNoDot | src/utils/artifactory.py:179 | a group path holds no '.' |
| Artifactory.GroupPathOfTwoParts | src/utils/artifactory.py:179 | "org.name" becomes "org/name" |
| Artifactory.UrlUnderRepository | src/utils/artifactory.py:165-200 | every URL starts with the repository root and ends with the file name |
| Artifactory.ArtifactUrl | src/utils/artifactory.py:165-200 | the repository root, the Maven folders (none for an actual file name) and the file name; UrlUnderRepository proves its bounds |
| Artifactory.DownloadSingleArtifact | src/utils/artifactory.py:146-223 | a download was fetched from the artifact's URL and carries its file name; a failure gives None |
| Artifactory.BuildNumber | src/utils/artifactory.py:56 | the build number holds no '.' |
| Artifactory.DownloadsStep | src/utils/artifactory.py:76-85 | each entry adds its own downloads after those of the earlier entries |
| Artifactory.Downloads | src/utils/artifactory.py:74-88 | the downloads of the entries in list order, each entry adding none or one; DownloadEach is proved equal to it and DownloadsSound and DownloadsComplete state it |
| Artifactory.DownloadEach | src/utils/artifactory.py:74-88 | the loop computes the reference downloads |
| Artifactory.DownloadArtifactsFromBuildInfo | src/utils/artifactory.py:52-92 | the reference result, with the fallback artifact used for an empty list and errors wrapped |
| Artifactory.ArtifactsList | src/utils/artifactory.py:59-72 | the build's own list when it is not blank, else the fallback artifact, else none; an error in either lookup propagates |
| Artifactory.DownloadedFromBuildInfo | src/utils/artifactory.py:52-92 | the downloads of the list's entries in order, none for no list, every failure wrapped as "Failed to download artifacts: "; DownloadArtifactsFromBuildInfo is proved equal to it |
| Artifactory.NothingToPublish | src/utils/artifactory.py:62-72 | a blank list with no fallback downloads nothing |
| Artifactory.DownloadsSound | src/utils/artifactory.py:74-88 | no more downloads than entries, each from a non-blank entry that parses, under the file name its coordinates give |
| Artifactory.DownloadsComplete | src/utils/artifactory.py:74-88 | well-formed entries and successful reads give exactly one download per entry |
| ReleasabilityStatus.FailedChecks | releasability-status/src/main.py:11-16 | no more failed names than result entries |
| ReleasabilityStatus.CheckName | releasability-status/src/main.py:15 | the key with every leading letter of "releasability" stripped, as `lstrip` does (CheckNameOfCamelCase, CheckNameOverStrips) |
| ReleasabilityStatus.FindFailedChecks | releasability-status/src/main.py:11-16 | the loop computes the reference list of failed names |
| ReleasabilityStatus.FailedChecksMembers | releasability-status/src/main.py:13-15 | a name is reported exactly when some failing "releasability" key yields it |
| ReleasabilityStatus.IsFailure | releasability-status/src/main.py:14 | a key starting with "releasability" whose value is neither PASSED nor NOT_RELEVANT (FailedChecksMembers, OtherKeysIgnored) |
| ReleasabilityStatus.OtherKeysIgnored | releasability-status/src/main.py:14 | a key not starting with "releasability", such as "status", changes nothing |
| ReleasabilityStatus.FailedChecksAppend | releasability-status/src/main.py:13-15 | the failed names follow the key order |
| ReleasabilityStatus.CheckNameOfCamelCase | releasability-status/src/main.py:15 | a name whose first letter is outside the stripped set survives whole |
| ReleasabilityStatus.CheckNameOverStrips | releasability-status/src/main.py:15 | a name made only of the letters of "releasability" is lost entirely |
| ReleasabilityStatus.ParseReleasabilityOutput | releasability-status/src/main.py:18-37 | the outputs set, in order, or the KeyError without a status |
| ReleasabilityStatus.Outputs | releasability-status/src/main.py:18-37 | status, state and message, or the KeyError without a status; ThreeOutputs, SuccessMeaning and StatusZeroPasses state what they mean |
| ReleasabilityStatus.ThreeOutputs | releasability-status/src/main.py:18-37 | a run succeeds exactly when the result has a status, and then emits status, state and message in that order |
| ReleasabilityStatus.SuccessMeaning | releasability-status/src/main.py:19-37 | the state is success exactly when the status is "0" or every failed check is optional; success reports status "0", failure the original status |
| ReleasabilityStatus.StatusZeroPasses | releasability-status/src/main.py:19-23 | a status of "0" passes whatever the checks report and whatever is optional |
| ReleasabilityStatus.NoFailedCheckSucceeds | releasability-status/src/main.py:29-33 | a non-zero status with no failed check still reports success |
| ReleasabilityStatus.NoFailureReported | releasability-status/src/main.py:11-16 | no failing key gives no failed name |
| Release.GetAction | release/utils/release.py:22-26 | "deleting" exactly when revoking, "publishing" exactly when not |
| Release.FilenameShape | release/utils/release.py:56-58 | every file name starts with "artifact-version" and ends with ".ext" |
| Release.ReleaseFilename | release/utils/release.py:56-58 | "aid-version.ext", with "-qual" before ".ext" when there is a qualifier (FilenameShape, QualifiersKeepFilesApart) |
| Release.QualifiersKeepFilesApart | release/utils/release.py:56-58 | two different qualifiers of one artifact never share a file name |
| Release.Collaborators.constructor | release/utils/release.py:7 | nothing called yet |
| Release.Collaborators.Call | release/utils/release.py:8-10 | one call is recorded, and raises as the collaborator decides |
| Release.Collaborators.DownloadFile | release/utils/release.py:62 | a download is recorded and gives the file it wrote |
| Release.PublishArtifact | release/utils/release.py:44-63 | the calls made and the error raised are those of the reference run |
| Release.ArtifactRun | release/utils/release.py:44-63 | the calls for one entry: an IndexError with fewer than three fields, one deletion when revoking, else a download and, if it does not raise, an upload (RevokeOnlyDeletes, PublishDownloadsThenUploads, EntryCoordinates) |
| Release.RevokeOnlyDeletes | release/utils/release.py:59-60 | revoking an entry makes one deletion and no transfer |
| Release.PublishDownloadsThenUploads | release/utils/release.py:53 | publishing downloads from the releases repository first, and uploads the downloaded file under the bucket name exactly when the download did not raise |
| Release.EntryCoordinates | release/utils/release.py:46-60 | a "gid:aid:ext:qual" entry deletes the file its coordinates name |
| Release.PublishAllArtifactsToBinaries | release/utils/release.py:29-41 | the calls made and the error raised are those of the reference run |
| Release.AllArtifactsRun | release/utils/release.py:29-41 | no deploy repository raises at `.replace`; an empty list calls nothing; otherwise the entries' runs in order, stopping at the first error (ErrorStopsEntries, OneStepPerEntry, RevokeNeverTransfers) |
| Release.PublishEntries | release/utils/release.py:36-41 | the loop makes one entry's calls after another, stopping at the first error |
| Release.EntriesRun | release/utils/release.py:36-41 | the entries' runs one after another, stopping at the first error; PublishEntries is proved equal to it and ErrorStopsEntries and OneStepPerEntry state it |
| Release.ErrorStopsEntries | release/utils/release.py:39-41 | once an entry has raised, later entries are not attempted |
| Release.OneStepPerEntry | release/utils/release.py:39-41 | with no failing call, each well-formed entry costs one deletion, or a download and an upload |
| Release.RevokeNeverTransfers | release/utils/release.py:29-63 | revoking every artifact only ever deletes |
| Release.NothingToPublish | release/utils/release.py:33-34 | an empty publish list calls nothing |
| Release.RevokeRelease | release/utils/release.py:7-19 | the calls made and the error raised are those of the reference run: the build-info read, the un-promotion, then the deletions |
| Release.RevokeRun | release/utils/release.py:7-19 | the build-info read, then the un-promotion, then when the build has binaries the revoking run of all artifacts, each stopping at its error; RevokeOrder states the order |
| Release.RevokeOrder | release/utils/release.py:7-19 | the build info is read first and the release un-promoted second; a read that raises stops everything with its error, an un-promotion that raises stops the rest with its error, and without binaries nothing follows the un-promotion |
| ReleaseTag.DigitRun | release/main.py:47 | the length of the leading run of digits |
| ReleaseTag.AfterNumber | release/main.py:47 | what is left after a digit run is a strictly shorter suffix |
| ReleaseTag.DigitRunOf | release/main.py:47 | digits followed by a non-digit are taken exactly |
| ReleaseTag.NumberThen | release/main.py:47 | a number followed by a non-digit leaves that tail |
| ReleaseTag.DotNumberThen | release/main.py:47 | "." and a number leave the tail |
| ReleaseTag.MilestoneThen | release/main.py:47 | an optional "-M" milestone is consumed when present |
| ReleaseTag.CoreSteps | release/main.py:47 | the shared part is read as number, dot-number, dot-number, milestone |
| ReleaseTag.CoreOfTag | release/main.py:47 | the shared part consumes exactly the core of a well-formed tag |
| ReleaseTag.BuildAfterOf | release/main.py:47 | a '.' or '+' separator and a build number are accepted exactly at the end, or before one final newline |
| ReleaseTag.ReleaseTagAccepts | release/main.py:46-53 | every well-formed tag, with or without one final newline, is accepted and its build digits captured |
| ReleaseTag.ReleaseTagBuild | release/main.py:47 | a captured build number is a digit run; ReleaseTagAccepts and ReleaseTagSound prove it accepts exactly the well-formed tags |
| ReleaseTag.NumberSound | release/main.py:47 | what was consumed is a number |
| ReleaseTag.DotNumberSound | release/main.py:47 | what was consumed is "." and a number |
| ReleaseTag.MilestoneSound | release/main.py:47 | what was consumed is a milestone or nothing |
| ReleaseTag.CoreSound | release/main.py:47 | an accepted shared part is the core of some tag |
| ReleaseTag.BuildSound | release/main.py:47 | an accepted ending is a separator, a number and at most one newline |
| ReleaseTag.ReleaseTagSound | release/main.py:46-53 | only a well-formed tag, possibly followed by one newline, is accepted, and its build is captured |
| ReleaseTag.SeparatorsAlike | release/main.py:47 | the same parts are accepted alike with '.' or '+' |
| ReleaseTag.TrailingTextRefused | release/main.py:47-51 | text after the build number other than one newline is refused |
| ReleaseTag.TagVersionOfTagRef | release/main.py:44 | a tag ref gives the tag name |
| ReleaseTag.TagVersion | release/main.py:44 | the ref with its first "refs/tags/" removed; TagVersionOfTagRef proves a tag ref gives the tag name |
| ReleaseTag.SplitRepo | release/main.py:43 | exactly two '/' parts unpack, and they rebuild the repository |
| ReleaseTag.SplitRepoOf | release/main.py:43 | "organisation/project" unpacks to its two parts |
| ReleaseTag.ReleaseStart | release/main.py:38-53 | a ValueError exactly when the repository is not two parts, the exit exactly when the tag does not match; else the version and a numeric build number |
| LegacyTag.LegacyAcceptsPrefix | main.py:41 | a '.'-separated tag is accepted whatever follows it |
| LegacyTag.LegacyAccepts | main.py:41 | `re.match` of the legacy pattern: the shared part followed by '.' and a digit, whatever comes after (LegacyAcceptsPrefix, LegacySound, PlusRefused) |
| LegacyTag.LegacySound | main.py:41 | only a version starting with a '.'-separated tag is accepted |
| LegacyTag.DotNumberStartsSound | main.py:41 | an accepted ending starts with '.' and a number |
| LegacyTag.PlusRefused | main.py:41 | the '+' form is never accepted |
| LegacyTag.LegacyBuildOfTag | main.py:45 | the build number is the text after the last '.', trailing text included |
| LegacyTag.LegacyBuildNumber | main.py:45 | the text after the last '.' (LegacyBuildOfTag) |
| LegacyTag.GrammarsAgree | main.py:41-45 | on a '.'-separated tag with nothing after it both actions accept and agree on the build number |
| LegacyTag.LegacyStart | main.py:36-45 | a ValueError exactly when the repository is not two parts, the exit exactly when the tag is refused; else the version and the text after its last '.' |

## Left out

- AWS transport is not modelled: boto3 SNS publish, SQS receive and delete, and the STS account lookup. Polls are an input sequence of batches, the publish is a recorded request, and the ten-minute timeout is the end of that sequence.
- `has_exceeded_timeout` and `utils/timeout.py` are not part of this model. Timing is reduced to the number of polls available.
- Filesystem and archive I/O is not modelled: zipfile, tarfile, tempfile, os.walk, open. A snapshot input gives which directories exist and what each walk and read yields. The clock value written as `last_updated` with the exception files is a parameter.
- `difflib.SequenceMatcher.ratio` is an uninterpreted function into [0, 1]. Floating-point arithmetic is replaced by exact reals.
- The PyGithub objects and `GitHubClient.test_connection` are left out: they are network calls. `get_file_content` takes the outcome of the API call as input.
- `ArtifactoryPath` reads and writes, `Artifactory.get_build_info`'s HTTP request, and the size of a downloaded file are given as inputs.
- `BuildInfo.get_first_suitable_artifact` is not defined in `src/utils/buildinfo.py`. It is a parameter of the download step.
- `src/utils/sonarqube.py`, `src/utils/github_action_helper.py` and `src/main.py` are not part of this model. They are HTTP clients and CI glue, and `src/main.py` depends on the report class, which is not shown.
- `release/main.py` and `main.py` are modelled only up to the build number. The GitHub release info, Slack, promotion and the binaries upload that follow are left out.
- `releasability-status/src/main.py`'s `__main__` block is left out. It reads environment variables and a JSON file; the model starts from the decoded result.
- `set_output` and GitHub Actions output plumbing appear in the model as the returned sequence of outputs.
- The `upload_checksums` argument of `artifactory.download` is not recorded in the Download action, and neither are `print` and logging calls anywhere.
- Release.ArtifactRun: the version is a string, so a build info without modules, where Python would render "None" into the file name, is not modelled.
- ScaExceptions.PySet, ScaExceptions.ScaExceptionManager.SaveFalsePositives and ScaExceptions.ScaExceptionManager.SaveFalseNegatives: an exceptions list holding numbers, booleans or `null` is modelled as if those items were absent. Python would keep them in the set; the model keeps only strings. In Python a set mixing such items with names also makes `sorted(exceptions)` in `_save_exceptions` raise TypeError (sca_exceptions.py:92), which is caught at :101, so the file is not written; the model's sets hold only strings, so its saves always write the payload when the write itself succeeds.
- Artifactory.DownloadSingleArtifact: the temporary path is `Path(tempfile.gettempdir()) / filename` (artifactory.py:204). The model joins the two as `os.path.join` would (Strings.PathJoin); pathlib's collapsing of "//" and "./", and its dropping of the trailing "/" for an empty name, are not modelled.
- Python's Unicode semantics of `\d`, `\s`, `isspace` and `lower()` are not modelled. Digits, whitespace and case are ASCII.
- Ratio and coverage values are exact reals, not IEEE doubles, so rounding in `matched / total * 100` is not modelled.
- LicenseUtils.LowCoverageIssue: `{:.1f}` is modelled on the exact percentage, to the nearest tenth with an exact tie going to the even digit. A percentage that is not exact as a double can print differently: 1/2000 gives 0.05, which Python stores slightly above 0.05 and prints as "0.1", while the model prints "0.0".
- LicenseUtils.LpsValidator.ValidateArtifacts, LicenseContent.LicenseTypeOf and LicenseContent.ComponentLicenses: the `except` branch (license_utils.py:363-366) is not modelled. In Python it sets `lps_compliant` to False and appends "Validation error: …". An SBOM is a typed list of components here. So `"components": null` (`len(None)` in `load_sbom`) and a component that is not an object (`component.get` in `_extract_component_names`) cannot be expressed, and neither can the exception they raise. Likewise a component's `licenses` is a list here, so the non-list value that `_extract_license_type` also accepts (license_content_validator.py:180, `licenses[0] if isinstance(licenses, list) else licenses`) is not modelled.
- ReleasabilityService.GetCheckResults and ReleasabilityService.FetchFilteredCheckResults: a queue message is a record that always has a check name, a type and a request id. So the KeyError that Python raises out of the poll loop for a message missing "checkName", "type" or "requestUUID" is not modelled.
- ReleasabilityService.ReleasabilityService.StartLambdaChecks and ReleasabilityService.ReleasabilityService.StartReleasabilityChecks: `VersionHelper.validate_version`, called at releasability_service.py:280, is not defined in `src/utils/version_helper.py`, so as written every call raises AttributeError before anything is published. The model replaces that call by the check it is evidently meant to make, "a build number can be extracted", and fails with ExtractBuildNumber's error otherwise; the AttributeError itself is not modelled.
- Artifactory.DownloadedFromBuildInfo and every other member that raises: exception texts are fixed strings, not Python's `str(e)`. In `Buildinfo` a raised exception is its class name alone: TypeErrorText is "TypeError", AttributeErrorText is "AttributeError", and a missing first item gives "IndexError", where Python's message would be, say, "'int' object has no attribute 'strip'". Release's IndexErrorText and AttributeErrorText and ReleasabilityStatus's KeyErrorText are written as a traceback's last line, "class: message". Artifactory.DownloadedFromBuildInfo wraps the `Buildinfo` class name after "Failed to download artifacts: ", where Python would wrap the message. Which failure happens, and where, is modelled exactly.
- Python set iteration order in `execute_inline_checks` is an arbitrary order chosen by the model. Results are proved for every order.
- Concurrency is not modelled: every action runs single-threaded.

## Findings

| source | as written | input that shows it | evidently intended | confidence | as-written member | corrected member |
|---|---|---|---|---|---|---|
| src/releasability/releasability_check_result.py:52 | each detail item line begins with the three characters "â€¢", which is the UTF-8 encoding of U+2022 read back as Windows-1252 | a detail entry whose value is the list ["x"] renders "  â€¢ x" | the bullet U+2022, so "  • x" | not executed | CheckResult.AsWrittenDetailExample | CheckResult.IntendedRender |
