/**
 * Inline checks: checks that run inside the action rather than in the
 * remote service. Each has a name and, given the context of a release,
 * returns a check result (or raises).
 */
module InlineCheck {
  import opened Wrappers
  import opened Strings
  import opened CheckResult

  /** What a check needs to know about the release being checked. */
  datatype CheckContext = CheckContext(
    organization: string,
    repository: string,
    branch: string,
    version: string,
    commitSha: string)

  /** `str(context)`: organisation/repository#version@sha; the branch is not shown. */
  function ContextToString(c: CheckContext): string {
    c.organization + "/" + c.repository + "#" + c.version + "@" + c.commitSha
  }

  /** Two contexts that differ only in their branch print the same. */
  lemma ContextToStringIgnoresBranch(c: CheckContext, branch: string)
    ensures ContextToString(c.(branch := branch)) == ContextToString(c)
  {
  }

  /** The printed context starts with the organisation and a slash and ends with an at sign and the sha. */
  lemma ContextToStringShape(c: CheckContext)
    ensures StartsWith(ContextToString(c), c.organization + "/")
    ensures EndsWith(ContextToString(c), "@" + c.commitSha)
  {
    var s := ContextToString(c);
    assert s == (c.organization + "/") + (c.repository + "#" + c.version + "@" + c.commitSha);
    assert s == (c.organization + "/" + c.repository + "#" + c.version) + ("@" + c.commitSha);
  }

  /** What running a check produces: a result, or an exception with its text. */
  datatype Outcome = Returns(result: CheckResult) | Raises(error: string)

  /**
   * The inline checks. `CheckLicenses` is the one the action registers;
   * `Custom` stands for any other subclass, given by its name and behaviour.
   */
  datatype InlineCheck =
    | CheckLicenses
    | Custom(checkName: string, run: CheckContext -> Outcome)

  const CheckLicensesName: string := "CheckLicenses"

  function Name(check: InlineCheck): string {
    match check
    case CheckLicenses => CheckLicensesName
    case Custom(n, _) => n
  }

  const MessageHead: string := "License check for "
  const Placeholder: string := "placeholder implementation"

  function LicenseCheckMessage(repository: string): string {
    MessageHead + repository + " - " + Placeholder
  }

  lemma LicenseCheckMessageMentions(repository: string)
    ensures Contains(LicenseCheckMessage(repository), repository)
    ensures Contains(LicenseCheckMessage(repository), Placeholder)
  {
    var m := LicenseCheckMessage(repository);
    ContainsConcat(MessageHead, repository, " - " + Placeholder);
    assert m == MessageHead + repository + (" - " + Placeholder);
    ContainsConcat(MessageHead + repository + " - ", Placeholder, "");
    assert m == (MessageHead + repository + " - ") + Placeholder + "";
  }

  function Execute(check: InlineCheck, context: CheckContext): Outcome {
    match check
    case CheckLicenses =>
      Returns(NewCheckResult(CheckLicensesName, CheckPassed, Some(LicenseCheckMessage(context.repository)), None))
    case Custom(_, run) => run(context)
  }

  /** `str(check)`. */
  function ToString(check: InlineCheck): (s: string)
    ensures StartsWith(s, "InlineCheck(") && EndsWith(s, Name(check) + ")")
  {
    var s := "InlineCheck(" + Name(check) + ")";
    assert s == "InlineCheck(" + (Name(check) + ")");
    s
  }

  /** The license check passes for every release, under its own name, naming the repository. */
  lemma CheckLicensesPasses(context: CheckContext)
    ensures Execute(CheckLicenses, context).Returns?
    ensures var r := Execute(CheckLicenses, context).result;
      && r.name == Name(CheckLicenses)
      && r.state == CheckPassed
      && r.Passed()
      && r.details == []
      && r.message.Some?
      && Contains(r.message.value, context.repository)
      && Contains(r.message.value, Placeholder)
  {
    LicenseCheckMessageMentions(context.repository);
  }

  /** The license check's result depends on the repository only. */
  lemma CheckLicensesDependsOnRepositoryOnly(c1: CheckContext, c2: CheckContext)
    requires c1.repository == c2.repository
    ensures Execute(CheckLicenses, c1) == Execute(CheckLicenses, c2)
  {
  }
}
