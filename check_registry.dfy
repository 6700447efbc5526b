/**
 * The registry that knows which checks exist: the fixed set of checks that
 * the remote service runs ("lambda" checks) and the inline checks that are
 * registered by name at start-up.
 */
module CheckRegistry {
  import opened Wrappers
  import opened InlineCheck

  /** The checks the remote service runs for every release. */
  const LambdaCheckNames: set<string> := {
    "CheckDependencies",
    "QA",
    "Jira",
    "CheckPeacheeLanguagesStatistics",
    "QualityGate",
    "ParentPOM",
    "GitHub",
    "CheckManifestValues"
  }

  lemma LambdaCheckCount()
    ensures |LambdaCheckNames| == 8
  {
  }

  datatype RegistryError = KeyError(name: string)

  class CheckRegistry {
    var lambdaChecks: set<string>
    var inlineChecks: map<string, InlineCheck>

    constructor ()
      ensures lambdaChecks == LambdaCheckNames
      ensures inlineChecks == map[]
    {
      lambdaChecks := LambdaCheckNames;
      inlineChecks := map[];
    }

    /** Registers a check under its name, replacing any check of that name. */
    method RegisterInlineCheck(check: InlineCheck)
      modifies this
      ensures inlineChecks == old(inlineChecks)[Name(check) := check]
      ensures lambdaChecks == old(lambdaChecks)
      ensures GetInlineCheck(Name(check)) == Ok(check)
      ensures forall n :: n != Name(check) ==> GetInlineCheck(n) == old(GetInlineCheck(n))
      ensures GetAllCheckNames() == old(GetAllCheckNames()) + {Name(check)}
    {
      inlineChecks := inlineChecks[Name(check) := check];
    }

    /** The registered check of that name; KeyError when there is none. */
    function GetInlineCheck(name: string): (r: Result<InlineCheck, RegistryError>)
      reads this
      ensures r.Ok? <==> IsInlineCheck(name)
      ensures r.Ok? ==> r.value == inlineChecks[name]
      ensures r.Err? ==> r.error == KeyError(name)
    {
      if name in inlineChecks then Ok(inlineChecks[name]) else Err(KeyError(name))
    }

    function GetAllCheckNames(): (names: set<string>)
      reads this
      ensures forall n :: n in names <==> IsInlineCheck(n) || IsLambdaCheck(n)
    {
      lambdaChecks + inlineChecks.Keys
    }

    function GetInlineCheckNames(): (names: set<string>)
      reads this
      ensures forall n :: n in names <==> GetInlineCheck(n).Ok?
    {
      inlineChecks.Keys
    }

    function GetLambdaCheckNames(): (names: set<string>)
      reads this
      ensures forall n :: n in names <==> IsLambdaCheck(n)
    {
      lambdaChecks
    }

    predicate IsInlineCheck(name: string)
      reads this
    {
      name in inlineChecks
    }

    predicate IsLambdaCheck(name: string)
      reads this
    {
      name in lambdaChecks
    }
  }

  /** A fresh registry knows the eight remote checks and no inline check. */
  method NewRegistryContents() returns (lambdaNames: set<string>, inlineNames: set<string>)
    ensures lambdaNames == LambdaCheckNames && |lambdaNames| == 8
    ensures inlineNames == {}
  {
    var registry := new CheckRegistry();
    lambdaNames := registry.GetLambdaCheckNames();
    inlineNames := registry.GetInlineCheckNames();
    LambdaCheckCount();
  }

  /** Registering the license check makes it inline, and not a remote check. */
  method RegisterLicenseCheck() returns (isInline: bool, isLambda: bool, all: set<string>)
    ensures isInline && !isLambda
    ensures all == LambdaCheckNames + {CheckLicensesName}
  {
    var registry := new CheckRegistry();
    registry.RegisterInlineCheck(CheckLicenses);
    isInline := registry.IsInlineCheck(CheckLicensesName);
    isLambda := registry.IsLambdaCheck(CheckLicensesName);
    all := registry.GetAllCheckNames();
  }
}
