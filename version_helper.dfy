/**
 * Version strings of the form <MAJOR>.<MINOR>.<PATCH>.<BUILD NUMBER> as the
 * organisation uses them: extracting the build number, the semantic part,
 * and telling whether a string has the four-part shape.
 */
module VersionHelper {
  import opened Wrappers
  import opened Strings

  /** The ValueErrors the helpers raise. */
  datatype VersionError =
    | NotStandardized(version: string)   // not exactly four dot-separated parts
    | NotSemantic(version: string)       // fewer than three dot-separated parts
    | InvalidBuildNumber(text: string)   // the fourth part is not an integer literal

  function ErrorMessage(e: VersionError): string {
    match e
    case NotStandardized(v) =>
      "The provided version " + v + "  does not match the standardized format "
      + "used commonly across the organization: <MAJOR>.<MINOR>.<PATCH>.<BUILD NUMBER>"
    case NotSemantic(v) =>
      "The provided version " + v + "  does not follow semantic versioning "
      + "(at least 3 parts are required <MAJOR>.<MINOR>.<PATCH>)"
    case InvalidBuildNumber(t) =>
      "invalid literal for int() with base 10: '" + t + "'"
  }

  /** The build number is the fourth of exactly four dot-separated parts, read as `int()` reads it. */
  function ExtractBuildNumber(version: string): (r: Result<int, VersionError>)
    ensures r.Ok? ==> |Split(version, '.')| == 4 && ParseInt(Split(version, '.')[3]) == Some(r.value)
    ensures |Split(version, '.')| != 4 ==> r == Err(NotStandardized(version))
  {
    var parts := Split(version, '.');
    if |parts| != 4 then Err(NotStandardized(version))
    else match ParseInt(parts[3])
      case None => Err(InvalidBuildNumber(parts[3]))
      case Some(n) => Ok(n)
  }

  /** The first three dot-separated parts, joined back with dots. */
  function ExtractSemanticVersion(version: string): (r: Result<string, VersionError>)
    ensures r.Err? <==> |Split(version, '.')| < 3
    ensures r.Err? ==> r.error == NotSemantic(version)
  {
    var parts := Split(version, '.');
    if |parts| < 3 then Err(NotSemantic(version))
    else Ok(parts[0] + "." + parts[1] + "." + parts[2])
  }

  function IsValidSonarVersion(version: string): bool {
    if '.' !in version then false
    else |Split(version, '.')| == 4
  }

  /** A version is valid exactly when it has four dot-separated parts. */
  lemma ValidSonarVersionIffFourParts(version: string)
    ensures IsValidSonarVersion(version) <==> |Split(version, '.')| == 4
  {
    if '.' !in version {
      SplitNoSeparator(version, '.');
    }
  }

  /** Every version whose build number can be extracted is a valid version. */
  lemma BuildNumberImpliesValid(version: string)
    requires ExtractBuildNumber(version).Ok?
    ensures IsValidSonarVersion(version)
  {
    ValidSonarVersionIffFourParts(version);
  }

  function FourPartVersion(major: string, minor: string, patch: string, build: string): string {
    major + "." + minor + "." + patch + "." + build
  }

  lemma {:induction false} SplitFourParts(major: string, minor: string, patch: string, build: string)
    requires '.' !in major && '.' !in minor && '.' !in patch && '.' !in build
    ensures Split(FourPartVersion(major, minor, patch, build), '.') == [major, minor, patch, build]
  {
    var parts := [major, minor, patch, build];
    assert Join(parts, ".") == FourPartVersion(major, minor, patch, build) by {
      assert Join(parts[3..], ".") == build;
      assert Join(parts[2..], ".") == patch + "." + build;
      assert Join(parts[1..], ".") == minor + "." + patch + "." + build;
    }
    SplitJoin(parts, '.');
  }

  /** A version of three dot-free parts splits back into those parts. */
  lemma SplitThreeParts(major: string, minor: string, patch: string)
    requires '.' !in major && '.' !in minor && '.' !in patch
    ensures Split(major + "." + minor + "." + patch, '.') == [major, minor, patch]
  {
    var parts := [major, minor, patch];
    assert Join(parts, ".") == major + "." + minor + "." + patch by {
      assert Join(parts[2..], ".") == patch;
      assert Join(parts[1..], ".") == minor + "." + patch;
    }
    SplitJoin(parts, '.');
  }

  /** Writing a build number into the fourth place and extracting it gives it back. */
  lemma ExtractBuildNumberRoundTrip(major: string, minor: string, patch: string, build: nat)
    requires '.' !in major && '.' !in minor && '.' !in patch
    ensures ExtractBuildNumber(FourPartVersion(major, minor, patch, NatToString(build))) == Ok(build)
  {
    var b := NatToString(build);
    assert '.' !in b by {
      assert forall i :: 0 <= i < |b| ==> IsDigit(b[i]);
    }
    SplitFourParts(major, minor, patch, b);
    ParseIntOfNatToString(build);
  }

  /** The semantic part of a four-part version is everything before the last dot. */
  lemma SemanticVersionOfFourParts(major: string, minor: string, patch: string, build: string)
    requires '.' !in major && '.' !in minor && '.' !in patch && '.' !in build
    ensures ExtractSemanticVersion(FourPartVersion(major, minor, patch, build))
         == Ok(major + "." + minor + "." + patch)
    ensures FourPartVersion(major, minor, patch, build)
         == ExtractSemanticVersion(FourPartVersion(major, minor, patch, build)).value + "." + build
  {
    SplitFourParts(major, minor, patch, build);
  }

  /** Any version of three or more dot-free parts: the semantic version is its first three parts joined. */
  lemma SemanticVersionOfParts(parts: seq<string>)
    requires |parts| >= 3
    requires forall k :: 0 <= k < |parts| ==> '.' !in parts[k]
    ensures ExtractSemanticVersion(Join(parts, ".")) == Ok(parts[0] + "." + parts[1] + "." + parts[2])
  {
    SplitJoin(parts, '.');
  }

  /** A three-part version is its own semantic version. */
  lemma SemanticVersionOfThreeParts(major: string, minor: string, patch: string)
    requires '.' !in major && '.' !in minor && '.' !in patch
    ensures ExtractSemanticVersion(major + "." + minor + "." + patch)
         == Ok(major + "." + minor + "." + patch)
  {
    SemanticVersionOfParts([major, minor, patch]);
    assert Join([major, minor, patch], ".") == major + "." + minor + "." + patch by {
      assert Join([patch], ".") == patch;
      assert Join([minor, patch], ".") == minor + "." + patch;
    }
  }

  lemma SplitFourExample()
    ensures Split("1.2.3.1234", '.') == ["1", "2", "3", "1234"]
  {
    SplitJoin(["1", "2", "3", "1234"], '.');
    assert Join(["1", "2", "3", "1234"], ".") == "1.2.3.1234";
  }

  lemma SplitValidExample()
    ensures Split("3.2.1.12345", '.') == ["3", "2", "1", "12345"]
  {
    SplitJoin(["3", "2", "1", "12345"], '.');
    assert Join(["3", "2", "1", "12345"], ".") == "3.2.1.12345";
  }

  lemma SplitThreeExample()
    ensures Split("1.2.3", '.') == ["1", "2", "3"]
  {
    SplitJoin(["1", "2", "3"], '.');
    assert Join(["1", "2", "3"], ".") == "1.2.3";
  }

  lemma SplitTwoExample()
    ensures Split("42.2", '.') == ["42", "2"]
  {
    SplitJoin(["42", "2"], '.');
    assert Join(["42", "2"], ".") == "42.2";
  }

  lemma SplitFiveExample()
    ensures Split("5.4.3.2.1", '.') == ["5", "4", "3", "2", "1"]
  {
    SplitJoin(["5", "4", "3", "2", "1"], '.');
    assert Join(["5", "4", "3", "2", "1"], ".") == "5.4.3.2.1";
  }

  lemma NatToStringExample()
    ensures NatToString(1234) == "1234"
  {
  }

  lemma ParseIntExample()
    ensures ParseInt("1234") == Some(1234)
  {
    ParseIntOfNatToString(1234);
    NatToStringExample();
  }

  /** The build-number examples the helper is documented with. */
  lemma BuildNumberExamples()
    ensures ExtractBuildNumber("1.2.3.1234") == Ok(1234)
    ensures ExtractBuildNumber("1.2.3").Err?
    ensures ExtractBuildNumber("5.4.3.2.1").Err?
    ensures ExtractBuildNumber("42.2").Err?
  {
    SplitFourExample();
    SplitThreeExample();
    SplitFiveExample();
    SplitTwoExample();
    ParseIntExample();
  }

  /** The semantic-version examples the helper is documented with. */
  lemma SemanticVersionFourExample()
    ensures ExtractSemanticVersion("1.2.3.1234") == Ok("1.2.3")
  {
    SemanticVersionOfFourParts("1", "2", "3", "1234");
    assert FourPartVersion("1", "2", "3", "1234") == "1.2.3.1234";
    assert "1" + "." + "2" + "." + "3" == "1.2.3";
  }

  lemma SemanticVersionThreeExample()
    ensures ExtractSemanticVersion("4.3.2") == Ok("4.3.2")
  {
    SemanticVersionOfThreeParts("4", "3", "2");
    assert "4" + "." + "3" + "." + "2" == "4.3.2";
  }

  lemma SemanticVersionOnePartExample()
    ensures ExtractSemanticVersion("55").Err?
  {
    SplitNoSeparator("55", '.');
  }

  /** A two-part version has no semantic version. */
  lemma SemanticVersionRejects()
    ensures ExtractSemanticVersion("42.2").Err?
  {
    SplitTwoExample();
  }

  /** The validity examples the helper is documented with: a four-part version is valid, ... */
  lemma ValidVersionExample()
    ensures IsValidSonarVersion("3.2.1.12345")
  {
    SplitValidExample();
    assert "3.2.1.12345"[1] == '.';
  }

  /** ... and a three-part one is not. */
  lemma InvalidVersionExample()
    ensures !IsValidSonarVersion("3.2.1")
  {
    SplitThreeParts("3", "2", "1");
    assert "3" + "." + "2" + "." + "1" == "3.2.1";
    assert "3.2.1"[1] == '.';
  }
}
