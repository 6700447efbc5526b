/**
 * The Python `str` operations that the modelled code relies on, restricted to
 * ASCII text: `split` on a one-character separator, `join`, `startswith`,
 * `endswith`, `in`, `replace` (also with an empty pattern), `strip`, `lstrip`
 * with a character set, `lower`, `str(int)`, `int(str)` and `sorted` on strings.
 */
module Strings {
  import opened Wrappers

  /** The ASCII characters for which `str.isspace()` holds; `\s` matches the same ones. */
  const Whitespace: set<char> :=
    {' ', '\t', '\n', '\r', '\U{B}', '\U{C}', '\U{1C}', '\U{1D}', '\U{1E}', '\U{1F}'}

  predicate IsSpace(c: char) {
    c in Whitespace
  }

  predicate IsDigit(c: char) {
    '0' <= c <= '9'
  }

  predicate IsAlnum(c: char) {
    IsDigit(c) || 'a' <= c <= 'z' || 'A' <= c <= 'Z'
  }

  predicate IsUpper(c: char) {
    'A' <= c <= 'Z'
  }

  function LowerChar(c: char): char {
    if IsUpper(c) then (c as int + 32) as char else c
  }

  /** `str.lower()` on ASCII. */
  function Lower(s: string): (r: string)
    ensures |r| == |s|
    ensures forall i :: 0 <= i < |s| ==> r[i] == LowerChar(s[i])
  {
    if s == [] then [] else [LowerChar(s[0])] + Lower(s[1..])
  }

  lemma LowerAppend(a: string, b: string)
    ensures Lower(a + b) == Lower(a) + Lower(b)
  {
  }

  lemma LowerTwice(s: string)
    ensures Lower(Lower(s)) == Lower(s)
  {
  }

  lemma LowerHasNoUpper(s: string)
    ensures forall i :: 0 <= i < |Lower(s)| ==> !IsUpper(Lower(s)[i])
  {
  }

  predicate StartsWith(s: string, prefix: string) {
    |prefix| <= |s| && s[..|prefix|] == prefix
  }

  predicate EndsWith(s: string, suffix: string) {
    |suffix| <= |s| && s[|s| - |suffix|..] == suffix
  }

  /** A concatenation starts with its first part and ends with its last. */
  lemma ConcatEnds(a: string, b: string, c: string)
    ensures StartsWith(a + b + c, a) && EndsWith(a + b + c, c)
  {
    var s := a + b + c;
    assert s == a + (b + c);
    assert s[..|a|] == a;
    assert s[|s| - |c|..] == c;
  }

  /** Python's `sub in s` for strings. */
  predicate Contains(s: string, sub: string)
    decreases |s|
  {
    StartsWith(s, sub) || (|s| > 0 && Contains(s[1..], sub))
  }

  lemma ContainsConcat(a: string, sub: string, b: string)
    ensures Contains(a + sub + b, sub)
    decreases |a|
  {
    if a == [] {
      assert (a + sub + b)[..|sub|] == sub;
    } else {
      assert (a + sub + b)[1..] == a[1..] + sub + b;
      ContainsConcat(a[1..], sub, b);
    }
  }

  /** `str.lstrip(chars)`: drops every leading character that is in `chars`. */
  function LStripChars(s: string, chars: set<char>): (r: string)
    ensures |r| <= |s| && r == s[|s| - |r|..]
    ensures r == [] || r[0] !in chars
    ensures forall i :: 0 <= i < |s| - |r| ==> s[i] in chars
  {
    if |s| > 0 && s[0] in chars then LStripChars(s[1..], chars) else s
  }

  function RStripChars(s: string, chars: set<char>): (r: string)
    ensures |r| <= |s| && r == s[..|r|]
    ensures r == [] || r[|r| - 1] !in chars
  {
    if |s| > 0 && s[|s| - 1] in chars then RStripChars(s[..|s| - 1], chars) else s
  }

  /** `str.strip()`. */
  function Strip(s: string): (r: string)
    ensures r == [] || (!IsSpace(r[0]) && !IsSpace(r[|r| - 1]))
  {
    RStripChars(LStripChars(s, Whitespace), Whitespace)
  }

  lemma StripNoSpace(s: string)
    requires forall i :: 0 <= i < |s| ==> !IsSpace(s[i])
    ensures Strip(s) == s
  {
  }

  /** `s.split(sep)` for a one-character separator: never empty, `"".split(".") == [""]`. */
  function Split(s: string, sep: char): (r: seq<string>)
    ensures |r| >= 1
    decreases |s|
  {
    if s == [] then [""]
    else if s[0] == sep then [""] + Split(s[1..], sep)
    else
      var rest := Split(s[1..], sep);
      [[s[0]] + rest[0]] + rest[1..]
  }

  /** `sep.join(parts)`. */
  function Join(parts: seq<string>, sep: string): string {
    if |parts| == 0 then ""
    else if |parts| == 1 then parts[0]
    else parts[0] + sep + Join(parts[1..], sep)
  }

  function Last<T>(s: seq<T>): T
    requires |s| > 0
  {
    s[|s| - 1]
  }

  lemma {:induction false} SplitPartsLackSeparator(s: string, sep: char)
    ensures forall k :: 0 <= k < |Split(s, sep)| ==> sep !in Split(s, sep)[k]
    decreases |s|
  {
    if s != [] {
      SplitPartsLackSeparator(s[1..], sep);
    }
  }

  lemma {:induction false} SplitNoSeparator(s: string, sep: char)
    requires sep !in s
    ensures Split(s, sep) == [s]
    decreases |s|
  {
    if s != [] {
      assert sep !in s[1..];
      SplitNoSeparator(s[1..], sep);
      assert [s[0]] + s[1..] == s;
    }
  }

  lemma {:induction false} SplitConcat(a: string, sep: char, b: string)
    ensures Split(a + [sep] + b, sep) == Split(a, sep) + Split(b, sep)
    decreases |a|
  {
    if a == [] {
      assert a + [sep] + b == [sep] + b;
      assert ([sep] + b)[1..] == b;
    } else {
      assert (a + [sep] + b)[0] == a[0];
      assert (a + [sep] + b)[1..] == a[1..] + [sep] + b;
      SplitConcat(a[1..], sep, b);
      if a[0] == sep {
      } else {
        var rest := Split(a[1..], sep);
        assert Split(a[1..] + [sep] + b, sep) == rest + Split(b, sep);
        assert (rest + Split(b, sep))[0] == rest[0];
        assert (rest + Split(b, sep))[1..] == rest[1..] + Split(b, sep);
      }
    }
  }

  /** A separator-free head before the first separator is the first part. */
  lemma SplitCons(a: string, sep: char, b: string)
    requires sep !in a
    ensures Split(a + [sep] + b, sep) == [a] + Split(b, sep)
  {
    SplitConcat(a, sep, b);
    SplitNoSeparator(a, sep);
  }

  /** Joining the parts of a split back with the separator gives the original text. */
  lemma {:induction false} JoinSplit(s: string, sep: char)
    ensures Join(Split(s, sep), [sep]) == s
    decreases |s|
  {
    if s != [] {
      JoinSplit(s[1..], sep);
      var rest := Split(s[1..], sep);
      if s[0] == sep {
        assert Split(s, sep) == [""] + rest;
        assert s == [sep] + s[1..];
      } else {
        var parts := Split(s, sep);
        assert parts == [[s[0]] + rest[0]] + rest[1..];
        if |rest| == 1 {
          assert s == [s[0]] + s[1..];
        } else {
          assert parts[1..] == rest[1..];
          assert Join(rest, [sep]) == rest[0] + [sep] + Join(rest[1..], [sep]);
          assert s == [s[0]] + s[1..];
        }
      }
    }
  }

  /** Splitting a join of separator-free parts gives the parts back. */
  lemma {:induction false} SplitJoin(parts: seq<string>, sep: char)
    requires |parts| >= 1
    requires forall k :: 0 <= k < |parts| ==> sep !in parts[k]
    ensures Split(Join(parts, [sep]), sep) == parts
    decreases |parts|
  {
    if |parts| == 1 {
      SplitNoSeparator(parts[0], sep);
    } else {
      SplitJoin(parts[1..], sep);
      SplitNoSeparator(parts[0], sep);
      SplitConcat(parts[0], sep, Join(parts[1..], [sep]));
      assert parts[0] + [sep] + Join(parts[1..], [sep]) == Join(parts, [sep]);
      assert [parts[0]] + parts[1..] == parts;
    }
  }

  function IndexOf(s: string, pattern: string): (r: Option<nat>)
    ensures r.Some? ==> r.value + |pattern| <= |s| && s[r.value..r.value + |pattern|] == pattern
    decreases |s|
  {
    if StartsWith(s, pattern) then Some(0)
    else if s == [] then None
    else match IndexOf(s[1..], pattern)
      case None => None
      case Some(i) => Some(i + 1)
  }

  /** `s.replace(pattern, repl)`: every non-overlapping occurrence, scanning left to right. */
  function Replace(s: string, pattern: string, repl: string): string
    decreases |s|
  {
    if pattern == [] then ReplaceEmpty(s, repl)
    else if |s| < |pattern| then s
    else if s[..|pattern|] == pattern then repl + Replace(s[|pattern|..], pattern, repl)
    else [s[0]] + Replace(s[1..], pattern, repl)
  }

  /** `s.replace("", repl)` puts `repl` before every character and at the end. */
  function ReplaceEmpty(s: string, repl: string): string {
    if s == [] then repl else repl + [s[0]] + ReplaceEmpty(s[1..], repl)
  }

  /** `s.replace(pattern, repl, 1)`. */
  function ReplaceFirst(s: string, pattern: string, repl: string): string {
    match IndexOf(s, pattern)
    case None => s
    case Some(i) => s[..i] + repl + s[i + |pattern|..]
  }

  lemma {:induction false} ReplaceAbsent(s: string, pattern: string, repl: string)
    requires pattern != []
    requires !Contains(s, pattern)
    ensures Replace(s, pattern, repl) == s
    decreases |s|
  {
    if |s| >= |pattern| {
      assert !StartsWith(s, pattern);
      ReplaceAbsent(s[1..], pattern, repl);
      assert [s[0]] + s[1..] == s;
    }
  }

  // ---------------------------------------------------------------- numbers

  function DigitChar(d: nat): char
    requires d < 10
  {
    ('0' as int + d) as char
  }

  function DigitValue(c: char): nat
    requires IsDigit(c)
  {
    c as int - '0' as int
  }

  /** `str(n)` for a non-negative integer. */
  function NatToString(n: nat): (r: string)
    ensures |r| >= 1
    ensures forall i :: 0 <= i < |r| ==> IsDigit(r[i])
  {
    if n < 10 then [DigitChar(n)] else NatToString(n / 10) + [DigitChar(n % 10)]
  }

  /** `str(n)` for any integer. */
  function IntToString(n: int): string {
    if n < 0 then "-" + NatToString(-n) else NatToString(n)
  }

  predicate AllDigits(s: string) {
    forall i :: 0 <= i < |s| ==> IsDigit(s[i])
  }

  /** The value of a run of decimal digits. */
  function DigitsValue(s: string): nat
    requires AllDigits(s)
  {
    if s == [] then 0 else DigitsValue(s[..|s| - 1]) * 10 + DigitValue(s[|s| - 1])
  }

  lemma {:induction false} DigitsValueOfNatToString(n: nat)
    ensures DigitsValue(NatToString(n)) == n
  {
    if n >= 10 {
      DigitsValueOfNatToString(n / 10);
      var s := NatToString(n);
      assert s[..|s| - 1] == NatToString(n / 10);
    }
  }

  /** The digits-with-single-underscores body that Python's `int()` accepts after the sign. */
  predicate IntBody(s: string) {
    && |s| > 0
    && IsDigit(s[0]) && IsDigit(s[|s| - 1])
    && (forall i :: 0 <= i < |s| ==> IsDigit(s[i]) || s[i] == '_')
    && (forall i :: 0 < i < |s| && s[i] == '_' ==> s[i - 1] != '_')
  }

  function RemoveUnderscores(s: string): (r: string)
    ensures (forall i :: 0 <= i < |s| ==> IsDigit(s[i]) || s[i] == '_') ==> AllDigits(r)
  {
    if s == [] then [] else (if s[0] == '_' then [] else [s[0]]) + RemoveUnderscores(s[1..])
  }

  lemma {:induction false} RemoveUnderscoresOfDigits(s: string)
    requires AllDigits(s)
    ensures RemoveUnderscores(s) == s
  {
    if s != [] {
      RemoveUnderscoresOfDigits(s[1..]);
      assert [s[0]] + s[1..] == s;
    }
  }

  /**
   * Python's `int(s)` in base 10: surrounding whitespace, an optional sign,
   * then digits possibly separated by single underscores. None is the ValueError.
   */
  function ParseInt(s: string): Option<int> {
    var t := Strip(s);
    if t == [] then None
    else
      var negative := t[0] == '-';
      var body := if t[0] == '-' || t[0] == '+' then t[1..] else t;
      if !IntBody(body) then None
      else
        var magnitude: int := DigitsValue(RemoveUnderscores(body));
        Some(if negative then -magnitude else magnitude)
  }

  /** `int(str(n)) == n`. */
  lemma ParseIntOfNatToString(n: nat)
    ensures ParseInt(NatToString(n)) == Some(n)
  {
    var s := NatToString(n);
    assert forall i :: 0 <= i < |s| ==> !IsSpace(s[i]);
    StripNoSpace(s);
    assert IntBody(s) && s[0] != '-' && s[0] != '+';
    assert AllDigits(s);
    RemoveUnderscoresOfDigits(s);
    DigitsValueOfNatToString(n);
    assert DigitsValue(RemoveUnderscores(s)) == n;
  }

  // ---------------------------------------------------------------- POSIX paths

  /** `s.rfind(c)`: the last index of `c`, or -1. */
  function LastIndexOf(s: string, c: char): (r: int)
    ensures -1 <= r < |s|
    ensures r >= 0 ==> s[r] == c
    ensures forall j :: r < j < |s| ==> s[j] != c
  {
    if s == [] then -1
    else if s[|s| - 1] == c then |s| - 1
    else LastIndexOf(s[..|s| - 1], c)
  }

  /** Some character of `s[lo..hi]` is not a dot. */
  predicate HasNonDot(s: string, lo: int, hi: int)
    requires 0 <= lo <= hi <= |s|
  {
    exists i :: lo <= i < hi && s[i] != '.'
  }

  /**
   * `os.path.splitext(p)` on POSIX: the extension starts at the last dot of
   * the last path component, unless every character before that dot in the
   * component is a dot too (so ".bashrc" has no extension).
   */
  function SplitExt(p: string): (r: (string, string))
    ensures r.0 + r.1 == p
    ensures r.1 == [] || (r.1[0] == '.' && '.' !in r.1[1..] && '/' !in r.1)
  {
    var sepIndex := LastIndexOf(p, '/');
    var dotIndex := LastIndexOf(p, '.');
    if dotIndex > sepIndex && HasNonDot(p, sepIndex + 1, dotIndex) then
      assert forall j :: dotIndex < j < |p| ==> p[j] != '.' && p[j] != '/';
      (p[..dotIndex], p[dotIndex..])
    else (p, "")
  }

  /** A name whose stem has no slash and some non-dot character splits at its extension. */
  lemma SplitExtOf(stem: string, ext: string)
    requires '/' !in stem && HasNonDot(stem, 0, |stem|)
    requires |ext| > 0 && ext[0] == '.' && '.' !in ext[1..] && '/' !in ext
    ensures SplitExt(stem + ext) == (stem, ext)
  {
    var p := stem + ext;
    assert p[|stem|] == '.';
    assert forall j :: |stem| < j < |p| ==> p[j] == ext[j - |stem|] && ext[j - |stem|] in ext[1..];
    assert LastIndexOf(p, '.') == |stem|;
    assert forall j :: 0 <= j < |p| ==> p[j] != '/';
    assert LastIndexOf(p, '/') == -1;
    var i :| 0 <= i < |stem| && stem[i] != '.';
    assert p[i] == stem[i];
    assert p[..|stem|] == stem && p[|stem|..] == ext;
  }

  /** A name without a dot has no extension. */
  lemma SplitExtNoDot(p: string)
    requires '.' !in p
    ensures SplitExt(p) == (p, "")
  {
  }

  /** `os.path.join(root, name)`: an absolute name replaces the root. */
  function PathJoin(root: string, name: string): (r: string)
    ensures EndsWith(r, name)
    ensures StartsWith(name, "/") ==> r == name
  {
    var r :=
      if StartsWith(name, "/") then name
      else if root == [] || root[|root| - 1] == '/' then root + name
      else root + "/" + name;
    assert r[|r| - |name|..] == name;
    r
  }

  // ---------------------------------------------------------------- ordering

  /** Python's `<` on strings: lexicographic by code point. */
  predicate Less(a: string, b: string)
    decreases |a|
  {
    if a == [] then b != []
    else if b == [] then false
    else if a[0] != b[0] then a[0] < b[0]
    else Less(a[1..], b[1..])
  }

  lemma {:induction false} LessIrreflexive(a: string)
    ensures !Less(a, a)
    decreases |a|
  {
    if a != [] {
      LessIrreflexive(a[1..]);
    }
  }

  lemma {:induction false} LessAsymmetric(a: string, b: string)
    ensures Less(a, b) ==> !Less(b, a)
    decreases |a|
  {
    if a != [] && b != [] && a[0] == b[0] {
      LessAsymmetric(a[1..], b[1..]);
    }
  }

  lemma {:induction false} LessTransitive(a: string, b: string, c: string)
    requires Less(a, b) && Less(b, c)
    ensures Less(a, c)
    decreases |a|
  {
    if a != [] && a[0] == b[0] && b[0] == c[0] {
      LessTransitive(a[1..], b[1..], c[1..]);
    }
  }

  lemma {:induction false} LessTotal(a: string, b: string)
    ensures a == b || Less(a, b) || Less(b, a)
    decreases |a|
  {
    if a != [] && b != [] && a[0] == b[0] {
      LessTotal(a[1..], b[1..]);
      if a[1..] == b[1..] {
        assert a == [a[0]] + a[1..] && b == [b[0]] + b[1..];
      }
    }
  }

  predicate IsLeast(m: string, s: set<string>) {
    m in s && forall x :: x in s && x != m ==> Less(m, x)
  }

  lemma {:induction false} LeastExists(s: set<string>)
    requires s != {}
    ensures exists m :: IsLeast(m, s)
    decreases s
  {
    var x :| x in s;
    if s == {x} {
      assert IsLeast(x, s);
    } else {
      LeastExists(s - {x});
      var m :| IsLeast(m, s - {x});
      LessTotal(m, x);
      if Less(m, x) {
        assert IsLeast(m, s);
      } else {
        forall y | y in s && y != x
          ensures Less(x, y)
        {
          if y != m {
            LessTransitive(x, m, y);
          }
        }
        assert IsLeast(x, s);
      }
    }
  }

  lemma LeastUnique(s: set<string>)
    ensures forall m, n :: IsLeast(m, s) && IsLeast(n, s) ==> m == n
  {
    forall m, n | IsLeast(m, s) && IsLeast(n, s)
      ensures m == n
    {
      LessAsymmetric(m, n);
    }
  }

  predicate StrictlyIncreasing(r: seq<string>) {
    forall i, j :: 0 <= i < j < |r| ==> Less(r[i], r[j])
  }

  /** `sorted(s)` for a set of strings. */
  function SortedList(s: set<string>): (r: seq<string>)
    ensures |r| == |s|
    ensures forall x :: x in s <==> x in r
    ensures StrictlyIncreasing(r)
    decreases s
  {
    if s == {} then []
    else
      LeastExists(s);
      LeastUnique(s);
      var m :| IsLeast(m, s);
      var rest := SortedList(s - {m});
      assert forall j :: 0 <= j < |rest| ==> rest[j] in s - {m};
      [m] + rest
  }
}
