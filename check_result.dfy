/**
 * The outcome of one releasability check: its name, its state
 * (PASSED, NOT_RELEVANT, FAILED, ERROR or anything else), an optional
 * message and an ordered dictionary of details, and the one-line report
 * that is printed for it.
 */
module CheckResult {
  import opened Wrappers
  import opened Strings

  const CheckOptionalPrefix: string := "✓"
  const SuccessPrefix: string := "✅"
  const FailurePrefix: string := "❌"
  const UnknownPrefix: string := "❓"

  const CheckPassed: string := "PASSED"
  const CheckNotRelevant: string := "NOT_RELEVANT"
  const CheckError: string := "ERROR"
  const CheckFailed: string := "FAILED"

  /** How many items of a list detail are shown before the rest is summarised. */
  const ShownItems: nat := 5

  /**
   * A detail value. A Python list becomes `Items` with the `str()` of each
   * element; any other value becomes `Scalar` with its `str()` and its truthiness.
   */
  datatype DetailValue =
    | Items(items: seq<string>)
    | Scalar(text: string, truthy: bool)

  /** A details dictionary, in insertion order. */
  type Details = seq<(string, DetailValue)>

  datatype CheckResult = CheckResult(name: string, state: string, message: Option<string>, details: Details)
  {
    /** The `passed` attribute, which the constructor derives from the state. */
    predicate Passed() {
      HasPassed(state)
    }
  }

  /** The constructor: missing details (None) and empty details both become `{}`. */
  function NewCheckResult(name: string, state: string, message: Option<string>, details: Option<Details>): (r: CheckResult)
    ensures r.name == name && r.state == state && r.message == message
    ensures details.Some? ==> r.details == details.value
    ensures details.None? ==> r.details == []
  {
    CheckResult(name, state, message, details.GetOr([]))
  }

  predicate HasPassed(state: string) {
    if state == CheckPassed then true
    else if state == CheckNotRelevant then true
    else if state == CheckFailed then false
    else if state == CheckError then false
    else false
  }

  function Prefix(state: string): string {
    if state == CheckPassed then SuccessPrefix
    else if state == CheckNotRelevant then CheckOptionalPrefix
    else if state == CheckFailed then FailurePrefix
    else if state == CheckError then FailurePrefix
    else UnknownPrefix
  }

  /** A check passed exactly when its report starts with the success or the optional mark. */
  lemma PassedIffGreenPrefix(state: string)
    ensures HasPassed(state) <==> Prefix(state) in {SuccessPrefix, CheckOptionalPrefix}
    ensures Prefix(state) == FailurePrefix <==> state in {CheckFailed, CheckError}
    ensures Prefix(state) == UnknownPrefix <==> state !in {CheckPassed, CheckNotRelevant, CheckFailed, CheckError}
  {
  }

  // ---------------------------------------------------------------- details

  /** The bullet that the item lines begin with, as the source text spells it. */
  const AsWrittenBullet: string := "\U{E2}\U{20AC}\U{A2}"

  /** The bullet character U+2022. */
  const Bullet: string := "•"

  function ItemLine(item: string, bullet: string): string {
    "  " + bullet + " " + item
  }

  function ItemLines(items: seq<string>, bullet: string): (lines: seq<string>)
    ensures |lines| == |items|
    ensures forall i :: 0 <= i < |items| ==> lines[i] == ItemLine(items[i], bullet)
  {
    if items == [] then []
    else ItemLines(items[..|items| - 1], bullet) + [ItemLine(items[|items| - 1], bullet)]
  }

  function Header(key: string, count: nat): string {
    key + ": " + NatToString(count) + " items"
  }

  function MoreLine(hidden: nat): string {
    "  ... and " + NatToString(hidden) + " more"
  }

  function Min(a: nat, b: nat): nat {
    if a <= b then a else b
  }

  /** The lines one dictionary entry contributes. */
  function EntryLines(key: string, value: DetailValue, bullet: string): seq<string> {
    match value
    case Items(items) =>
      if |items| == 0 then []
      else
        [Header(key, |items|)]
        + ItemLines(items[..Min(|items|, ShownItems)], bullet)
        + (if |items| > ShownItems then [MoreLine(|items| - ShownItems)] else [])
    case Scalar(text, truthy) =>
      if truthy then [key + ": " + text] else []
  }

  /** The lines of each element, one element after the other. */
  function Concat<T>(xs: seq<T>, f: T -> seq<string>): seq<string> {
    if xs == [] then [] else Concat(xs[..|xs| - 1], f) + f(xs[|xs| - 1])
  }

  function EntryLinesOf(bullet: string): ((string, DetailValue)) -> seq<string> {
    (e: (string, DetailValue)) => EntryLines(e.0, e.1, bullet)
  }

  /** The lines of the dictionary: those of each entry, in key order. */
  function DetailLines(details: Details, bullet: string): seq<string> {
    Concat(details, EntryLinesOf(bullet))
  }

  /** The text `_format_details` returns, with item lines that begin with `bullet`. */
  function DetailText(details: Details, bullet: string): string {
    Join(DetailLines(details, bullet), "\n")
  }

  /** The details text, built line by line as the source does, with the bullet as written. */
  method FormatDetails(details: Details) returns (text: string)
    ensures text == DetailText(details, AsWrittenBullet)
  {
    if |details| == 0 {
      return "";
    }
    var lines: seq<string> := [];
    var k := 0;
    while k < |details|
      invariant 0 <= k <= |details|
      invariant lines == DetailLines(details[..k], AsWrittenBullet)
    {
      var (key, value) := details[k];
      ConcatStep(details, k, EntryLinesOf(AsWrittenBullet));
      lines := AppendEntry(lines, key, value);
      k := k + 1;
    }
    assert details[..k] == details;
    text := Join(lines, "\n");
  }

  /** One pass of the loop over the dictionary: the lines of one entry. */
  method AppendEntry(lines: seq<string>, key: string, value: DetailValue) returns (out: seq<string>)
    ensures out == lines + EntryLines(key, value, AsWrittenBullet)
  {
    out := lines;
    match value {
      case Items(items) =>
        if |items| > 0 {
          var header := [Header(key, |items|)];
          ghost var shown := ItemLines(items[..Min(|items|, ShownItems)], AsWrittenBullet);
          out := out + header;
          out := AppendItems(out, items);
          assert out == lines + header + shown;
          if |items| > ShownItems {
            var more := [MoreLine(|items| - ShownItems)];
            out := out + more;
            assert lines + header + shown + more == lines + (header + shown + more);
          } else {
            assert lines + header + shown == lines + (header + shown + []);
          }
        }
      case Scalar(t, truthy) =>
        if truthy {
          out := out + [key + ": " + t];
        }
    }
  }

  /** The loop over the first five items of a list. */
  method AppendItems(lines: seq<string>, items: seq<string>) returns (out: seq<string>)
    ensures out == lines + ItemLines(items[..Min(|items|, ShownItems)], AsWrittenBullet)
  {
    out := lines;
    var j := 0;
    while j < |items| && j < ShownItems
      invariant 0 <= j <= Min(|items|, ShownItems)
      invariant out == lines + ItemLines(items[..j], AsWrittenBullet)
    {
      assert items[..j + 1][..j] == items[..j];
      out := out + [ItemLine(items[j], AsWrittenBullet)];
      j := j + 1;
    }
  }

  lemma {:induction false} DetailLinesAppend(a: Details, b: Details, bullet: string)
    ensures DetailLines(a + b, bullet) == DetailLines(a, bullet) + DetailLines(b, bullet)
  {
    ConcatAppend(a, b, EntryLinesOf(bullet));
  }

  lemma {:induction false} ConcatAppend<T>(a: seq<T>, b: seq<T>, f: T -> seq<string>)
    ensures Concat(a + b, f) == Concat(a, f) + Concat(b, f)
    decreases |b|
  {
    if b == [] {
      assert a + b == a;
    } else {
      var b' := b[..|b| - 1];
      assert (a + b)[..|a + b| - 1] == a + b';
      assert (a + b)[|a + b| - 1] == b[|b| - 1];
      ConcatAppend(a, b', f);
    }
  }

  lemma ConcatStep<T>(xs: seq<T>, k: nat, f: T -> seq<string>)
    requires k < |xs|
    ensures Concat(xs[..k + 1], f) == Concat(xs[..k], f) + f(xs[k])
  {
    assert xs[..k + 1][..k] == xs[..k];
  }

  /** An entry's lines: a header, at most five items, and a summary line for the rest. */
  lemma EntryLinesShape(key: string, items: seq<string>, bullet: string)
    requires |items| > 0
    ensures var lines := EntryLines(key, Items(items), bullet);
      && |lines| == 1 + Min(|items|, ShownItems) + (if |items| > ShownItems then 1 else 0)
      && lines[0] == Header(key, |items|)
      && (forall i :: 0 <= i < Min(|items|, ShownItems) ==> lines[1 + i] == ItemLine(items[i], bullet))
      && (|items| > ShownItems ==> lines[|lines| - 1] == MoreLine(|items| - ShownItems))
  {
  }

  /** Empty lists and falsy values contribute no line. */
  lemma SkippedEntries(key: string, value: DetailValue, bullet: string)
    ensures EntryLines(key, value, bullet) == [] <==> (value.Items? && value.items == []) || (value.Scalar? && !value.truthy)
  {
  }

  /** The details of a result from a list of `n` items with `n` above five: seven lines. */
  lemma LongListTruncated(key: string, items: seq<string>, bullet: string)
    requires |items| > ShownItems
    ensures DetailLines([(key, Items(items))], bullet)
         == [Header(key, |items|)] + ItemLines(items[..5], bullet) + [MoreLine(|items| - 5)]
    ensures |DetailLines([(key, Items(items))], bullet)| == 7
  {
    var d := [(key, Items(items))];
    ConcatStep(d, 0, EntryLinesOf(bullet));
    assert d[..1] == d && d[..0] == [];
    assert EntryLinesOf(bullet)(d[0]) == EntryLines(key, Items(items), bullet);
  }

  // ---------------------------------------------------------------- report line

  /** The text after the name: the message, then the details on the following lines. */
  function Note(r: CheckResult, bullet: string): string {
    (if r.message.Some? then " - " + r.message.value else "") + DetailsTail(r.details, bullet)
  }

  /** The details on the following lines, when there is any detail text. */
  function DetailsTail(details: Details, bullet: string): string {
    var text := DetailText(details, bullet);
    if details != [] && text != "" then "\n" + text else ""
  }

  /** The report line with item lines that begin with `bullet`. */
  function Report(r: CheckResult, bullet: string): string {
    Prefix(r.state) + " " + r.name + " " + Note(r, bullet)
  }

  /** `str(result)`, with the bullet as the source writes it. */
  function Render(r: CheckResult): (s: string)
    ensures StartsWith(s, Prefix(r.state) + " " + r.name + " ")
    ensures r.message.Some? ==> StartsWith(s, Prefix(r.state) + " " + r.name + "  - " + r.message.value)
    ensures r.details != [] && DetailText(r.details, AsWrittenBullet) != "" ==>
      EndsWith(s, "\n" + DetailText(r.details, AsWrittenBullet))
  {
    ReportShape(r, AsWrittenBullet);
    Report(r, AsWrittenBullet)
  }

  /** The report the code evidently intends: the same, with U+2022 as the bullet. */
  function IntendedRender(r: CheckResult): (s: string)
    ensures StartsWith(s, Prefix(r.state) + " " + r.name + " ")
    ensures r.message.Some? ==> StartsWith(s, Prefix(r.state) + " " + r.name + "  - " + r.message.value)
    ensures r.details != [] && DetailText(r.details, Bullet) != "" ==>
      EndsWith(s, "\n" + DetailText(r.details, Bullet))
  {
    ReportShape(r, Bullet);
    Report(r, Bullet)
  }

  lemma ReportShape(r: CheckResult, bullet: string)
    ensures StartsWith(Report(r, bullet), Prefix(r.state) + " " + r.name + " ")
    ensures r.message.Some? ==> StartsWith(Report(r, bullet), Prefix(r.state) + " " + r.name + "  - " + r.message.value)
    ensures r.details != [] && DetailText(r.details, bullet) != "" ==>
      EndsWith(Report(r, bullet), "\n" + DetailText(r.details, bullet))
  {
    ReportStart(r, bullet);
    ReportMessage(r, bullet);
    ReportEnd(r, bullet);
  }

  lemma ReportStart(r: CheckResult, bullet: string)
    ensures StartsWith(Report(r, bullet), Prefix(r.state) + " " + r.name + " ")
  {
    ReportParts(Prefix(r.state) + " " + r.name + " ", r.message, DetailsTail(r.details, bullet));
  }

  lemma ReportMessage(r: CheckResult, bullet: string)
    ensures r.message.Some? ==> StartsWith(Report(r, bullet), Prefix(r.state) + " " + r.name + "  - " + r.message.value)
  {
    ReportParts(Prefix(r.state) + " " + r.name + " ", r.message, DetailsTail(r.details, bullet));
  }

  lemma ReportEnd(r: CheckResult, bullet: string)
    ensures r.details != [] && DetailText(r.details, bullet) != "" ==>
      EndsWith(Report(r, bullet), "\n" + DetailText(r.details, bullet))
  {
    ReportParts(Prefix(r.state) + " " + r.name + " ", r.message, DetailsTail(r.details, bullet));
  }

  /** The report's text, assembled from its head, the optional message and the details tail. */
  lemma ReportParts(head: string, message: Option<string>, tail: string)
    ensures var base := if message.Some? then " - " + message.value else "";
      && StartsWith(head + (base + tail), head)
      && EndsWith(head + (base + tail), tail)
      && (message.Some? ==> StartsWith(head + (base + tail), head + " - " + message.value))
  {
    var base := if message.Some? then " - " + message.value else "";
    assert head + (base + tail) == head + base + tail;
    ConcatEnds(head, base, tail);
    ConcatEnds(head + base, tail, "");
    assert head + base + tail + "" == head + base + tail;
  }

  /** A result without details renders on one line as prefix, name and message. */
  lemma RenderWithoutDetails(r: CheckResult)
    requires r.details == []
    ensures r.message.Some? ==> Render(r) == Prefix(r.state) + " " + r.name + "  - " + r.message.value
    ensures r.message.None? ==> Render(r) == Prefix(r.state) + " " + r.name + " "
  {
    if r.message.Some? {
      assert Prefix(r.state) + " " + r.name + " " + (" - " + r.message.value)
          == Prefix(r.state) + " " + r.name + "  - " + r.message.value;
    }
  }

  /** Details whose entries are all skipped add nothing to the report. */
  lemma RenderIgnoresSkippedDetails(r: CheckResult)
    requires forall k :: 0 <= k < |r.details| ==> EntryLines(r.details[k].0, r.details[k].1, AsWrittenBullet) == []
    ensures Render(r) == Render(r.(details := []))
  {
    SkippedDetailsHaveNoText(r.details, AsWrittenBullet);
  }

  lemma {:induction false} SkippedDetailsHaveNoText(d: Details, bullet: string)
    requires forall k :: 0 <= k < |d| ==> EntryLines(d[k].0, d[k].1, bullet) == []
    ensures DetailLines(d, bullet) == []
    decreases |d|
  {
    if d != [] {
      SkippedDetailsHaveNoText(d[..|d| - 1], bullet);
    }
  }

  /** The report of a passed check with message "it works". */
  lemma RenderPassedExample()
    ensures Render(NewCheckResult("check name", CheckPassed, Some("it works"), None))
         == "✅ check name  - it works"
  {
    RenderWithoutDetails(NewCheckResult("check name", CheckPassed, Some("it works"), None));
  }

  // ---------------------------------------------------------------- the bullet

  /** The three UTF-8 bytes of a character in U+0800..U+FFFF. */
  function Utf8ThreeBytes(c: char): seq<int>
    requires 0x800 <= c as int <= 0xFFFF
  {
    var n := c as int;
    [0xE0 + n / 0x1000, 0x80 + (n / 0x40) % 0x40, 0x80 + n % 0x40]
  }

  /** Windows-1252 for the bytes needed here: 0x80 is the euro sign, 0xA0..0xFF are Latin-1. */
  function Cp1252(b: int): char
    requires b == 0x80 || 0xA0 <= b <= 0xFF
  {
    if b == 0x80 then '€' else b as char
  }

  /**
   * The as-written bullet is the UTF-8 encoding of U+2022 read back as
   * Windows-1252, so every item line shows three stray characters.
   */
  lemma AsWrittenBulletIsMisdecoded()
    ensures Utf8ThreeBytes('•') == [0xE2, 0x80, 0xA2]
    ensures AsWrittenBullet == [Cp1252(0xE2), Cp1252(0x80), Cp1252(0xA2)]
    ensures ItemLine("x", AsWrittenBullet) != ItemLine("x", Bullet)
    ensures |ItemLine("x", AsWrittenBullet)| == |ItemLine("x", Bullet)| + 2
  {
    assert ItemLine("x", AsWrittenBullet)[2] != ItemLine("x", Bullet)[2];
  }

  /** The lines of a single one-item list. */
  lemma OneItemLines(key: string, item: string, bullet: string)
    ensures DetailText([(key, Items([item]))], bullet) == Header(key, 1) + "\n" + ItemLine(item, bullet)
  {
    var d := [(key, Items([item]))];
    ConcatStep(d, 0, EntryLinesOf(bullet));
    assert d[..1] == d && d[..0] == [];
    assert [item][..Min(1, ShownItems)] == [item];
    var lines := DetailLines(d, bullet);
    assert lines == [Header(key, 1), ItemLine(item, bullet)];
    assert lines[1..] == [ItemLine(item, bullet)];
    assert Join(lines, "\n") == lines[0] + "\n" + Join(lines[1..], "\n");
  }

  /** The detail {"k": ["x"]} as the program prints it: the line carries the three stray characters. */
  lemma AsWrittenDetailExample()
    ensures DetailText([("k", Items(["x"]))], AsWrittenBullet) == "k: 1 items\n  \U{E2}\U{20AC}\U{A2} x"
  {
    OneItemLines("k", "x", AsWrittenBullet);
    assert NatToString(1) == "1";
  }

  /** The same detail as intended, with U+2022. */
  lemma IntendedDetailExample()
    ensures DetailText([("k", Items(["x"]))], Bullet) == "k: 1 items\n  \U{2022} x"
  {
    OneItemLines("k", "x", Bullet);
    assert NatToString(1) == "1";
  }

  /** How many item lines one entry shows. */
  function EntryShown(value: DetailValue): nat {
    match value
    case Items(items) => Min(|items|, ShownItems)
    case Scalar(_, _) => 0
  }

  /** How many item lines the details show. */
  function ShownItemLines(details: Details): nat {
    if details == [] then 0
    else ShownItemLines(details[..|details| - 1]) + EntryShown(details[|details| - 1].1)
  }

  /** The lengths of the lines, added up. */
  function TotalLength(lines: seq<string>): nat {
    if lines == [] then 0 else |lines[0]| + TotalLength(lines[1..])
  }

  lemma {:induction false} TotalLengthAppend(a: seq<string>, b: seq<string>)
    ensures TotalLength(a + b) == TotalLength(a) + TotalLength(b)
    decreases |a|
  {
    if a == [] {
      assert a + b == b;
    } else {
      assert (a + b)[1..] == a[1..] + b;
      TotalLengthAppend(a[1..], b);
    }
  }

  lemma TotalLengthOne(line: string)
    ensures TotalLength([line]) == |line|
  {
    assert [line][1..] == [];
  }

  /** Joined by newlines, the lines take their own lengths and one character per separator. */
  lemma {:induction false} JoinLength(lines: seq<string>)
    requires lines != []
    ensures |Join(lines, "\n")| == TotalLength(lines) + |lines| - 1
    decreases |lines|
  {
    if |lines| == 1 {
      TotalLengthOne(lines[0]);
      assert lines == [lines[0]];
    } else {
      JoinLength(lines[1..]);
    }
  }

  /** Each item line with the bullet as written is two characters longer. */
  lemma {:induction false} ItemLinesWider(items: seq<string>)
    ensures TotalLength(ItemLines(items, AsWrittenBullet)) == TotalLength(ItemLines(items, Bullet)) + 2 * |items|
    decreases |items|
  {
    if items != [] {
      var init := items[..|items| - 1];
      var last := items[|items| - 1];
      ItemLinesWider(init);
      TotalLengthAppend(ItemLines(init, AsWrittenBullet), [ItemLine(last, AsWrittenBullet)]);
      TotalLengthAppend(ItemLines(init, Bullet), [ItemLine(last, Bullet)]);
      TotalLengthOne(ItemLine(last, AsWrittenBullet));
      TotalLengthOne(ItemLine(last, Bullet));
    }
  }

  lemma EntryLinesWider(key: string, value: DetailValue)
    ensures |EntryLines(key, value, AsWrittenBullet)| == |EntryLines(key, value, Bullet)|
    ensures TotalLength(EntryLines(key, value, AsWrittenBullet))
         == TotalLength(EntryLines(key, value, Bullet)) + 2 * EntryShown(value)
  {
    match value
    case Items(items) =>
      if |items| > 0 {
        var shown := items[..Min(|items|, ShownItems)];
        var more := if |items| > ShownItems then [MoreLine(|items| - ShownItems)] else [];
        var header := [Header(key, |items|)];
        ItemLinesWider(shown);
        TotalLengthAppend(header + ItemLines(shown, AsWrittenBullet), more);
        TotalLengthAppend(header + ItemLines(shown, Bullet), more);
        TotalLengthAppend(header, ItemLines(shown, AsWrittenBullet));
        TotalLengthAppend(header, ItemLines(shown, Bullet));
      }
    case Scalar(_, _) =>
  }

  /** The program's detail lines are the intended ones, two characters longer per item line. */
  lemma {:induction false} DetailLinesWider(d: Details)
    ensures |DetailLines(d, AsWrittenBullet)| == |DetailLines(d, Bullet)|
    ensures TotalLength(DetailLines(d, AsWrittenBullet)) == TotalLength(DetailLines(d, Bullet)) + 2 * ShownItemLines(d)
    decreases |d|
  {
    if d != [] {
      var init := d[..|d| - 1];
      var (key, value) := d[|d| - 1];
      DetailLinesWider(init);
      EntryLinesWider(key, value);
      TotalLengthAppend(DetailLines(init, AsWrittenBullet), EntryLines(key, value, AsWrittenBullet));
      TotalLengthAppend(DetailLines(init, Bullet), EntryLines(key, value, Bullet));
    }
  }

  /** Every detail line is non-empty, so the text is empty exactly when there are no lines. */
  lemma EntryLinesNonEmpty(key: string, value: DetailValue, bullet: string)
    ensures forall i :: 0 <= i < |EntryLines(key, value, bullet)| ==> EntryLines(key, value, bullet)[i] != ""
  {
    match value
    case Items(items) =>
      if |items| > 0 {
        EntryLinesShape(key, items, bullet);
        var lines := EntryLines(key, value, bullet);
        forall i | 0 <= i < |lines|
          ensures lines[i] != ""
        {
          if i == 0 {
            assert |lines[0]| >= |" items"|;
          } else if i <= Min(|items|, ShownItems) {
            assert lines[i] == ItemLine(items[i - 1], bullet);
            assert ItemLine(items[i - 1], bullet)[0] == ' ';
          } else {
            assert lines[i] == MoreLine(|items| - ShownItems);
            assert MoreLine(|items| - ShownItems)[0] == ' ';
          }
        }
      }
    case Scalar(t, truthy) =>
      if truthy {
        assert EntryLines(key, value, bullet)[0] == key + ": " + t;
        assert |key + ": " + t| >= 2;
      }
  }

  lemma {:induction false} DetailLinesNonEmpty(d: Details, bullet: string)
    ensures forall i :: 0 <= i < |DetailLines(d, bullet)| ==> DetailLines(d, bullet)[i] != ""
    decreases |d|
  {
    if d != [] {
      var init := d[..|d| - 1];
      var (key, value) := d[|d| - 1];
      DetailLinesNonEmpty(init, bullet);
      EntryLinesNonEmpty(key, value, bullet);
      var a := DetailLines(init, bullet);
      var b := EntryLines(key, value, bullet);
      assert DetailLines(d, bullet) == a + b;
      forall i | 0 <= i < |a + b|
        ensures (a + b)[i] != ""
      {
        if i < |a| {
          assert (a + b)[i] == a[i];
        } else {
          assert (a + b)[i] == b[i - |a|];
        }
      }
    }
  }

  lemma DetailTextEmpty(d: Details, bullet: string)
    ensures DetailText(d, bullet) == "" <==> DetailLines(d, bullet) == []
  {
    var lines := DetailLines(d, bullet);
    if lines != [] {
      DetailLinesNonEmpty(d, bullet);
      JoinLength(lines);
      assert lines[0] != "";
    }
  }

  /**
   * The program's report is the intended one made longer by two characters
   * for every item line it shows, and by nothing else.
   */
  lemma RenderDiffersFromIntended(r: CheckResult)
    ensures |Render(r)| == |IntendedRender(r)| + 2 * ShownItemLines(r.details)
  {
    var w := DetailLines(r.details, AsWrittenBullet);
    var c := DetailLines(r.details, Bullet);
    DetailLinesWider(r.details);
    DetailTextEmpty(r.details, AsWrittenBullet);
    DetailTextEmpty(r.details, Bullet);
    if w != [] {
      JoinLength(w);
      JoinLength(c);
    }
    assert |DetailsTail(r.details, AsWrittenBullet)| == |DetailsTail(r.details, Bullet)| + 2 * ShownItemLines(r.details);
  }

  /** With U+2022, an item line is two spaces, the bullet, a space, and the item. */
  lemma BulletItemLine(item: string)
    ensures |ItemLine(item, Bullet)| == |item| + 4
    ensures ItemLine(item, Bullet)[2] == '•'
    ensures ItemLine(item, Bullet)[4..] == item
  {
  }
}
