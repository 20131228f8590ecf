/**
 Cloudflare `_headers` files: parsing, merging by pattern, and the inserter of the
 noindex header (apps/exchange/scripts/verifyHeaders.js). A text is the sequence of
 its characters.
 */
module Headers {
  import opened Wrappers
  import opened Text
  import opened HeaderRules

  // ----- White space -----

  /** What `\s` and `trim` take as white space. */
  predicate IsSpace(c: char) {
    var n := c as int;
    9 <= n <= 13 || n == 32 || n == 0xA0 || n == 0x1680 || 0x2000 <= n <= 0x200A
    || n == 0x2028 || n == 0x2029 || n == 0x202F || n == 0x205F || n == 0x3000 || n == 0xFEFF
  }

  function TrimStart(s: string): string {
    if s == [] || !IsSpace(s[0]) then s else TrimStart(s[1..])
  }

  function TrimEnd(s: string): string {
    if s == [] || !IsSpace(s[|s| - 1]) then s else TrimEnd(s[..|s| - 1])
  }

  function Trim(s: string): string {
    TrimEnd(TrimStart(s))
  }

  function LowerChar(c: char): char {
    if 'A' <= c <= 'Z' then (c as int + 32) as char else c
  }

  function Lower(s: string): string {
    if s == [] then [] else Lower(s[..|s| - 1]) + [LowerChar(s[|s| - 1])]
  }

  /** `replace(/\r$/, '')`. */
  function StripCr(raw: string): string {
    if raw != [] && raw[|raw| - 1] == '\r' then raw[..|raw| - 1] else raw
  }

  // ----- Parsing -----

  function ParseEntry(entry: string): Line {
    if |entry| >= 2 && entry[0] == '!' && entry[1] == ' ' then Entry(Detach(Lower(Trim(entry[2..]))))
    else
      var colon := Find(entry, ':');
      if colon == 0 || colon == |entry| then Malformed
      else Entry(Value(Lower(Trim(entry[..colon])), Trim(entry[colon + 1..])))
  }

  function ParseLine(raw: string): Line {
    var line := StripCr(raw);
    if Trim(line) == [] || (TrimStart(line) != [] && TrimStart(line)[0] == '#') then Skipped
    else if !IsSpace(line[0]) then Pattern(Trim(line))
    else ParseEntry(Trim(line))
  }

  /** What each line says. */
  function ParseLines(lines: seq<string>): seq<Line> {
    if lines == [] then [] else ParseLines(lines[..|lines| - 1]) + [ParseLine(lines[|lines| - 1])]
  }

  function ParseHeaders(text: string): Parsed {
    Read(ParseLines(Split(text, '\n')))
  }

  lemma ParseSnoc(lines: seq<string>, line: string)
    ensures ParseLines(lines + [line]) == ParseLines(lines) + [ParseLine(line)]
  {
    assert (lines + [line])[..|lines|] == lines;
  }

  lemma {:induction false} ParseConcat(a: seq<string>, b: seq<string>)
    ensures ParseLines(a + b) == ParseLines(a) + ParseLines(b)
    decreases |b|
  {
    if b == [] {
      assert a + b == a;
    } else {
      var init, last := FrontMembers(b);
      Associate(a, init, [last]);
      ParseConcat(a, init);
      ParseSnoc(a + init, last);
      ParseSnoc(init, last);
      Associate(ParseLines(a), ParseLines(init), [ParseLine(last)]);
    }
  }

  lemma {:induction false} AsManyKinds(lines: seq<string>)
    ensures |ParseLines(lines)| == |lines|
  {
    if lines != [] {
      AsManyKinds(lines[..|lines| - 1]);
    }
  }

  lemma {:induction false} KindAt(lines: seq<string>, i: nat)
    requires i < |lines| && |ParseLines(lines)| == |lines|
    ensures ParseLines(lines)[i] == ParseLine(lines[i])
    decreases |lines|
  {
    var init := lines[..|lines| - 1];
    if i < |init| {
      AsManyKinds(init);
      KindAt(init, i);
      assert init[i] == lines[i];
    }
  }

  /** The loop body: one line is read. */
  method ReadLine(rules: seq<Rule>, lines: seq<string>, i: nat, ghost kinds: seq<Line>) returns (r: Parsed)
    requires i < |lines| == |kinds| && kinds == ParseLines(lines)
    ensures r == Apply(rules, kinds[i])
  {
    KindAt(lines, i);
    r := Apply(rules, ParseLine(lines[i]));
  }

  method ParseHeadersFile(text: string) returns (r: Parsed)
    ensures r == ParseHeaders(text)
  {
    var lines := Split(text, '\n');
    ghost var kinds := ParseLines(lines);
    AsManyKinds(lines);
    r := Ok([]);
    for i := 0 to |lines|
      invariant r.Ok? && Read(kinds[..i]) == r
    {
      ReadNext(kinds, i);
      r := ReadLine(r.value, lines, i, kinds);
      if r.Err? {
        ErrorStays(kinds, i + 1);
        return;
      }
    }
    assert kinds[..|lines|] == kinds;
  }

  // ----- The inserter -----

  const CATCH_ALL := "/*"
  const NOINDEX_LINE := "  X-Robots-Tag: noindex, nofollow"
  const NOINDEX := Value("x-robots-tag", "noindex, nofollow")

  /** The first line that is the catch-all pattern but for white space, or the number of lines. */
  function FirstCatchAll(lines: seq<string>): nat {
    if lines == [] || IsCatchAll(lines[0]) then 0 else 1 + FirstCatchAll(lines[1..])
  }

  predicate IsCatchAll(line: string) {
    Trim(line) == CATCH_ALL
  }

  /** `/^\s+\S/`. */
  predicate IsIndented(line: string) {
    line != [] && IsSpace(line[0]) && TrimStart(line) != []
  }

  /** How many indented lines come first. */
  function IndentedCount(lines: seq<string>): nat {
    if lines == [] || !IsIndented(lines[0]) then 0 else 1 + IndentedCount(lines[1..])
  }

  lemma {:induction false} FirstCatchAllIs(lines: seq<string>, n: nat)
    requires n <= |lines| && (n == |lines| || IsCatchAll(lines[n]))
    requires forall j :: 0 <= j < n ==> !IsCatchAll(lines[j])
    ensures FirstCatchAll(lines) == n
  {
    if n > 0 {
      FirstCatchAllIs(lines[1..], n - 1);
    }
  }

  lemma {:induction false} IndentedCountIs(lines: seq<string>, n: nat)
    requires n <= |lines| && (n == |lines| || !IsIndented(lines[n]))
    requires forall j :: 0 <= j < n ==> IsIndented(lines[j])
    ensures IndentedCount(lines) == n
  {
    if n > 0 {
      IndentedCountIs(lines[1..], n - 1);
    }
  }

  /** The new line goes after the indented lines that follow the first catch-all pattern. */
  function InsertPoint(lines: seq<string>): nat
    requires FirstCatchAll(lines) < |lines|
  {
    FirstCatchAll(lines) + 1 + IndentedCount(lines[FirstCatchAll(lines) + 1..])
  }

  method FindCatchAll(lines: seq<string>) returns (start: nat)
    ensures start <= |lines| && start == FirstCatchAll(lines)
    ensures forall j :: 0 <= j < start ==> !IsCatchAll(lines[j])
    ensures start < |lines| ==> IsCatchAll(lines[start])
  {
    start := 0;
    while start < |lines| && !IsCatchAll(lines[start])
      invariant start <= |lines|
      invariant forall j :: 0 <= j < start ==> !IsCatchAll(lines[j])
    {
      start := start + 1;
    }
    FirstCatchAllIs(lines, start);
  }

  method FindLastIndented(lines: seq<string>, start: nat) returns (end: nat)
    requires start < |lines|
    ensures start <= end < |lines| && end == start + IndentedCount(lines[start + 1..])
  {
    end := start;
    while end + 1 < |lines| && IsIndented(lines[end + 1])
      invariant start <= end < |lines|
      invariant forall j :: start < j <= end ==> IsIndented(lines[j])
    {
      end := end + 1;
    }
    IndentedCountIs(lines[start + 1..], end - start);
  }

  lemma {:induction false} CountsAreIndices(lines: seq<string>)
    ensures FirstCatchAll(lines) <= |lines| && IndentedCount(lines) <= |lines|
  {
    if lines != [] {
      CountsAreIndices(lines[1..]);
    }
  }

  lemma InsertPointIsIndex(lines: seq<string>)
    requires FirstCatchAll(lines) < |lines|
    ensures InsertPoint(lines) <= |lines|
  {
    CountsAreIndices(lines[FirstCatchAll(lines) + 1..]);
  }

  /** The lines with the new one; none when no line is the catch-all pattern. */
  ghost function WithNoindexLines(lines: seq<string>): (r: Option<seq<string>>)
    ensures r.Some? ==> r.value != []
  {
    CountsAreIndices(lines);
    if FirstCatchAll(lines) == |lines| then None
    else
      InsertPointIsIndex(lines);
      Some(InsertAt(lines, InsertPoint(lines), NOINDEX_LINE))
  }

  /** The text that the inserter returns. */
  ghost function WithNoindex(text: string): Option<string> {
    var lines := WithNoindexLines(Split(text, '\n'));
    if lines.None? then None else Some(Join(lines.value, '\n'))
  }

  method InsertNoindexLine(lines: seq<string>) returns (r: Option<seq<string>>)
    ensures r == WithNoindexLines(lines)
  {
    var start := FindCatchAll(lines);
    if start == |lines| {
      return None;
    }
    var end := FindLastIndented(lines, start);
    r := Some(lines[..end + 1] + [NOINDEX_LINE] + lines[end + 1..]);
  }

  method WithNoindexHeader(text: string) returns (r: Option<string>)
    ensures r == WithNoindex(text)
  {
    var lines := InsertNoindexLine(Split(text, '\n'));
    if lines.None? {
      return None;
    }
    r := Some(Join(lines.value, '\n'));
  }
}
