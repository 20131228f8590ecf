/**
 What a line of a `_headers` file says (`parseHeadersFile` in
 apps/exchange/scripts/verifyHeaders.js), and that a file written from rules is read back.
 */
module HeaderLines {
  import opened Wrappers
  import opened Text
  import opened HeaderRules
  import opened Headers

  // ----- White space -----

  ghost predicate Blank(s: string) {
    forall i :: 0 <= i < |s| ==> IsSpace(s[i])
  }

  /** No white space at either end, and not empty. */
  ghost predicate Trimmed(s: string) {
    s != [] && !IsSpace(s[0]) && !IsSpace(s[|s| - 1])
  }

  lemma {:induction false} TrimStartBlank(a: string, s: string)
    requires Blank(a) && (s == [] || !IsSpace(s[0]))
    ensures TrimStart(a + s) == s
  {
    if a == [] {
      assert a + s == s;
    } else {
      assert (a + s)[1..] == a[1..] + s;
      TrimStartBlank(a[1..], s);
    }
  }

  lemma {:induction false} TrimEndBlank(s: string, b: string)
    requires Blank(b) && (s == [] || !IsSpace(s[|s| - 1]))
    ensures TrimEnd(s + b) == s
    decreases |b|
  {
    if b == [] {
      assert s + b == s;
    } else {
      assert (s + b)[..|s + b| - 1] == s + b[..|b| - 1];
      TrimEndBlank(s, b[..|b| - 1]);
    }
  }

  /** Trimming removes exactly the white space around a text. */
  lemma TrimAround(a: string, s: string, b: string)
    requires Blank(a) && Blank(b) && Trimmed(s)
    ensures TrimStart(a + s + b) == s + b && Trim(a + s + b) == s
  {
    Associate(a, s, b);
    TrimStartBlank(a, s + b);
    TrimEndBlank(s, b);
  }

  lemma TrimBlank(a: string)
    requires Blank(a)
    ensures TrimStart(a) == [] && Trim(a) == []
  {
    TrimStartBlank(a, []);
    assert a + [] == a;
  }

  lemma {:induction false} StartIsBlank(s: string) returns (a: string)
    ensures Blank(a) && s == a + TrimStart(s)
    ensures TrimStart(s) == [] || !IsSpace(TrimStart(s)[0])
  {
    a := [];
    if s != [] && IsSpace(s[0]) {
      var rest := StartIsBlank(s[1..]);
      a := [s[0]] + rest;
      Associate([s[0]], rest, TrimStart(s[1..]));
      assert s == [s[0]] + s[1..];
    }
  }

  lemma {:induction false} EndIsBlank(s: string) returns (b: string)
    ensures Blank(b) && s == TrimEnd(s) + b
    ensures TrimEnd(s) == [] || !IsSpace(TrimEnd(s)[|TrimEnd(s)| - 1])
  {
    b := [];
    if s != [] && IsSpace(s[|s| - 1]) {
      var front := EndIsBlank(s[..|s| - 1]);
      b := front + [s[|s| - 1]];
      SplitLast(s);
      Associate(TrimEnd(s[..|s| - 1]), front, [s[|s| - 1]]);
    }
  }

  /** Every text is blank, or a trimmed text with white space around it. */
  lemma TrimMeaning(s: string) returns (a: string, b: string)
    ensures Blank(a) && Blank(b) && s == a + Trim(s) + b
    ensures Trim(s) == [] || Trimmed(Trim(s))
  {
    a := StartIsBlank(s);
    b := EndIsBlank(TrimStart(s));
    Associate(a, Trim(s), b);
  }

  lemma {:induction false} TrimStartSnoc(s: string, c: char)
    requires IsSpace(c)
    ensures TrimStart(s + [c]) == if TrimStart(s) == [] then [] else TrimStart(s) + [c]
  {
    if s == [] {
      assert (s + [c])[1..] == [];
    } else if IsSpace(s[0]) {
      assert (s + [c])[1..] == s[1..] + [c];
      TrimStartSnoc(s[1..], c);
    }
  }

  lemma TrimEndSnoc(s: string, c: char)
    requires IsSpace(c)
    ensures TrimEnd(s + [c]) == TrimEnd(s)
  {
    assert (s + [c])[..|s|] == s;
  }

  /** A carriage return at the end of a line makes no difference to its trimmed text. */
  lemma TrimStripCr(raw: string)
    ensures Trim(StripCr(raw)) == Trim(raw)
  {
    if raw != [] && raw[|raw| - 1] == '\r' {
      var init := raw[..|raw| - 1];
      SplitLast(raw);
      TrimStartSnoc(init, '\r');
      TrimEndSnoc(TrimStart(init), '\r');
    }
  }

  lemma TrimmedHead(s: string)
    requires Trim(s) != []
    ensures TrimStart(s) != [] && TrimStart(s)[0] == Trim(s)[0]
  {
    var b := EndIsBlank(TrimStart(s));
  }

  /** A line is indented iff it begins with white space and has something else. */
  lemma IndentedIff(line: string)
    ensures IsIndented(line) <==> line != [] && IsSpace(line[0]) && !Blank(line)
  {
    var a := StartIsBlank(line);
    if Blank(line) {
      TrimBlank(line);
    }
    if TrimStart(line) == [] {
      assert line == a;
    }
  }

  lemma {:induction false} LowerIs(s: string, r: string)
    requires |r| == |s| && forall i :: 0 <= i < |s| ==> r[i] == LowerChar(s[i])
    ensures Lower(s) == r
  {
    if s != [] {
      SplitLast(r);
      LowerIs(s[..|s| - 1], r[..|r| - 1]);
    }
  }

  const UPPER := "ABCDEFGHIJKLMNOPQRSTUVWXYZ"
  const LOWER := "abcdefghijklmnopqrstuvwxyz"

  /** Letters become small, position by position, and everything else stays. */
  lemma {:induction false} LowerMeaning(s: string, i: nat)
    requires i < |s|
    ensures |Lower(s)| == |s|
    ensures s[i] !in UPPER ==> Lower(s)[i] == s[i]
    ensures forall k :: 0 <= k < 26 && s[i] == UPPER[k] ==> Lower(s)[i] == LOWER[k]
    decreases |s|
  {
    var init := s[..|s| - 1];
    LowerLength(s);
    if i < |init| {
      LowerMeaning(init, i);
    } else {
      LetterIsLowered(s[i]);
    }
  }

  lemma {:induction false} LowerLength(s: string)
    ensures |Lower(s)| == |s|
  {
    if s != [] {
      LowerLength(s[..|s| - 1]);
    }
  }

  lemma LetterIsLowered(c: char)
    ensures c !in UPPER ==> LowerChar(c) == c
    ensures forall k :: 0 <= k < 26 && c == UPPER[k] ==> LowerChar(c) == LOWER[k]
  {
    assert forall k :: 0 <= k < 26 ==> UPPER[k] as int == 'A' as int + k && LOWER[k] as int == 'a' as int + k;
    if 'A' <= c <= 'Z' {
      assert UPPER[c as int - 'A' as int] == c;
    }
  }

  // ----- What a line says -----

  /** The text of a line without its carriage return, between the same white space. */
  lemma StripAround(a: string, s: string, b: string) returns (c: string)
    requires Blank(b) && Trimmed(s)
    ensures Blank(c) && StripCr(a + s + b) == a + s + c
  {
    c := b;
    var raw := a + s + b;
    assert b == [] ==> raw[|raw| - 1] == s[|s| - 1];
    if raw[|raw| - 1] == '\r' {
      c := b[..|b| - 1];
      assert raw[..|raw| - 1] == a + s + c;
    }
  }

  /** Blank lines say nothing. */
  lemma BlankLine(raw: string)
    requires Blank(raw)
    ensures ParseLine(raw) == Skipped
  {
    TrimBlank(StripCr(raw));
  }

  /** Nor do comments, indented or not. */
  lemma CommentLine(a: string, text: string, b: string)
    requires Blank(a) && Blank(b) && Trimmed(text) && text[0] == '#'
    ensures ParseLine(a + text + b) == Skipped
  {
    var c := StripAround(a, text, b);
    TrimAround(a, text, c);
  }

  /** Any other line that is not indented is a pattern. */
  lemma PatternLine(text: string, b: string)
    requires Blank(b) && Trimmed(text) && text[0] != '#'
    ensures ParseLine(text + b) == Pattern(text)
  {
    assert [] + text + b == text + b;
    var c := StripAround([], text, b);
    assert [] + text + c == text + c;
    TrimAround([], text, c);
  }

  /** And an indented one is an entry. */
  lemma EntryLine(a: string, text: string, b: string)
    requires a != [] && Blank(a) && Blank(b) && Trimmed(text) && text[0] != '#'
    ensures ParseLine(a + text + b) == ParseEntry(text)
  {
    var c := StripAround(a, text, b);
    TrimAround(a, text, c);
    assert (a + text + c)[0] == a[0];
  }

  /** What follows `! ` is detached. */
  lemma DetachEntry(a: string, name: string, b: string)
    requires Blank(a) && Blank(b) && Trimmed(name)
    ensures ParseEntry("! " + (a + name + b)) == Entry(Detach(Lower(name)))
  {
    TrimAround(a, name, b);
    assert ("! " + (a + name + b))[2..] == a + name + b;
  }

  lemma AtColon(left: string, right: string)
    requires left != [] && ':' !in left && left[0] != '!'
    ensures ParseEntry(left + [':'] + right) == Entry(Value(Lower(Trim(left)), Trim(right)))
  {
    CutConcat(left, ':', right);
    var entry := left + [':'] + right;
    assert entry[0] == left[0];
  }

  lemma NoColonInBlank(name: string, b: string)
    requires Blank(b) && ':' !in name
    ensures ':' !in name + b
  {
    forall i | 0 <= i < |b| ensures b[i] != ':' {
      assert IsSpace(b[i]);
    }
  }

  /** A name before the first colon, and the value behind it. */
  lemma ValueEntry(name: string, b: string, c: string, value: string, d: string)
    requires Blank(b) && Blank(c) && Blank(d) && Trimmed(name) && Trimmed(value)
    requires ':' !in name && name[0] != '!'
    ensures ParseEntry(name + b + [':'] + (c + value + d)) == Entry(Value(Lower(name), value))
  {
    var left := name + b;
    NoColonInBlank(name, b);
    TrimSides([], name, b, left);
    TrimSides(c, value, d, c + value + d);
    AtColon(left, c + value + d);
  }

  lemma TrimSides(a: string, s: string, b: string, all: string)
    requires Blank(a) && Blank(b) && Trimmed(s) && (all == a + s + b || (a == [] && all == s + b) || (b == [] && all == a + s))
    ensures Trim(all) == s
  {
    assert all == a + s + b;
    TrimAround(a, s, b);
  }

  /** Without a colon, or with one in front, an entry is malformed. */
  lemma MalformedEntry(text: string)
    requires text != [] && text[0] != '!' && (':' !in text || text[0] == ':')
    ensures ParseEntry(text) == Malformed
  {
    if ':' !in text {
      assert Find(text, ':') == |text|;
    }
  }

  // ----- Writing rules, and reading them back -----

  function WriteHeader(h: Header): string {
    match h
    case Value(name, value) => "  " + (name + [':'] + (" " + value))
    case Detach(name) => "  " + ("! " + name)
  }

  function WriteHeaders(headers: seq<Header>): seq<string> {
    if headers == [] then [] else WriteHeaders(headers[..|headers| - 1]) + [WriteHeader(headers[|headers| - 1])]
  }

  function WriteRules(rules: seq<Rule>): seq<string> {
    if rules == [] then []
    else WriteRules(rules[..|rules| - 1]) + [rules[|rules| - 1].pattern] + WriteHeaders(rules[|rules| - 1].headers)
  }

  /** A text that can stand on a line by itself. */
  ghost predicate Plain(s: string) {
    Trimmed(s) && '\n' !in s && s[0] != '#'
  }

  ghost predicate Writable(h: Header) {
    && Plain(h.name) && Lower(h.name) == h.name && ':' !in h.name && h.name[0] != '!'
    && (h.Value? ==> Trimmed(h.value) && '\n' !in h.value)
  }

  ghost predicate WritableRule(rule: Rule) {
    Plain(rule.pattern) && forall j :: 0 <= j < |rule.headers| ==> Writable(rule.headers[j])
  }

  ghost predicate AllWritable(rules: seq<Rule>) {
    forall i :: 0 <= i < |rules| ==> WritableRule(rules[i])
  }

  ghost predicate OneLineEach(lines: seq<string>) {
    forall i :: 0 <= i < |lines| ==> '\n' !in lines[i]
  }

  lemma OneLineConcat(a: seq<string>, b: seq<string>)
    requires OneLineEach(a) && OneLineEach(b)
    ensures OneLineEach(a + b)
  {
  }

  /** An entry on a line of its own. */
  lemma EntryOnLine(text: string)
    requires Trimmed(text) && text[0] != '#'
    ensures ParseLine("  " + text) == ParseEntry(text)
  {
    assert "  " + text + [] == "  " + text;
    EntryLine("  ", text, []);
  }

  lemma WrittenValue(name: string, value: string)
    requires Trimmed(name) && Trimmed(value) && ':' !in name && name[0] != '!' && name[0] != '#'
    ensures ParseLine("  " + (name + [':'] + (" " + value))) == Entry(Value(Lower(name), value))
  {
    var right := " " + value;
    var text := name + [':'] + right;
    assert text[0] == name[0] && text[|text| - 1] == value[|value| - 1];
    EntryOnLine(text);
    TrimSides([], name, [], name);
    TrimSides(" ", value, [], right);
    AtColon(name, right);
  }

  lemma WrittenDetach(name: string)
    requires Trimmed(name)
    ensures ParseLine("  " + ("! " + name)) == Entry(Detach(Lower(name)))
  {
    var text := "! " + name;
    TrimmedTail("! ", name);
    EntryOnLine(text);
    DetachEntry([], name, []);
    assert [] + name + [] == name;
  }

  lemma TrimmedTail(a: string, s: string)
    requires a != [] && !IsSpace(a[0]) && Trimmed(s)
    ensures Trimmed(a + s) && (a + s)[0] == a[0]
  {
    assert (a + s)[|a + s| - 1] == s[|s| - 1];
  }

  lemma NotIn(c: char, a: string, b: string)
    requires c !in a && c !in b
    ensures c !in a + b
  {
  }

  lemma WrittenHeader(h: Header)
    requires Writable(h)
    ensures ParseLine(WriteHeader(h)) == Entry(h) && '\n' !in WriteHeader(h)
  {
    match h
    case Value(name, value) =>
      WrittenValue(name, value);
      NotIn('\n', " ", value);
      NotIn('\n', name, [':']);
      NotIn('\n', name + [':'], " " + value);
      NotIn('\n', "  ", name + [':'] + (" " + value));
    case Detach(name) =>
      WrittenDetach(name);
      NotIn('\n', "! ", name);
      NotIn('\n', "  ", "! " + name);
  }

  lemma {:induction false} WrittenHeaders(headers: seq<Header>)
    requires forall j :: 0 <= j < |headers| ==> Writable(headers[j])
    ensures ParseLines(WriteHeaders(headers)) == EntriesOf(headers) && OneLineEach(WriteHeaders(headers))
  {
    if headers != [] {
      var init, last := headers[..|headers| - 1], headers[|headers| - 1];
      WrittenHeaders(init);
      WrittenHeader(last);
      ParseSnoc(WriteHeaders(init), WriteHeader(last));
      OneLineConcat(WriteHeaders(init), [WriteHeader(last)]);
    }
  }

  lemma WrittenRule(before: seq<string>, rule: Rule)
    requires WritableRule(rule) && OneLineEach(before)
    ensures var after := before + [rule.pattern] + WriteHeaders(rule.headers);
            && ParseLines(after) == ParseLines(before) + [Pattern(rule.pattern)] + EntriesOf(rule.headers)
            && OneLineEach(after)
  {
    WrittenHeaders(rule.headers);
    PatternLine(rule.pattern, []);
    assert rule.pattern + [] == rule.pattern;
    ParseSnoc(before, rule.pattern);
    ParseConcat(before + [rule.pattern], WriteHeaders(rule.headers));
    OneLineConcat(before, [rule.pattern]);
    OneLineConcat(before + [rule.pattern], WriteHeaders(rule.headers));
  }

  lemma {:induction false} WrittenRules(rules: seq<Rule>)
    requires AllWritable(rules)
    ensures ParseLines(WriteRules(rules)) == LinesOf(rules) && OneLineEach(WriteRules(rules))
  {
    if rules != [] {
      var init, last := rules[..|rules| - 1], rules[|rules| - 1];
      assert AllWritable(init);
      WrittenRules(init);
      assert WritableRule(last);
      WrittenRule(WriteRules(init), last);
    }
  }

  lemma {:induction false} EntriesAreRead(lines: seq<Line>, rules: seq<Rule>, headers: seq<Header>)
    requires Read(lines) == Ok(rules) && rules != []
    ensures var last := rules[|rules| - 1];
            Read(lines + EntriesOf(headers)) == Ok(rules[..|rules| - 1] + [last.(headers := last.headers + headers)])
    decreases |headers|
  {
    var front, last := rules[..|rules| - 1], rules[|rules| - 1];
    if headers == [] {
      assert lines + [] == lines && last.headers + [] == last.headers;
      SplitLast(rules);
    } else {
      var init, h := headers[..|headers| - 1], headers[|headers| - 1];
      SplitLast(headers);
      EntriesAreRead(lines, rules, init);
      Associate(lines, EntriesOf(init), [Entry(h)]);
      ReadSnoc(lines + EntriesOf(init), Entry(h));
      Associate(last.headers, init, [h]);
      assert (front + [last.(headers := last.headers + init)])[..|front|] == front;
    }
  }

  lemma {:induction false} LinesAreRead(rules: seq<Rule>)
    ensures Read(LinesOf(rules)) == Ok(rules)
  {
    if rules != [] {
      var init, last := rules[..|rules| - 1], rules[|rules| - 1];
      LinesAreRead(init);
      ReadSnoc(LinesOf(init), Pattern(last.pattern));
      var started := init + [Rule(last.pattern, [])];
      assert started[..|started| - 1] == init;
      EntriesAreRead(LinesOf(init) + [Pattern(last.pattern)], started, last.headers);
      assert [] + last.headers == last.headers;
      SplitLast(rules);
    }
  }

  /** A file written from rules parses to the same rules. */
  lemma WrittenFileIsRead(rules: seq<Rule>)
    requires rules != [] && AllWritable(rules)
    ensures WriteRules(rules) != [] && ParseHeaders(Join(WriteRules(rules), '\n')) == Ok(rules)
  {
    WrittenRules(rules);
    SplitJoin(WriteRules(rules), '\n');
    LinesAreRead(rules);
  }
}
