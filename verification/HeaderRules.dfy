/**
 The rules of a Cloudflare `_headers` file, read line by line and merged by pattern
 (apps/exchange/scripts/verifyHeaders.js), once it is known what each line says.
 */
module HeaderRules {
  import opened Wrappers
  import opened Text

  datatype Header = Value(name: string, value: string) | Detach(name: string)
  datatype Rule = Rule(pattern: string, headers: seq<Header>)

  /** What one line says. */
  datatype Line = Skipped | Pattern(pattern: string) | Entry(header: Header) | Malformed

  datatype ParseError = BeforeAnyPattern | MalformedLine

  type Parsed = Result<seq<Rule>, ParseError>

  // ----- Reading -----

  /** An indented line belongs to the last rule. */
  function Apply(rules: seq<Rule>, line: Line): Parsed {
    match line
    case Skipped => Ok(rules)
    case Pattern(p) => Ok(rules + [Rule(p, [])])
    case Entry(h) =>
      if rules == [] then Err(BeforeAnyPattern)
      else
        var last := rules[|rules| - 1];
        Ok(rules[..|rules| - 1] + [last.(headers := last.headers + [h])])
    case Malformed => Err(if rules == [] then BeforeAnyPattern else MalformedLine)
  }

  function Read(lines: seq<Line>): Parsed {
    if lines == [] then Ok([])
    else
      var before := Read(lines[..|lines| - 1]);
      if before.Err? then before else Apply(before.value, lines[|lines| - 1])
  }

  lemma ReadSnoc(lines: seq<Line>, line: Line)
    ensures Read(lines + [line]) == if Read(lines).Err? then Read(lines) else Apply(Read(lines).value, line)
  {
    assert (lines + [line])[..|lines|] == lines;
  }

  lemma {:induction false} FirstErrorIsFinal(a: seq<Line>, b: seq<Line>)
    requires Read(a).Err?
    ensures Read(a + b) == Read(a)
    decreases |b|
  {
    if b == [] {
      assert a + b == a;
    } else {
      var init, last := FrontMembers(b);
      Associate(a, init, [last]);
      FirstErrorIsFinal(a, init);
      ReadSnoc(a + init, last);
    }
  }

  lemma {:induction false} ErrorStays(lines: seq<Line>, n: nat)
    requires n <= |lines| && Read(lines[..n]).Err?
    ensures Read(lines) == Read(lines[..n])
    decreases |lines|
  {
    if n == |lines| {
      assert lines[..n] == lines;
    } else {
      var init := lines[..|lines| - 1];
      assert init[..n] == lines[..n];
      ErrorStays(init, n);
    }
  }

  /** One more line is read. */
  lemma ReadNext(lines: seq<Line>, i: nat)
    requires i < |lines| && Read(lines[..i]).Ok?
    ensures Read(lines[..i + 1]) == Apply(Read(lines[..i]).value, lines[i])
  {
    assert lines[..i + 1][..i] == lines[..i];
  }

  // ----- What is read -----

  function EntriesOf(headers: seq<Header>): seq<Line> {
    if headers == [] then [] else EntriesOf(headers[..|headers| - 1]) + [Entry(headers[|headers| - 1])]
  }

  /** The lines that say what the rules say. */
  function LinesOf(rules: seq<Rule>): seq<Line> {
    if rules == [] then []
    else
      LinesOf(rules[..|rules| - 1]) + [Pattern(rules[|rules| - 1].pattern)] + EntriesOf(rules[|rules| - 1].headers)
  }

  function NotSkipped(lines: seq<Line>): seq<Line> {
    if lines == [] then []
    else
      NotSkipped(lines[..|lines| - 1]) + if lines[|lines| - 1].Skipped? then [] else [lines[|lines| - 1]]
  }

  lemma LinesOfSnoc(rules: seq<Rule>, rule: Rule)
    ensures LinesOf(rules + [rule]) == LinesOf(rules) + [Pattern(rule.pattern)] + EntriesOf(rule.headers)
  {
    assert (rules + [rule])[..|rules|] == rules;
  }

  lemma ApplyKeepsLines(rules: seq<Rule>, line: Line)
    requires Apply(rules, line).Ok?
    ensures LinesOf(Apply(rules, line).value) == LinesOf(rules) + if line.Skipped? then [] else [line]
  {
    match line
    case Skipped => assert LinesOf(rules) + [] == LinesOf(rules);
    case Pattern(p) =>
      LinesOfSnoc(rules, Rule(p, []));
      assert LinesOf(rules) + [line] + [] == LinesOf(rules) + [line];
    case Entry(h) =>
      var init, last := rules[..|rules| - 1], rules[|rules| - 1];
      SplitLast(rules);
      LinesOfSnoc(init, last);
      LinesOfSnoc(init, last.(headers := last.headers + [h]));
      assert (last.headers + [h])[..|last.headers|] == last.headers;
      Associate(LinesOf(init) + [Pattern(last.pattern)], EntriesOf(last.headers), [Entry(h)]);
    case Malformed =>
  }

  /** A file that is read says what its lines say, in their order; only skipped lines are left out. */
  lemma {:induction false} ReadKeepsLines(lines: seq<Line>)
    requires Read(lines).Ok?
    ensures LinesOf(Read(lines).value) == NotSkipped(lines)
  {
    if lines != [] {
      var init, last := FrontMembers(lines);
      ReadSnoc(init, last);
      ReadKeepsLines(init);
      ApplyKeepsLines(Read(init).value, last);
    }
  }

  ghost predicate HasPattern(lines: seq<Line>) {
    exists i :: 0 <= i < |lines| && lines[i].Pattern?
  }

  /** A malformed line, or an entry that belongs to no pattern. */
  ghost predicate Wrong(lines: seq<Line>, i: nat)
    requires i < |lines|
  {
    lines[i].Malformed? || (lines[i].Entry? && !HasPattern(lines[..i]))
  }

  lemma HasPatternSnoc(init: seq<Line>, last: Line)
    ensures HasPattern(init + [last]) <==> HasPattern(init) || last.Pattern?
  {
    var lines := init + [last];
    assert lines[|init|] == last;
    assert forall i :: 0 <= i < |init| ==> lines[i] == init[i];
  }

  lemma WrongInFront(init: seq<Line>, last: Line, i: nat)
    requires i < |init|
    ensures Wrong(init + [last], i) <==> Wrong(init, i)
    ensures (init + [last])[..i] == init[..i]
  {
  }

  ghost predicate NoneWrong(lines: seq<Line>) {
    forall i :: 0 <= i < |lines| ==> !Wrong(lines, i)
  }

  lemma LastWrong(init: seq<Line>, last: Line)
    ensures Wrong(init + [last], |init|) <==> last.Malformed? || (last.Entry? && !HasPattern(init))
    ensures (init + [last])[..|init|] == init
    ensures NoneWrong(init + [last]) <==> NoneWrong(init) && !Wrong(init + [last], |init|)
  {
    assert (init + [last])[..|init|] == init;
    forall i | 0 <= i < |init| ensures Wrong(init + [last], i) <==> Wrong(init, i) {
      WrongInFront(init, last, i);
    }
  }

  /** The first wrong line, and the error it causes. */
  ghost predicate FirstWrong(lines: seq<Line>, i: nat, e: ParseError) {
    && i < |lines| && Wrong(lines, i) && (forall j :: 0 <= j < i ==> !Wrong(lines, j))
    && e == if HasPattern(lines[..i]) then MalformedLine else BeforeAnyPattern
  }

  lemma FirstWrongStays(init: seq<Line>, last: Line, i: nat, e: ParseError)
    requires FirstWrong(init, i, e)
    ensures FirstWrong(init + [last], i, e)
  {
    forall j | 0 <= j <= i ensures Wrong(init + [last], j) <==> Wrong(init, j) {
      WrongInFront(init, last, j);
    }
    WrongInFront(init, last, i);
  }

  lemma LastIsFirstWrong(init: seq<Line>, last: Line, e: ParseError)
    requires NoneWrong(init) && Wrong(init + [last], |init|)
    requires e == if HasPattern(init) then MalformedLine else BeforeAnyPattern
    ensures FirstWrong(init + [last], |init|, e)
  {
    LastWrong(init, last);
    forall j | 0 <= j < |init| ensures !Wrong(init + [last], j) {
      WrongInFront(init, last, j);
    }
  }

  /** Reading fails exactly when some line is wrong, and reports the first one. */
  lemma {:induction false} FailsIffWrong(lines: seq<Line>)
    ensures Read(lines).Ok? <==> NoneWrong(lines)
    ensures Read(lines).Ok? ==> (Read(lines).value != [] <==> HasPattern(lines))
    ensures Read(lines).Err? ==> exists i :: FirstWrong(lines, i, Read(lines).error)
  {
    if lines != [] {
      var init, last := FrontMembers(lines);
      ReadSnoc(init, last);
      FailsIffWrong(init);
      HasPatternSnoc(init, last);
      LastWrong(init, last);
      if Read(init).Err? {
        var i: nat :| FirstWrong(init, i, Read(init).error);
        FirstWrongStays(init, last, i, Read(init).error);
      } else if Read(lines).Err? {
        LastIsFirstWrong(init, last, Read(lines).error);
      }
    }
  }

  // ----- One entry more -----

  function InsertAt<T>(list: seq<T>, at: nat, x: T): seq<T>
    requires at <= |list|
  {
    list[..at] + [x] + list[at..]
  }

  /** The same rules, with one entry inserted at position `j` of rule `k`. */
  ghost predicate OneEntryMore(before: seq<Rule>, after: seq<Rule>, k: nat, j: nat, x: Header) {
    && k < |before| && j <= |before[k].headers|
    && after == before[k := before[k].(headers := InsertAt(before[k].headers, j, x))]
  }

  lemma InsertThenAppend<T>(list: seq<T>, at: nat, x: T, y: T)
    requires at <= |list|
    ensures InsertAt(list + [y], at, x) == InsertAt(list, at, x) + [y]
  {
    assert (list + [y])[..at] == list[..at];
    assert (list + [y])[at..] == list[at..] + [y];
  }

  lemma ApplyKeepsEntry(before: seq<Rule>, after: seq<Rule>, k: nat, j: nat, x: Header, line: Line)
    requires OneEntryMore(before, after, k, j, x)
    ensures Apply(before, line).Ok? <==> Apply(after, line).Ok?
    ensures Apply(before, line).Ok? ==> OneEntryMore(Apply(before, line).value, Apply(after, line).value, k, j, x)
  {
    if line.Entry? && k == |before| - 1 {
      InsertThenAppend(before[k].headers, j, x, line.header);
    }
  }

  /** The rest of the file is read as before. */
  lemma {:induction false} RestKeepsEntry(a: seq<Line>, c: seq<Line>, b: seq<Line>, k: nat, j: nat, x: Header)
    requires Read(a).Ok? && Read(c).Ok? && OneEntryMore(Read(a).value, Read(c).value, k, j, x)
    ensures Read(a + b).Ok? <==> Read(c + b).Ok?
    ensures Read(a + b).Ok? ==> OneEntryMore(Read(a + b).value, Read(c + b).value, k, j, x)
    decreases |b|
  {
    if b == [] {
      assert a + b == a && c + b == c;
    } else {
      var init, last := FrontMembers(b);
      Associate(a, init, [last]);
      Associate(c, init, [last]);
      RestKeepsEntry(a, c, init, k, j, x);
      ReadSnoc(a + init, last);
      ReadSnoc(c + init, last);
      if Read(a + init).Ok? {
        ApplyKeepsEntry(Read(a + init).value, Read(c + init).value, k, j, x, last);
      }
    }
  }

  /** `k` is the first rule for pattern `p`. */
  ghost predicate FirstRule(rules: seq<Rule>, k: nat, p: string) {
    && k < |rules| && rules[k].pattern == p
    && forall i :: 0 <= i < k ==> rules[i].pattern != p
  }

  ghost predicate NoRule(rules: seq<Rule>, p: string) {
    forall i :: 0 <= i < |rules| ==> rules[i].pattern != p
  }

  /** Lines for other patterns make no rule for `p`. */
  lemma {:induction false} NoRuleBefore(lines: seq<Line>, p: string)
    requires Read(lines).Ok? && forall l :: l in lines ==> l != Pattern(p)
    ensures NoRule(Read(lines).value, p)
  {
    if lines != [] {
      var init, last := FrontMembers(lines);
      NoRuleBefore(init, p);
      ReadSnoc(init, last);
      assert last != Pattern(p);
    }
  }

  function EntryCount(lines: seq<Line>): nat {
    if lines == [] then 0 else EntryCount(lines[..|lines| - 1]) + if lines[|lines| - 1].Entry? then 1 else 0
  }

  /** Lines that start no rule leave the last rule the last, and add their entries to it. */
  lemma {:induction false} LastRuleStaysLast(a: seq<Line>, b: seq<Line>, p: string)
    requires Read(a + b).Ok? && forall l :: l in b ==> !l.Pattern?
    requires Read(a).Ok? && Read(a).value != [] && FirstRule(Read(a).value, |Read(a).value| - 1, p)
    ensures Read(a + b).value != [] && FirstRule(Read(a + b).value, |Read(a + b).value| - 1, p)
    ensures |Read(a + b).value[|Read(a + b).value| - 1].headers|
         == |Read(a).value[|Read(a).value| - 1].headers| + EntryCount(b)
    decreases |b|
  {
    if b == [] {
      assert a + b == a;
    } else {
      var init, last := FrontMembers(b);
      Associate(a, init, [last]);
      ReadSnoc(a + init, last);
      assert !last.Pattern?;
      LastRuleStaysLast(a, init, p);
    }
  }

  lemma OneLineKeepsFirst(rules: seq<Rule>, line: Line, k: nat, p: string)
    requires FirstRule(rules, k, p) && Apply(rules, line).Ok?
    ensures FirstRule(Apply(rules, line).value, k, p)
  {
    var after := Apply(rules, line).value;
    assert |after| >= |rules| && forall i :: 0 <= i < |rules| ==> after[i].pattern == rules[i].pattern;
  }

  /** Rules are only ever added at the end, so the first rule for `p` stays where it is. */
  lemma {:induction false} FirstRuleStays(a: seq<Line>, b: seq<Line>, k: nat, p: string)
    requires Read(a + b).Ok? && Read(a).Ok? && FirstRule(Read(a).value, k, p)
    ensures FirstRule(Read(a + b).value, k, p)
    decreases |b|
  {
    if b == [] {
      assert a + b == a;
    } else {
      var init, last := FrontMembers(b);
      Associate(a, init, [last]);
      ReadSnoc(a + init, last);
      FirstRuleStays(a, init, k, p);
      OneLineKeepsFirst(Read(a + init).value, last, k, p);
    }
  }

  lemma EntryAtEnd(lines: seq<Line>, x: Header)
    requires Read(lines).Ok? && Read(lines).value != []
    ensures Read(lines + [Entry(x)]).Ok?
    ensures var rules := Read(lines).value; var k := |rules| - 1;
            OneEntryMore(rules, Read(lines + [Entry(x)]).value, k, |rules[k].headers|, x)
  {
    ReadSnoc(lines, Entry(x));
    var rules := Read(lines).value;
    var hs := rules[|rules| - 1].headers;
    assert InsertAt(hs, |hs|, x) == hs + [x];
  }

  /**
   An entry after the lines that follow the first line for `p` and start no rule: the
   file still parses, to the same rules with the entry added to the first rule for `p`.
   */
  lemma EntryInserted(front: seq<Line>, p: string, follow: seq<Line>, rest: seq<Line>, x: Header) returns (k: nat, j: nat)
    requires Read(front + [Pattern(p)] + follow + rest).Ok?
    requires forall l :: l in front ==> l != Pattern(p)
    requires forall l :: l in follow ==> !l.Pattern?
    ensures var a := front + [Pattern(p)] + follow;
            && Read(a + [Entry(x)] + rest).Ok?
            && FirstRule(Read(a + rest).value, k, p) && j == EntryCount(follow)
            && OneEntryMore(Read(a + rest).value, Read(a + [Entry(x)] + rest).value, k, j, x)
  {
    var start := front + [Pattern(p)];
    var a := start + follow;
    FrontReads(a, rest);
    FrontReads(start, follow);
    FrontReads(front, [Pattern(p)]);
    NoRuleBefore(front, p);
    ReadSnoc(front, Pattern(p));
    LastRuleStaysLast(start, follow, p);
    EntryAtEnd(a, x);
    k := |Read(a).value| - 1;
    j := |Read(a).value[k].headers|;
    FirstRuleStays(a, rest, k, p);
    RestKeepsEntry(a, a + [Entry(x)], rest, k, j, x);
  }

  lemma FrontReads(a: seq<Line>, b: seq<Line>)
    requires Read(a + b).Ok?
    ensures Read(a).Ok?
  {
    if Read(a).Err? {
      FirstErrorIsFinal(a, b);
    }
  }

  // ----- Merging -----

  /** A repeated header is joined with a comma; `! Name` detaches it. */
  function MergeHeader(merged: map<string, string>, h: Header): map<string, string> {
    match h
    case Detach(name) => merged - {name}
    case Value(name, value) => merged[name := if name in merged then merged[name] + ", " + value else value]
  }

  function MergeAll(merged: map<string, string>, headers: seq<Header>): map<string, string> {
    if headers == [] then merged
    else MergeHeader(MergeAll(merged, headers[..|headers| - 1]), headers[|headers| - 1])
  }

  function Merged(rules: seq<Rule>, pattern: string): map<string, string> {
    if rules == [] then map[]
    else
      var before := Merged(rules[..|rules| - 1], pattern);
      var last := rules[|rules| - 1];
      if last.pattern == pattern then MergeAll(before, last.headers) else before
  }

  method HeadersForPattern(rules: seq<Rule>, pattern: string) returns (merged: map<string, string>)
    ensures merged == Merged(rules, pattern)
  {
    merged := map[];
    for i := 0 to |rules|
      invariant merged == Merged(rules[..i], pattern)
    {
      assert rules[..i + 1][..i] == rules[..i];
      if rules[i].pattern == pattern {
        merged := MergeInto(merged, rules[i].headers);
      }
    }
    assert rules[..|rules|] == rules;
  }

  method MergeInto(before: map<string, string>, headers: seq<Header>) returns (merged: map<string, string>)
    ensures merged == MergeAll(before, headers)
  {
    merged := before;
    for i := 0 to |headers|
      invariant merged == MergeAll(before, headers[..i])
    {
      assert headers[..i + 1][..i] == headers[..i];
      match headers[i] {
        case Detach(name) => merged := merged - {name};
        case Value(name, value) =>
          merged := merged[name := if name in merged then merged[name] + ", " + value else value];
      }
    }
    assert headers[..|headers|] == headers;
  }

  // What a pattern serves, header by header.

  /** The headers of all rules for a pattern, in order. */
  ghost function HeadersOf(rules: seq<Rule>, pattern: string): seq<Header> {
    if rules == [] then []
    else
      HeadersOf(rules[..|rules| - 1], pattern)
      + if rules[|rules| - 1].pattern == pattern then rules[|rules| - 1].headers else []
  }

  /** The values of a header since it was last detached. */
  ghost function ValuesOf(headers: seq<Header>, name: string): seq<string> {
    if headers == [] then []
    else
      var before := ValuesOf(headers[..|headers| - 1], name);
      match headers[|headers| - 1]
      case Detach(n) => if n == name then [] else before
      case Value(n, v) => if n == name then before + [v] else before
  }

  ghost function CommaJoined(values: seq<string>): string
    requires values != []
  {
    if |values| == 1 then values[0]
    else CommaJoined(values[..|values| - 1]) + ", " + values[|values| - 1]
  }

  lemma {:induction false} MergeAllMeaning(headers: seq<Header>, name: string)
    ensures name in MergeAll(map[], headers) <==> ValuesOf(headers, name) != []
    ensures name in MergeAll(map[], headers) ==> MergeAll(map[], headers)[name] == CommaJoined(ValuesOf(headers, name))
  {
    if headers != [] {
      var before := ValuesOf(headers[..|headers| - 1], name);
      MergeAllMeaning(headers[..|headers| - 1], name);
      if headers[|headers| - 1].Value? {
        var v := headers[|headers| - 1].value;
        assert (before + [v])[..|before|] == before;
      }
    }
  }

  lemma {:induction false} MergedIsOneMerge(rules: seq<Rule>, pattern: string)
    ensures Merged(rules, pattern) == MergeAll(map[], HeadersOf(rules, pattern))
  {
    if rules != [] {
      MergedIsOneMerge(rules[..|rules| - 1], pattern);
      MergeConcat(map[], HeadersOf(rules[..|rules| - 1], pattern), rules[|rules| - 1].headers);
      assert HeadersOf(rules[..|rules| - 1], pattern) + [] == HeadersOf(rules[..|rules| - 1], pattern);
    }
  }

  /** A pattern serves a header iff it has values since it was last detached, and then all of them, comma-joined. */
  lemma MergedMeaning(rules: seq<Rule>, pattern: string, name: string)
    ensures name in Merged(rules, pattern) <==> ValuesOf(HeadersOf(rules, pattern), name) != []
    ensures name in Merged(rules, pattern) ==>
              Merged(rules, pattern)[name] == CommaJoined(ValuesOf(HeadersOf(rules, pattern), name))
  {
    MergedIsOneMerge(rules, pattern);
    MergeAllMeaning(HeadersOf(rules, pattern), name);
  }

  /** The same headers but for one name. */
  ghost predicate SameExcept(m: map<string, string>, n: map<string, string>, name: string) {
    forall h :: h != name ==> (h in m <==> h in n) && (h in m ==> m[h] == n[h])
  }

  lemma MergeHeaderSame(m: map<string, string>, n: map<string, string>, h: Header, name: string)
    requires SameExcept(m, n, name)
    ensures SameExcept(MergeHeader(m, h), MergeHeader(n, h), name)
    ensures h.name == name ==> SameExcept(m, MergeHeader(n, h), name)
  {
  }

  lemma {:induction false} MergeAllSame(m: map<string, string>, n: map<string, string>, hs: seq<Header>, name: string)
    requires SameExcept(m, n, name)
    ensures SameExcept(MergeAll(m, hs), MergeAll(n, hs), name)
  {
    if hs != [] {
      MergeAllSame(m, n, hs[..|hs| - 1], name);
      MergeHeaderSame(MergeAll(m, hs[..|hs| - 1]), MergeAll(n, hs[..|hs| - 1]), hs[|hs| - 1], name);
    }
  }

  lemma MergeSnoc(m: map<string, string>, hs: seq<Header>, h: Header)
    ensures MergeAll(m, hs + [h]) == MergeHeader(MergeAll(m, hs), h)
  {
    assert (hs + [h])[..|hs|] == hs;
  }

  lemma {:induction false} MergeInserted(
      m: map<string, string>, n: map<string, string>, hs: seq<Header>, j: nat, x: Header)
    requires j <= |hs| && SameExcept(m, n, x.name)
    ensures SameExcept(MergeAll(m, hs), MergeAll(n, InsertAt(hs, j, x)), x.name)
    decreases |hs|
  {
    if j == |hs| {
      assert InsertAt(hs, j, x) == hs + [x];
      MergeAllSame(m, n, hs, x.name);
      MergeSnoc(n, hs, x);
      MergeHeaderSame(MergeAll(m, hs), MergeAll(n, hs), x, x.name);
    } else {
      var init, last := hs[..|hs| - 1], hs[|hs| - 1];
      SplitLast(hs);
      InsertThenAppend(init, j, x, last);
      MergeInserted(m, n, init, j, x);
      MergeSnoc(n, InsertAt(init, j, x), last);
      MergeHeaderSame(MergeAll(m, init), MergeAll(n, InsertAt(init, j, x)), last, x.name);
    }
  }

  /** One entry more changes its own header of its own pattern, and nothing else. */
  lemma {:induction false} MergedExcept(before: seq<Rule>, after: seq<Rule>, k: nat, j: nat, x: Header, p: string)
    requires OneEntryMore(before, after, k, j, x)
    ensures SameExcept(Merged(before, p), Merged(after, p), x.name)
    ensures p != before[k].pattern ==> Merged(before, p) == Merged(after, p)
    decreases |before|
  {
    var n := |before| - 1;
    var a, b := before[..n], after[..n];
    if k == n {
      assert a == b;
      if before[k].pattern == p {
        MergeInserted(Merged(a, p), Merged(b, p), before[k].headers, j, x);
      }
    } else {
      MergedExcept(a, b, k, j, x, p);
      assert before[n] == after[n];
      if before[n].pattern == p {
        MergeAllSame(Merged(a, p), Merged(b, p), before[n].headers, x.name);
      }
    }
  }

  // ----- What becomes of the inserted header -----

  lemma {:induction false} MergeConcat(m: map<string, string>, a: seq<Header>, b: seq<Header>)
    ensures MergeAll(m, a + b) == MergeAll(MergeAll(m, a), b)
    decreases |b|
  {
    if b == [] {
      assert a + b == a;
    } else {
      var init, last := b[..|b| - 1], b[|b| - 1];
      SplitLast(b);
      Associate(a, init, [last]);
      MergeConcat(m, a, init);
      MergeSnoc(m, a + init, last);
    }
  }

  ghost predicate Contains(s: string, part: string) {
    exists a, b :: s == a + part + b
  }

  lemma ContainsMore(s: string, part: string, more: string)
    requires Contains(s, part)
    ensures Contains(s + more, part)
  {
    var a, b :| s == a + part + b;
    assert s + more == a + part + (b + more);
  }

  /** Served as part of the value, alone or added with a comma; the rest is as without it. */
  ghost predicate Served(before: map<string, string>, after: map<string, string>, x: Header)
    requires x.Value?
  {
    && SameExcept(before, after, x.name)
    && x.name in after && Contains(after[x.name], x.value)
    && (if x.name in before then |after[x.name]| == |before[x.name]| + |x.value| + 2 else after[x.name] == x.value)
  }

  lemma AddedIsServed(m: map<string, string>, x: Header)
    requires x.Value?
    ensures Served(m, MergeHeader(m, x), x)
  {
    if x.name in m {
      assert MergeHeader(m, x)[x.name] == (m[x.name] + ", ") + x.value + [];
    } else {
      assert x.value == [] + x.value + [];
    }
  }

  lemma OneMoreHeader(m: map<string, string>, n: map<string, string>, h: Header, x: Header)
    requires x.Value? && Served(m, n, x)
    ensures h == Detach(x.name) ==> MergeHeader(m, h) == MergeHeader(n, h)
    ensures h != Detach(x.name) ==> Served(MergeHeader(m, h), MergeHeader(n, h), x)
  {
    MergeHeaderSame(m, n, h, x.name);
    if h.Value? && h.name == x.name {
      ContainsMore(n[x.name], x.value, ", ");
      ContainsMore(n[x.name] + ", ", x.value, h.value);
    }
  }

  /** Headers that follow keep it, until one detaches it. */
  lemma {:induction false} HeadersThatFollow(m: map<string, string>, n: map<string, string>, hs: seq<Header>, x: Header)
    requires x.Value? && Served(m, n, x)
    ensures Detach(x.name) in hs ==> MergeAll(m, hs) == MergeAll(n, hs)
    ensures Detach(x.name) !in hs ==> Served(MergeAll(m, hs), MergeAll(n, hs), x)
  {
    if hs != [] {
      var init, last := hs[..|hs| - 1], hs[|hs| - 1];
      SplitLast(hs);
      HeadersThatFollow(m, n, init, x);
      if Detach(x.name) !in init {
        OneMoreHeader(MergeAll(m, init), MergeAll(n, init), last, x);
      }
    }
  }

  lemma InsertedInRule(m: map<string, string>, hs: seq<Header>, j: nat, x: Header)
    requires j <= |hs| && x.Value?
    ensures Detach(x.name) in hs[j..] ==> MergeAll(m, hs) == MergeAll(m, InsertAt(hs, j, x))
    ensures Detach(x.name) !in hs[j..] ==> Served(MergeAll(m, hs), MergeAll(m, InsertAt(hs, j, x)), x)
  {
    assert hs == hs[..j] + hs[j..];
    MergeConcat(m, hs[..j], hs[j..]);
    MergeConcat(m, hs[..j] + [x], hs[j..]);
    MergeSnoc(m, hs[..j], x);
    AddedIsServed(MergeAll(m, hs[..j]), x);
    HeadersThatFollow(MergeAll(m, hs[..j]), MergeAll(m, hs[..j] + [x]), hs[j..], x);
  }

  /** Behind position `j` of rule `k`, a rule for the same pattern detaches the header. */
  ghost predicate DetachedLater(rules: seq<Rule>, k: nat, j: nat, name: string)
    requires k < |rules| && j <= |rules[k].headers|
  {
    || Detach(name) in rules[k].headers[j..]
    || exists i :: k < i < |rules| && rules[i].pattern == rules[k].pattern && Detach(name) in rules[i].headers
  }

  /** One rule more. */
  lemma DetachedLaterSnoc(rules: seq<Rule>, k: nat, j: nat, name: string)
    requires k < |rules| - 1 && j <= |rules[k].headers|
    ensures DetachedLater(rules, k, j, name)
       <==> DetachedLater(rules[..|rules| - 1], k, j, name)
            || (rules[|rules| - 1].pattern == rules[k].pattern && Detach(name) in rules[|rules| - 1].headers)
  {
    var init, last := rules[..|rules| - 1], rules[|rules| - 1];
    assert forall i :: 0 <= i < |init| ==> init[i] == rules[i];
  }

  /** The inserted header is lost if a rule for its pattern detaches it later, and is served otherwise. */
  lemma {:induction false} InsertedIsServed(before: seq<Rule>, after: seq<Rule>, k: nat, j: nat, x: Header)
    requires OneEntryMore(before, after, k, j, x) && x.Value?
    ensures var p := before[k].pattern;
            if DetachedLater(before, k, j, x.name) then Merged(before, p) == Merged(after, p)
            else Served(Merged(before, p), Merged(after, p), x)
    decreases |before|
  {
    var n, p := |before| - 1, before[k].pattern;
    var a, b := before[..n], after[..n];
    if k == n {
      assert a == b;
      InsertedInRule(Merged(a, p), before[k].headers, j, x);
    } else {
      InsertedIsServed(a, b, k, j, x);
      DetachedLaterSnoc(before, k, j, x.name);
      assert before[n] == after[n];
      if before[n].pattern == p && !DetachedLater(a, k, j, x.name) {
        HeadersThatFollow(Merged(a, p), Merged(b, p), before[n].headers, x);
      }
    }
  }
}
