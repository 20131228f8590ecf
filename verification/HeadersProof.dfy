/**
 What the noindex inserter preserves: the parsed rules but for one added entry, and
 hence the merged headers of every pattern but for that header.
 */
module HeadersProof {
  import opened Text
  import opened HeaderRules
  import opened Headers
  import opened HeaderLines

  // ----- The three kinds of lines involved -----

  /** An indented line starts no rule. */
  lemma IndentedIsNoPattern(raw: string)
    requires IsIndented(raw)
    ensures !ParseLine(raw).Pattern?
  {
    if |raw| == 1 {
      assert raw[1..] == [];
    }
  }

  /** A line that is the catch-all pattern but for white space either starts that rule or is malformed. */
  lemma CatchAllLine(raw: string)
    requires IsCatchAll(raw)
    ensures ParseLine(raw) == Pattern(CATCH_ALL) || ParseLine(raw).Malformed?
  {
    TrimStripCr(raw);
    TrimmedHead(StripCr(raw));
    NoColon();
  }

  lemma NoColon()
    ensures ParseEntry(CATCH_ALL).Malformed?
  {
    assert CATCH_ALL == ['/'] + ['*'];
    assert CATCH_ALL[1..] == ['*'] && ['*'][1..] == [];
  }

  lemma PatternIsTrimmed(raw: string)
    requires ParseLine(raw) == Pattern(CATCH_ALL)
    ensures IsCatchAll(raw)
  {
    TrimStripCr(raw);
  }

  const NAME := "X-Robots-Tag"

  /** The inserted line is one entry. */
  lemma NoindexLine()
    ensures ParseLine(NOINDEX_LINE) == Entry(NOINDEX)
  {
    NoindexText();
    NameIsLowered();
    WrittenValue(NAME, NOINDEX.value);
  }

  lemma NoindexText()
    ensures NOINDEX_LINE == "  " + (NAME + [':'] + (" " + NOINDEX.value))
    ensures Trimmed(NAME) && ':' !in NAME && NAME[0] == 'X' && Trimmed(NOINDEX.value)
  {
  }

  lemma NameIsLowered()
    ensures Lower(NAME) == NOINDEX.name
  {
    LowerIs(NAME, NOINDEX.name);
  }

  // ----- Where the entry goes -----

  lemma {:induction false} FirstCatchAllMeaning(lines: seq<string>)
    ensures FirstCatchAll(lines) <= |lines|
    ensures FirstCatchAll(lines) < |lines| ==> IsCatchAll(lines[FirstCatchAll(lines)])
    ensures forall j :: 0 <= j < FirstCatchAll(lines) ==> !IsCatchAll(lines[j])
  {
    if lines != [] && !IsCatchAll(lines[0]) {
      FirstCatchAllMeaning(lines[1..]);
      assert forall j :: 1 <= j < |lines| ==> lines[j] == lines[1..][j - 1];
    }
  }

  lemma {:induction false} IndentedCountMeaning(lines: seq<string>)
    ensures IndentedCount(lines) <= |lines|
    ensures forall j :: 0 <= j < IndentedCount(lines) ==> IsIndented(lines[j])
    ensures IndentedCount(lines) < |lines| ==> !IsIndented(lines[IndentedCount(lines)])
  {
    if lines != [] && IsIndented(lines[0]) {
      IndentedCountMeaning(lines[1..]);
      assert forall j :: 1 <= j < |lines| ==> lines[j] == lines[1..][j - 1];
    }
  }

  /** Lines before the first catch-all line are not for that pattern. */
  lemma {:induction false} FrontIsOther(front: seq<string>)
    requires forall i :: 0 <= i < |front| ==> !IsCatchAll(front[i])
    ensures forall l :: l in ParseLines(front) ==> l != Pattern(CATCH_ALL)
  {
    if front != [] {
      var init, last := FrontMembers(front);
      FrontIsOther(init);
      if ParseLine(last) == Pattern(CATCH_ALL) {
        PatternIsTrimmed(last);
      }
    }
  }

  /** Indented lines start no rule. */
  lemma {:induction false} FollowStartsNoRule(follow: seq<string>)
    requires forall i :: 0 <= i < |follow| ==> IsIndented(follow[i])
    ensures forall l :: l in ParseLines(follow) ==> !l.Pattern?
  {
    if follow != [] {
      var init, last := FrontMembers(follow);
      FollowStartsNoRule(init);
      IndentedIsNoPattern(last);
    }
  }

  /** The indented lines that follow the first catch-all line. */
  ghost function IndentedBlock(lines: seq<string>): seq<string> {
    if FirstCatchAll(lines) >= |lines| then []
    else
      var tail := lines[FirstCatchAll(lines) + 1..];
      if IndentedCount(tail) <= |tail| then tail[..IndentedCount(tail)] else []
  }

  /**
   Where the new line goes: after the first line that is the catch-all pattern but for white
   space, and after all the indented lines that follow it.
   */
  lemma Parts(lines: seq<string>) returns (front: seq<string>, line: string, follow: seq<string>, rest: seq<string>)
    requires WithNoindexLines(lines).Some?
    ensures lines == front + [line] + follow + rest
    ensures WithNoindexLines(lines).value == front + [line] + follow + [NOINDEX_LINE] + rest
    ensures Trim(line) == CATCH_ALL
    ensures forall i :: 0 <= i < |front| ==> Trim(front[i]) != CATCH_ALL
    ensures forall i :: 0 <= i < |follow| ==> IsIndented(follow[i])
    ensures rest == [] || !IsIndented(rest[0])
    ensures follow == IndentedBlock(lines)
  {
    FirstCatchAllMeaning(lines);
    var start := FirstCatchAll(lines);
    var tail := lines[start + 1..];
    IndentedCountMeaning(tail);
    var n := IndentedCount(tail);
    front, line, follow, rest := lines[..start], lines[start], tail[..n], tail[n..];
    CutInFour(lines, start, n);
  }

  lemma CutInFour<T>(list: seq<T>, start: nat, n: nat)
    requires start + 1 + n <= |list|
    ensures var tail := list[start + 1..];
            && list == list[..start] + [list[start]] + tail[..n] + tail[n..]
            && list[..start + 1 + n] == list[..start] + [list[start]] + tail[..n]
            && list[start + 1 + n..] == tail[n..]
  {
  }

  lemma ParseParts(front: seq<string>, line: string, follow: seq<string>, rest: seq<string>)
    ensures ParseLines(front + [line] + follow + rest)
         == ParseLines(front) + [ParseLine(line)] + ParseLines(follow) + ParseLines(rest)
    ensures ParseLines(front + [line] + follow + [NOINDEX_LINE] + rest)
         == ParseLines(front) + [ParseLine(line)] + ParseLines(follow) + [ParseLine(NOINDEX_LINE)] + ParseLines(rest)
  {
    ParseSnoc(front, line);
    ParseConcat(front + [line], follow);
    ParseConcat(front + [line] + follow, rest);
    ParseSnoc(front + [line] + follow, NOINDEX_LINE);
    ParseConcat(front + [line] + follow + [NOINDEX_LINE], rest);
  }

  lemma MalformedEndsReading(front: seq<Line>, rest: seq<Line>)
    ensures Read(front + [Malformed] + rest).Err?
  {
    ReadSnoc(front, Malformed);
    FirstErrorIsFinal(front + [Malformed], rest);
  }

  /** On lines: the result reads, to the same rules with one entry more in the first catch-all rule. */
  lemma LinesKeepMeaning(lines: seq<string>) returns (k: nat, j: nat)
    requires WithNoindexLines(lines).Some? && Read(ParseLines(lines)).Ok?
    ensures var result := Read(ParseLines(WithNoindexLines(lines).value));
            && result.Ok?
            && FirstRule(Read(ParseLines(lines)).value, k, CATCH_ALL)
            && j == EntryCount(ParseLines(IndentedBlock(lines)))
            && OneEntryMore(Read(ParseLines(lines)).value, result.value, k, j, NOINDEX)
  {
    var front, line, follow, rest := Parts(lines);
    ParseParts(front, line, follow, rest);
    var a, b, c := ParseLines(front), ParseLines(follow), ParseLines(rest);
    CatchAllLine(line);
    if ParseLine(line).Malformed? {
      Associate(a + [Malformed], b, c);
      MalformedEndsReading(a, b + c);
      assert false;
    }
    NoindexLine();
    FrontIsOther(front);
    FollowStartsNoRule(follow);
    k, j := EntryInserted(a, CATCH_ALL, b, c, NOINDEX);
  }

  lemma PartsHaveNoLineFeed(lines: seq<string>, result: seq<string>, at: nat)
    requires forall i :: 0 <= i < |lines| ==> '\n' !in lines[i]
    requires at <= |lines| && result == InsertAt(lines, at, NOINDEX_LINE)
    ensures forall i :: 0 <= i < |result| ==> '\n' !in result[i]
  {
    NoLineFeed();
    forall i | 0 <= i < |result| ensures '\n' !in result[i] {
      assert result[i] == if i < at then lines[i] else if i == at then NOINDEX_LINE else lines[i - 1];
    }
  }

  lemma NoLineFeed()
    ensures '\n' !in NOINDEX_LINE
  {
  }

  /** Splitting the result gives the lines back. */
  lemma ResultLines(text: string)
    requires WithNoindexLines(Split(text, '\n')).Some?
    ensures Split(WithNoindex(text).value, '\n') == WithNoindexLines(Split(text, '\n')).value
  {
    var lines := Split(text, '\n');
    var result := WithNoindexLines(lines).value;
    CountsAreIndices(lines);
    InsertPointIsIndex(lines);
    PartsHaveNoLineFeed(lines, result, InsertPoint(lines));
    SplitJoin(result, '\n');
  }

  /** A file that parses has a line for the catch-all pattern exactly when it has a rule for it. */
  lemma LineIffRule(lines: seq<string>)
    requires Read(ParseLines(lines)).Ok?
    ensures WithNoindexLines(lines).Some? <==> !NoRule(Read(ParseLines(lines)).value, CATCH_ALL)
  {
    FirstCatchAllMeaning(lines);
    if WithNoindexLines(lines).Some? {
      var k, j := LinesKeepMeaning(lines);
    } else {
      FrontIsOther(lines);
      NoRuleBefore(ParseLines(lines), CATCH_ALL);
    }
  }

  /** The inserter succeeds exactly on the files that have a rule for the catch-all pattern. */
  lemma InsertedIffRule(text: string)
    requires ParseHeaders(text).Ok?
    ensures WithNoindex(text).Some? <==> !NoRule(ParseHeaders(text).value, CATCH_ALL)
  {
    LineIffRule(Split(text, '\n'));
  }

  /** Then its result parses, and to the same rules with one entry more in the first rule for the pattern. */
  lemma InsertionKeepsRules(text: string) returns (k: nat, j: nat)
    requires ParseHeaders(text).Ok? && !NoRule(ParseHeaders(text).value, CATCH_ALL)
    ensures WithNoindex(text).Some? && ParseHeaders(WithNoindex(text).value).Ok?
    ensures FirstRule(ParseHeaders(text).value, k, CATCH_ALL)
    ensures j == EntryCount(ParseLines(IndentedBlock(Split(text, '\n'))))
    ensures OneEntryMore(ParseHeaders(text).value, ParseHeaders(WithNoindex(text).value).value, k, j, NOINDEX)
  {
    InsertedIffRule(text);
    ResultLines(text);
    k, j := LinesKeepMeaning(Split(text, '\n'));
  }

  /** So every other pattern, and every other header of the catch-all pattern, is served as before. */
  lemma OnlyNoindexChanges(text: string, pattern: string)
    requires ParseHeaders(text).Ok? && !NoRule(ParseHeaders(text).value, CATCH_ALL)
    ensures WithNoindex(text).Some? && ParseHeaders(WithNoindex(text).value).Ok?
    ensures var before, after := Merged(ParseHeaders(text).value, pattern),
                                 Merged(ParseHeaders(WithNoindex(text).value).value, pattern);
            && SameExcept(before, after, NOINDEX.name)
            && (pattern != CATCH_ALL ==> before == after)
  {
    var k, j := InsertionKeepsRules(text);
    MergedExcept(ParseHeaders(text).value, ParseHeaders(WithNoindex(text).value).value, k, j, NOINDEX, pattern);
  }

  /**
   The catch-all pattern serves the new value, alone or as a part, unless a rule for it
   detaches that header behind the new entry; then nothing changes at all.
   */
  lemma NoindexIsServed(text: string) returns (k: nat, j: nat)
    requires ParseHeaders(text).Ok? && !NoRule(ParseHeaders(text).value, CATCH_ALL)
    ensures WithNoindex(text).Some? && ParseHeaders(WithNoindex(text).value).Ok?
    ensures j == EntryCount(ParseLines(IndentedBlock(Split(text, '\n'))))
    ensures OneEntryMore(ParseHeaders(text).value, ParseHeaders(WithNoindex(text).value).value, k, j, NOINDEX)
    ensures var before, after := Merged(ParseHeaders(text).value, CATCH_ALL),
                                 Merged(ParseHeaders(WithNoindex(text).value).value, CATCH_ALL);
            && (Served(before, after, NOINDEX) <==> !DetachedLater(ParseHeaders(text).value, k, j, NOINDEX.name))
            && (before == after <==> DetachedLater(ParseHeaders(text).value, k, j, NOINDEX.name))
  {
    k, j := InsertionKeepsRules(text);
    InsertedIsServed(ParseHeaders(text).value, ParseHeaders(WithNoindex(text).value).value, k, j, NOINDEX);
  }
}
