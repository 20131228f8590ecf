/**
 The wildcard matcher of the key patterns of a state multi-topic
 (`glob_match` in apps/websocket-api/src/topic.rs).
 Patterns and keys are parts of topics, which are ASCII: one `char` is one byte.
 */
module Glob {
  import opened Wrappers

  const STAR: char := '*'

  // ----- What a pattern means -----

  ghost function Stars(p: string): nat {
    if p == [] then 0 else (if p[0] == STAR then 1 else 0) + Stars(p[1..])
  }

  /** `p` with its i-th star replaced by `runs[i]`; every other byte stands for itself. */
  ghost function Fill(p: string, runs: seq<string>): string
    requires |runs| == Stars(p)
  {
    if p == [] then []
    else if p[0] == STAR then runs[0] + Fill(p[1..], runs[1..])
    else [p[0]] + Fill(p[1..], runs)
  }

  ghost predicate FillsTo(p: string, runs: seq<string>, t: string) {
    |runs| == Stars(p) && Fill(p, runs) == t
  }

  /** The documented meaning: some choice of runs turns the pattern into the text. */
  ghost predicate Denotes(p: string, t: string) {
    exists runs :: FillsTo(p, runs, t)
  }

  // ----- The same meaning, read from the left -----

  ghost predicate Matches(p: string, t: string)
    decreases |p|
  {
    if p == [] then t == []
    else if p[0] == STAR then exists k :: 0 <= k <= |t| && Matches(p[1..], t[k..])
    else t != [] && t[0] == p[0] && Matches(p[1..], t[1..])
  }

  lemma {:induction false} DenotesImpliesMatches(p: string, runs: seq<string>)
    requires |runs| == Stars(p)
    ensures Matches(p, Fill(p, runs))
    decreases |p|
  {
    if p == [] {
    } else if p[0] == STAR {
      var t := Fill(p, runs);
      DenotesImpliesMatches(p[1..], runs[1..]);
      assert t[|runs[0]|..] == Fill(p[1..], runs[1..]);
    } else {
      var t := Fill(p, runs);
      DenotesImpliesMatches(p[1..], runs);
      assert t[1..] == Fill(p[1..], runs);
    }
  }

  lemma {:induction false} MatchesImpliesDenotes(p: string, t: string)
    requires Matches(p, t)
    ensures Denotes(p, t)
    decreases |p|
  {
    if p == [] {
      assert FillsTo(p, [], t);
    } else if p[0] == STAR {
      var k :| 0 <= k <= |t| && Matches(p[1..], t[k..]);
      MatchesImpliesDenotes(p[1..], t[k..]);
      var runs :| FillsTo(p[1..], runs, t[k..]);
      var all := [t[..k]] + runs;
      assert all[1..] == runs;
      assert FillsTo(p, all, t);
    } else {
      MatchesImpliesDenotes(p[1..], t[1..]);
      var runs :| FillsTo(p[1..], runs, t[1..]);
      assert FillsTo(p, runs, t);
    }
  }

  lemma MatchesIffDenotes(p: string, t: string)
    ensures Matches(p, t) <==> Denotes(p, t)
  {
    if Matches(p, t) {
      MatchesImpliesDenotes(p, t);
    }
    if Denotes(p, t) {
      var runs :| FillsTo(p, runs, t);
      DenotesImpliesMatches(p, runs);
    }
  }

  // ----- Why restarting only from the last star loses nothing -----

  ghost predicate Literal(p: string) {
    STAR !in p
  }

  /** A literal piece in front is matched by exactly its own bytes. */
  lemma {:induction false} LiteralInFront(l: string, p: string, t: string)
    requires Literal(l)
    ensures Matches(l + p, t) <==> l <= t && Matches(p, t[|l|..])
    decreases |l|
  {
    if l == [] {
      assert l + p == p;
      assert t[0..] == t;
    } else {
      assert (l + p)[1..] == l[1..] + p;
      if t != [] && t[0] == l[0] {
        LiteralInFront(l[1..], p, t[1..]);
        assert l <= t <==> l[1..] <= t[1..] by {
          assert l == [l[0]] + l[1..] && t == [t[0]] + t[1..];
        }
        if l <= t {
          assert t[1..][|l| - 1..] == t[|l|..];
        }
      }
    }
  }

  /** A leading star absorbs any bytes in front. */
  lemma StarAbsorbs(p: string, t: string, k: nat)
    requires p != [] && p[0] == STAR && k <= |t|
    requires Matches(p, t[k..])
    ensures Matches(p, t)
  {
    var j :| 0 <= j <= |t[k..]| && Matches(p[1..], t[k..][j..]);
    assert t[k..][j..] == t[k + j..];
  }

  /** A star first tries the empty run, then gives up one more byte. */
  lemma StarUnfolds(p: string, t: string)
    requires p != [] && p[0] == STAR && t != []
    ensures Matches(p, t) <==> Matches(p[1..], t) || Matches(p, t[1..])
  {
    assert t[0..] == t;
    if Matches(p, t) && !Matches(p[1..], t) {
      var k :| 0 <= k <= |t| && Matches(p[1..], t[k..]);
      assert t[k..] == t[1..][k - 1..];
    }
    if Matches(p, t[1..]) {
      StarAbsorbs(p, t, 1);
    }
  }

  /** When a second star is reached, the bytes already matched are settled. */
  lemma NextStar(l: string, p: string, t: string)
    requires Literal(l) && p != [] && p[0] == STAR && l <= t
    ensures Matches([STAR] + l + p, t) <==> Matches(p, t[|l|..])
  {
    var q := [STAR] + l + p;
    assert q[1..] == l + p;
    if Matches(q, t) {
      var k :| 0 <= k <= |t| && Matches(l + p, t[k..]);
      LiteralInFront(l, p, t[k..]);
      assert t[k..][|l|..] == t[|l|..][k..];
      StarAbsorbs(p, t[|l|..], k);
    }
    if Matches(p, t[|l|..]) {
      LiteralInFront(l, p, t);
      assert t[0..] == t;
    }
  }

  // ----- The matcher -----

  /** Where the matcher stands: the two indices, the last star seen and its mark. */
  datatype Cursor = Cursor(pi: nat, ti: nat, star: Option<nat>, mark: nat)

  /**
   What holds between two iterations, `steps` of them done: the answer for the whole
   pattern is the answer for what is left, and every restart was paid for.
   */
  ghost predicate Underway(p: string, t: string, c: Cursor, steps: nat) {
    && c.pi <= |p| && c.mark <= c.ti <= |t|
    && (c.star.None? ==> c.mark == 0 && Settled(p, t, c.pi, c.ti))
    && (c.star.Some? ==> Restartable(p, t, c.star.value, c.pi, c.mark, c.ti))
    && steps <= Budget(c.mark, |p| + 1) + c.pi
  }

  /**
   Both indices move forward together; on a mismatch the pattern restarts just
   after the last star, with one more byte given to it (`mark`).
   `steps` counts the loop iterations.
   */
  method GlobMatch(pattern: string, text: string) returns (r: bool, ghost steps: nat)
    ensures r <==> Denotes(pattern, text)
    ensures steps <= Budget(|text|, |pattern| + 1) + |pattern|
  {
    steps := 0;
    var pi: nat, ti: nat, mark: nat := 0, 0, 0;
    var star: Option<nat> := None;
    assert pattern[0..] == pattern && text[0..] == text;
    while ti < |text|
      invariant pi <= |pattern| && mark <= ti <= |text|
      invariant star.Some? ==> star.value < pi
      invariant Underway(pattern, text, Cursor(pi, ti, star, mark), steps)
      decreases |text| - mark, |text| - ti, |pattern| - pi
    {
      ghost var c := Cursor(pi, ti, star, mark);
      if pi < |pattern| && pattern[pi] == STAR {
        star := Some(pi);
        pi := pi + 1;
        mark := ti;
        TakeStar(pattern, text, c, Cursor(pi, ti, star, mark), steps);
      } else if pi < |pattern| && pattern[pi] == text[ti] {
        pi := pi + 1;
        ti := ti + 1;
        TakeByte(pattern, text, c, Cursor(pi, ti, star, mark), steps);
      } else if star.Some? {
        pi := star.value + 1;
        mark := mark + 1;
        ti := mark;
        Restart(pattern, text, c, Cursor(pi, ti, star, mark), steps);
      } else {
        MismatchWithoutStar(pattern, text, c, steps);
        return false, steps + 1;
      }
      steps := steps + 1;
    }
    ghost var c, taken := Cursor(pi, ti, star, mark), steps;
    while pi < |pattern| && pattern[pi] == STAR
      invariant c.pi <= pi <= |pattern|
      invariant forall i :: c.pi <= i < pi ==> pattern[i] == STAR
      invariant steps == taken + pi - c.pi
    {
      pi := pi + 1;
      steps := steps + 1;
    }
    EndOfText(pattern, text, c, taken, pi);
    r := pi == |pattern|;
  }

  lemma TakeStar(p: string, t: string, c: Cursor, d: Cursor, steps: nat)
    requires Underway(p, t, c, steps)
    requires c.pi < |p| && p[c.pi] == STAR
    requires d == Cursor(c.pi + 1, c.ti, Some(c.pi), c.ti)
    ensures Underway(p, t, d, steps + 1)
  {
    if c.star.Some? {
      StarAfterStar(p, t, c.star.value, c.pi, c.mark, c.ti);
    }
    BudgetIsMonotone(c.mark, c.ti, |p| + 1);
  }

  lemma TakeByte(p: string, t: string, c: Cursor, d: Cursor, steps: nat)
    requires Underway(p, t, c, steps)
    requires c.pi < |p| && c.ti < |t| && p[c.pi] == t[c.ti] && p[c.pi] != STAR
    requires d == c.(pi := c.pi + 1, ti := c.ti + 1)
    ensures Underway(p, t, d, steps + 1)
  {
    if c.star.Some? {
      OneMoreByte(p, t, c.star.value, c.pi, c.mark, c.ti);
    } else {
      assert p[c.pi..][1..] == p[c.pi + 1..] && t[c.ti..][1..] == t[c.ti + 1..];
    }
  }

  lemma Restart(p: string, t: string, c: Cursor, d: Cursor, steps: nat)
    requires Underway(p, t, c, steps)
    requires c.ti < |t| && c.star.Some?
    requires c.pi < |p| ==> p[c.pi] != STAR && p[c.pi] != t[c.ti]
    requires d == Cursor(c.star.value + 1, c.mark + 1, c.star, c.mark + 1)
    ensures Underway(p, t, d, steps + 1)
  {
    GiveUpOneByte(p, t, c.star.value, c.pi, c.mark, c.ti);
  }

  lemma MismatchWithoutStar(p: string, t: string, c: Cursor, steps: nat)
    requires Underway(p, t, c, steps)
    requires c.ti < |t| && c.star.None?
    requires c.pi < |p| ==> p[c.pi] != STAR && p[c.pi] != t[c.ti]
    ensures !Denotes(p, t)
    ensures steps + 1 <= Budget(|t|, |p| + 1) + |p|
  {
    MatchesIffDenotes(p, t);
    BudgetIsMonotone(1, |t|, |p| + 1);
  }

  /** With the text used up, the rest of the pattern must be stars only. */
  lemma EndOfText(p: string, t: string, c: Cursor, steps: nat, pi: nat)
    requires Underway(p, t, c, steps) && c.ti == |t|
    requires c.pi <= pi <= |p| && (forall i :: c.pi <= i < pi ==> p[i] == STAR)
    requires pi < |p| ==> p[pi] != STAR
    ensures Denotes(p, t) <==> pi == |p|
    ensures steps + pi - c.pi <= Budget(|t|, |p| + 1) + |p|
  {
    MatchesIffDenotes(p, t);
    BudgetIsMonotone(c.mark, |t|, |p| + 1);
    OnlyStarsMatchNothing(p[c.pi..], pi - c.pi);
    if c.star.Some? {
      EndAfterStar(p, t, c.star.value, c.pi, c.mark);
    } else {
      assert t[|t|..] == [];
    }
  }

  lemma EndAfterStar(p: string, t: string, s: nat, pi: nat, mark: nat)
    requires pi <= |p| && mark <= |t|
    requires Restartable(p, t, s, pi, mark, |t|)
    ensures Matches(p, t) <==> Matches(p[pi..], [])
  {
    var l := p[s + 1..pi];
    CutAtPiece(p, s, pi);
    assert t[mark..] == t[mark..|t|];
    StarThenWholeText(l, p[pi..], t[mark..]);
  }

  /** Iterations paid for by `restarts` restarts: each one may walk the whole pattern again. */
  ghost function Budget(restarts: nat, width: nat): nat {
    if restarts == 0 then 0 else width + Budget(restarts - 1, width)
  }

  lemma {:induction false} BudgetIsProduct(restarts: nat, width: nat)
    ensures Budget(restarts, width) == restarts * width
  {
    if restarts > 0 {
      BudgetIsProduct(restarts - 1, width);
    }
  }

  lemma {:induction false} BudgetIsMonotone(a: nat, b: nat, width: nat)
    requires a <= b
    ensures Budget(a, width) <= Budget(b, width)
  {
    if b > 0 {
      BudgetIsMonotone(if a < b then a else b - 1, b - 1, width);
    }
  }

  /** No star yet: the prefixes agree and only the suffixes are left to match. */
  ghost predicate Settled(p: string, t: string, pi: nat, ti: nat)
    requires pi <= |p| && ti <= |t|
  {
    Matches(p, t) <==> Matches(p[pi..], t[ti..])
  }

  /** The answer is the answer at the last star `s` against the text from `mark`. */
  ghost predicate Restartable(p: string, t: string, s: nat, pi: nat, mark: nat, ti: nat)
    requires pi <= |p| && mark <= ti <= |t|
  {
    && s < pi
    && p[s] == STAR
    && p[s + 1..pi] == t[mark..ti]
    && Literal(p[s + 1..pi])
    && (Matches(p, t) <==> Matches(p[s..], t[mark..]))
  }

  lemma OneMoreByte(p: string, t: string, s: nat, pi: nat, mark: nat, ti: nat)
    requires pi < |p| && mark <= ti < |t|
    requires Restartable(p, t, s, pi, mark, ti)
    requires p[pi] == t[ti] && p[pi] != STAR
    ensures Restartable(p, t, s, pi + 1, mark, ti + 1)
  {
    assert p[s + 1..pi + 1] == p[s + 1..pi] + [p[pi]];
    assert t[mark..ti + 1] == t[mark..ti] + [t[ti]];
  }

  lemma CutAtPiece(p: string, s: nat, pi: nat)
    requires s < pi <= |p|
    ensures p[s..] == [p[s]] + p[s + 1..pi] + p[pi..]
    ensures p[s..][1..] == p[s + 1..pi] + p[pi..]
  {
  }

  lemma StarAfterStar(p: string, t: string, s: nat, pi: nat, mark: nat, ti: nat)
    requires pi < |p| && mark <= ti <= |t|
    requires Restartable(p, t, s, pi, mark, ti)
    requires p[pi] == STAR
    ensures Settled(p, t, pi, ti)
  {
    var l := p[s + 1..pi];
    CutAtPiece(p, s, pi);
    assert t[mark..][|l|..] == t[ti..];
    NextStar(l, p[pi..], t[mark..]);
  }

  lemma GiveUpOneByte(p: string, t: string, s: nat, pi: nat, mark: nat, ti: nat)
    requires pi <= |p| && mark <= ti < |t|
    requires Restartable(p, t, s, pi, mark, ti)
    requires pi < |p| ==> p[pi] != STAR && p[pi] != t[ti]
    ensures Restartable(p, t, s, s + 1, mark + 1, mark + 1)
  {
    var l := p[s + 1..pi];
    CutAtPiece(p, s, pi);
    assert t[mark..][|l|..] == t[ti..];
    LiteralInFront(l, p[pi..], t[mark..]);
    StarUnfolds(p[s..], t[mark..]);
    assert t[mark..][1..] == t[mark + 1..];
  }

  /** Behind a star, a literal piece as long as the text can only start at its front. */
  lemma StarThenWholeText(l: string, p: string, t: string)
    requires Literal(l) && t == l
    ensures Matches([STAR] + l + p, t) <==> Matches(p, [])
  {
    var q := [STAR] + l + p;
    assert q[1..] == l + p;
    assert t[0..] == t && t[|l|..] == [];
    LiteralInFront(l, p, t);
    if Matches(q, t) {
      var k :| 0 <= k <= |t| && Matches(q[1..], t[k..]);
      LiteralInFront(l, p, t[k..]);
      assert k == 0;
    }
  }

  lemma {:induction false} OnlyStarsMatchNothing(p: string, n: nat)
    requires n <= |p| && (forall i :: 0 <= i < n ==> p[i] == STAR)
    requires n < |p| ==> p[n] != STAR
    ensures Matches(p, []) <==> n == |p|
    decreases n
  {
    var e: string := [];
    assert e[0..] == e;
    if n > 0 {
      OnlyStarsMatchNothing(p[1..], n - 1);
    }
  }
}
