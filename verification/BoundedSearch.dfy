/**
 A bounded search over several indexes: read the members of each index in turn, keep
 those that a table maps to a topic, collect the topics, and stop as soon as more
 members were kept or examined than allowed.

 Members `M` and topics `T` are left open here; module Resolution fills them in.
 */
module BoundedSearch {
  import opened Wrappers
  import opened Text

  datatype Limits = Limits(found: nat, examined: nat)
  datatype SearchError = TooManyKeys | TooManyMembers | SourceFailure

  // ----- Reading one index -----

  datatype IndexScan<M> = IndexScan(kept: seq<M>, examined: nat)

  predicate Over<M>(scan: IndexScan<M>, limit: Limits) {
    |scan.kept| > limit.found || scan.examined > limit.examined
  }

  ghost function KeptOne<M, T>(table: imap<M, T>, member: M): seq<M> {
    if member in table then [member] else []
  }

  ghost function Kept<M, T>(table: imap<M, T>, members: seq<M>): seq<M> {
    if members == [] then []
    else Kept(table, members[..|members| - 1]) + KeptOne(table, members[|members| - 1])
  }

  /** Examines member after member and stops as soon as a bound is exceeded. */
  ghost function Scan<M, T>(table: imap<M, T>, members: seq<M>, limit: Limits): IndexScan<M> {
    if members == [] then IndexScan([], 0)
    else ScanOne(table, Scan(table, members[..|members| - 1], limit), members[|members| - 1], limit)
  }

  ghost function ScanOne<M, T>(table: imap<M, T>, scan: IndexScan<M>, member: M, limit: Limits): IndexScan<M> {
    if Over(scan, limit) then scan
    else IndexScan(scan.kept + KeptOne(table, member), scan.examined + 1)
  }

  lemma ScanSnoc<M, T>(table: imap<M, T>, members: seq<M>, last: M, limit: Limits)
    ensures Scan(table, members + [last], limit) == ScanOne(table, Scan(table, members, limit), last, limit)
    ensures Kept(table, members + [last]) == Kept(table, members) + KeptOne(table, last)
  {
    assert (members + [last])[..|members|] == members;
  }

  lemma {:induction false} StoppedScanIsFinal<M, T>(table: imap<M, T>, a: seq<M>, b: seq<M>, limit: Limits)
    requires Over(Scan(table, a, limit), limit)
    ensures Scan(table, a + b, limit) == Scan(table, a, limit)
    decreases |b|
  {
    if b == [] {
      assert a + b == a;
    } else {
      var init, last := b[..|b| - 1], b[|b| - 1];
      SplitLast(b);
      Associate(a, init, [last]);
      StoppedScanIsFinal(table, a, init, limit);
      ScanSnoc(table, a + init, last, limit);
    }
  }

  /**
   The documented outcome: the members kept of the part examined, at most one more
   than each bound, and nothing left unexamined unless a bound was exceeded.
   */
  lemma {:induction false} ScanOutcome<M, T>(table: imap<M, T>, members: seq<M>, limit: Limits)
    returns (part: seq<M>, rest: seq<M>)
    ensures members == part + rest
    ensures Scan(table, members, limit) == IndexScan(Kept(table, part), |part|)
    ensures |Kept(table, part)| <= limit.found + 1 && |part| <= limit.examined + 1
    ensures rest != [] ==> |Kept(table, part)| > limit.found || |part| > limit.examined
    decreases |members|
  {
    part, rest := [], [];
    if members != [] {
      var init, last := members[..|members| - 1], members[|members| - 1];
      SplitLast(members);
      part, rest := ScanOutcome(table, init, limit);
      ScanSnoc(table, init, last, limit);
      if Over(Scan(table, init, limit), limit) {
        Associate(part, rest, [last]);
        rest := rest + [last];
      } else {
        assert part == init;
        ScanSnoc(table, part, last, limit);
        part, rest := part + [last], [];
      }
    }
  }

  lemma {:induction false} KeptAreInTable<M, T>(table: imap<M, T>, members: seq<M>, limit: Limits, scan: IndexScan<M>)
    requires scan == Scan(table, members, limit)
    ensures forall m :: m in scan.kept ==> m in table
    decreases |members|
  {
    if members != [] {
      var before := Scan(table, members[..|members| - 1], limit);
      KeptAreInTable(table, members[..|members| - 1], limit, before);
    }
  }

  // ----- The search over the indexes -----

  /** The topics of a list of members. */
  ghost function TopicsOf<M, T>(table: imap<M, T>, members: seq<M>): seq<T> {
    if members == [] then []
    else TopicsOf(table, members[..|members| - 1]) + TopicOf(table, members[|members| - 1])
  }

  ghost function TopicOf<M, T>(table: imap<M, T>, member: M): seq<T> {
    if member in table then [table[member]] else []
  }

  /** A set of topics, as the list of its elements in the order they were found. */
  ghost function AddAll<T>(found: seq<T>, topics: seq<T>): seq<T> {
    if topics == [] then found
    else Add(AddAll(found, topics[..|topics| - 1]), topics[|topics| - 1])
  }

  function Add<T(==)>(found: seq<T>, t: T): seq<T> {
    if t in found then found else found + [t]
  }

  datatype Progress<T> = Progress(found: seq<T>, examined: nat)

  ghost predicate Within<T>(p: Progress<T>, max: Limits) {
    |p.found| <= max.found && p.examined <= max.examined
  }

  function Remaining<T>(p: Progress<T>, max: Limits): Limits
    requires Within(p, max)
  {
    Limits(max.found - |p.found|, max.examined - p.examined)
  }

  function CheckBounds<T>(p: Progress<T>, max: Limits): (r: Result<Progress<T>, SearchError>)
    ensures r.Ok? ==> Within(r.value, max)
  {
    if p.examined > max.examined then Err(TooManyMembers)
    else if |p.found| > max.found then Err(TooManyKeys)
    else Ok(p)
  }

  /** One index: scan with what is left of both budgets, then check both. */
  ghost function GatherOne<M, T>(table: imap<M, T>, members: seq<M>, p: Progress<T>, max: Limits)
    : (r: Result<Progress<T>, SearchError>)
    requires Within(p, max)
    ensures r.Ok? ==> Within(r.value, max)
  {
    var scan := Scan(table, members, Remaining(p, max));
    CheckBounds(Progress(AddAll(p.found, TopicsOf(table, scan.kept)), p.examined + scan.examined), max)
  }

  lemma GatherOneFrom<M, T>(
      table: imap<M, T>, members: seq<M>, p: Progress<T>, max: Limits, scan: IndexScan<M>, found: seq<T>)
    requires Within(p, max) && scan == Scan(table, members, Remaining(p, max))
    requires found == AddAll(p.found, TopicsOf(table, scan.kept))
    ensures GatherOne(table, members, p, max) == CheckBounds(Progress(found, p.examined + scan.examined), max)
  {
  }

  /** The first `n` indexes; an index that cannot be read ends the search. */
  ghost function Gather<M, T>(table: imap<M, T>, indexes: seq<Option<seq<M>>>, max: Limits)
    : (r: Result<Progress<T>, SearchError>)
    ensures r.Ok? ==> Within(r.value, max)
  {
    if indexes == [] then Ok(Progress([], 0))
    else
      var before := Gather(table, indexes[..|indexes| - 1], max);
      if before.Err? then before else Continue(table, indexes[|indexes| - 1], before.value, max)
  }

  ghost function Continue<M, T>(table: imap<M, T>, index: Option<seq<M>>, p: Progress<T>, max: Limits)
    : (r: Result<Progress<T>, SearchError>)
    requires Within(p, max)
    ensures r.Ok? ==> Within(r.value, max)
  {
    if index.None? then Err(SourceFailure) else GatherOne(table, index.value, p, max)
  }

  lemma GatherSnoc<M, T>(table: imap<M, T>, indexes: seq<Option<seq<M>>>, index: Option<seq<M>>, max: Limits)
    ensures var before := Gather(table, indexes, max);
            Gather(table, indexes + [index], max)
              == if before.Err? then before else Continue(table, index, before.value, max)
  {
    assert (indexes + [index])[..|indexes|] == indexes;
  }

  lemma {:induction false} FirstErrorIsFinal<M, T>(
      table: imap<M, T>, front: seq<Option<seq<M>>>, rest: seq<Option<seq<M>>>, max: Limits)
    requires Gather(table, front, max).Err?
    ensures Gather(table, front + rest, max) == Gather(table, front, max)
    decreases |rest|
  {
    if rest == [] {
      assert front + rest == front;
    } else {
      var init, last := rest[..|rest| - 1], rest[|rest| - 1];
      SplitLast(rest);
      Associate(front, init, [last]);
      FirstErrorIsFinal(table, front, init, max);
      GatherSnoc(table, front + init, last, max);
    }
  }

  /** One index more: the search goes on, or ends with the error that it returns in the end. */
  lemma NextInGather<M, T>(
      table: imap<M, T>, front: seq<Option<seq<M>>>, index: Option<seq<M>>, rest: seq<Option<seq<M>>>, max: Limits)
    requires Gather(table, front, max).Ok?
    ensures var next := Continue(table, index, Gather(table, front, max).value, max);
            && Gather(table, front + [index], max) == next
            && (next.Err? ==> Gather(table, front + [index] + rest, max) == next)
  {
    GatherSnoc(table, front, index, max);
    if Gather(table, front + [index], max).Err? {
      FirstErrorIsFinal(table, front + [index], rest, max);
    }
  }

  lemma {:induction false} SuccessHasReadAll<M, T>(table: imap<M, T>, indexes: seq<Option<seq<M>>>, max: Limits)
    requires Gather(table, indexes, max).Ok?
    ensures forall i :: 0 <= i < |indexes| ==> indexes[i].Some?
    decreases |indexes|
  {
    if indexes != [] {
      var init, last := indexes[..|indexes| - 1], indexes[|indexes| - 1];
      SplitLast(indexes);
      GatherSnoc(table, init, last, max);
      SuccessHasReadAll(table, init, max);
      assert forall i :: 0 <= i < |init| ==> indexes[i] == init[i];
    }
  }

  /** With the scan of one more index, at most one member beyond the bound has been examined. */
  lemma ExaminedAtMostOneMore<M, T>(table: imap<M, T>, members: seq<M>, p: Progress<T>, max: Limits)
    requires Within(p, max)
    ensures p.examined + Scan(table, members, Remaining(p, max)).examined <= max.examined + 1
  {
    var part, rest := ScanOutcome(table, members, Remaining(p, max));
  }

  // ----- What the search finds -----

  /** The topics that all indexes hold, one for each member kept. */
  ghost function Matching<M, T>(table: imap<M, T>, indexes: seq<seq<M>>): seq<T> {
    if indexes == [] then []
    else Matching(table, indexes[..|indexes| - 1]) + TopicsOf(table, indexes[|indexes| - 1])
  }

  ghost function Total<M>(indexes: seq<seq<M>>): nat {
    if indexes == [] then 0 else Total(indexes[..|indexes| - 1]) + |indexes[|indexes| - 1]|
  }

  ghost function AllRead<M>(indexes: seq<seq<M>>): seq<Option<seq<M>>> {
    if indexes == [] then [] else AllRead(indexes[..|indexes| - 1]) + [Some(indexes[|indexes| - 1])]
  }

  /** Different topics, all from a list. */
  ghost predicate Among<T>(found: seq<T>, topics: seq<T>) {
    Distinct(found) && forall t :: t in found ==> t in topics
  }

  lemma AddAllSnoc<T>(found: seq<T>, topics: seq<T>, t: T)
    ensures AddAll(found, topics + [t]) == Add(AddAll(found, topics), t)
  {
    assert (topics + [t])[..|topics|] == topics;
  }

  /** Adding to a set: nothing else appears, nothing appears twice. */
  lemma {:induction false} AddAllMembers<T>(found: seq<T>, topics: seq<T>) returns (r: seq<T>)
    ensures r == AddAll(found, topics)
    ensures forall t :: t in r <==> t in found || t in topics
    ensures Distinct(found) ==> Distinct(r)
    decreases |topics|
  {
    r := found;
    if topics != [] {
      var init, last := topics[..|topics| - 1], topics[|topics| - 1];
      SplitLast(topics);
      var before := AddAllMembers(found, init);
      AddAllSnoc(found, init, last);
      DistinctSnoc(before, last);
      r := Add(before, last);
    }
  }

  /** Topics that are all different and new are appended; otherwise some are dropped. */
  lemma {:induction false} AddAllDistinct<T>(found: seq<T>, topics: seq<T>)
    requires Distinct(found)
    ensures |AddAll(found, topics)| <= |found| + |topics|
    ensures Distinct(found + topics) ==> AddAll(found, topics) == found + topics
    ensures !Distinct(found + topics) ==> |AddAll(found, topics)| < |found| + |topics|
    decreases |topics|
  {
    if topics == [] {
      assert found + topics == found;
    } else {
      var init, last := topics[..|topics| - 1], topics[|topics| - 1];
      SplitLast(topics);
      AddAllDistinct(found, init);
      var before := AddAllMembers(found, init);
      AddAllSnoc(found, init, last);
      Associate(found, init, [last]);
      DistinctSnoc(found + init, last);
    }
  }

  lemma {:induction false} AddAllConcat<T>(found: seq<T>, a: seq<T>, b: seq<T>)
    ensures AddAll(AddAll(found, a), b) == AddAll(found, a + b)
    decreases |b|
  {
    if b == [] {
      assert a + b == a;
    } else {
      var init, last := FrontMembers(b);
      Associate(a, init, [last]);
      AddAllConcat(found, a, init);
      AddAllSnoc(AddAll(found, a), init, last);
      AddAllSnoc(found, a + init, last);
    }
  }

  lemma TopicsOfSnoc<M, T>(table: imap<M, T>, members: seq<M>, last: M)
    ensures TopicsOf(table, members + [last]) == TopicsOf(table, members) + TopicOf(table, last)
  {
    assert (members + [last])[..|members|] == members;
  }

  /** The topic of one more member is added. */
  lemma NextTopic<M, T>(table: imap<M, T>, found: seq<T>, kept: seq<M>, i: nat)
    requires i < |kept| && kept[i] in table
    ensures AddAll(found, TopicsOf(table, kept[..i + 1]))
         == Add(AddAll(found, TopicsOf(table, kept[..i])), table[kept[i]])
  {
    assert kept[..i + 1] == kept[..i] + [kept[i]];
    TopicsOfSnoc(table, kept[..i], kept[i]);
    AddAllSnoc(found, TopicsOf(table, kept[..i]), table[kept[i]]);
  }

  lemma {:induction false} TopicsOfConcat<M, T>(table: imap<M, T>, a: seq<M>, b: seq<M>)
    ensures TopicsOf(table, a + b) == TopicsOf(table, a) + TopicsOf(table, b)
    decreases |b|
  {
    if b == [] {
      assert a + b == a;
    } else {
      var init, last := b[..|b| - 1], b[|b| - 1];
      SplitLast(b);
      Associate(a, init, [last]);
      TopicsOfConcat(table, a, init);
      TopicsOfSnoc(table, a + init, last);
      TopicsOfSnoc(table, init, last);
      Associate(TopicsOf(table, a), TopicsOf(table, init), TopicOf(table, last));
    }
  }

  lemma {:induction false} TopicsOfMember<M, T>(table: imap<M, T>, members: seq<M>, t: T)
    ensures t in TopicsOf(table, members) <==> exists m :: m in members && m in table && table[m] == t
    decreases |members|
  {
    if members != [] {
      var init, last := members[..|members| - 1], members[|members| - 1];
      SplitLast(members);
      TopicsOfMember(table, init, t);
    }
  }

  /** Dropping the members that are not kept drops no topic. */
  lemma {:induction false} TopicsOfKept<M, T>(table: imap<M, T>, members: seq<M>)
    ensures TopicsOf(table, Kept(table, members)) == TopicsOf(table, members)
    ensures |Kept(table, members)| == |TopicsOf(table, members)|
    decreases |members|
  {
    if members != [] {
      var init, last := members[..|members| - 1], members[|members| - 1];
      SplitLast(members);
      TopicsOfKept(table, init);
      ScanSnoc(table, init, last, Limits(0, 0));
      TopicsOfSnoc(table, init, last);
      if last in table {
        TopicsOfSnoc(table, Kept(table, init), last);
      } else {
        assert Kept(table, members) == Kept(table, init);
        assert TopicsOf(table, members) == TopicsOf(table, init);
      }
    }
  }

  /** One index adds the topics of the part examined; all of it, unless a bound was exceeded. */
  lemma IndexOutcome<M, T>(table: imap<M, T>, members: seq<M>, p: Progress<T>, max: Limits)
    returns (part: seq<M>, rest: seq<M>)
    requires Within(p, max)
    ensures members == part + rest
    ensures GatherOne(table, members, p, max)
         == CheckBounds(Progress(AddAll(p.found, TopicsOf(table, part)), p.examined + |part|), max)
    ensures rest != [] ==> |TopicsOf(table, part)| > max.found - |p.found|
                           || |part| > max.examined - p.examined
  {
    part, rest := ScanOutcome(table, members, Remaining(p, max));
    TopicsOfKept(table, part);
  }

  // ----- Soundness -----

  lemma IndexIsSound<M, T>(table: imap<M, T>, members: seq<M>, p: Progress<T>, max: Limits, before: seq<T>)
    returns (q: Progress<T>)
    requires Within(p, max) && Among(p.found, before)
    ensures GatherOne(table, members, p, max) == CheckBounds(q, max)
    ensures q.examined <= p.examined + |members| && Among(q.found, before + TopicsOf(table, members))
  {
    var part, rest := IndexOutcome(table, members, p, max);
    var found := AddAllMembers(p.found, TopicsOf(table, part));
    q := Progress(found, p.examined + |part|);
    TopicsOfConcat(table, part, rest);
  }

  /** Whatever the indexes hold, only matching topics are found, none of them twice. */
  lemma {:induction false} FoundTopicsMatch<M, T>(table: imap<M, T>, indexes: seq<seq<M>>, max: Limits)
    requires Gather(table, AllRead(indexes), max).Ok?
    ensures Among(Gather(table, AllRead(indexes), max).value.found, Matching(table, indexes))
    ensures Gather(table, AllRead(indexes), max).value.examined <= Total(indexes)
    decreases |indexes|
  {
    if indexes != [] {
      var init, last := indexes[..|indexes| - 1], indexes[|indexes| - 1];
      GatherSnoc(table, AllRead(init), Some(last), max);
      FoundTopicsMatch(table, init, max);
      var q := IndexIsSound(table, last, Gather(table, AllRead(init), max).value, max, Matching(table, init));
    }
  }

  // ----- When no topic is delivered twice -----

  ghost predicate InSome<M>(indexes: seq<seq<M>>, m: M) {
    exists i :: 0 <= i < |indexes| && m in indexes[i]
  }

  lemma InSomeSnoc<M>(indexes: seq<seq<M>>, m: M)
    requires indexes != []
    ensures InSome(indexes, m) <==> InSome(indexes[..|indexes| - 1], m) || m in indexes[|indexes| - 1]
  {
    var init := indexes[..|indexes| - 1];
    assert forall i :: 0 <= i < |init| ==> init[i] == indexes[i];
    if InSome(indexes, m) && m !in indexes[|indexes| - 1] {
      var i :| 0 <= i < |indexes| && m in indexes[i];
      assert m in init[i];
    }
  }

  lemma {:induction false} MatchingMember<M, T>(table: imap<M, T>, indexes: seq<seq<M>>, t: T)
    ensures t in Matching(table, indexes) <==> exists m :: InSome(indexes, m) && m in table && table[m] == t
    decreases |indexes|
  {
    if indexes != [] {
      var init, last := indexes[..|indexes| - 1], indexes[|indexes| - 1];
      MatchingMember(table, init, t);
      TopicsOfMember(table, last, t);
      forall m: M ensures InSome(indexes, m) <==> InSome(init, m) || m in last {
        InSomeSnoc(indexes, m);
      }
    }
  }

  /** Every index lists each of its members once, and none that an earlier index lists. */
  ghost predicate Separate<M>(indexes: seq<seq<M>>) {
    indexes == []
    || (var init, last := indexes[..|indexes| - 1], indexes[|indexes| - 1];
        Separate(init) && Distinct(last) && forall m :: m in last ==> !InSome(init, m))
  }

  /** Different members of a set are different topics. */
  ghost predicate Injective<M(!new), T>(table: imap<M, T>, all: iset<M>) {
    forall m, n :: m in all && n in all && m in table && n in table && table[m] == table[n] ==> m == n
  }

  lemma {:induction false} TopicsDistinct<M(!new), T>(table: imap<M, T>, members: seq<M>, all: iset<M>)
    requires Distinct(members) && Injective(table, all)
    requires forall m :: m in members ==> m in all
    ensures Distinct(TopicsOf(table, members))
    decreases |members|
  {
    if members != [] {
      var init, last := members[..|members| - 1], members[|members| - 1];
      SplitLast(members);
      TopicsDistinct(table, init, all);
      if last in table {
        TopicsOfMember(table, init, table[last]);
        DistinctSnoc(TopicsOf(table, init), table[last]);
      } else {
        assert TopicsOf(table, members) == TopicsOf(table, init);
      }
    }
  }

  lemma {:induction false} MatchingDistinct<M(!new), T>(table: imap<M, T>, indexes: seq<seq<M>>, all: iset<M>)
    requires Separate(indexes) && Injective(table, all)
    requires forall m :: InSome(indexes, m) ==> m in all
    ensures Distinct(Matching(table, indexes))
    decreases |indexes|
  {
    if indexes != [] {
      var init, last := indexes[..|indexes| - 1], indexes[|indexes| - 1];
      forall m: M ensures InSome(indexes, m) <==> InSome(init, m) || m in last {
        InSomeSnoc(indexes, m);
      }
      MatchingDistinct(table, init, all);
      TopicsDistinct(table, last, all);
      forall t | t in TopicsOf(table, last) ensures t !in Matching(table, init) {
        TopicsOfMember(table, last, t);
        MatchingMember(table, init, t);
      }
      DistinctConcat(Matching(table, init), TopicsOf(table, last));
    }
  }

  // ----- Refusals -----

  /** More different topics than permitted. */
  ghost predicate TooManyMatch<T(!new)>(topics: seq<T>, max: Limits) {
    exists found :: Among(found, topics) && |found| > max.found
  }

  /** A refusal has the reason it states, also when topics are delivered twice. */
  lemma {:induction false} RefusalIsJustified<M, T(!new)>(table: imap<M, T>, indexes: seq<seq<M>>, max: Limits)
    requires Gather(table, AllRead(indexes), max).Err?
    ensures match Gather(table, AllRead(indexes), max).error
            case TooManyKeys => TooManyMatch(Matching(table, indexes), max)
            case TooManyMembers => Total(indexes) > max.examined
            case SourceFailure => false
    decreases |indexes|
  {
    var init, last := indexes[..|indexes| - 1], indexes[|indexes| - 1];
    GatherSnoc(table, AllRead(init), Some(last), max);
    if Gather(table, AllRead(init), max).Err? {
      RefusalIsJustified(table, init, max);
      if TooManyMatch(Matching(table, init), max) {
        var found :| Among(found, Matching(table, init)) && |found| > max.found;
        assert Among(found, Matching(table, indexes));
      }
    } else {
      FoundTopicsMatch(table, init, max);
      var q := IndexIsSound(table, last, Gather(table, AllRead(init), max).value, max, Matching(table, init));
      assert Among(q.found, Matching(table, indexes));
    }
  }

  /**
   A search that fails, when it can read only the first indexes: they are the reason, or
   else the next one is, which it cannot read.
   */
  lemma FailsAt<M, T(!new)>(table: imap<M, T>, indexes: seq<Option<seq<M>>>, read: seq<seq<M>>, max: Limits)
    requires Gather(table, indexes, max).Err? && |read| <= |indexes|
    requires indexes[..|read|] == AllRead(read) && (|read| < |indexes| ==> indexes[|read|].None?)
    ensures match Gather(table, indexes, max).error
            case TooManyKeys => TooManyMatch(Matching(table, read), max)
            case TooManyMembers => Total(read) > max.examined
            case SourceFailure => |read| < |indexes| && Gather(table, AllRead(read), max).Ok?
  {
    var n, front := |read|, AllRead(read);
    assert indexes == front + indexes[n..];
    assert n == |indexes| ==> indexes == front;
    if Gather(table, front, max).Err? {
      FirstErrorIsFinal(table, front, indexes[n..], max);
      RefusalIsJustified(table, read, max);
    } else if n < |indexes| {
      assert indexes == front + [None] + indexes[n + 1..];
      NextInGather(table, front, None, indexes[n + 1..], max);
    }
  }

  // ----- Pages -----

  /** An index is delivered in pages. */
  datatype Page<M> = Page(members: seq<M>)

  ghost function Members<M>(pages: seq<Page<M>>): seq<M> {
    if pages == [] then [] else Members(pages[..|pages| - 1]) + pages[|pages| - 1].members
  }

  lemma NextPage<M>(pages: seq<Page<M>>, i: nat)
    requires i < |pages|
    ensures Members(pages[..i + 1]) == Members(pages[..i]) + pages[i].members
  {
    assert pages[..i + 1][..i] == pages[..i];
  }

  lemma {:induction false} RestOfPages<M>(pages: seq<Page<M>>, n: nat) returns (rest: seq<M>)
    requires n <= |pages|
    ensures Members(pages) == Members(pages[..n]) + rest
    decreases |pages|
  {
    if n == |pages| {
      assert pages[..n] == pages;
      rest := [];
    } else {
      var init := pages[..|pages| - 1];
      assert init[..n] == pages[..n];
      rest := RestOfPages(init, n);
      Associate(Members(pages[..n]), rest, pages[|pages| - 1].members);
      rest := rest + pages[|pages| - 1].members;
    }
  }

  lemma NextMember<M, T>(table: imap<M, T>, before: seq<M>, page: seq<M>, j: nat, limit: Limits)
    requires j < |page|
    ensures Scan(table, before + page[..j + 1], limit)
         == ScanOne(table, Scan(table, before + page[..j], limit), page[j], limit)
  {
    assert page[..j + 1] == page[..j] + [page[j]];
    Associate(before, page[..j], [page[j]]);
    ScanSnoc(table, before + page[..j], page[j], limit);
  }

  /** What is left of a page changes nothing: there is none, or the scan has stopped. */
  lemma RestOfPage<M, T>(table: imap<M, T>, before: seq<M>, page: seq<M>, j: nat, limit: Limits)
    requires j <= |page|
    requires j == |page| || Over(Scan(table, before + page[..j], limit), limit)
    ensures Scan(table, before + page, limit) == Scan(table, before + page[..j], limit)
  {
    if j == |page| {
      assert page[..j] == page;
    } else {
      assert page == page[..j] + page[j..];
      Associate(before, page[..j], page[j..]);
      StoppedScanIsFinal(table, before + page[..j], page[j..], limit);
    }
  }
}
