/**
 When a bounded search is complete: whatever the indexes hold, and however often a
 topic is repeated in them.
 */
module SearchExactness {
  import opened Wrappers
  import opened Text
  import opened BoundedSearch

  // ----- The part of an index that is examined -----

  /** More members kept, or more examined, than allowed. */
  ghost predicate Beyond<M, T>(table: imap<M, T>, part: seq<M>, limit: Limits) {
    |Kept(table, part)| > limit.found || |part| > limit.examined
  }

  /** The members up to the first that goes beyond a bound. */
  ghost function Front<M, T>(table: imap<M, T>, members: seq<M>, limit: Limits): seq<M> {
    if members == [] then []
    else
      var init := members[..|members| - 1];
      var front := Front(table, init, limit);
      if front == init && !Beyond(table, init, limit) then members else front
  }

  /** The members behind the cut. */
  ghost function Rest<M, T>(table: imap<M, T>, members: seq<M>, limit: Limits): seq<M> {
    var front := Front(table, members, limit);
    if |front| <= |members| then members[|front|..] else []
  }

  lemma FrontSnoc<M, T>(table: imap<M, T>, init: seq<M>, last: M, limit: Limits)
    ensures Front(table, init + [last], limit)
         == if Front(table, init, limit) == init && !Beyond(table, init, limit) then init + [last]
            else Front(table, init, limit)
  {
    assert (init + [last])[..|init|] == init;
  }

  /** The scan examines exactly this part; it is everything, unless it goes beyond a bound. */
  lemma {:induction false} FrontIsScanned<M, T>(table: imap<M, T>, members: seq<M>, limit: Limits)
    returns (front: seq<M>, rest: seq<M>)
    ensures front == Front(table, members, limit) && rest == Rest(table, members, limit)
    ensures members == front + rest
    ensures Scan(table, members, limit) == IndexScan(Kept(table, front), |front|)
    ensures |Kept(table, front)| <= limit.found + 1 && |front| <= limit.examined + 1
    ensures rest != [] ==> Beyond(table, front, limit)
    decreases |members|
  {
    front, rest := [], [];
    if members != [] {
      var init, last := FrontMembers(members);
      front, rest := FrontIsScanned(table, init, limit);
      ScanSnoc(table, init, last, limit);
      FrontSnoc(table, init, last, limit);
      if Beyond(table, front, limit) {
        Associate(front, rest, [last]);
        rest := rest + [last];
      } else {
        assert front + [] == front;
        ScanSnoc(table, front, last, limit);
        front, rest := front + [last], [];
      }
    }
  }

  /** Where the whole index stays within the bounds, all of it is examined. */
  lemma WithinIsWhole<M, T>(table: imap<M, T>, members: seq<M>, limit: Limits)
    requires !Beyond(table, members, limit)
    ensures Front(table, members, limit) == members && Rest(table, members, limit) == []
  {
    var front, rest := FrontIsScanned(table, members, limit);
    TopicsOfConcat(table, front, rest);
    TopicsOfKept(table, members);
    TopicsOfKept(table, front);
    if rest == [] {
      assert front == members;
    }
  }

  // ----- The walk over the indexes -----

  /** How many different topics a list has. */
  ghost function Different<T>(topics: seq<T>): nat {
    |AddAll([], topics)|
  }

  ghost function Minus(a: nat, b: nat): nat {
    if b <= a then a - b else 0
  }

  /** What is left of both budgets. */
  ghost function Left<M, T>(table: imap<M, T>, seen: seq<M>, max: Limits): Limits {
    Limits(Minus(max.found, Different(TopicsOf(table, seen))), Minus(max.examined, |seen|))
  }

  /** Everything that is examined, each index with what is left of the budgets. */
  ghost function Seen<M, T>(table: imap<M, T>, indexes: seq<seq<M>>, max: Limits): seq<M> {
    if indexes == [] then []
    else
      var before := Seen(table, indexes[..|indexes| - 1], max);
      before + Front(table, indexes[|indexes| - 1], Left(table, before, max))
  }

  /** Everything behind a cut. */
  ghost function Unseen<M, T>(table: imap<M, T>, indexes: seq<seq<M>>, max: Limits): seq<M> {
    if indexes == [] then []
    else
      var init := indexes[..|indexes| - 1];
      Unseen(table, init, max) + Rest(table, indexes[|indexes| - 1], Left(table, Seen(table, init, max), max))
  }

  /** Different topics, none of them known. */
  ghost predicate AllNew<T>(known: seq<T>, topics: seq<T>) {
    Distinct(topics) && forall t :: t in topics ==> t !in known
  }

  /**
   An index does not end the search: what it keeps fits, or it is cut because too many
   members are kept, and their topics are not all new and different.
   */
  ghost predicate Passes<M, T>(table: imap<M, T>, seen: seq<M>, members: seq<M>, max: Limits) {
    var limit := Left(table, seen, max);
    var front := Front(table, members, limit);
    || !Beyond(table, members, limit)
    || (|front| <= limit.examined && !AllNew(TopicsOf(table, seen), TopicsOf(table, front)))
  }

  ghost predicate AllPass<M, T>(table: imap<M, T>, indexes: seq<seq<M>>, max: Limits) {
    indexes == []
    || (var init := indexes[..|indexes| - 1];
        AllPass(table, init, max) && Passes(table, Seen(table, init, max), indexes[|indexes| - 1], max))
  }

  /** Every topic behind a cut also occurs in a part that was examined. */
  ghost predicate Covered<M, T(!new)>(table: imap<M, T>, indexes: seq<seq<M>>, max: Limits) {
    forall t :: t in TopicsOf(table, Unseen(table, indexes, max)) ==> t in TopicsOf(table, Seen(table, indexes, max))
  }

  lemma DifferentConcat<T>(a: seq<T>, b: seq<T>)
    ensures Different(a + b) == |AddAll(AddAll([], a), b)|
    ensures Different(a + b) <= Different(a) + |b|
    ensures AllNew(a, b) ==> Different(a + b) == Different(a) + |b|
    ensures !AllNew(a, b) ==> Different(a + b) < Different(a) + |b|
  {
    var known := AddAllMembers([], a);
    AddAllConcat([], a, b);
    AddAllDistinct(known, b);
    DistinctConcat(known, b);
  }

  /** What has been found after examining a list of members. */
  ghost function FoundIn<M, T>(table: imap<M, T>, seen: seq<M>): Progress<T> {
    Progress(AddAll([], TopicsOf(table, seen)), |seen|)
  }

  lemma LeftIsRemaining<M, T>(table: imap<M, T>, seen: seq<M>, max: Limits)
    requires Within(FoundIn(table, seen), max)
    ensures Left(table, seen, max) == Remaining(FoundIn(table, seen), max)
  {
  }

  /** One index: the scan stops at the cut, and its topics join those found. */
  lemma OneIndex<M, T>(table: imap<M, T>, seen: seq<M>, members: seq<M>, max: Limits) returns (front: seq<M>)
    requires Within(FoundIn(table, seen), max)
    ensures front == Front(table, members, Left(table, seen, max))
    ensures GatherOne(table, members, FoundIn(table, seen), max) == CheckBounds(FoundIn(table, seen + front), max)
  {
    LeftIsRemaining(table, seen, max);
    var rest;
    front, rest := FrontIsScanned(table, members, Left(table, seen, max));
    TopicsOfKept(table, front);
    TopicsOfConcat(table, seen, front);
    AddAllConcat([], TopicsOf(table, seen), TopicsOf(table, front));
    GatherOneFrom(table, members, FoundIn(table, seen), max, IndexScan(Kept(table, front), |front|),
                  FoundIn(table, seen + front).found);
  }

  lemma PassesIffWithin<M, T>(table: imap<M, T>, seen: seq<M>, members: seq<M>, max: Limits)
    requires Within(FoundIn(table, seen), max)
    ensures Passes(table, seen, members, max)
       <==> Within(FoundIn(table, seen + Front(table, members, Left(table, seen, max))), max)
  {
    var limit := Left(table, seen, max);
    var front, rest := FrontIsScanned(table, members, limit);
    TopicsOfConcat(table, seen, front);
    TopicsOfKept(table, front);
    DifferentConcat(TopicsOf(table, seen), TopicsOf(table, front));
    if !Beyond(table, members, limit) {
      WithinIsWhole(table, members, limit);
    } else {
      assert Beyond(table, front, limit) by {
        if rest == [] {
          assert front + [] == front;
        }
      }
    }
  }

  /** The search succeeds iff every index passes; then it has found the topics of everything examined. */
  lemma {:induction false} SearchIsWalk<M, T>(table: imap<M, T>, indexes: seq<seq<M>>, max: Limits)
    ensures Gather(table, AllRead(indexes), max).Ok? <==> AllPass(table, indexes, max)
    ensures Gather(table, AllRead(indexes), max).Ok? ==>
              Gather(table, AllRead(indexes), max).value == FoundIn(table, Seen(table, indexes, max))
    decreases |indexes|
  {
    if indexes != [] {
      var init, last := indexes[..|indexes| - 1], indexes[|indexes| - 1];
      SearchIsWalk(table, init, max);
      GatherSnoc(table, AllRead(init), Some(last), max);
      if AllPass(table, init, max) {
        var front := OneIndex(table, Seen(table, init, max), last, max);
        PassesIffWithin(table, Seen(table, init, max), last, max);
      }
    }
  }

  lemma {:induction false} SeenOrUnseen<M, T(!new)>(table: imap<M, T>, indexes: seq<seq<M>>, max: Limits)
    ensures forall t :: t in Matching(table, indexes) <==>
              t in TopicsOf(table, Seen(table, indexes, max)) || t in TopicsOf(table, Unseen(table, indexes, max))
    decreases |indexes|
  {
    if indexes != [] {
      var init, last := indexes[..|indexes| - 1], indexes[|indexes| - 1];
      SeenOrUnseen(table, init, max);
      var seen := Seen(table, init, max);
      var front, rest := FrontIsScanned(table, last, Left(table, seen, max));
      TopicsOfConcat(table, front, rest);
      TopicsOfConcat(table, seen, front);
      TopicsOfConcat(table, Unseen(table, init, max), rest);
    }
  }

  /**
   Exactly when the search finds every matching topic: every index passes, and every
   topic behind a cut occurs in a part that was examined.
   */
  lemma CompleteIff<M, T(!new)>(table: imap<M, T>, indexes: seq<seq<M>>, max: Limits)
    ensures (&& Gather(table, AllRead(indexes), max).Ok?
             && forall t :: t in Matching(table, indexes) ==> t in Gather(table, AllRead(indexes), max).value.found)
       <==> AllPass(table, indexes, max) && Covered(table, indexes, max)
  {
    SearchIsWalk(table, indexes, max);
    SeenOrUnseen(table, indexes, max);
    var found := AddAllMembers([], TopicsOf(table, Seen(table, indexes, max)));
  }

  /**
   Which refusal a failed search ends with: that of the first index that does not pass, for
   too many members when the part read up to the cut exceeds that limit, else for too many keys.
   */
  lemma FirstFailureIsReported<M, T>(table: imap<M, T>, indexes: seq<seq<M>>, n: nat, max: Limits)
    requires n < |indexes| && AllPass(table, indexes[..n], max)
    requires !Passes(table, Seen(table, indexes[..n], max), indexes[n], max)
    ensures var limit := Left(table, Seen(table, indexes[..n], max), max);
            Gather(table, AllRead(indexes), max)
              == Err(if |Front(table, indexes[n], limit)| > limit.examined then TooManyMembers else TooManyKeys)
  {
    var front, seen := indexes[..n], Seen(table, indexes[..n], max);
    SearchIsWalk(table, front, max);
    GatherSnoc(table, AllRead(front), Some(indexes[n]), max);
    var part := OneIndex(table, seen, indexes[n], max);
    PassesIffWithin(table, seen, indexes[n], max);
    var rest := AllReadFront(indexes, n + 1);
    assert indexes[..n + 1][..n] == front;
    FirstErrorIsFinal(table, AllRead(indexes[..n + 1]), rest, max);
  }

  lemma {:induction false} AllReadFront<M>(indexes: seq<seq<M>>, n: nat) returns (rest: seq<Option<seq<M>>>)
    requires n <= |indexes|
    ensures AllRead(indexes) == AllRead(indexes[..n]) + rest
    decreases |indexes|
  {
    rest := [];
    if n == |indexes| {
      assert indexes[..n] == indexes;
    } else {
      var init := indexes[..|indexes| - 1];
      assert init[..n] == indexes[..n];
      rest := AllReadFront(init, n);
      rest := rest + [Some(indexes[|indexes| - 1])];
    }
  }

  // ----- Within the limits -----

  /** Within the limits, counted with repetitions, everything is examined. */
  lemma {:induction false} AllIsSeen<M, T>(table: imap<M, T>, indexes: seq<seq<M>>, max: Limits)
    requires |Matching(table, indexes)| <= max.found && Total(indexes) <= max.examined
    ensures AllPass(table, indexes, max) && Unseen(table, indexes, max) == []
    ensures TopicsOf(table, Seen(table, indexes, max)) == Matching(table, indexes)
    ensures |Seen(table, indexes, max)| == Total(indexes)
    decreases |indexes|
  {
    if indexes != [] {
      var init, last := indexes[..|indexes| - 1], indexes[|indexes| - 1];
      AllIsSeen(table, init, max);
      var seen := Seen(table, init, max);
      TopicsOfKept(table, last);
      TopicsOfConcat(table, seen, last);
      DifferentAtMost(TopicsOf(table, seen));
      WithinIsWhole(table, last, Left(table, seen, max));
    }
  }

  lemma DifferentAtMost<T>(topics: seq<T>)
    ensures Different(topics) <= |topics|
    ensures Distinct(topics) ==> AddAll([], topics) == topics
  {
    assert [] + topics == topics;
    AddAllDistinct([], topics);
  }

  /** Within the limits, counted with repetitions, the search succeeds and finds every matching topic. */
  lemma WithinLimitsIsComplete<M, T(!new)>(table: imap<M, T>, indexes: seq<seq<M>>, max: Limits)
    requires |Matching(table, indexes)| <= max.found && Total(indexes) <= max.examined
    ensures Gather(table, AllRead(indexes), max)
         == Ok(Progress(AddAll([], Matching(table, indexes)), Total(indexes)))
    ensures forall t :: t in Matching(table, indexes) ==> t in Gather(table, AllRead(indexes), max).value.found
  {
    AllIsSeen(table, indexes, max);
    SearchIsWalk(table, indexes, max);
    var found := AddAllMembers([], Matching(table, indexes));
  }

  /** Without repetitions no index is cut unnoticed. */
  lemma {:induction false} PassingFits<M, T>(table: imap<M, T>, indexes: seq<seq<M>>, max: Limits)
    requires Distinct(Matching(table, indexes)) && AllPass(table, indexes, max)
    ensures TopicsOf(table, Seen(table, indexes, max)) == Matching(table, indexes)
    ensures |Seen(table, indexes, max)| == Total(indexes)
    ensures |Matching(table, indexes)| <= max.found && Total(indexes) <= max.examined
    decreases |indexes|
  {
    if indexes != [] {
      var init, last := indexes[..|indexes| - 1], indexes[|indexes| - 1];
      DistinctConcat(Matching(table, init), TopicsOf(table, last));
      PassingFits(table, init, max);
      var seen := Seen(table, init, max);
      var front, rest := FrontIsScanned(table, last, Left(table, seen, max));
      TopicsOfConcat(table, front, rest);
      DistinctConcat(TopicsOf(table, front), TopicsOf(table, rest));
      assert AllNew(TopicsOf(table, seen), TopicsOf(table, front));
      DifferentAtMost(TopicsOf(table, seen));
      WithinIsWhole(table, last, Left(table, seen, max));
      TopicsOfKept(table, last);
      TopicsOfConcat(table, seen, last);
    }
  }

  /**
   When no topic is delivered twice, the search succeeds exactly within the limits,
   and then it finds every matching topic.
   */
  lemma SearchIsExact<M, T(!new)>(table: imap<M, T>, indexes: seq<seq<M>>, max: Limits)
    requires Distinct(Matching(table, indexes))
    ensures Gather(table, AllRead(indexes), max).Ok? ==>
              Gather(table, AllRead(indexes), max).value == Progress(Matching(table, indexes), Total(indexes))
    ensures Gather(table, AllRead(indexes), max).Ok? <==>
              |Matching(table, indexes)| <= max.found && Total(indexes) <= max.examined
  {
    SearchIsWalk(table, indexes, max);
    DifferentAtMost(Matching(table, indexes));
    if AllPass(table, indexes, max) {
      PassingFits(table, indexes, max);
    }
    if |Matching(table, indexes)| <= max.found && Total(indexes) <= max.examined {
      AllIsSeen(table, indexes, max);
    }
  }

  // ----- A single index -----

  /** A list of members that are all kept, as far as the cut, and what lies behind it. */
  lemma CutAfter<M, T>(table: imap<M, T>, front: seq<M>, rest: seq<M>, limit: Limits)
    requires |front| == limit.found + 1 <= limit.examined
    requires forall m :: m in front ==> m in table
    ensures Front(table, front + rest, limit) == front && Rest(table, front + rest, limit) == rest
    ensures Beyond(table, front + rest, limit)
  {
    KeptWhole(table, front);
    var init, last := FrontMembers(front);
    KeptWhole(table, init);
    WithinIsWhole(table, init, limit);
    FrontSnoc(table, init, last, limit);
    CutStays(table, front, rest, limit);
    TopicsOfKept(table, front);
    TopicsOfKept(table, front + rest);
    TopicsOfConcat(table, front, rest);
  }

  lemma {:induction false} KeptWhole<M, T>(table: imap<M, T>, members: seq<M>)
    requires forall m :: m in members ==> m in table
    ensures Kept(table, members) == members
    decreases |members|
  {
    if members != [] {
      var init, last := FrontMembers(members);
      KeptWhole(table, init);
    }
  }

  lemma {:induction false} CutStays<M, T>(table: imap<M, T>, front: seq<M>, rest: seq<M>, limit: Limits)
    requires Front(table, front, limit) == front && Beyond(table, front, limit)
    ensures Front(table, front + rest, limit) == front
    decreases |rest|
  {
    if rest == [] {
      assert front + rest == front;
    } else {
      var init, last := FrontMembers(rest);
      Associate(front, init, [last]);
      CutStays(table, front, init, limit);
      FrontSnoc(table, front + init, last, limit);
    }
  }

  /** With one index, the walk starts with both budgets. */
  lemma OneIndexWalk<M, T>(table: imap<M, T>, members: seq<M>, max: Limits)
    ensures Seen(table, [members], max) == Front(table, members, max)
    ensures Unseen(table, [members], max) == Rest(table, members, max)
    ensures AllPass(table, [members], max) <==> Passes(table, [], members, max)
    ensures Left(table, [], max) == max
  {
    assert [members][..0] == [];
    assert Left<M, T>(table, [], max) == max;
  }
}
