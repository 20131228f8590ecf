/**
 Safety over whole runs: the invariant in every reachable state, and, when no commit
 drops a recorded subtopic, no orphan links and a clean disconnect.
 */
module ProtocolRuns {
  import opened Wrappers
  import opened Text
  import opened Registry
  import opened Subscribers
  import opened Protocol
  import opened ProtocolInvariant
  import opened ProtocolExpand

  // ----- Runs -----

  /** The world after a list of events, each of them enabled. */
  ghost function After(events: seq<Event>, caps: Caps): Option<World> {
    if events == [] then Some(INITIAL)
    else
      var before := After(events[..|events| - 1], caps);
      if before.Some? && Enabled(before.value, events[|events| - 1], caps)
      then Some(Next(before.value, events[|events| - 1], caps))
      else None
  }

  ghost predicate Reaches(events: seq<Event>, w: World, caps: Caps) {
    After(events, caps) == Some(w)
  }

  lemma OneEventMore(events: seq<Event>, w: World, e: Event, caps: Caps)
    requires Reaches(events, w, caps) && Enabled(w, e, caps)
    ensures Reaches(events + [e], Next(w, e, caps), caps)
  {
    assert (events + [e])[..|events|] == events;
  }

  lemma InitialWorldOk(caps: Caps)
    ensures Inv(INITIAL, caps)
  {
  }

  lemma EveryEventKeeps(w: World, e: Event, caps: Caps)
    requires Inv(w, caps) && Enabled(w, e, caps)
    ensures Inv(Next(w, e, caps), caps)
  {
    match e
    case Connect => ConnectKeeps(w, caps);
    case Check(c, t) => CheckKeeps(w, c, t, caps);
    case Commit(_, _, _, _, _) => CommitKeeps(w, e, caps);
    case Fail(c) => FailKeeps(w, c, caps);
    case Unsubscribe(_, _, _) => UnsubscribeKeeps(w, e, caps);
    case Deliver(c, v) => DeliverKeeps(w, c, v, caps);
    case Expand(_, _, _) => ExpansionIsExact(w, e, caps);
    case Refresh(t, now) => RefreshKeeps(w, t, now, caps);
    case Snapshot(c) => SnapshotKeeps(w, c, caps);
    case Cleanup(_, _) => CleanupKeeps(w, e, caps);
    case Remove(c) => RemoveKeeps(w, c, caps);
  }

  /** Mirror, limits and no abandoned entries, in every reachable world. */
  lemma {:induction false} EveryRunKeeps(events: seq<Event>, caps: Caps)
    requires After(events, caps).Some?
    ensures Inv(After(events, caps).value, caps)
    decreases |events|
  {
    if events == [] {
      InitialWorldOk(caps);
    } else {
      EveryRunKeeps(events[..|events| - 1], caps);
      EveryEventKeeps(After(events[..|events| - 1], caps).value, events[|events| - 1], caps);
    }
  }

  /** The branch of `expand_multitopics` for a missing client is never taken. */
  lemma SubscribersAreConnected(events: seq<Event>, caps: Caps, t: ParsedTopic, c: ClientId)
    requires After(events, caps).Some? && Direct(After(events, caps).value.topics, t, c)
    ensures c in After(events, caps).value.clients
  {
    EveryRunKeeps(events, caps);
    SubscriberIsConnected(After(events, caps).value, t, c, caps);
  }

  // ----- No orphans -----

  /** A link stands for a direct subscription to a multi-topic that records the key. */
  ghost predicate NoOrphans(m: TopicMap) {
    forall s, c, mt :: Linked(m, s, c, mt) ==> Direct(m, mt, c) && s in Subtopics(m, mt)
  }

  /** The event is not a commit, or its resolution holds everything already recorded. */
  ghost predicate FreshEvent(w: World, e: Event) {
    e.Commit? && e.c in w.clients && w.clients[e.c].phase.Pending? ==>
      Subtopics(w.topics, w.clients[e.c].phase.topic) <= Elems(e.resolved)
  }

  lemma CommitOrphans(w: World, e: Event, caps: Caps)
    requires Inv(w, caps) && NoOrphans(w.topics) && e.Commit? && Enabled(w, e, caps)
    requires MayCommit(w.clients[e.c].sub, w.clients[e.c].phase.topic, e.resolved, caps)
    ensures var t := w.clients[e.c].phase.topic;
            NoOrphans(Next(w, e, caps).topics) <==> (forall s, d :: Linked(w.topics, s, d, t) ==> s in e.resolved)
  {
    var t := w.clients[e.c].phase.topic;
    var n := CommittedTopicsEffect(w.topics, e.c, t, e.key, e.resolved, e.now);
    if NoOrphans(n) {
      forall s, d | Linked(w.topics, s, d, t) ensures s in e.resolved {
        assert Linked(n, s, d, t);
        assert t.IsMulti();
        assert s in Elems(e.resolved);
      }
    }
    if forall s, d :: Linked(w.topics, s, d, t) ==> s in e.resolved {
      forall s, d, p | Linked(n, s, d, p) ensures Direct(n, p, d) && s in Subtopics(n, p) {
        if p == t && t.IsMulti() {
          assert s in Elems(e.resolved);
        }
      }
    }
  }

  lemma UnsubscribeOrphans(w: World, e: Event, caps: Caps)
    requires Inv(w, caps) && NoOrphans(w.topics) && e.Unsubscribe? && Enabled(w, e, caps)
    ensures NoOrphans(Next(w, e, caps).topics)
  {
    if e.topic in w.clients[e.c].sub.subs {
      var n := CleanTopicEffect(w.topics, e.topic, true, e.c);
      CleanTopicOrphans(w.topics, n, e.topic, true, e.c);
    }
  }

  lemma CleanTopicOrphans(m: TopicMap, n: TopicMap, t: ParsedTopic, isDirect: bool, c: ClientId)
    requires RegistryOk(m) && NoOrphans(m)
    requires n == CleanTopic(m, t, isDirect, c)
    ensures NoOrphans(n)
  {
    var x := CleanTopicEffect(m, t, isDirect, c);
    forall s, d, p | Linked(n, s, d, p) ensures Direct(n, p, d) && s in Subtopics(n, p) {
      assert Linked(m, s, d, p) && !DroppedLink(m, t, c, s, d, p);
      if p == t {
        assert d != c;
        assert Direct(n, t, d);
      }
    }
  }

  lemma {:induction false} CleanAllOrphans(m: TopicMap, order: seq<ParsedTopic>, snapshot: map<ParsedTopic, bool>, c: ClientId)
    requires RegistryOk(m) && NoOrphans(m) && forall t :: t in order ==> t in snapshot
    ensures NoOrphans(CleanAll(m, order, snapshot, c))
    decreases |order|
  {
    if order != [] {
      var init, t := order[..|order| - 1], order[|order| - 1];
      CleanAllOrphans(m, init, snapshot, c);
      var before := CleanAllEffect(m, init, snapshot, c);
      CleanTopicOrphans(before, CleanTopic(before, t, snapshot[t], c), t, snapshot[t], c);
    }
  }

  lemma ExpandOrphans(w: World, e: Event, caps: Caps)
    requires Inv(w, caps) && NoOrphans(w.topics) && e.Expand? && Enabled(w, e, caps)
    ensures NoOrphans(Next(w, e, caps).topics)
  {
    ExpansionIsExact(w, e, caps);
    var n := Next(w, e, caps).topics;
    var max := caps.maxIndirect;
    assert TopicsUpTo(w, n, e.s, e.order, |e.order|, max);
    forall s, d, p | Linked(n, s, d, p) ensures Direct(n, p, d) && s in Subtopics(n, p) {
      if Took(w, e.s, e.order, |e.order|, d, p, max) {
        assert Recorded(w, e.s, e.order, |e.order|, p, max);
      }
    }
  }

  lemma RefreshOrphans(w: World, t: ParsedTopic, now: int, caps: Caps)
    requires NoOrphans(w.topics)
    ensures NoOrphans(Next(w, Refresh(t, now), caps).topics)
  {
    var m, n := w.topics, Next(w, Refresh(t, now), caps).topics;
    assert SameDirect(m, n) && SameLinks(m, n) && SameSubtopics(m, n);
  }

  lemma FreshEventKeepsNoOrphans(w: World, e: Event, caps: Caps)
    requires Inv(w, caps) && NoOrphans(w.topics) && Enabled(w, e, caps) && FreshEvent(w, e)
    ensures NoOrphans(Next(w, e, caps).topics)
  {
    match e
    case Commit(c, _, _, resolved, _) =>
      if MayCommit(w.clients[c].sub, w.clients[c].phase.topic, resolved, caps) {
        CommitOrphans(w, e, caps);
      }
    case Unsubscribe(_, _, _) => UnsubscribeOrphans(w, e, caps);
    case Expand(_, _, _) => ExpandOrphans(w, e, caps);
    case Refresh(t, now) => RefreshOrphans(w, t, now, caps);
    case Cleanup(c, order) =>
      assert forall t :: t in order ==> t in Elems(order);
      CleanAllOrphans(w.topics, order, w.clients[c].phase.snapshot, c);
    case _ =>
  }

  /** No commit of the run drops a recorded subtopic. */
  ghost predicate FreshRun(events: seq<Event>, caps: Caps) {
    events == []
    || (var init, last := events[..|events| - 1], events[|events| - 1];
        FreshRun(init, caps) && (After(init, caps).Some? ==> FreshEvent(After(init, caps).value, last)))
  }

  lemma {:induction false} FreshRunHasNoOrphans(events: seq<Event>, caps: Caps)
    requires After(events, caps).Some? && FreshRun(events, caps)
    ensures NoOrphans(After(events, caps).value.topics)
    decreases |events|
  {
    if events != [] {
      var init := events[..|events| - 1];
      FreshRunHasNoOrphans(init, caps);
      EveryRunKeeps(init, caps);
      FreshEventKeepsNoOrphans(After(init, caps).value, events[|events| - 1], caps);
    }
  }

  // ----- Disconnect -----

  /** Cleaning removes exactly the links via the listed multi-topics to the keys they record. */
  lemma {:induction false} CleanAllLinks(m: TopicMap, order: seq<ParsedTopic>, snapshot: map<ParsedTopic, bool>, c: ClientId)
    returns (n: TopicMap)
    requires RegistryOk(m) && (forall t :: t in order ==> t in snapshot) && Distinct(order)
    ensures n == CleanAll(m, order, snapshot, c)
    ensures forall s, p :: Linked(n, s, c, p)
              <==> Linked(m, s, c, p) && !(p in order && p.IsMulti() && s in Subtopics(m, p))
    ensures forall p :: p !in order ==> Subtopics(n, p) == Subtopics(m, p)
    decreases |order|
  {
    n := m;
    if order != [] {
      var init, t := order[..|order| - 1], order[|order| - 1];
      SplitLast(order);
      DistinctSnoc(init, t);
      var before := CleanAllLinks(m, init, snapshot, c);
      var same := CleanAllEffect(m, init, snapshot, c);
      n := CleanTopicEffect(before, t, snapshot[t], c);
    }
  }

  /** The registry does not mention client `c` at all. */
  ghost predicate Forgotten(m: TopicMap, c: ClientId) {
    (forall t :: !Direct(m, t, c)) && (forall s, mt :: !Linked(m, s, c, mt))
  }

  ghost predicate Orphan(m: TopicMap, s: ParsedTopic, c: ClientId, mt: ParsedTopic) {
    Linked(m, s, c, mt) && !(Direct(m, mt, c) && s in Subtopics(m, mt))
  }

  /**
   After the cleanup, in any order and whatever happened since the snapshot, what the
   registry still says about the client is exactly its orphan links; other clients
   keep everything.
   */
  lemma CleanupLeavesOrphans(w: World, e: Event, caps: Caps)
    requires Inv(w, caps) && e.Cleanup? && Enabled(w, e, caps)
    ensures var n := Next(w, e, caps).topics;
            && NoDirect(n, e.c)
            && (forall s, mt :: Linked(n, s, e.c, mt) <==> Orphan(w.topics, s, e.c, mt))
            && SameForOthers(w.topics, n, e.c)
  {
    var c, conn := e.c, w.clients[e.c];
    assert forall t :: t in e.order <==> t in Elems(e.order);
    var n := CleanAllEffect(w.topics, e.order, conn.phase.snapshot, c);
    var same := CleanAllLinks(w.topics, e.order, conn.phase.snapshot, c);
    assert ConnectionOk(w.topics, c, conn, caps);
    forall p: ParsedTopic | p.IsMulti() ensures p in e.order <==> Direct(w.topics, p, c) {
      SnapshotNamesMultitopics(w.topics, c, conn.sub, conn.phase.snapshot, p);
    }
    forall s, mt ensures Linked(n, s, c, mt) <==> Orphan(w.topics, s, c, mt) {
      if Linked(w.topics, s, c, mt) {
        assert mt.IsMulti();
      }
    }
  }

  lemma SnapshotNamesMultitopics(m: TopicMap, c: ClientId, u: Subscriber, snapshot: map<ParsedTopic, bool>, p: ParsedTopic)
    requires Mirror(m, c, u) && SnapshotOk(snapshot, u) && p.IsMulti()
    ensures p in snapshot <==> Direct(m, p, c)
  {
    assert HasDirect(u, p) <==> Direct(m, p, c);
  }

  /** So the client is forgotten exactly when it has no orphan link. */
  lemma ForgottenIffNoOrphan(w: World, e: Event, caps: Caps)
    requires Inv(w, caps) && e.Cleanup? && Enabled(w, e, caps)
    ensures Forgotten(Next(w, e, caps).topics, e.c) <==> forall s, mt :: !Orphan(w.topics, s, e.c, mt)
  {
    CleanupLeavesOrphans(w, e, caps);
  }

  /** In a run without stale commits every disconnect is clean. */
  lemma CleanDisconnect(events: seq<Event>, e: Event, caps: Caps)
    requires After(events, caps).Some? && FreshRun(events, caps)
    requires e.Cleanup? && Enabled(After(events, caps).value, e, caps)
    ensures Forgotten(Next(After(events, caps).value, e, caps).topics, e.c)
  {
    EveryRunKeeps(events, caps);
    FreshRunHasNoOrphans(events, caps);
    ForgottenIffNoOrphan(After(events, caps).value, e, caps);
  }
}
