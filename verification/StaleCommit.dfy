/**
 Without the hypothesis of fresh commits: for every multi-topic and every key that it
 matches there is a run in which a stale commit leaves a client in the registry
 after it has disconnected; and no run ever takes such a client out again.
 */
module StaleCommit {
  import opened Wrappers
  import opened Text
  import opened Topics
  import opened Registry
  import opened Subscribers
  import opened Protocol
  import opened ProtocolInvariant
  import opened ProtocolExpand
  import opened ProtocolRuns
  import opened ProtocolService
  import opened ProtocolKeys
  import opened ProtocolUndo

  /** The subscription of a client that asked for `mt` when it had no keys. */
  ghost function Lonely(mt: ParsedTopic, key: Key): Subscriber {
    Subscriber(map[mt := SubscriptionData(key, map[], false, true, false, None)], 0)
  }

  ghost function Registered(mt: ParsedTopic, key: Key): TopicMap {
    map[mt := KeyInfo(map[0 := key], map[], {}, mt.Filter(), 0)]
  }

  /** One client has committed `mt` with no keys; another has resolved it with no keys and waits. */
  ghost function Waiting(mt: ParsedTopic, key: Key): World {
    World(Registered(mt, key),
          map[0 := Connection(Lonely(mt, key), Idle), 1 := Connection(NO_SUBSCRIPTIONS, Pending(mt))], 2)
  }

  ghost predicate Roomy(caps: Caps) {
    caps.maxSubscriptions > 0 && caps.maxIndirect > 0
  }

  lemma TwoConnect(caps: Caps)
    ensures Reaches([Connect, Connect],
                    World(map[], map[0 := Connection(NO_SUBSCRIPTIONS, Idle), 1 := Connection(NO_SUBSCRIPTIONS, Idle)], 2),
                    caps)
  {
    OneEventMore([], INITIAL, Connect, caps);
    var w := World(map[], map[0 := Connection(NO_SUBSCRIPTIONS, Idle)], 1);
    assert [] + [Connect] == [Connect];
    OneEventMore([Connect], w, Connect, caps);
    assert [Connect] + [Connect] == [Connect, Connect];
  }

  lemma CommitsNothing(mt: ParsedTopic, key: Key)
    requires mt.kind.Multi?
    ensures CommittedTopics(map[], 0, mt, key, [], 0) == Registered(mt, key)
    ensures CommittedSubscriber(NO_SUBSCRIPTIONS, mt, key, Immediate(None), []) == Lonely(mt, key)
  {
    assert Elems<ParsedTopic>([]) == {};
    var added := AddSubscription(map[], mt, 0, key, 0);
    assert AddLinkSet(added, {}, 0, mt, 0) == added;
  }

  lemma FirstClientCommits(mt: ParsedTopic, key: Key, caps: Caps) returns (events: seq<Event>)
    requires mt.kind.Multi? && Roomy(caps)
    ensures Reaches(events, World(Registered(mt, key), map[0 := Connection(Lonely(mt, key), Idle),
                                                           1 := Connection(NO_SUBSCRIPTIONS, Idle)], 2), caps)
  {
    TwoConnect(caps);
    var idle := Connection(NO_SUBSCRIPTIONS, Idle);
    var w := World(map[], map[0 := idle, 1 := idle], 2);
    assert DirectTopics(NO_SUBSCRIPTIONS) == {};
    events := [Connect, Connect];
    OneEventMore(events, w, Check(0, mt), caps);
    events := events + [Check(0, mt)];
    var x := World(map[], map[0 := Connection(NO_SUBSCRIPTIONS, Pending(mt)), 1 := idle], 2);
    assert Next(w, Check(0, mt), caps) == x;
    FirstCommit(x, mt, key, caps);
    OneEventMore(events, x, Commit(0, key, Immediate(None), [], 0), caps);
    events := events + [Commit(0, key, Immediate(None), [], 0)];
  }

  lemma FirstCommit(x: World, mt: ParsedTopic, key: Key, caps: Caps)
    requires mt.kind.Multi?
    requires var idle := Connection(NO_SUBSCRIPTIONS, Idle);
             x == World(map[], map[0 := Connection(NO_SUBSCRIPTIONS, Pending(mt)), 1 := idle], 2)
    ensures Enabled(x, Commit(0, key, Immediate(None), [], 0), caps)
    ensures Next(x, Commit(0, key, Immediate(None), [], 0), caps)
         == World(Registered(mt, key), map[0 := Connection(Lonely(mt, key), Idle),
                                           1 := Connection(NO_SUBSCRIPTIONS, Idle)], 2)
  {
    assert Elems<ParsedTopic>([]) == {};
    CommitsNothing(mt, key);
    assert x.clients[0 := Connection(Lonely(mt, key), Idle)]
        == map[0 := Connection(Lonely(mt, key), Idle), 1 := Connection(NO_SUBSCRIPTIONS, Idle)];
  }

  lemma WaitingIsReached(mt: ParsedTopic, key: Key, caps: Caps) returns (events: seq<Event>)
    requires mt.kind.Multi? && Roomy(caps)
    ensures Reaches(events, Waiting(mt, key), caps)
  {
    events := FirstClientCommits(mt, key, caps);
    var w := World(Registered(mt, key), map[0 := Connection(Lonely(mt, key), Idle),
                                            1 := Connection(NO_SUBSCRIPTIONS, Idle)], 2);
    assert DirectTopics(NO_SUBSCRIPTIONS) == {};
    OneEventMore(events, w, Check(1, mt), caps);
    assert Next(w, Check(1, mt), caps).clients == Waiting(mt, key).clients;
    events := events + [Check(1, mt)];
  }

  ghost predicate Matched(mt: ParsedTopic, s: ParsedTopic) {
    mt.kind.Multi? && s.kind.Single? && FilterMatches(mt.kind.filter, s.kind.single)
  }

  lemma SingleTurn(w: World, mt: ParsedTopic, s: ParsedTopic, c: ClientId, max: nat)
    ensures Accepts(w, s, [mt], 0, c, max)
       <==> Direct(w.topics, mt, c) && c in w.clients && w.clients[c].sub.indirectCount < max
    ensures Accepts(w, s, [mt], 0, c, max) ==> Took(w, s, [mt], 1, c, mt, max)
  {
    assert [mt][..0] == [];
  }

  /** A subscriber below its cap gains the key of a single multi-topic; a client that does not subscribe is left alone. */
  lemma SingleExpansion(w: World, mt: ParsedTopic, s: ParsedTopic, c: ClientId, d: ClientId, caps: Caps)
    requires Inv(w, caps) && s.kind.Single? && Gaining(w.topics, s) == {mt}
    requires Direct(w.topics, mt, c) && c in w.clients && w.clients[c].sub.indirectCount < caps.maxIndirect
    requires !Direct(w.topics, mt, d) && d in w.clients
    ensures Enabled(w, Expand(s, [mt], 0), caps)
    ensures var x := Next(w, Expand(s, [mt], 0), caps);
            && Linked(x.topics, s, c, mt)
            && c in x.clients && x.clients[c].phase == w.clients[c].phase
            && d in x.clients && x.clients[d] == w.clients[d]
  {
    assert Elems([mt]) == {mt};
    ExpansionIsExact(w, Expand(s, [mt], 0), caps);
    SingleOutcome(w, Next(w, Expand(s, [mt], 0), caps), mt, s, c, d, caps.maxIndirect);
  }

  lemma SingleOutcome(w: World, x: World, mt: ParsedTopic, s: ParsedTopic, c: ClientId, d: ClientId, max: nat)
    requires ExpandedUpTo(w, x, s, [mt], 1, max)
    requires Direct(w.topics, mt, c) && c in w.clients && w.clients[c].sub.indirectCount < max
    requires !Direct(w.topics, mt, d) && d in w.clients
    ensures Linked(x.topics, s, c, mt)
    ensures c in x.clients && x.clients[c].phase == w.clients[c].phase
    ensures d in x.clients && x.clients[d] == w.clients[d]
  {
    SingleTurn(w, mt, s, c, max);
    SingleTurn(w, mt, s, d, max);
    assert ClientUpTo(w, x, s, [mt], 1, c, max);
    assert ClientUpTo(w, x, s, [mt], 1, d, max);
  }

  /** The key appears: the first client gains it. */
  lemma FirstClientGains(mt: ParsedTopic, s: ParsedTopic, key: Key, caps: Caps)
    requires Matched(mt, s) && Roomy(caps) && Inv(Waiting(mt, key), caps)
    ensures Enabled(Waiting(mt, key), Expand(s, [mt], 0), caps)
    ensures var x := Next(Waiting(mt, key), Expand(s, [mt], 0), caps);
            && Linked(x.topics, s, 0, mt)
            && 0 in x.clients && x.clients[0].phase == Idle
            && 1 in x.clients && x.clients[1] == Connection(NO_SUBSCRIPTIONS, Pending(mt))
  {
    var w := Waiting(mt, key);
    OnlyOneGains(mt, s, key);
    SingleExpansion(w, mt, s, 0, 1, caps);
  }

  lemma OnlyOneGains(mt: ParsedTopic, s: ParsedTopic, key: Key)
    requires Matched(mt, s)
    ensures Gaining(Registered(mt, key), s) == {mt}
    ensures Direct(Registered(mt, key), mt, 0) && !Direct(Registered(mt, key), mt, 1)
  {
    assert 0 in Registered(mt, key)[mt].clients;
    assert Gains(Registered(mt, key), mt, s);
  }

  /** The link is the client's only one, under its key, and it subscribes to nothing but `mt`. */
  ghost predicate HoldsOnly(u: Subscriber, mt: ParsedTopic, s: ParsedTopic, key: Key) {
    && u.indirectCount <= 1 && DirectTopics(u) <= {mt}
    && HasSource(u, s, mt) && u.subs[s].sources[mt] == key
  }

  lemma OneLinkMore(w: World, x: World, s: ParsedTopic, mt: ParsedTopic, max: nat)
    requires 0 in w.clients && 0 in x.clients && ClientUpTo(w, x, s, [mt], 1, 0, max)
    ensures x.clients[0].sub.indirectCount <= w.clients[0].sub.indirectCount + 1
  {
    assert [mt][..1] == [mt] && [mt][..0] == [];
    assert NewLinks(w.topics, s, [mt], 0) <= 1;
  }

  lemma FirstClientHolds(mt: ParsedTopic, s: ParsedTopic, key: Key, caps: Caps)
    requires Matched(mt, s) && Roomy(caps) && Inv(Waiting(mt, key), caps)
    requires Enabled(Waiting(mt, key), Expand(s, [mt], 0), caps)
    requires var x := Next(Waiting(mt, key), Expand(s, [mt], 0), caps); 0 in x.clients && Linked(x.topics, s, 0, mt)
    ensures HoldsOnly(Next(Waiting(mt, key), Expand(s, [mt], 0), caps).clients[0].sub, mt, s, key)
  {
    var w, e := Waiting(mt, key), Expand(s, [mt], 0);
    var x, max := Next(w, e, caps), caps.maxIndirect;
    ExpansionIsExact(w, e, caps);
    assert ConnectionOk(x.topics, 0, x.clients[0], caps);
    SubscriberIsConnected(x, mt, 0, caps);
    SourceKeyOrigin(w, e, caps, 0, s, mt);
    assert ClientUpTo(w, x, s, [mt], 1, 0, max);
    OneLinkMore(w, x, s, mt, max);
    forall t | t in DirectTopics(x.clients[0].sub) ensures t == mt {
      assert HasDirect(w.clients[0].sub, t);
    }
  }

  /** The second client commits what it resolved before: the recorded key is dropped. */
  lemma SecondClientCommits(w: World, mt: ParsedTopic, s: ParsedTopic, key: Key, caps: Caps) returns (x: World)
    requires Inv(w, caps) && Roomy(caps) && mt.kind.Multi?
    requires Linked(w.topics, s, 0, mt) && 0 in w.clients && w.clients[0].phase == Idle
    requires 1 in w.clients && w.clients[1] == Connection(NO_SUBSCRIPTIONS, Pending(mt))
    ensures Enabled(w, Commit(1, key, Immediate(None), [], 0), caps)
    ensures x == Next(w, Commit(1, key, Immediate(None), [], 0), caps)
    ensures Orphan(x.topics, s, 0, mt) && 0 in x.clients && x.clients[0] == w.clients[0]
  {
    x := Next(w, Commit(1, key, Immediate(None), [], 0), caps);
    assert MayCommit(NO_SUBSCRIPTIONS, mt, [], caps);
    assert x.topics == CommittedTopics(w.topics, 1, mt, key, [], 0);
    EmptyCommitOrphans(w.topics, 1, mt, s, 0, key);
  }

  /** A commit without keys orphans every link via the multi-topic. */
  lemma EmptyCommitOrphans(m: TopicMap, c: ClientId, mt: ParsedTopic, s: ParsedTopic, d: ClientId, key: Key)
    requires RegistryOk(m) && mt.kind.Multi? && Linked(m, s, d, mt)
    ensures Orphan(CommittedTopics(m, c, mt, key, [], 0), s, d, mt)
  {
    assert Elems<ParsedTopic>([]) == {};
    var n := CommittedTopicsEffect(m, c, mt, key, [], 0);
  }

  /** A run after which client 0 is connected and holds an orphan link. */
  lemma OrphanRun(mt: ParsedTopic, s: ParsedTopic, key: Key, caps: Caps) returns (events: seq<Event>, w: World)
    requires Matched(mt, s) && Roomy(caps)
    ensures Reaches(events, w, caps) && Inv(w, caps)
    ensures Orphan(w.topics, s, 0, mt) && 0 in w.clients && w.clients[0].phase == Idle
    ensures HoldsOnly(w.clients[0].sub, mt, s, key)
  {
    events := WaitingIsReached(mt, key, caps);
    EveryRunKeeps(events, caps);
    FirstClientGains(mt, s, key, caps);
    FirstClientHolds(mt, s, key, caps);
    OneEventMore(events, Waiting(mt, key), Expand(s, [mt], 0), caps);
    events, w := events + [Expand(s, [mt], 0)], Next(Waiting(mt, key), Expand(s, [mt], 0), caps);
    EveryRunKeeps(events, caps);
    var x := SecondClientCommits(w, mt, s, key, caps);
    var commit := Commit(1, key, Immediate(None), [], 0);
    OneEventMore(events, w, commit, caps);
    events, w := events + [commit], x;
    EveryRunKeeps(events, caps);
  }

  /** Unsubscribing does not help: the client no longer holds the multi-topic, and keeps the link. */
  lemma UnsubscribeKeepsOrphan(mt: ParsedTopic, s: ParsedTopic, key: Key, caps: Caps)
    returns (events: seq<Event>, w: World)
    requires Matched(mt, s) && Roomy(caps)
    ensures Reaches(events, w, caps)
    ensures 0 in w.clients && w.clients[0].phase == Idle && !HasDirect(w.clients[0].sub, mt) && Linked(w.topics, s, 0, mt)
    ensures HoldsOnly(w.clients[0].sub, mt, s, key)
  {
    events, w := OrphanRun(mt, s, key, caps);
    assert ConnectionOk(w.topics, 0, w.clients[0], caps);
    if HasDirect(w.clients[0].sub, mt) {
      var order := EnumerationExists(Subtopics(w.topics, mt));
      OneEventMore(events, w, Unsubscribe(0, mt, order), caps);
      UnsubscribeLeaves(w, 0, mt, order, caps);
      UnsubscribeStep(w, 0, mt, order, caps);
      UnsubscribeEntries(w.clients[0].sub, mt, order);
      var v := UnsubscribedSubscriberEffect(w.clients[0].sub, mt, order);
      events, w := events + [Unsubscribe(0, mt, order)], Next(w, Unsubscribe(0, mt, order), caps);
    }
  }

  /**
   Subscribing again under another key does not help either: the link keeps the old key, so
   what it delivers does not carry the key of the subscription.
   */
  lemma StaleKeyIsReached(mt: ParsedTopic, s: ParsedTopic, key: Key, other: Key, caps: Caps)
    returns (events: seq<Event>, w: World)
    requires Matched(mt, s) && Roomy(caps) && caps.maxIndirect >= 2 && key != other
    ensures Reaches(events, w, caps) && !SourceKeys(w)
  {
    events, w := UnsubscribeKeepsOrphan(mt, s, key, caps);
    EveryRunKeeps(events, caps);
    SubscribesAgain(w, mt, s, key, other, caps);
    OneEventMore(events, w, Check(0, mt), caps);
    events, w := events + [Check(0, mt)], Next(w, Check(0, mt), caps);
    EveryRunKeeps(events, caps);
    var commit := Commit(0, other, Immediate(None), [], 0);
    OneEventMore(events, w, commit, caps);
    events, w := events + [commit], Next(w, commit, caps);
  }

  lemma SubscribesAgain(w: World, mt: ParsedTopic, s: ParsedTopic, key: Key, other: Key, caps: Caps)
    requires Inv(w, caps) && mt.kind.Multi? && Roomy(caps) && caps.maxIndirect >= 2 && key != other
    requires 0 in w.clients && w.clients[0].phase == Idle && !HasDirect(w.clients[0].sub, mt)
    requires HoldsOnly(w.clients[0].sub, mt, s, key)
    ensures Enabled(w, Check(0, mt), caps)
    ensures var x, commit := Next(w, Check(0, mt), caps), Commit(0, other, Immediate(None), [], 0);
            Enabled(x, commit, caps) && !SourceKeys(Next(x, commit, caps))
  {
    var u := w.clients[0].sub;
    assert ConnectionOk(w.topics, 0, w.clients[0], caps);
    ViewInRegistry(w.topics, 0, u, mt);
    assert !Direct(w.topics, mt, 0);
    assert forall p :: !Linked(w.topics, mt, 0, p);
    assert DirectTopics(u) == {} by {
      assert mt !in DirectTopics(u);
    }
    StartsIff(w, 0, mt, caps);
    CheckKeeps(w, 0, mt, caps);
    var x, commit := Next(w, Check(0, mt), caps), Commit(0, other, Immediate(None), [], 0);
    CommitGoesThroughIff(x, commit, caps);
    StaleKeyStays(x, commit, caps, s, mt);
  }

  // ----- A link of a client that has gone -----

  /** Client `c` is gone, and the registry still links it to `s` via `mt`. */
  ghost predicate LeftBehind(w: World, s: ParsedTopic, c: ClientId, mt: ParsedTopic) {
    c !in w.clients && c < w.nextId && Linked(w.topics, s, c, mt)
  }

  /** No event takes the link away. */
  lemma EventLeavesBehind(w: World, e: Event, s: ParsedTopic, c: ClientId, mt: ParsedTopic, caps: Caps)
    requires Inv(w, caps) && Enabled(w, e, caps) && LeftBehind(w, s, c, mt)
    ensures LeftBehind(Next(w, e, caps), s, c, mt)
  {
    match e
    case Commit(_, _, _, _, _) =>
      var conn := w.clients[e.c];
      if MayCommit(conn.sub, conn.phase.topic, e.resolved, caps) {
        var n := CommittedTopicsEffect(w.topics, e.c, conn.phase.topic, e.key, e.resolved, e.now);
      }
    case Unsubscribe(d, t, _) =>
      if t in w.clients[d].sub.subs {
        var n := CleanTopicEffect(w.topics, t, true, d);
      }
    case Expand(_, _, _) =>
      ExpansionIsExact(w, e, caps);
      OnlySubscribersGain(w, e, caps, s, c, mt);
    case Cleanup(_, _) =>
      CleanupLeavesOrphans(w, e, caps);
      assert SameFor(w.topics, Next(w, e, caps).topics, c);
    case _ =>
  }

  /** However a run goes on, the client stays in the registry. */
  lemma {:induction false} StaysForever(
      events: seq<Event>, more: seq<Event>, s: ParsedTopic, c: ClientId, mt: ParsedTopic, caps: Caps)
    requires After(events, caps).Some? && LeftBehind(After(events, caps).value, s, c, mt)
    requires After(events + more, caps).Some?
    ensures LeftBehind(After(events + more, caps).value, s, c, mt)
    decreases |more|
  {
    if more == [] {
      assert events + more == events;
    } else {
      var init, last := more[..|more| - 1], more[|more| - 1];
      assert (events + more)[..|events + more| - 1] == events + init;
      StaysForever(events, init, s, c, mt, caps);
      EveryRunKeeps(events + init, caps);
      EventLeavesBehind(After(events + init, caps).value, last, s, c, mt, caps);
    }
  }

  /**
   For every multi-topic and key it matches, under any positive limits, there is a run after
   which a client that has gone is registered, and it is after every continuation.
   */
  lemma StaleCommitLeaks(mt: ParsedTopic, s: ParsedTopic, key: Key, caps: Caps)
    returns (events: seq<Event>, c: ClientId)
    requires Matched(mt, s) && Roomy(caps)
    ensures After(events, caps).Some?
    ensures forall more :: After(events + more, caps).Some? ==> LeftBehind(After(events + more, caps).value, s, c, mt)
  {
    var w;
    events, w := OrphanRun(mt, s, key, caps);
    events, w := EveryClientCanLeave(events, w, 0, caps);
    EveryRunKeeps(events, caps);
    c := 0;
    assert LeftBehind(w, s, c, mt);
    forall more | After(events + more, caps).Some? ensures LeftBehind(After(events + more, caps).value, s, c, mt) {
      StaysForever(events, more, s, c, mt, caps);
    }
  }
}
