/**
 What every event does to the details of an entry: the keys under which a client is
 subscribed, on both sides and for every source; what its deliveries remember; and the times
 at which topics were refreshed.
 */
module ProtocolKeys {
  import opened Text
  import opened Registry
  import opened Subscribers
  import opened Protocol
  import opened ProtocolInvariant
  import opened ProtocolExpand
  import opened ProtocolRuns
  import opened ProtocolService

  // ----- The registry -----

  /** Every registered subscriber was one before, under the same key. */
  ghost predicate KeysFrom(m: TopicMap, n: TopicMap) {
    forall t, d :: Direct(n, t, d) ==> Direct(m, t, d) && n[t].clients[d] == m[t].clients[d]
  }

  /** Refresh times are as before; a new entry has the time of the event. */
  ghost predicate TimesFrom(m: TopicMap, n: TopicMap, now: int) {
    forall t :: t in n ==> n[t].lastRefresh == if t in m then m[t].lastRefresh else now
  }

  /** No new entries, and the old ones with their times. */
  ghost predicate TimesKept(m: TopicMap, n: TopicMap) {
    forall t :: t in n ==> t in m && n[t].lastRefresh == m[t].lastRefresh
  }

  lemma AddedLinksKeepKeys(m: TopicMap, ss: set<ParsedTopic>, c: ClientId, mt: ParsedTopic, now: int)
    ensures KeysFrom(m, AddLinkSet(m, ss, c, mt, now)) && TimesFrom(m, AddLinkSet(m, ss, c, mt, now), now)
    ensures m.Keys <= AddLinkSet(m, ss, c, mt, now).Keys
  {
  }

  lemma DroppedLinksKeepKeys(m: TopicMap, ss: set<ParsedTopic>, c: ClientId, mt: ParsedTopic)
    ensures KeysFrom(m, DropLinkSet(m, ss, c, mt)) && TimesKept(m, DropLinkSet(m, ss, c, mt))
  {
  }

  lemma CommitKeysFrom(m: TopicMap, c: ClientId, t: ParsedTopic, key: Key, resolved: seq<ParsedTopic>, now: int)
    ensures var n := CommittedTopics(m, c, t, key, resolved, now);
            && TimesFrom(m, n, now)
            && forall x, d :: Direct(n, x, d) ==>
                 if x == t && d == c then n[x].clients[d] == key
                 else Direct(m, x, d) && n[x].clients[d] == m[x].clients[d]
  {
    var added := AddSubscription(m, t, c, key, now);
    if t.IsMulti() {
      var updated := UpdateMultitopicInfo(added, t, Elems(resolved), now);
      AddedLinksKeepKeys(updated, Elems(resolved), c, t, now);
      assert KeysFrom(added, updated);
    }
  }

  lemma CleanTopicKeys(m: TopicMap, t: ParsedTopic, isDirect: bool, c: ClientId)
    ensures KeysFrom(m, CleanTopic(m, t, isDirect, c)) && TimesKept(m, CleanTopic(m, t, isDirect, c))
  {
    var dropped := if t.IsMulti() then DropLinkSet(m, Subtopics(m, t), c, t) else m;
    DroppedLinksKeepKeys(m, Subtopics(m, t), c, t);
    RemoveKeepsKeys(dropped, t, c);
  }

  lemma RemoveKeepsKeys(m: TopicMap, t: ParsedTopic, c: ClientId)
    ensures KeysFrom(m, RemoveSubscription(m, t, c)) && TimesKept(m, RemoveSubscription(m, t, c))
  {
  }

  lemma {:induction false} CleanAllKeys(m: TopicMap, order: seq<ParsedTopic>, snapshot: map<ParsedTopic, bool>, c: ClientId)
    requires forall t :: t in order ==> t in snapshot
    ensures KeysFrom(m, CleanAll(m, order, snapshot, c)) && TimesKept(m, CleanAll(m, order, snapshot, c))
    decreases |order|
  {
    if order != [] {
      var init, t := order[..|order| - 1], order[|order| - 1];
      CleanAllKeys(m, init, snapshot, c);
      CleanTopicKeys(CleanAll(m, init, snapshot, c), t, snapshot[t], c);
    }
  }

  // ----- The connections -----

  /** What an entry remembers for its deliveries. */
  ghost predicate SameDelivery(a: SubscriptionData, b: SubscriptionData) {
    a.key == b.key && a.isNew == b.isNew && a.lastBalance == b.lastBalance
  }

  /** Entries deliver as before, new ones as fresh entries do. */
  ghost predicate DeliveriesFrom(u: Subscriber, v: Subscriber) {
    forall t :: t in v.subs ==> SameDelivery(v.subs[t], Entry(u, t))
  }

  /** Every source was there before, under the same key. */
  ghost predicate SourcesFrom(u: Subscriber, v: Subscriber) {
    forall s, mt :: HasSource(v, s, mt) ==> HasSource(u, s, mt) && v.subs[s].sources[mt] == u.subs[s].sources[mt]
  }

  lemma RemovedAreFrom(u: Subscriber, v: Subscriber, ss: seq<ParsedTopic>, mt: ParsedTopic)
    requires RemovedEntries(u, v, ss, mt)
    ensures DeliveriesFrom(u, v) && SourcesFrom(u, v) && v.subs.Keys <= u.subs.Keys
  {
  }

  lemma RemoveDirectEntries(u: Subscriber, t: ParsedTopic)
    ensures var v := RemoveDirect(u, t); DeliveriesFrom(u, v) && SourcesFrom(u, v) && v.subs.Keys <= u.subs.Keys
  {
  }

  lemma UnsubscribeEntries(u: Subscriber, t: ParsedTopic, order: seq<ParsedTopic>)
    ensures var v := UnsubscribedSubscriber(u, t, order);
            DeliveriesFrom(u, v) && SourcesFrom(u, v) && v.subs.Keys <= u.subs.Keys
  {
    var b := RemoveDirect(u, t);
    RemoveDirectEntries(u, t);
    if t.IsMulti() {
      RemoveIndirectsEntries(b, order, t);
      RemovedAreFrom(b, RemoveIndirects(b, order, t), order, t);
    }
  }

  lemma CommitEntries(u: Subscriber, t: ParsedTopic, key: Key, reply: Reply, resolved: seq<ParsedTopic>)
    requires t !in u.subs && t !in resolved
    ensures var v := CommittedSubscriber(u, t, key, reply, resolved);
            && (forall x :: x in v.subs && x != t ==> SameDelivery(v.subs[x], Entry(u, x)))
            && t in v.subs && v.subs[t].key == key && (v.subs[t].isNew <==> reply.Delayed?)
            && v.subs[t].lastBalance == (if reply.Delayed? then DEFAULT_DATA.lastBalance else reply.balance)
            && (forall s, mt :: HasSource(v, s, mt) ==>
                  if s in resolved && mt == t then v.subs[s].sources[mt] == key
                  else HasSource(u, s, mt) && v.subs[s].sources[mt] == u.subs[s].sources[mt])
  {
    AddIndirectsEntries(Answered(AddDirect(u, t, key), t, reply), resolved, t, key);
  }

  // ----- Expansion -----

  /** The sources that a client has after the first `n` multi-topics. */
  ghost predicate ExpandedSources(w: World, s: ParsedTopic, order: seq<ParsedTopic>, c: ClientId, u: Subscriber, v: Subscriber) {
    forall y, mt :: HasSource(v, y, mt) ==>
      || (HasSource(u, y, mt) && v.subs[y].sources[mt] == u.subs[y].sources[mt])
      || (y == s && mt in order && Direct(w.topics, mt, c) && v.subs[y].sources[mt] == w.topics[mt].clients[c])
  }

  ghost predicate ExpandedClient(w: World, s: ParsedTopic, order: seq<ParsedTopic>, c: ClientId, a: Connection, b: Connection) {
    && a.phase == b.phase && a.sub.subs.Keys <= b.sub.subs.Keys
    && DeliveriesFrom(a.sub, b.sub) && ExpandedSources(w, s, order, c, a.sub, b.sub)
  }

  lemma TakeLink(w: World, s: ParsedTopic, order: seq<ParsedTopic>, mt: ParsedTopic, c: ClientId, a: Connection, b: Connection, key: Key)
    requires ExpandedClient(w, s, order, c, a, b)
    requires Direct(w.topics, mt, c) && key == w.topics[mt].clients[c]
    ensures ExpandedClient(w, s, order + [mt], c, a, b.(sub := AddIndirect(b.sub, s, mt, key)))
  {
  }

  lemma {:induction false} ExpandAllKeys(w: World, s: ParsedTopic, order: seq<ParsedTopic>, max: nat, now: int)
    ensures var x := ExpandAll(w, s, order, max, now);
            && KeysFrom(w.topics, x.topics) && KeysFrom(x.topics, w.topics)
            && TimesFrom(w.topics, x.topics, now) && w.topics.Keys <= x.topics.Keys
            && x.clients.Keys == w.clients.Keys
            && forall c :: c in w.clients ==> ExpandedClient(w, s, order, c, w.clients[c], x.clients[c])
    decreases |order|
  {
    if order != [] {
      var init, mt := order[..|order| - 1], order[|order| - 1];
      SplitLast(order);
      ExpandAllKeys(w, s, init, max, now);
      var before, x := ExpandAll(w, s, init, max, now), ExpandAll(w, s, order, max, now);
      if mt in before.topics {
        ExpandOneKeys(before, s, mt, max, now);
        forall c | c in w.clients ensures ExpandedClient(w, s, order, c, w.clients[c], x.clients[c]) {
          ExpandOneClientKeys(w, before, s, init, mt, max, now, c);
        }
      }
    }
  }

  lemma ExpandOneClientKeys(
      w: World, before: World, s: ParsedTopic, init: seq<ParsedTopic>, mt: ParsedTopic, max: nat, now: int, c: ClientId)
    requires mt in before.topics && KeysFrom(w.topics, before.topics)
    requires c in w.clients && c in before.clients && ExpandedClient(w, s, init, c, w.clients[c], before.clients[c])
    ensures ExpandedClient(w, s, init + [mt], c, w.clients[c], ExpandOne(before, s, mt, max, now).clients[c])
  {
    if c in Accepting(before, mt, max) {
      assert Direct(before.topics, mt, c);
      TakeLink(w, s, init, mt, c, w.clients[c], before.clients[c], before.topics[mt].clients[c]);
    }
  }

  lemma ExpandOneKeys(w: World, s: ParsedTopic, mt: ParsedTopic, max: nat, now: int)
    requires mt in w.topics
    ensures KeysFrom(w.topics, ExpandOne(w, s, mt, max, now).topics)
    ensures KeysFrom(ExpandOne(w, s, mt, max, now).topics, w.topics)
    ensures TimesFrom(w.topics, ExpandOne(w, s, mt, max, now).topics, now)
    ensures w.topics.Keys <= ExpandOne(w, s, mt, max, now).topics.Keys
  {
  }

  /** Of the first multi-topics, client `c` has the link under its key, or it is at its cap. */
  ghost predicate Served(w: World, s: ParsedTopic, order: seq<ParsedTopic>, c: ClientId, v: Subscriber, max: nat) {
    forall mt :: mt in order && Direct(w.topics, mt, c) ==>
      (HasSource(v, s, mt) && v.subs[s].sources[mt] == w.topics[mt].clients[c]) || v.indirectCount >= max
  }

  lemma {:induction false} ExpandAllServes(w: World, s: ParsedTopic, order: seq<ParsedTopic>, max: nat, now: int, c: ClientId)
    requires c in w.clients
    ensures var x := ExpandAll(w, s, order, max, now); c in x.clients && Served(w, s, order, c, x.clients[c].sub, max)
    decreases |order|
  {
    if order != [] {
      var init, mt := order[..|order| - 1], order[|order| - 1];
      SplitLast(order);
      ExpandAllServes(w, s, init, max, now, c);
      ExpandAllKeys(w, s, init, max, now);
      var before := ExpandAll(w, s, init, max, now);
      assert Direct(w.topics, mt, c) ==> Direct(before.topics, mt, c);
      if mt in before.topics {
        ServeOne(w, before, s, init, mt, max, now, c);
      }
    }
  }

  lemma ServeOne(
      w: World, before: World, s: ParsedTopic, init: seq<ParsedTopic>, mt: ParsedTopic, max: nat, now: int, c: ClientId)
    requires mt in before.topics && KeysFrom(before.topics, w.topics)
    requires c in before.clients && Served(w, s, init, c, before.clients[c].sub, max)
    ensures Served(w, s, init + [mt], c, ExpandOne(before, s, mt, max, now).clients[c].sub, max)
  {
    var v, z := before.clients[c].sub, ExpandOne(before, s, mt, max, now).clients[c].sub;
    if Direct(w.topics, mt, c) {
      assert Direct(before.topics, mt, c);
      if v.indirectCount < max {
        assert c in Accepting(before, mt, max);
        assert z == AddIndirect(v, s, mt, w.topics[mt].clients[c]);
      }
    }
  }

  // ----- Every event -----

  /** The event subscribes client `c` to `t`. */
  ghost predicate Commits(w: World, e: Event, c: ClientId, t: ParsedTopic) {
    e.Commit? && e.c == c && c in w.clients && w.clients[c].phase == Pending(t)
  }

  /** And the commit goes through. */
  ghost predicate Registers(w: World, e: Event, caps: Caps, c: ClientId, t: ParsedTopic)
    requires Enabled(w, e, caps)
  {
    Commits(w, e, c, t) && !Direct(w.topics, t, c) && Direct(Next(w, e, caps).topics, t, c)
  }

  lemma CleanedOrder(order: seq<ParsedTopic>, snapshot: map<ParsedTopic, bool>)
    requires Enumerates(order, snapshot.Keys)
    ensures forall t :: t in order ==> t in snapshot
  {
    assert forall t :: t in order ==> t in Elems(order);
  }

  /** A registered key comes from the commit that registered the client, and never changes. */
  lemma RegisteredKeyOrigin(w: World, e: Event, caps: Caps, t: ParsedTopic, c: ClientId)
    requires Inv(w, caps) && Enabled(w, e, caps) && Direct(Next(w, e, caps).topics, t, c)
    ensures if Direct(w.topics, t, c) then Next(w, e, caps).topics[t].clients[c] == w.topics[t].clients[c]
            else Commits(w, e, c, t) && Next(w, e, caps).topics[t].clients[c] == e.key
  {
    match e
    case Commit(_, key, _, resolved, now) =>
      var conn := w.clients[e.c];
      CommitKeysFrom(w.topics, e.c, conn.phase.topic, key, resolved, now);
      assert ConnectionOk(w.topics, e.c, conn, caps);
      assert Direct(w.topics, t, e.c) <==> HasDirect(conn.sub, t);
    case Unsubscribe(d, u, _) => CleanTopicKeys(w.topics, u, true, d);
    case Expand(s, order, now) => ExpandAllKeys(w, s, order, caps.maxIndirect, now);
    case Cleanup(d, order) =>
      CleanedOrder(order, w.clients[d].phase.snapshot);
      CleanAllKeys(w.topics, order, w.clients[d].phase.snapshot, d);
    case _ =>
  }

  /** An entry's refresh time changes only to the time of a refresh; a new entry has the time of the event. */
  lemma RefreshTimeOrigin(w: World, e: Event, caps: Caps, t: ParsedTopic)
    requires Enabled(w, e, caps) && t in Next(w, e, caps).topics
    ensures var time := Next(w, e, caps).topics[t].lastRefresh;
            if t in w.topics then time == w.topics[t].lastRefresh
                                  || (e.Refresh? && e.topic == t && time == e.now && time > w.topics[t].lastRefresh)
            else (e.Commit? || e.Expand?) && time == e.now
    ensures e.Refresh? && e.topic == t ==> Next(w, e, caps).topics[t].lastRefresh >= e.now
  {
    var x := Next(w, e, caps);
    match e
    case Commit(_, key, _, resolved, now) => CommitKeysFrom(w.topics, e.c, w.clients[e.c].phase.topic, key, resolved, now);
    case Unsubscribe(d, u, _) => CleanTopicKeys(w.topics, u, true, d);
    case Expand(s, order, now) => ExpandAllKeys(w, s, order, caps.maxIndirect, now);
    case Cleanup(d, order) =>
      CleanedOrder(order, w.clients[d].phase.snapshot);
      CleanAllKeys(w.topics, order, w.clients[d].phase.snapshot, d);
    case _ =>
  }

  /**
   A source's key comes from the commit or the expansion that made the link: it is the key
   of that subscribe, or the one registered for the client. No other event changes it.
   */
  lemma SourceKeyOrigin(w: World, e: Event, caps: Caps, c: ClientId, s: ParsedTopic, mt: ParsedTopic)
    requires Inv(w, caps) && Enabled(w, e, caps)
    requires c in Next(w, e, caps).clients && HasSource(Next(w, e, caps).clients[c].sub, s, mt)
    ensures var key := Next(w, e, caps).clients[c].sub.subs[s].sources[mt];
            if Registers(w, e, caps, c, mt) && s in e.resolved then key == e.key
            else
              || (c in w.clients && HasSource(w.clients[c].sub, s, mt) && key == w.clients[c].sub.subs[s].sources[mt])
              || (e.Expand? && e.s == s && Direct(w.topics, mt, c) && key == w.topics[mt].clients[c])
  {
    match e
    case Commit(d, key, reply, resolved, _) =>
      if c == d {
        CommitSources(w, e, caps, s, mt);
      }
    case Unsubscribe(d, t, order) =>
      if c == d {
        UnsubscribeEntries(w.clients[c].sub, t, order);
      }
    case Expand(_, _, _) => ExpandSources(w, e, caps, c, s, mt);
    case _ =>
  }

  lemma ExpandSources(w: World, e: Event, caps: Caps, c: ClientId, s: ParsedTopic, mt: ParsedTopic)
    requires e.Expand? && Enabled(w, e, caps)
    requires c in Next(w, e, caps).clients && HasSource(Next(w, e, caps).clients[c].sub, s, mt)
    ensures var key := Next(w, e, caps).clients[c].sub.subs[s].sources[mt];
            && c in w.clients
            && ((HasSource(w.clients[c].sub, s, mt) && key == w.clients[c].sub.subs[s].sources[mt])
                || (e.s == s && Direct(w.topics, mt, c) && key == w.topics[mt].clients[c]))
  {
    ExpandAllKeys(w, e.s, e.order, caps.maxIndirect, e.now);
  }

  lemma CommitSources(w: World, e: Event, caps: Caps, s: ParsedTopic, mt: ParsedTopic)
    requires Inv(w, caps) && e.Commit? && Enabled(w, e, caps)
    requires HasSource(Next(w, e, caps).clients[e.c].sub, s, mt)
    ensures var u, v := w.clients[e.c].sub, Next(w, e, caps).clients[e.c].sub;
            if Registers(w, e, caps, e.c, mt) && s in e.resolved
            then v.subs[s].sources[mt] == e.key
            else HasSource(u, s, mt) && v.subs[s].sources[mt] == u.subs[s].sources[mt]
  {
    var u, t := w.clients[e.c].sub, w.clients[e.c].phase.topic;
    assert ConnectionOk(w.topics, e.c, w.clients[e.c], caps);
    ViewInRegistry(w.topics, e.c, u, t);
    ResolvedSubtopics(t, e.resolved);
    CommitGoesThroughIff(w, e, caps);
    if MayCommit(u, t, e.resolved, caps) {
      CommitEntries(u, t, e.key, e.reply, e.resolved);
    } else {
      assert !Registers(w, e, caps, e.c, t);
    }
  }

  /** Only a delivery changes what an entry remembers; a new entry starts as its commit says, or afresh. */
  lemma DeliveryOrigin(w: World, e: Event, caps: Caps, c: ClientId, t: ParsedTopic)
    requires Enabled(w, e, caps) && !(e.Deliver? && e.c == c) && w.nextId !in w.clients
    requires c in w.clients && c in Next(w, e, caps).clients && t in Next(w, e, caps).clients[c].sub.subs
    ensures var data := Next(w, e, caps).clients[c].sub.subs[t];
            if t !in w.clients[c].sub.subs && Commits(w, e, c, t)
            then && data.key == e.key && (data.isNew <==> e.reply.Delayed?)
                 && data.lastBalance == (if e.reply.Delayed? then DEFAULT_DATA.lastBalance else e.reply.balance)
            else SameDelivery(data, Entry(w.clients[c].sub, t))
  {
    match e
    case Commit(d, key, reply, resolved, _) =>
      if c == d {
        CommitDeliveries(w, e, caps, t);
      }
    case Unsubscribe(d, u, order) =>
      if c == d {
        UnsubscribeEntries(w.clients[c].sub, u, order);
      }
    case Expand(y, order, now) => ExpandAllKeys(w, y, order, caps.maxIndirect, now);
    case _ =>
  }

  lemma CommitDeliveries(w: World, e: Event, caps: Caps, t: ParsedTopic)
    requires e.Commit? && Enabled(w, e, caps)
    requires t in Next(w, e, caps).clients[e.c].sub.subs
    ensures var data := Next(w, e, caps).clients[e.c].sub.subs[t];
            if t !in w.clients[e.c].sub.subs && w.clients[e.c].phase.topic == t
            then && data.key == e.key && (data.isNew <==> e.reply.Delayed?)
                 && data.lastBalance == (if e.reply.Delayed? then DEFAULT_DATA.lastBalance else e.reply.balance)
            else SameDelivery(data, Entry(w.clients[e.c].sub, t))
  {
    var u, topic := w.clients[e.c].sub, w.clients[e.c].phase.topic;
    ResolvedSubtopics(topic, e.resolved);
    if MayCommit(u, topic, e.resolved, caps) {
      CommitEntries(u, topic, e.key, e.reply, e.resolved);
    }
  }

  // ----- New keys -----

  /**
   A new key reaches every subscriber of a multi-topic that covers it and has room for it:
   on both sides, and under the subscriber's key, unless the subscriber is at its limit.
   */
  lemma NewKeyReachesSubscribers(w: World, e: Event, caps: Caps, mt: ParsedTopic, c: ClientId)
    requires Inv(w, caps) && e.Expand? && Enabled(w, e, caps)
    requires Direct(w.topics, mt, c) && Covers(mt, e.s)
    requires e.s !in Subtopics(w.topics, mt) && |Subtopics(w.topics, mt)| < 1000
    ensures var x := Next(w, e, caps);
            && c in x.clients
            && ((Linked(x.topics, e.s, c, mt) && HasSource(x.clients[c].sub, e.s, mt)
                 && x.clients[c].sub.subs[e.s].sources[mt] == w.topics[mt].clients[c])
                || |LinksOf(x.topics, c)| == caps.maxIndirect)
  {
    GainsIff(w.topics, mt, e.s);
    GainedOrAtCap(w, e, caps, mt, c);
    ExpansionIsExact(w, e, caps);
    var x := Next(w, e, caps);
    SubscriberIsConnected(w, mt, c, caps);
    ExpandAllServes(w, e.s, e.order, caps.maxIndirect, e.now, c);
    assert mt in Elems(e.order);
    SubscriberIsConnected(x, mt, c, caps);
    assert ConnectionOk(x.topics, c, x.clients[c], caps);
    ViewInRegistry(x.topics, c, x.clients[c].sub, mt);
  }

  // ----- Keys over whole runs -----

  /** A direct subscription is registered under the key that the connection remembers. */
  ghost predicate OwnKeys(w: World) {
    forall c, t :: c in w.clients && HasDirect(w.clients[c].sub, t) && Direct(w.topics, t, c) ==>
      w.clients[c].sub.subs[t].key == w.topics[t].clients[c]
  }

  /** Every source carries the key under which the client subscribes to the multi-topic. */
  ghost predicate SourceKeys(w: World) {
    forall c, s, mt :: c in w.clients && HasSource(w.clients[c].sub, s, mt) && Direct(w.topics, mt, c) ==>
      w.clients[c].sub.subs[s].sources[mt] == w.topics[mt].clients[c]
  }

  lemma EventKeepsOwnKeys(w: World, e: Event, caps: Caps)
    requires Inv(w, caps) && Enabled(w, e, caps) && OwnKeys(w)
    ensures OwnKeys(Next(w, e, caps))
  {
    var x := Next(w, e, caps);
    EveryEventKeeps(w, e, caps);
    forall c, t | c in x.clients && HasDirect(x.clients[c].sub, t) && Direct(x.topics, t, c)
      ensures x.clients[c].sub.subs[t].key == x.topics[t].clients[c]
    {
      RegisteredKeyOrigin(w, e, caps, t, c);
      OwnKeyStep(w, e, caps, c, t);
    }
  }

  lemma OwnKeyStep(w: World, e: Event, caps: Caps, c: ClientId, t: ParsedTopic)
    requires Inv(w, caps) && Enabled(w, e, caps) && OwnKeys(w)
    requires var x := Next(w, e, caps);
             c in x.clients && HasDirect(x.clients[c].sub, t) && Direct(x.topics, t, c)
             && (if Direct(w.topics, t, c) then x.topics[t].clients[c] == w.topics[t].clients[c]
                 else Commits(w, e, c, t) && x.topics[t].clients[c] == e.key)
    ensures Next(w, e, caps).clients[c].sub.subs[t].key == Next(w, e, caps).topics[t].clients[c]
  {
    if Direct(w.topics, t, c) {
      SubscriberIsConnected(w, t, c, caps);
      assert ConnectionOk(w.topics, c, w.clients[c], caps);
      assert HasDirect(w.clients[c].sub, t);
      if !(e.Deliver? && e.c == c) {
        DeliveryOrigin(w, e, caps, c, t);
      }
    } else {
      CommitGoesThroughIff(w, e, caps);
    }
  }

  /** In every run, both sides agree on the key of a direct subscription. */
  lemma {:induction false} OwnKeyIsRegistered(events: seq<Event>, caps: Caps)
    requires After(events, caps).Some?
    ensures OwnKeys(After(events, caps).value)
    decreases |events|
  {
    if events != [] {
      var init := events[..|events| - 1];
      OwnKeyIsRegistered(init, caps);
      EveryRunKeeps(init, caps);
      EventKeepsOwnKeys(After(init, caps).value, events[|events| - 1], caps);
    }
  }

  /** The commit re-registers a client that still has a link of an earlier subscription, under another key. */
  ghost predicate StaleKey(w: World, e: Event, caps: Caps, s: ParsedTopic, mt: ParsedTopic)
    requires Enabled(w, e, caps)
  {
    && e.Commit? && Registers(w, e, caps, e.c, mt) && s !in e.resolved
    && HasSource(w.clients[e.c].sub, s, mt) && w.clients[e.c].sub.subs[s].sources[mt] != e.key
  }

  /** Exactly such a commit breaks the agreement of sources and subscriptions on their key. */
  lemma SourceKeysKeptIff(w: World, e: Event, caps: Caps)
    requires Inv(w, caps) && Enabled(w, e, caps) && SourceKeys(w)
    ensures SourceKeys(Next(w, e, caps)) <==> forall s, mt :: !StaleKey(w, e, caps, s, mt)
  {
    var x := Next(w, e, caps);
    EveryEventKeeps(w, e, caps);
    if s, mt :| StaleKey(w, e, caps, s, mt) {
      StaleKeyStays(w, e, caps, s, mt);
    } else {
      forall c, s, mt | c in x.clients && HasSource(x.clients[c].sub, s, mt) && Direct(x.topics, mt, c)
        ensures x.clients[c].sub.subs[s].sources[mt] == x.topics[mt].clients[c]
      {
        assert !StaleKey(w, e, caps, s, mt);
        RegisteredKeyOrigin(w, e, caps, mt, c);
        SourceKeyOrigin(w, e, caps, c, s, mt);
      }
    }
  }

  lemma StaleKeyStays(w: World, e: Event, caps: Caps, s: ParsedTopic, mt: ParsedTopic)
    requires Inv(w, caps) && Enabled(w, e, caps) && StaleKey(w, e, caps, s, mt)
    ensures !SourceKeys(Next(w, e, caps))
  {
    var x := Next(w, e, caps);
    EveryEventKeeps(w, e, caps);
    RegisteredKeyOrigin(w, e, caps, mt, e.c);
    assert ConnectionOk(w.topics, e.c, w.clients[e.c], caps);
    CommitGoesThroughIff(w, e, caps);
    var v := CommittedSubscriberEffect(w.clients[e.c].sub, mt, e.key, e.reply, e.resolved);
    SourceKeyOrigin(w, e, caps, e.c, s, mt);
  }

  lemma SourceMeansDirect(w: World, c: ClientId, s: ParsedTopic, mt: ParsedTopic, caps: Caps)
    requires Inv(w, caps) && NoOrphans(w.topics) && c in w.clients && !w.clients[c].phase.Cleaned?
    requires HasSource(w.clients[c].sub, s, mt)
    ensures Direct(w.topics, mt, c)
  {
    assert ConnectionOk(w.topics, c, w.clients[c], caps);
    assert Linked(w.topics, s, c, mt);
  }

  /** In a run without stale commits, links are delivered under the key of the current subscription. */
  lemma {:induction false} FreshRunSourceKeys(events: seq<Event>, caps: Caps)
    requires After(events, caps).Some? && FreshRun(events, caps)
    ensures SourceKeys(After(events, caps).value)
    decreases |events|
  {
    if events != [] {
      var init, e := events[..|events| - 1], events[|events| - 1];
      FreshRunSourceKeys(init, caps);
      FreshRunHasNoOrphans(init, caps);
      EveryRunKeeps(init, caps);
      var w := After(init, caps).value;
      forall s, mt ensures !StaleKey(w, e, caps, s, mt) {
        if e.Commit? && HasSource(w.clients[e.c].sub, s, mt) {
          SourceMeansDirect(w, e.c, s, mt, caps);
        }
      }
      SourceKeysKeptIff(w, e, caps);
    }
  }
}
