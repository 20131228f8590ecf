/**
 What a client gets: which subscribes go through and what the client then holds, which new
 keys reach the subscribers of a multi-topic, and that every client can leave. All of it is
 said about the registry before and after an event, not about the checks that the events make.
 */
module ProtocolService {
  import opened Text
  import opened Registry
  import opened Subscribers
  import opened Protocol
  import opened ProtocolInvariant
  import opened ProtocolExpand
  import opened ProtocolRuns
  import Glob

  // ----- What the registry says about one client -----

  ghost function DirectOf(m: TopicMap, c: ClientId): set<ParsedTopic> {
    set t | t in m && c in m[t].clients
  }

  ghost function LinksOf(m: TopicMap, c: ClientId): set<(ParsedTopic, ParsedTopic)> {
    set s, mt | s in m && c in m[s].indirect && mt in m[s].indirect[c] :: (s, mt)
  }

  /** The client receives `t` neither directly nor through a multi-topic. */
  ghost predicate Unheld(m: TopicMap, c: ClientId, t: ParsedTopic) {
    !Direct(m, t, c) && forall mt :: !Linked(m, t, c, mt)
  }

  lemma ViewInRegistry(m: TopicMap, c: ClientId, u: Subscriber, t: ParsedTopic)
    requires Mirror(m, c, u) && SubscriberOk(u)
    ensures t in u.subs <==> !Unheld(m, c, t)
    ensures DirectTopics(u) == DirectOf(m, c)
    ensures u.indirectCount == |LinksOf(m, c)|
  {
    if t in u.subs && !u.subs[t].isDirect {
      assert DataOk(u.subs[t]);
      var mt :| mt in u.subs[t].sources;
      assert HasSource(u, t, mt);
    }
    forall x ensures x in DirectTopics(u) <==> x in DirectOf(m, c) {
      assert HasDirect(u, x) <==> Direct(m, x, c);
    }
    forall s, mt ensures (s, mt) in Pairs(u) <==> (s, mt) in LinksOf(m, c) {
      PairsMeaning(u, s, mt);
      assert HasSource(u, s, mt) <==> Linked(m, s, c, mt);
    }
    assert Pairs(u) == LinksOf(m, c);
  }

  // ----- Subscribing -----

  /** A subscribe may start exactly when the topic is not held and neither limit is reached. */
  lemma StartsIff(w: World, c: ClientId, t: ParsedTopic, caps: Caps)
    requires Inv(w, caps) && c in w.clients && w.clients[c].phase.Idle?
    ensures Enabled(w, Check(c, t), caps) <==>
              && Unheld(w.topics, c, t)
              && |DirectOf(w.topics, c)| < caps.maxSubscriptions
              && (t.IsMulti() ==> |LinksOf(w.topics, c)| < caps.maxIndirect)
  {
    assert ConnectionOk(w.topics, c, w.clients[c], caps);
    ViewInRegistry(w.topics, c, w.clients[c].sub, t);
  }

  /** Both sides hold the topic and all its keys, under the key of the subscribe. */
  ghost predicate SubscribedTo(w: World, c: ClientId, t: ParsedTopic, key: Key, resolved: seq<ParsedTopic>) {
    && Direct(w.topics, t, c) && w.topics[t].clients[c] == key
    && c in w.clients && HasDirect(w.clients[c].sub, t) && w.clients[c].sub.subs[t].key == key
    && forall s :: s in resolved ==>
         && Linked(w.topics, s, c, t)
         && HasSource(w.clients[c].sub, s, t) && w.clients[c].sub.subs[s].sources[t] == key
  }

  /**
   A commit goes through exactly when the topic is still not held and the resolved keys fit
   the limit on links. Then both sides hold everything; otherwise nothing has changed.
   */
  lemma CommitGoesThroughIff(w: World, e: Event, caps: Caps)
    requires Inv(w, caps) && e.Commit? && Enabled(w, e, caps)
    ensures var t, x := w.clients[e.c].phase.topic, Next(w, e, caps);
            if Unheld(w.topics, e.c, t) && (t.IsMulti() ==> |LinksOf(w.topics, e.c)| + |e.resolved| <= caps.maxIndirect)
            then SubscribedTo(x, e.c, t, e.key, e.resolved) && x.clients[e.c].phase.Idle?
                 && (t.IsMulti() ==> Subtopics(x.topics, t) == Elems(e.resolved))
            else x == w.(clients := w.clients[e.c := w.clients[e.c].(phase := Idle)])
  {
    var c, u, t := e.c, w.clients[e.c].sub, w.clients[e.c].phase.topic;
    assert ConnectionOk(w.topics, c, w.clients[c], caps);
    ViewInRegistry(w.topics, c, u, t);
    if MayCommit(u, t, e.resolved, caps) {
      ResolvedSubtopics(t, e.resolved);
      CommittedInRegistry(w.topics, c, t, e.key, e.resolved, e.now);
      CommittedInView(u, t, e.key, e.reply, e.resolved);
    }
  }

  lemma CommittedInRegistry(
      m: TopicMap, c: ClientId, t: ParsedTopic, key: Key, resolved: seq<ParsedTopic>, now: int)
    requires RegistryOk(m) && Resolved(t, resolved)
    ensures var n := CommittedTopics(m, c, t, key, resolved, now);
            && Direct(n, t, c) && n[t].clients[c] == key
            && (forall s :: s in resolved ==> Linked(n, s, c, t))
            && (t.IsMulti() ==> Subtopics(n, t) == Elems(resolved))
  {
    ResolvedSubtopics(t, resolved);
    var n := CommittedTopicsEffect(m, c, t, key, resolved, now);
    assert Direct(n, t, c);
    assert t !in Elems(resolved);
  }

  lemma CommittedInView(u: Subscriber, t: ParsedTopic, key: Key, reply: Reply, resolved: seq<ParsedTopic>)
    requires SubscriberOk(u) && t !in resolved
    ensures var v := CommittedSubscriber(u, t, key, reply, resolved);
            && HasDirect(v, t) && v.subs[t].key == key
            && forall s :: s in resolved ==> HasSource(v, s, t) && v.subs[s].sources[t] == key
  {
    var a := Answered(AddDirect(u, t, key), t, reply);
    assert HasDirect(a, t) && a.subs[t].key == key;
    AddIndirectsEntries(a, resolved, t, key);
  }

  /** A subscribe that fails on the way leaves no trace. */
  lemma FailedSubscribeLeavesNoTrace(w: World, c: ClientId, t: ParsedTopic, caps: Caps)
    requires Enabled(w, Check(c, t), caps)
    ensures var x := Next(w, Check(c, t), caps);
            Enabled(x, Fail(c), caps) && Next(x, Fail(c), caps) == w
  {
    assert w.clients[c := w.clients[c]] == w.clients;
  }

  // ----- New keys -----

  /** The filter lists the address, and one of its patterns denotes the key. */
  ghost predicate Covers(mt: ParsedTopic, s: ParsedTopic) {
    && mt.kind.Multi? && s.kind.Single?
    && s.kind.single.address in mt.kind.filter.addresses
    && exists p :: p in mt.kind.filter.keyPatterns && Glob.Denotes(p, s.kind.single.key)
  }

  /** A multi-topic with a subscriber gains a key that it covers, does not record, and has room for. */
  lemma GainsIff(m: TopicMap, mt: ParsedTopic, s: ParsedTopic)
    requires EntriesOk(m)
    ensures mt in Gaining(m, s) <==>
              && (exists c :: Direct(m, mt, c)) && Covers(mt, s)
              && s !in Subtopics(m, mt) && |Subtopics(m, mt)| < 1000
  {
    assert mt in m ==> EntryOk(mt, m[mt]);
    if mt in m && m[mt].clients != map[] {
      assert m[mt].clients.Keys != {};
      var c := SomeMember(m[mt].clients.Keys);
      assert Direct(m, mt, c);
    }
  }

  /** And only those: a new link is for the new key, and its client and multi-topic met all of this. */
  lemma NewLinkHasItsReason(w: World, e: Event, caps: Caps, y: ParsedTopic, c: ClientId, mt: ParsedTopic)
    requires Inv(w, caps) && e.Expand? && Enabled(w, e, caps)
    requires Linked(Next(w, e, caps).topics, y, c, mt) && !Linked(w.topics, y, c, mt)
    ensures y == e.s && Direct(w.topics, mt, c) && Covers(mt, e.s)
    ensures e.s !in Subtopics(w.topics, mt) && |Subtopics(w.topics, mt)| < 1000
    ensures |LinksOf(w.topics, c)| < caps.maxIndirect
  {
    OnlySubscribersGain(w, e, caps, y, c, mt);
    GainsIff(w.topics, mt, e.s);
    ExpansionIsExact(w, e, caps);
    assert TopicsUpTo(w, Next(w, e, caps).topics, e.s, e.order, |e.order|, caps.maxIndirect);
    assert Took(w, e.s, e.order, |e.order|, c, mt, caps.maxIndirect);
    SubscriberIsConnected(w, mt, c, caps);
    assert ConnectionOk(w.topics, c, w.clients[c], caps);
    ViewInRegistry(w.topics, c, w.clients[c].sub, mt);
  }

  // ----- What can always happen -----

  /** A waiting subscribe can fail, and can be committed with any list that a resolution may deliver. */
  lemma WaitingCanEnd(w: World, c: ClientId, key: Key, reply: Reply, resolved: seq<ParsedTopic>, now: int, caps: Caps)
    requires c in w.clients && w.clients[c].phase.Pending?
    ensures Enabled(w, Fail(c), caps)
    ensures Enabled(w, Commit(c, key, reply, resolved, now), caps) <==>
              if w.clients[c].phase.topic.IsMulti()
              then && w.clients[c].phase.topic.kind.Multi? && |resolved| <= 1000
                   && (forall i, j :: 0 <= i < j < |resolved| ==> resolved[i] != resolved[j])
                   && (forall s :: s in resolved ==> s.kind.Single?)
              else resolved == []
  {
    NoneTwice(resolved);
  }

  /** Clients can always connect, an idle one can unsubscribe from anything, and any new key can be expanded. */
  lemma OrdersExist(w: World, c: ClientId, t: ParsedTopic, s: ParsedTopic, now: int, caps: Caps)
    returns (order: seq<ParsedTopic>, gaining: seq<ParsedTopic>)
    ensures Enabled(w, Connect, caps)
    ensures c in w.clients && w.clients[c].phase.Idle? ==> Enabled(w, Unsubscribe(c, t, order), caps)
    ensures s.kind.Single? ==> Enabled(w, Expand(s, gaining, now), caps)
  {
    order := EnumerationExists(Subtopics(w.topics, t));
    gaining := EnumerationExists(Gaining(w.topics, s));
  }

  /** Wherever its handler is, a connected client can be disconnected; the registry then names it as a subscriber of nothing. */
  lemma EveryClientCanLeave(events: seq<Event>, w: World, c: ClientId, caps: Caps)
    returns (all: seq<Event>, x: World)
    requires Reaches(events, w, caps) && c in w.clients
    ensures events <= all && Reaches(all, x, caps)
    ensures c !in x.clients && DirectOf(x.topics, c) == {}
    ensures Live(w, c) ==> forall s, mt :: Linked(x.topics, s, c, mt) <==> Orphan(w.topics, s, c, mt)
  {
    EveryRunKeeps(events, caps);
    all, x := events, w;
    if Live(w, c) {
      OneEventMore(all, x, Snapshot(c), caps);
      SnapshotKeeps(x, c, caps);
      all, x := all + [Snapshot(c)], Next(x, Snapshot(c), caps);
    }
    if x.clients[c].phase.Leaving? {
      var order := EnumerationExists(x.clients[c].phase.snapshot.Keys);
      OneEventMore(all, x, Cleanup(c, order), caps);
      CleanupLeavesOrphans(x, Cleanup(c, order), caps);
      all, x := all + [Cleanup(c, order)], Next(x, Cleanup(c, order), caps);
    } else {
      assert ConnectionOk(x.topics, c, x.clients[c], caps);
    }
    assert NoDirect(x.topics, c);
    OneEventMore(all, x, Remove(c), caps);
    all, x := all + [Remove(c)], Next(x, Remove(c), caps);
    forall t ensures t !in DirectOf(x.topics, c) {
      assert !Direct(x.topics, t, c);
    }
  }
}
