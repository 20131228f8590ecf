/**
 Unsubscribing undoes a subscribe: when exactly the connection's own view, and when the
 registry, returns to what it was; and what an unsubscribe leaves behind.
 */
module ProtocolUndo {
  import opened Text
  import opened Registry
  import opened Subscribers
  import opened Protocol
  import opened ProtocolInvariant

  /** Client `c` receives none of these keys via `mt`. */
  ghost predicate Unlinked(m: TopicMap, keys: seq<ParsedTopic>, c: ClientId, mt: ParsedTopic) {
    forall s :: s in keys ==> !Linked(m, s, c, mt)
  }

  // ----- The registry -----

  lemma UnlinkAfterLink(info: KeyInfo, c: ClientId, mt: ParsedTopic)
    requires c in info.indirect ==> info.indirect[c] != {} && mt !in info.indirect[c]
    ensures WithoutLink(WithLink(info, c, mt), c, mt) == info
  {
    var linked := WithLink(info, c, mt);
    if c in info.indirect {
      assert info.indirect[c] + {mt} - {mt} == info.indirect[c];
      assert linked.indirect[c := info.indirect[c]] == info.indirect;
    } else {
      assert {} + {mt} - {mt} == {};
      assert linked.indirect - {c} == info.indirect;
    }
  }

  lemma DropAfterAdd(m: TopicMap, ss: set<ParsedTopic>, c: ClientId, mt: ParsedTopic, now: int)
    requires EntriesOk(m) && forall s :: s in ss ==> !Linked(m, s, c, mt)
    ensures DropLinkSet(AddLinkSet(m, ss, c, mt, now), ss, c, mt) == m
  {
    var n := AddLinkSet(m, ss, c, mt, now);
    forall s | s in ss ensures WithoutLink(n[s], c, mt) == Lookup(m, s, now) {
      assert !Linked(m, s, c, mt);
      UnlinkAfterLink(Lookup(m, s, now), c, mt);
    }
    var r := DropLinkSet(n, ss, c, mt);
    forall x ensures x in r <==> x in m {
      if x in ss && x !in m {
        assert Abandoned(NewInfo(x, now));
      }
    }
  }

  /** Leaving a topic with a possibly changed subtopic set. */
  lemma RemoveAfterAdd(m: TopicMap, t: ParsedTopic, c: ClientId, key: Key, subtopics: set<ParsedTopic>, now: int)
    requires EntriesOk(m) && !Direct(m, t, c)
    ensures var n := RemoveSubscription(UpdateMultitopicInfo(AddSubscription(m, t, c, key, now), t, subtopics, now), t, c);
            n == m <==> t !in m || m[t].subtopics == subtopics
    ensures RemoveSubscription(AddSubscription(m, t, c, key, now), t, c) == m
  {
    var info := Lookup(m, t, now);
    assert info.clients[c := key] - {c} == info.clients;
    if t !in m {
      assert m[t := info] - {t} == m;
    } else {
      assert m[t := info] == m;
      assert m[t := info.(subtopics := subtopics)][t] == info.(subtopics := subtopics);
    }
  }

  // ----- The connection's own view -----

  lemma RemoveAfterSource(data: SubscriptionData, mt: ParsedTopic, key: Key)
    requires mt !in data.sources && (data.isIndirect <==> data.sources != map[])
    ensures WithoutSource(WithSource(data, mt, key), mt) == data
  {
    assert data.sources[mt := key] - {mt} == data.sources;
  }

  lemma SameSubsSameCount(u: Subscriber, v: Subscriber)
    requires SubscriberOk(u) && SubscriberOk(v) && u.subs == v.subs
    ensures u == v
  {
    SamePairs(u, v);
  }

  /** The entries between a subscribe and an unsubscribe: one more topic, and its subtopics. */
  lemma DirectAddedEntry(u: Subscriber, t: ParsedTopic, key: Key, reply: Reply) returns (v: Subscriber)
    requires t !in u.subs
    ensures v == Answered(AddDirect(u, t, key), t, reply)
    ensures v.subs.Keys == u.subs.Keys + {t} && !v.subs[t].isIndirect
    ensures forall x :: x in u.subs ==> v.subs[x] == u.subs[x]
  {
    v := Answered(AddDirect(u, t, key), t, reply);
  }

  /** Entry by entry: what was added is removed again, and nothing else. */
  lemma EntriesRestored(
      u: Subscriber, a: Subscriber, v: Subscriber, b: Subscriber, z: Subscriber, t: ParsedTopic, key: Key, ss: seq<ParsedTopic>)
    requires SubscriberOk(u) && t !in u.subs && t !in ss && forall s :: s in ss ==> !HasSource(u, s, t)
    requires a.subs.Keys == u.subs.Keys + {t} && forall x :: x in u.subs ==> a.subs[x] == u.subs[x]
    requires AddedEntries(a, v, ss, t, key)
    requires b.subs == v.subs - {t}
    requires RemovedEntries(b, z, ss, t)
    ensures z.subs == u.subs
  {
    forall x | x in ss ensures v.subs[x] == WithSource(Entry(u, x), t, key) && WithoutSource(v.subs[x], t) == Entry(u, x) {
      EntryRestored(u, x, t, key);
    }
    forall x ensures x in z.subs <==> x in u.subs {
      assert x in u.subs ==> DataOk(u.subs[x]);
    }
  }

  lemma EntryRestored(u: Subscriber, x: ParsedTopic, t: ParsedTopic, key: Key)
    requires SubscriberOk(u) && !HasSource(u, x, t)
    ensures WithoutSource(WithSource(Entry(u, x), t, key), t) == Entry(u, x)
  {
    assert x in u.subs ==> DataOk(u.subs[x]);
    RemoveAfterSource(Entry(u, x), t, key);
  }

  lemma SameRemovals(u: Subscriber, v: Subscriber, ss: seq<ParsedTopic>, order: seq<ParsedTopic>, mt: ParsedTopic)
    requires RemovedEntries(u, v, order, mt) && Elems(order) == Elems(ss)
    ensures RemovedEntries(u, v, ss, mt)
  {
    forall x ensures x in order <==> x in ss {
      assert x in order <==> x in Elems(order);
      assert x in ss <==> x in Elems(ss);
    }
  }

  lemma SubscriberRestored(
      u: Subscriber, t: ParsedTopic, key: Key, reply: Reply, resolved: seq<ParsedTopic>, order: seq<ParsedTopic>)
    requires SubscriberOk(u) && t !in u.subs && t !in resolved
    requires forall s :: s in resolved ==> !HasSource(u, s, t)
    requires if t.IsMulti() then Elems(order) == Elems(resolved) else resolved == []
    ensures UnsubscribedSubscriber(CommittedSubscriber(u, t, key, reply, resolved), t, order) == u
  {
    var a := DirectAddedEntry(u, t, key, reply);
    var v := AddIndirects(a, resolved, t, key);
    var z := UnsubscribedSubscriber(v, t, order);
    AddIndirectsEntries(a, resolved, t, key);
    if t.IsMulti() {
      RemoveIndirectsEntries(RemoveDirect(v, t), order, t);
      SameRemovals(RemoveDirect(v, t), z, resolved, order, t);
      EntriesRestored(u, a, v, RemoveDirect(v, t), z, t, key, resolved);
    } else {
      assert z.subs == u.subs;
    }
    var committed := CommittedSubscriberEffect(u, t, key, reply, resolved);
    var left := UnsubscribedSubscriberEffect(committed, t, order);
    SameSubsSameCount(u, z);
  }

  /** The view is given back iff the client received none of the resolved keys via the topic before. */
  lemma ViewRestoredIff(
      u: Subscriber, t: ParsedTopic, key: Key, reply: Reply, resolved: seq<ParsedTopic>, order: seq<ParsedTopic>)
    requires SubscriberOk(u) && t !in u.subs && t !in resolved
    requires if t.IsMulti() then Elems(order) == Elems(resolved) else resolved == []
    ensures UnsubscribedSubscriber(CommittedSubscriber(u, t, key, reply, resolved), t, order) == u
       <==> forall s :: s in resolved ==> !HasSource(u, s, t)
  {
    if s :| s in resolved && HasSource(u, s, t) {
      var v := CommittedSubscriberEffect(u, t, key, reply, resolved);
      var z := UnsubscribedSubscriberEffect(v, t, order);
      assert s in Elems(order);
      assert !HasSource(z, s, t);
    } else {
      SubscriberRestored(u, t, key, reply, resolved, order);
    }
  }

  /** The registry is given back iff that holds and the recorded subtopics, if any, are the resolved ones. */
  lemma RegistryRestoredIff(m: TopicMap, c: ClientId, t: ParsedTopic, key: Key, resolved: seq<ParsedTopic>, now: int)
    requires RegistryOk(m) && Resolved(t, resolved) && !Direct(m, t, c)
    ensures CleanTopic(CommittedTopics(m, c, t, key, resolved, now), t, true, c) == m
       <==> (t.IsMulti() ==> Unlinked(m, resolved, c, t) && (t in m ==> Subtopics(m, t) == Elems(resolved)))
  {
    ResolvedSubtopics(t, resolved);
    if Unlinked(m, resolved, c, t) {
      TopicsRestored(m, c, t, key, resolved, now);
    } else {
      LinkIsLost(m, c, t, key, resolved, now);
    }
  }

  lemma TopicsRestored(m: TopicMap, c: ClientId, t: ParsedTopic, key: Key, resolved: seq<ParsedTopic>, now: int)
    requires RegistryOk(m) && Resolved(t, resolved)
    requires !Direct(m, t, c) && Unlinked(m, resolved, c, t)
    ensures CleanTopic(CommittedTopics(m, c, t, key, resolved, now), t, true, c) == m
       <==> (t.IsMulti() && t in m ==> Subtopics(m, t) == Elems(resolved))
  {
    var n := CommittedTopicsEffect(m, c, t, key, resolved, now);
    var added := AddSubscriptionEffect(m, t, c, key, now);
    if t.IsMulti() {
      var updated := UpdateMultitopicInfoEffect(added, t, Elems(resolved), now);
      DropAfterAdd(updated, Elems(resolved), c, t, now);
    }
    RemoveAfterAdd(m, t, c, key, Elems(resolved), now);
  }

  /** A link that was there before is taken away with the new ones. */
  lemma LinkIsLost(m: TopicMap, c: ClientId, t: ParsedTopic, key: Key, resolved: seq<ParsedTopic>, now: int)
    requires RegistryOk(m) && Resolved(t, resolved) && !Unlinked(m, resolved, c, t)
    ensures t.IsMulti() && CleanTopic(CommittedTopics(m, c, t, key, resolved, now), t, true, c) != m
  {
    var s :| s in resolved && Linked(m, s, c, t);
    var n := CommittedTopicsEffect(m, c, t, key, resolved, now);
    var x := CleanTopicEffect(n, t, true, c);
    assert s in Subtopics(n, t);
    assert !Linked(x, s, c, t);
  }

  // ----- The two events -----

  /**
   A commit followed by the unsubscribe of the same topic gives the client back its view
   unless it received one of the resolved keys via the topic before, and gives the registry
   back unless, besides, the commit changed the recorded subtopics of a registered multi-topic.
   */
  lemma UnsubscribeUndoesCommit(w: World, e: Event, order: seq<ParsedTopic>, caps: Caps)
    requires Inv(w, caps) && e.Commit? && Enabled(w, e, caps)
    requires MayCommit(w.clients[e.c].sub, w.clients[e.c].phase.topic, e.resolved, caps)
    requires Enabled(Next(w, e, caps), Unsubscribe(e.c, w.clients[e.c].phase.topic, order), caps)
    ensures var t := w.clients[e.c].phase.topic;
            var x := Next(Next(w, e, caps), Unsubscribe(e.c, t, order), caps);
            && (x.clients == w.clients[e.c := w.clients[e.c].(phase := Idle)]
                <==> (t.IsMulti() ==> Unlinked(w.topics, e.resolved, e.c, t)))
            && (x.topics == w.topics
                <==> (t.IsMulti() ==> Unlinked(w.topics, e.resolved, e.c, t)
                                      && (t in w.topics ==> Subtopics(w.topics, t) == Elems(e.resolved))))
  {
    var conn, t := w.clients[e.c], w.clients[e.c].phase.topic;
    BeforeCommit(w, e, caps);
    TwoEvents(w, e, order, caps);
    ViewRestoredIff(conn.sub, t, e.key, e.reply, e.resolved, order);
    RegistryRestoredIff(w.topics, e.c, t, e.key, e.resolved, e.now);
    ghost var z := UnsubscribedSubscriber(AfterCommit(w, e).clients[e.c].sub, t, order);
    SameUpdates(w.clients, e.c, AfterCommit(w, e).clients[e.c], Connection(z, Idle), conn.(phase := Idle));
  }

  lemma SameUpdates<K, V>(m: map<K, V>, k: K, between: V, v: V, w: V)
    ensures m[k := between][k := v] == m[k := w] <==> v == w
  {
    assert m[k := between][k := v] == m[k := v];
    assert m[k := v][k] == v && m[k := w][k] == w;
  }

  /** An unsubscribe leaves exactly the links via the topic to keys that are not recorded with it. */
  lemma UnsubscribeLeaves(w: World, c: ClientId, t: ParsedTopic, order: seq<ParsedTopic>, caps: Caps)
    requires Inv(w, caps) && Enabled(w, Unsubscribe(c, t, order), caps) && t in w.clients[c].sub.subs
    ensures var x := Next(w, Unsubscribe(c, t, order), caps);
            && c in x.clients && !Direct(x.topics, t, c) && !HasDirect(x.clients[c].sub, t)
            && (forall s :: Linked(x.topics, s, c, t) <==> Linked(w.topics, s, c, t) && s !in Subtopics(w.topics, t))
            && (forall s :: HasSource(x.clients[c].sub, s, t) <==> Linked(x.topics, s, c, t))
  {
    UnsubscribeKeeps(w, Unsubscribe(c, t, order), caps);
    UnsubscribeStep(w, c, t, order, caps);
    var x := CleanTopicEffect(w.topics, t, true, c);
    var v := UnsubscribedSubscriberEffect(w.clients[c].sub, t, order);
    assert ConnectionOk(w.topics, c, w.clients[c], caps);
    assert forall s :: s in order <==> s in Elems(order);
  }

  ghost function AfterCommit(w: World, e: Event): World
    requires e.Commit? && e.c in w.clients && w.clients[e.c].phase.Pending?
  {
    var u, t := w.clients[e.c].sub, w.clients[e.c].phase.topic;
    SetClient(w, e.c, CommittedSubscriber(u, t, e.key, e.reply, e.resolved), Idle)
      .(topics := CommittedTopics(w.topics, e.c, t, e.key, e.resolved, e.now))
  }

  lemma CommitStep(w: World, e: Event, caps: Caps)
    requires e.Commit? && Enabled(w, e, caps)
    requires MayCommit(w.clients[e.c].sub, w.clients[e.c].phase.topic, e.resolved, caps)
    ensures Next(w, e, caps) == AfterCommit(w, e)
  {
  }

  lemma UnsubscribeStep(w: World, c: ClientId, t: ParsedTopic, order: seq<ParsedTopic>, caps: Caps)
    requires Enabled(w, Unsubscribe(c, t, order), caps) && t in w.clients[c].sub.subs
    ensures Elems(order) == Subtopics(w.topics, t)
    ensures Next(w, Unsubscribe(c, t, order), caps)
         == World(CleanTopic(w.topics, t, true, c),
                  w.clients[c := Connection(UnsubscribedSubscriber(w.clients[c].sub, t, order), Idle)], w.nextId)
  {
  }

  lemma CommittedFacts(w: World, e: Event)
    requires e.Commit? && e.c in w.clients && w.clients[e.c].phase.Pending?
    requires RegistryOk(w.topics) && SubscriberOk(w.clients[e.c].sub) && Resolved(w.clients[e.c].phase.topic, e.resolved)
    ensures var t := w.clients[e.c].phase.topic;
            && t in AfterCommit(w, e).clients[e.c].sub.subs
            && (t.IsMulti() ==> Subtopics(AfterCommit(w, e).topics, t) == Elems(e.resolved))
  {
    var c, u, t := e.c, w.clients[e.c].sub, w.clients[e.c].phase.topic;
    var n := CommittedTopicsEffect(w.topics, c, t, e.key, e.resolved, e.now);
    var v := CommittedSubscriberEffect(u, t, e.key, e.reply, e.resolved);
    assert HasDirect(v, t);
  }

  lemma TwoEvents(w: World, e: Event, order: seq<ParsedTopic>, caps: Caps)
    requires e.Commit? && Enabled(w, e, caps)
    requires RegistryOk(w.topics) && SubscriberOk(w.clients[e.c].sub)
    requires MayCommit(w.clients[e.c].sub, w.clients[e.c].phase.topic, e.resolved, caps)
    requires Enabled(Next(w, e, caps), Unsubscribe(e.c, w.clients[e.c].phase.topic, order), caps)
    ensures var t, x := w.clients[e.c].phase.topic, AfterCommit(w, e);
            && (t.IsMulti() ==> Elems(order) == Elems(e.resolved))
            && Next(Next(w, e, caps), Unsubscribe(e.c, t, order), caps)
                 == World(CleanTopic(x.topics, t, true, e.c),
                          x.clients[e.c := Connection(UnsubscribedSubscriber(x.clients[e.c].sub, t, order), Idle)], w.nextId)
  {
    CommitStep(w, e, caps);
    CommittedFacts(w, e);
    UnsubscribeStep(AfterCommit(w, e), e.c, w.clients[e.c].phase.topic, order, caps);
  }

  /** What holds before a commit that goes through. */
  lemma BeforeCommit(w: World, e: Event, caps: Caps)
    requires Inv(w, caps) && e.Commit? && Enabled(w, e, caps)
    requires MayCommit(w.clients[e.c].sub, w.clients[e.c].phase.topic, e.resolved, caps)
    ensures var u, t := w.clients[e.c].sub, w.clients[e.c].phase.topic;
            && SubscriberOk(u) && Resolved(t, e.resolved) && t !in e.resolved
            && !Direct(w.topics, t, e.c)
            && (Unlinked(w.topics, e.resolved, e.c, t) <==> forall s :: s in e.resolved ==> !HasSource(u, s, t))
            && (Unlinked(w.topics, e.resolved, e.c, t) <==> (t.IsMulti() ==> Unlinked(w.topics, e.resolved, e.c, t)))
  {
    var u, t := w.clients[e.c].sub, w.clients[e.c].phase.topic;
    assert ConnectionOk(w.topics, e.c, w.clients[e.c], caps);
    ResolvedSubtopics(t, e.resolved);
    assert !HasDirect(u, t);
  }
}
