/**
 What every event of the subscription protocol keeps: the registry and every
 connection's own view mirror each other, no entry is left without a subscriber, and
 the limits hold.
 */
module ProtocolInvariant {
  import opened Text
  import opened Topics
  import opened Registry
  import opened Subscribers
  import opened Protocol

  // ----- The invariant -----

  /** A recorded subtopic set: concrete topics, at most the permitted number, of a multi-topic. */
  ghost predicate SubtopicsOk(t: ParsedTopic, subtopics: set<ParsedTopic>) {
    && |subtopics| <= MAX_SUBTOPICS
    && (forall s :: s in subtopics ==> s.kind.Single?)
    && (subtopics != {} ==> t.kind.Multi?)
  }

  ghost predicate RegistryOk(m: TopicMap) {
    && EntriesOk(m)
    && (forall t :: SubtopicsOk(t, Subtopics(m, t)))
    && (forall s, c, mt :: Linked(m, s, c, mt) ==> s.kind.Single? && mt.kind.Multi?)
  }

  /** The registry and a connection agree on everything about client `c`. */
  ghost predicate Mirror(m: TopicMap, c: ClientId, u: Subscriber) {
    && (forall t :: HasDirect(u, t) <==> Direct(m, t, c))
    && (forall s, mt :: HasSource(u, s, mt) <==> Linked(m, s, c, mt))
  }

  ghost predicate NoDirect(m: TopicMap, c: ClientId) {
    forall t :: !Direct(m, t, c)
  }

  function Reserved(phase: Phase): nat {
    if phase.Pending? then 1 else 0
  }

  ghost predicate WithinCaps(conn: Connection, caps: Caps) {
    && conn.sub.indirectCount <= caps.maxIndirect
    && |DirectTopics(conn.sub)| + Reserved(conn.phase) <= caps.maxSubscriptions
  }

  /** The snapshot taken at disconnect still names the direct subscriptions. */
  ghost predicate SnapshotOk(snapshot: map<ParsedTopic, bool>, u: Subscriber) {
    && (forall t :: HasDirect(u, t) <==> t in snapshot && snapshot[t])
    && (forall t :: t in snapshot && !snapshot[t] ==> t.kind.Single?)
  }

  ghost predicate ConnectionOk(m: TopicMap, c: ClientId, conn: Connection, caps: Caps) {
    && SubscriberOk(conn.sub) && WithinCaps(conn, caps)
    && (if conn.phase.Cleaned? then NoDirect(m, c) else Mirror(m, c, conn.sub))
    && (conn.phase.Leaving? ==> SnapshotOk(conn.phase.snapshot, conn.sub))
  }

  ghost predicate AllConnectionsOk(m: TopicMap, clients: map<ClientId, Connection>, caps: Caps) {
    forall c :: c in clients ==> ConnectionOk(m, c, clients[c], caps)
  }

  ghost predicate OthersHaveNoDirect(m: TopicMap, clients: map<ClientId, Connection>) {
    forall c :: c !in clients ==> NoDirect(m, c)
  }

  /** Connection numbers are never used again. */
  ghost predicate NumbersOk(m: TopicMap, clients: map<ClientId, Connection>, nextId: ClientId) {
    && (forall c :: c in clients ==> c < nextId)
    && (forall s, c, mt :: Linked(m, s, c, mt) ==> c < nextId)
  }

  ghost predicate Inv(w: World, caps: Caps) {
    && RegistryOk(w.topics)
    && AllConnectionsOk(w.topics, w.clients, caps)
    && OthersHaveNoDirect(w.topics, w.clients)
    && NumbersOk(w.topics, w.clients, w.nextId)
  }

  // ----- Frames -----

  /** Nothing changes for client `c`. */
  ghost predicate SameFor(m: TopicMap, n: TopicMap, c: ClientId) {
    && (forall t :: Direct(n, t, c) <==> Direct(m, t, c))
    && (forall s, mt :: Linked(n, s, c, mt) <==> Linked(m, s, c, mt))
  }

  lemma SameForKeepsConnection(m: TopicMap, n: TopicMap, c: ClientId, conn: Connection, caps: Caps)
    requires SameFor(m, n, c) && ConnectionOk(m, c, conn, caps)
    ensures ConnectionOk(n, c, conn, caps)
  {
  }

  lemma SameForKeepsNoDirect(m: TopicMap, n: TopicMap, c: ClientId)
    requires SameFor(m, n, c) && NoDirect(m, c)
    ensures NoDirect(n, c)
  {
  }

  /** The registry changes for client `c` only. */
  ghost predicate SameForOthers(m: TopicMap, n: TopicMap, c: ClientId) {
    forall d :: d != c ==> SameFor(m, n, d)
  }

  lemma OthersKept(m: TopicMap, n: TopicMap, clients: map<ClientId, Connection>, c: ClientId, conn: Connection, caps: Caps)
    requires AllConnectionsOk(m, clients, caps) && SameForOthers(m, n, c) && ConnectionOk(n, c, conn, caps)
    ensures AllConnectionsOk(n, clients[c := conn], caps)
  {
    forall d | d in clients && d != c ensures ConnectionOk(n, d, clients[d], caps) {
      SameForKeepsConnection(m, n, d, clients[d], caps);
    }
  }

  lemma AbsentKept(m: TopicMap, n: TopicMap, clients: map<ClientId, Connection>, c: ClientId, conn: Connection)
    requires OthersHaveNoDirect(m, clients) && SameForOthers(m, n, c)
    ensures OthersHaveNoDirect(n, clients[c := conn])
  {
    forall d | d !in clients && d != c ensures NoDirect(n, d) {
      SameForKeepsNoDirect(m, n, d);
    }
  }

  lemma NumbersKept(m: TopicMap, n: TopicMap, clients: map<ClientId, Connection>, nextId: ClientId, c: ClientId, conn: Connection)
    requires NumbersOk(m, clients, nextId) && SameForOthers(m, n, c) && c in clients
    ensures NumbersOk(n, clients[c := conn], nextId)
  {
    forall s, d, mt | Linked(n, s, d, mt) ensures d < nextId {
      if d != c {
        assert SameFor(m, n, d);
        assert Linked(m, s, d, mt);
      }
    }
  }

  /** An event of client `c` only: it is enough to look at the registry and at `c`. */
  lemma OwnEvent(w: World, n: TopicMap, c: ClientId, u: Subscriber, phase: Phase, caps: Caps)
    requires Inv(w, caps) && c in w.clients
    requires RegistryOk(n) && SameForOthers(w.topics, n, c)
    requires ConnectionOk(n, c, Connection(u, phase), caps)
    ensures Inv(SetClient(w, c, u, phase).(topics := n), caps)
  {
    OthersKept(w.topics, n, w.clients, c, Connection(u, phase), caps);
    AbsentKept(w.topics, n, w.clients, c, Connection(u, phase));
    NumbersKept(w.topics, n, w.clients, w.nextId, c, Connection(u, phase));
  }

  /** An event of client `c` that leaves the registry alone. */
  lemma PrivateEvent(w: World, c: ClientId, u: Subscriber, phase: Phase, caps: Caps)
    requires Inv(w, caps) && c in w.clients
    requires ConnectionOk(w.topics, c, Connection(u, phase), caps)
    ensures Inv(SetClient(w, c, u, phase), caps)
  {
    assert SameForOthers(w.topics, w.topics, c);
    OwnEvent(w, w.topics, c, u, phase, caps);
  }

  // ----- Events that leave the registry alone -----

  lemma ConnectKeeps(w: World, caps: Caps)
    requires Inv(w, caps)
    ensures Inv(Next(w, Connect, caps), caps)
  {
    var c := w.nextId;
    assert c !in w.clients;
    assert Pairs(NO_SUBSCRIPTIONS) == {};
    assert forall s, mt :: !Linked(w.topics, s, c, mt);
    assert Mirror(w.topics, c, NO_SUBSCRIPTIONS);
    assert DirectTopics(NO_SUBSCRIPTIONS) == {};
    assert ConnectionOk(w.topics, c, Connection(NO_SUBSCRIPTIONS, Idle), caps);
  }

  lemma CheckKeeps(w: World, c: ClientId, t: ParsedTopic, caps: Caps)
    requires Inv(w, caps) && Enabled(w, Check(c, t), caps)
    ensures Inv(Next(w, Check(c, t), caps), caps)
  {
    PrivateEvent(w, c, w.clients[c].sub, Pending(t), caps);
  }

  lemma FailKeeps(w: World, c: ClientId, caps: Caps)
    requires Inv(w, caps) && Enabled(w, Fail(c), caps)
    ensures Inv(Next(w, Fail(c), caps), caps)
  {
    PrivateEvent(w, c, w.clients[c].sub, Idle, caps);
  }

  /** What is held only through multi-topics is a concrete topic. */
  lemma HeldIndirectly(m: TopicMap, c: ClientId, u: Subscriber, t: ParsedTopic)
    requires RegistryOk(m) && SubscriberOk(u) && Mirror(m, c, u)
    requires t in u.subs && !u.subs[t].isDirect
    ensures t.kind.Single?
  {
    assert DataOk(u.subs[t]);
    var mt :| mt in u.subs[t].sources;
    assert HasSource(u, t, mt);
  }

  lemma SnapshotKeeps(w: World, c: ClientId, caps: Caps)
    requires Inv(w, caps) && Enabled(w, Snapshot(c), caps)
    ensures Inv(Next(w, Snapshot(c), caps), caps)
  {
    var u := w.clients[c].sub;
    forall t | t in u.subs && !u.subs[t].isDirect ensures t.kind.Single? {
      HeldIndirectly(w.topics, c, u, t);
    }
    PrivateEvent(w, c, u, Leaving(SnapshotOf(u)), caps);
  }

  lemma SameShapeEffect(u: Subscriber, v: Subscriber)
    requires SubscriberOk(u) && SameShape(u, v)
    ensures SubscriberOk(v) && DirectTopics(v) == DirectTopics(u)
    ensures forall t :: HasDirect(v, t) <==> HasDirect(u, t)
    ensures SameSources(u, v)
  {
    SamePairs(u, v);
  }

  lemma DeliverKeeps(w: World, c: ClientId, v: Subscriber, caps: Caps)
    requires Inv(w, caps) && Enabled(w, Deliver(c, v), caps)
    ensures Inv(Next(w, Deliver(c, v), caps), caps)
  {
    SameShapeEffect(w.clients[c].sub, v);
    PrivateEvent(w, c, v, w.clients[c].phase, caps);
  }

  lemma RemoveKeeps(w: World, c: ClientId, caps: Caps)
    requires Inv(w, caps) && Enabled(w, Remove(c), caps)
    ensures Inv(Next(w, Remove(c), caps), caps)
  {
  }

  lemma RefreshKeeps(w: World, t: ParsedTopic, now: int, caps: Caps)
    requires Inv(w, caps)
    ensures Inv(Next(w, Refresh(t, now), caps), caps)
  {
    var m, n := w.topics, Next(w, Refresh(t, now), caps).topics;
    assert SameDirect(m, n) && SameLinks(m, n) && SameSubtopics(m, n);
    forall c ensures SameFor(m, n, c) {
    }
    forall c | c in w.clients ensures ConnectionOk(n, c, w.clients[c], caps) {
      SameForKeepsConnection(m, n, c, w.clients[c], caps);
    }
    forall c | c !in w.clients ensures NoDirect(n, c) {
      SameForKeepsNoDirect(m, n, c);
    }
  }

  // ----- Subscribe -----

  lemma ResolvedSubtopics(t: ParsedTopic, resolved: seq<ParsedTopic>)
    requires Resolved(t, resolved)
    ensures SubtopicsOk(t, Elems(resolved)) && t !in resolved
    ensures !t.IsMulti() ==> resolved == []
  {
    ElemsAtMost(resolved);
  }

  lemma CommittedTopicsEffect(m: TopicMap, c: ClientId, t: ParsedTopic, key: Key, resolved: seq<ParsedTopic>, now: int)
    returns (n: TopicMap)
    requires RegistryOk(m) && Resolved(t, resolved)
    ensures n == CommittedTopics(m, c, t, key, resolved, now) && RegistryOk(n)
    ensures forall x, d :: Direct(n, x, d) <==> Direct(m, x, d) || (x == t && d == c)
    ensures forall s, d, p :: Linked(n, s, d, p) <==> Linked(m, s, d, p) || (s in resolved && d == c && p == t)
    ensures forall x :: Subtopics(n, x) == if x == t && t.IsMulti() then Elems(resolved) else Subtopics(m, x)
  {
    ResolvedSubtopics(t, resolved);
    n := AddSubscriptionEffect(m, t, c, key, now);
    if t.IsMulti() {
      n := UpdateMultitopicInfoEffect(n, t, Elems(resolved), now);
      n := AddLinkSetEffect(n, Elems(resolved), c, t, now);
    }
  }

  lemma AnsweredEffect(u: Subscriber, t: ParsedTopic, reply: Reply)
    ensures SameShape(u, Answered(u, t, reply))
  {
  }

  lemma CommittedSubscriberEffect(u: Subscriber, t: ParsedTopic, key: Key, reply: Reply, resolved: seq<ParsedTopic>)
    returns (v: Subscriber)
    requires SubscriberOk(u)
    ensures v == CommittedSubscriber(u, t, key, reply, resolved) && SubscriberOk(v)
    ensures DirectTopics(v) == DirectTopics(u) + {t}
    ensures forall x :: HasDirect(v, x) <==> HasDirect(u, x) || x == t
    ensures forall s, p :: HasSource(v, s, p) <==> HasSource(u, s, p) || (s in resolved && p == t)
    ensures u.indirectCount <= v.indirectCount <= u.indirectCount + |resolved|
  {
    v := AddDirectEffect(u, t, key);
    AnsweredEffect(v, t, reply);
    SameShapeEffect(v, Answered(v, t, reply));
    v := AddIndirectsEffect(Answered(v, t, reply), resolved, t, key);
  }

  lemma CommittedMirror(
      m: TopicMap, n: TopicMap, c: ClientId, u: Subscriber, v: Subscriber, t: ParsedTopic, resolved: seq<ParsedTopic>)
    requires Mirror(m, c, u)
    requires forall x, d :: Direct(n, x, d) <==> Direct(m, x, d) || (x == t && d == c)
    requires forall s, d, p :: Linked(n, s, d, p) <==> Linked(m, s, d, p) || (s in resolved && d == c && p == t)
    requires forall x :: HasDirect(v, x) <==> HasDirect(u, x) || x == t
    requires forall s, p :: HasSource(v, s, p) <==> HasSource(u, s, p) || (s in resolved && p == t)
    ensures Mirror(n, c, v) && SameForOthers(m, n, c)
  {
  }

  lemma CommitKeeps(w: World, e: Event, caps: Caps)
    requires Inv(w, caps) && e.Commit? && Enabled(w, e, caps)
    ensures Inv(Next(w, e, caps), caps)
  {
    var c, u, t := e.c, w.clients[e.c].sub, w.clients[e.c].phase.topic;
    if MayCommit(u, t, e.resolved, caps) {
      var n := CommittedTopicsEffect(w.topics, c, t, e.key, e.resolved, e.now);
      var v := CommittedSubscriberEffect(u, t, e.key, e.reply, e.resolved);
      CommittedMirror(w.topics, n, c, u, v, t, e.resolved);
      CountAdded(DirectTopics(u), DirectTopics(v), t);
      OwnEvent(w, n, c, v, Idle, caps);
    } else {
      PrivateEvent(w, c, u, Idle, caps);
    }
  }

  // ----- Unsubscribe -----

  /** Which links go when client `c` leaves topic `t`. */
  ghost predicate DroppedLink(m: TopicMap, t: ParsedTopic, c: ClientId, s: ParsedTopic, d: ClientId, p: ParsedTopic) {
    t.IsMulti() && s in Subtopics(m, t) && d == c && p == t
  }

  lemma CleanTopicEffect(m: TopicMap, t: ParsedTopic, isDirect: bool, c: ClientId) returns (n: TopicMap)
    requires RegistryOk(m)
    ensures n == CleanTopic(m, t, isDirect, c) && RegistryOk(n)
    ensures forall x, d :: Direct(n, x, d) <==> Direct(m, x, d) && !(isDirect && x == t && d == c)
    ensures forall s, d, p :: Linked(n, s, d, p) <==> Linked(m, s, d, p) && !DroppedLink(m, t, c, s, d, p)
    ensures forall x :: x != t ==> Subtopics(n, x) == Subtopics(m, x)
    ensures Subtopics(n, t) == if t in n then Subtopics(m, t) else {}
  {
    n := m;
    if t.IsMulti() {
      n := DropLinkSetEffect(m, Subtopics(m, t), c, t);
      assert t !in Subtopics(m, t);
      forall x ensures Subtopics(n, x) == Subtopics(m, x) {
        if x in Subtopics(m, t) {
          assert Subtopics(m, x) == {};
        }
      }
    }
    if isDirect {
      n := RemoveSubscriptionEffect(n, t, c);
    }
  }

  lemma UnsubscribedSubscriberEffect(u: Subscriber, t: ParsedTopic, order: seq<ParsedTopic>) returns (v: Subscriber)
    requires SubscriberOk(u)
    ensures v == UnsubscribedSubscriber(u, t, order) && SubscriberOk(v)
    ensures DirectTopics(v) == DirectTopics(u) - {t}
    ensures forall x :: HasDirect(v, x) <==> HasDirect(u, x) && x != t
    ensures forall s, p :: HasSource(v, s, p) <==> HasSource(u, s, p) && !(t.IsMulti() && s in order && p == t)
    ensures v.indirectCount <= u.indirectCount
  {
    v := RemoveDirectEffect(u, t);
    if t.IsMulti() {
      v := RemoveIndirectsEffect(v, order, t);
    }
  }

  lemma CleanedMirror(
      m: TopicMap, n: TopicMap, c: ClientId, u: Subscriber, v: Subscriber, t: ParsedTopic, order: seq<ParsedTopic>)
    requires Mirror(m, c, u) && Elems(order) == Subtopics(m, t)
    requires forall x, d :: Direct(n, x, d) <==> Direct(m, x, d) && !(x == t && d == c)
    requires forall s, d, p :: Linked(n, s, d, p) <==> Linked(m, s, d, p) && !DroppedLink(m, t, c, s, d, p)
    requires forall x :: HasDirect(v, x) <==> HasDirect(u, x) && x != t
    requires forall s, p :: HasSource(v, s, p) <==> HasSource(u, s, p) && !(t.IsMulti() && s in order && p == t)
    ensures Mirror(n, c, v) && SameForOthers(m, n, c)
  {
    assert forall s :: s in order <==> s in Elems(order);
  }

  lemma UnsubscribeKeeps(w: World, e: Event, caps: Caps)
    requires Inv(w, caps) && e.Unsubscribe? && Enabled(w, e, caps)
    ensures Inv(Next(w, e, caps), caps)
  {
    var c, t, u := e.c, e.topic, w.clients[e.c].sub;
    if t in u.subs {
      var n := CleanTopicEffect(w.topics, t, true, c);
      var v := UnsubscribedSubscriberEffect(u, t, e.order);
      FewerTopics(DirectTopics(u), t);
      CleanedMirror(w.topics, n, c, u, v, t, e.order);
      OwnEvent(w, n, c, v, Idle, caps);
    }
  }

  lemma FewerTopics(a: set<ParsedTopic>, t: ParsedTopic)
    ensures |a - {t}| <= |a|
  {
    CountRemoved(a, a - {t}, t);
  }

  // ----- Disconnect -----

  lemma {:induction false} CleanAllEffect(m: TopicMap, order: seq<ParsedTopic>, snapshot: map<ParsedTopic, bool>, c: ClientId)
    returns (n: TopicMap)
    requires RegistryOk(m) && forall t :: t in order ==> t in snapshot
    ensures n == CleanAll(m, order, snapshot, c) && RegistryOk(n)
    ensures SameForOthers(m, n, c)
    ensures forall x :: Direct(n, x, c) <==> Direct(m, x, c) && !(x in order && snapshot[x])
    decreases |order|
  {
    n := m;
    if order != [] {
      var init, t := order[..|order| - 1], order[|order| - 1];
      SplitLast(order);
      var before := CleanAllEffect(m, init, snapshot, c);
      n := CleanTopicEffect(before, t, snapshot[t], c);
      forall d | d != c ensures SameFor(m, n, d) {
        assert SameFor(m, before, d);
      }
    }
  }

  lemma CleanupKeeps(w: World, e: Event, caps: Caps)
    requires Inv(w, caps) && e.Cleanup? && Enabled(w, e, caps)
    ensures Inv(Next(w, e, caps), caps)
  {
    var c, conn := e.c, w.clients[e.c];
    assert forall t :: t in e.order <==> t in Elems(e.order);
    var n := CleanAllEffect(w.topics, e.order, conn.phase.snapshot, c);
    OwnEvent(w, n, c, conn.sub, Cleaned, caps);
  }
}
