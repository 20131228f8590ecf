/**
 The subscription protocol (apps/websocket-api/src/websocket.rs): each event is one
 critical section of a handler, and events of different connections interleave.
 */
module Protocol {
  import opened Wrappers
  import opened Text
  import opened Topics
  import opened Registry
  import opened Subscribers

  datatype Caps = Caps(maxSubscriptions: nat, maxIndirect: nat)

  /** Where a connection's handler is. A subscribe is pending while it reads Redis without locks. */
  datatype Phase = Idle | Pending(topic: ParsedTopic) | Leaving(snapshot: map<ParsedTopic, bool>) | Cleaned

  datatype Connection = Connection(sub: Subscriber, phase: Phase)

  datatype World = World(topics: TopicMap, clients: map<ClientId, Connection>, nextId: ClientId)

  const INITIAL := World(map[], map[], 0)

  /** The first answer to a subscribe: later, or at once with a value (which may be a leasing balance). */
  datatype Reply = Delayed | Immediate(balance: Option<LeasingBalance>)

  datatype Event =
    | Connect
    | Check(c: ClientId, topic: ParsedTopic)
    | Commit(c: ClientId, key: Key, reply: Reply, resolved: seq<ParsedTopic>, now: int)
    | Fail(c: ClientId)
    | Unsubscribe(c: ClientId, topic: ParsedTopic, order: seq<ParsedTopic>)
    | Deliver(c: ClientId, sub: Subscriber)
    | Expand(s: ParsedTopic, order: seq<ParsedTopic>, now: int)
    | Refresh(topic: ParsedTopic, now: int)
    | Snapshot(c: ClientId)
    | Cleanup(c: ClientId, order: seq<ParsedTopic>)
    | Remove(c: ClientId)

  // ----- Subscribe -----

  predicate MayStart(u: Subscriber, t: ParsedTopic, caps: Caps) {
    && t !in u.subs
    && |DirectTopics(u)| < caps.maxSubscriptions
    && (t.IsMulti() ==> u.indirectCount < caps.maxIndirect)
  }

  /** The checks repeated under the locks. */
  predicate MayCommit(u: Subscriber, t: ParsedTopic, resolved: seq<ParsedTopic>, caps: Caps) {
    && t !in u.subs
    && (t.IsMulti() ==> u.indirectCount + |resolved| <= caps.maxIndirect)
  }

  function Answered(u: Subscriber, t: ParsedTopic, reply: Reply): Subscriber {
    if reply.Delayed? then MarkNew(u, t)
    else if reply.balance.Some? && t in u.subs then u.(subs := u.subs[t := u.subs[t].(lastBalance := reply.balance)])
    else u
  }

  function CommittedSubscriber(u: Subscriber, t: ParsedTopic, key: Key, reply: Reply, resolved: seq<ParsedTopic>)
    : Subscriber
  {
    AddIndirects(Answered(AddDirect(u, t, key), t, reply), resolved, t, key)
  }

  function CommittedTopics(m: TopicMap, c: ClientId, t: ParsedTopic, key: Key, resolved: seq<ParsedTopic>, now: int)
    : TopicMap
  {
    var added := AddSubscription(m, t, c, key, now);
    if t.IsMulti() then AddLinkSet(UpdateMultitopicInfo(added, t, Elems(resolved), now), Elems(resolved), c, t, now)
    else added
  }

  // ----- Unsubscribe -----

  /** Takes client `c` off a topic: its links via it, if it is a multi-topic, then the client itself. */
  function CleanTopic(m: TopicMap, t: ParsedTopic, isDirect: bool, c: ClientId): TopicMap {
    var dropped := if t.IsMulti() then DropLinkSet(m, Subtopics(m, t), c, t) else m;
    if isDirect then RemoveSubscription(dropped, t, c) else dropped
  }

  function UnsubscribedSubscriber(u: Subscriber, t: ParsedTopic, order: seq<ParsedTopic>): Subscriber {
    if t.IsMulti() then RemoveIndirects(RemoveDirect(u, t), order, t) else RemoveDirect(u, t)
  }

  // ----- Expand -----

  ghost predicate Gains(m: TopicMap, mt: ParsedTopic, s: ParsedTopic) {
    && mt in m && s.kind.Single?
    && m[mt].clients != map[]
    && s !in m[mt].subtopics && |m[mt].subtopics| < MAX_SUBTOPICS
    && m[mt].filter.Some? && FilterMatches(m[mt].filter.value, s.kind.single)
  }

  ghost function Gaining(m: TopicMap, s: ParsedTopic): set<ParsedTopic> {
    set mt | mt in m && Gains(m, mt, s)
  }

  /** Direct subscribers that are still connected and below their cap. */
  ghost function Accepting(w: World, mt: ParsedTopic, max: nat): set<ClientId>
    requires mt in w.topics
  {
    set c | c in w.topics[mt].clients && c in w.clients && w.clients[c].sub.indirectCount < max
  }

  /** The entry with the links of all clients that accept. */
  ghost function WithLinks(info: KeyInfo, accepted: set<ClientId>, mt: ParsedTopic): KeyInfo {
    info.(indirect := map c | c in info.indirect.Keys + accepted ::
      (if c in info.indirect then info.indirect[c] else {}) + (if c in accepted then {mt} else {}))
  }

  ghost function LinkAll(m: TopicMap, s: ParsedTopic, accepted: set<ClientId>, mt: ParsedTopic, now: int): TopicMap {
    m[s := WithLinks(Lookup(m, s, now), accepted, mt)]
  }

  ghost function ExpandOne(w: World, s: ParsedTopic, mt: ParsedTopic, max: nat, now: int): World
    requires mt in w.topics
  {
    var accepted := Accepting(w, mt, max);
    if accepted == {} then w
    else
      w.(topics := LinkAll(UpdateMultitopicInfo(w.topics, mt, w.topics[mt].subtopics + {s}, now), s, accepted, mt, now),
         clients := map c | c in w.clients ::
           if c in accepted
           then w.clients[c].(sub := AddIndirect(w.clients[c].sub, s, mt, w.topics[mt].clients[c]))
           else w.clients[c])
  }

  ghost function ExpandAll(w: World, s: ParsedTopic, order: seq<ParsedTopic>, max: nat, now: int): World {
    if order == [] then w
    else
      var before := ExpandAll(w, s, order[..|order| - 1], max, now);
      var mt := order[|order| - 1];
      if mt in before.topics then ExpandOne(before, s, mt, max, now) else before
  }

  // ----- Disconnect -----

  function CleanAll(m: TopicMap, order: seq<ParsedTopic>, snapshot: map<ParsedTopic, bool>, c: ClientId): TopicMap
    requires forall t :: t in order ==> t in snapshot
  {
    if order == [] then m
    else
      var t := order[|order| - 1];
      CleanTopic(CleanAll(m, order[..|order| - 1], snapshot, c), t, snapshot[t], c)
  }

  function SnapshotOf(u: Subscriber): map<ParsedTopic, bool> {
    map t | t in u.subs :: u.subs[t].isDirect
  }

  // ----- Events -----

  /** Only balances and flags of delivery differ: what is subscribed, why, and under which keys, is the same. */
  ghost predicate SameShape(u: Subscriber, v: Subscriber) {
    && u.indirectCount == v.indirectCount
    && u.subs.Keys == v.subs.Keys
    && forall t :: t in u.subs ==>
         && u.subs[t].key == v.subs[t].key
         && u.subs[t].sources == v.subs[t].sources
         && u.subs[t].isDirect == v.subs[t].isDirect
         && u.subs[t].isIndirect == v.subs[t].isIndirect
  }

  /** A resolution delivers concrete topics, at most the permitted number, and none twice. */
  ghost predicate Resolved(t: ParsedTopic, resolved: seq<ParsedTopic>) {
    if t.IsMulti() then
      && t.kind.Multi?
      && |resolved| <= MAX_SUBTOPICS && Distinct(resolved)
      && forall s :: s in resolved ==> s.kind.Single?
    else resolved == []
  }

  ghost predicate Live(w: World, c: ClientId) {
    c in w.clients && (w.clients[c].phase.Idle? || w.clients[c].phase.Pending?)
  }

  ghost predicate Enabled(w: World, e: Event, caps: Caps) {
    match e
    case Connect => true
    case Check(c, t) => c in w.clients && w.clients[c].phase.Idle? && MayStart(w.clients[c].sub, t, caps)
    case Commit(c, key, reply, resolved, now) =>
      c in w.clients && w.clients[c].phase.Pending? && Resolved(w.clients[c].phase.topic, resolved)
    case Fail(c) => c in w.clients && w.clients[c].phase.Pending?
    case Unsubscribe(c, t, order) =>
      c in w.clients && w.clients[c].phase.Idle? && Enumerates(order, Subtopics(w.topics, t))
    case Deliver(c, v) => c in w.clients && SameShape(w.clients[c].sub, v)
    case Expand(s, order, now) => s.kind.Single? && Enumerates(order, Gaining(w.topics, s))
    case Refresh(t, now) => true
    case Snapshot(c) => Live(w, c)
    case Cleanup(c, order) =>
      c in w.clients && w.clients[c].phase.Leaving? && Enumerates(order, w.clients[c].phase.snapshot.Keys)
    case Remove(c) => c in w.clients && w.clients[c].phase.Cleaned?
  }

  function SetClient(w: World, c: ClientId, u: Subscriber, phase: Phase): World {
    w.(clients := w.clients[c := Connection(u, phase)])
  }

  ghost function Next(w: World, e: Event, caps: Caps): World
    requires Enabled(w, e, caps)
  {
    match e
    case Connect => w.(clients := w.clients[w.nextId := Connection(NO_SUBSCRIPTIONS, Idle)], nextId := w.nextId + 1)
    case Check(c, t) => SetClient(w, c, w.clients[c].sub, Pending(t))
    case Commit(c, key, reply, resolved, now) =>
      var u, t := w.clients[c].sub, w.clients[c].phase.topic;
      if !MayCommit(u, t, resolved, caps) then SetClient(w, c, u, Idle)
      else SetClient(w, c, CommittedSubscriber(u, t, key, reply, resolved), Idle)
             .(topics := CommittedTopics(w.topics, c, t, key, resolved, now))
    case Fail(c) => SetClient(w, c, w.clients[c].sub, Idle)
    case Unsubscribe(c, t, order) =>
      var u := w.clients[c].sub;
      if t !in u.subs then w
      else SetClient(w, c, UnsubscribedSubscriber(u, t, order), Idle)
             .(topics := CleanTopic(w.topics, t, true, c))
    case Deliver(c, v) => SetClient(w, c, v, w.clients[c].phase)
    case Expand(s, order, now) => ExpandAll(w, s, order, caps.maxIndirect, now)
    case Refresh(t, now) => w.(topics := Refreshed(w.topics, t, now))
    case Snapshot(c) => SetClient(w, c, w.clients[c].sub, Leaving(SnapshotOf(w.clients[c].sub)))
    case Cleanup(c, order) =>
      SetClient(w, c, w.clients[c].sub, Cleaned)
        .(topics := CleanAll(w.topics, order, w.clients[c].phase.snapshot, c))
    case Remove(c) => w.(clients := w.clients - {c})
  }
}
