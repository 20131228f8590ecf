/**
 The critical sections of the handlers in apps/websocket-api/src/websocket.rs, on the
 shared registry and the connections' own objects: each does what the corresponding
 event of module Protocol says.
 */
module Handlers {
  import opened Wrappers
  import opened Text
  import opened Registry
  import opened Subscribers
  import opened Protocol
  import opened TopicRegistry
  import opened Deltas
  import opened Pings
  import opened Clients
  import SlidingWindow

  const ALREADY_SUBSCRIBED := 2

  /** How a subscribe may end before it is committed, or that it may go on. */
  datatype Outcome = Proceed | AlreadySubscribed | TooManySubscriptions | TooManyIndirect | TooFrequent

  // ----- Subscribe -----

  /** The checks under the client lock, before the unlocked phase. */
  method CheckSubscribe(client: Client, t: ParsedTopic, caps: Caps, now: int, maxPerWindow: nat, window: nat)
    returns (r: Outcome)
    modifies client`multitopicSubscribes, client.sender
    ensures r.Proceed? <==>
              && MayStart(client.View(), t, caps)
              && (t.IsMulti() ==> SlidingWindow.Accepts(old(client.multitopicSubscribes), now, maxPerWindow, window))
    ensures r.AlreadySubscribed? <==> t in client.subs
    ensures r.TooManySubscriptions? <==> t !in client.subs && |DirectTopics(client.View())| >= caps.maxSubscriptions
    ensures r.TooManyIndirect? <==>
              && t !in client.subs && |DirectTopics(client.View())| < caps.maxSubscriptions
              && t.IsMulti() && client.indirectCount >= caps.maxIndirect
    ensures client.sender.State() ==
              if t in client.subs then AfterSend(old(client.sender.State()), Error(ALREADY_SUBSCRIBED))
              else old(client.sender.State())
    ensures client.multitopicSubscribes ==
              if t.IsMulti() && (r.Proceed? || r.TooFrequent?)
              then SlidingWindow.AfterTry(old(client.multitopicSubscribes), now, maxPerWindow, window)
              else old(client.multitopicSubscribes)
  {
    if t in client.subs {
      client.sender.Send(Error(ALREADY_SUBSCRIBED));
      return AlreadySubscribed;
    }
    var direct := set x | x in client.subs && client.subs[x].isDirect;
    assert direct == DirectTopics(client.View());
    if |direct| >= caps.maxSubscriptions {
      return TooManySubscriptions;
    }
    if t.IsMulti() && client.indirectCount >= caps.maxIndirect {
      return TooManyIndirect;
    }
    if t.IsMulti() {
      var ok := client.TryRecordMultitopicSubscribe(now, maxPerWindow, window);
      if !ok {
        return TooFrequent;
      }
    }
    r := Proceed;
  }

  function ReplyOf(value: Option<Json>): Reply {
    if value.None? then Delayed
    else if value.value.Balance? then Immediate(Some(value.value.balance))
    else Immediate(None)
  }

  /** The commit under both locks, with the subtopics of a multi-topic in any order. */
  method CommitSubscribe(
      registry: ClientIdsByTopics, client: Client, t: ParsedTopic, key: Key, value: Option<Json>,
      subtopics: set<ParsedTopic>, caps: Caps, now: int)
    returns (r: Outcome, ghost order: seq<ParsedTopic>)
    requires registry.Valid() && (!t.IsMulti() ==> subtopics == {}) && (t.IsMulti() ==> value.Some?)
    modifies registry, client, client.sender
    ensures registry.Valid() && Enumerates(order, subtopics)
    ensures r.Proceed? <==> MayCommit(old(client.View()), t, order, caps)
    ensures r.AlreadySubscribed? <==> t in old(client.subs)
    ensures r.TooManyIndirect? <==>
              t !in old(client.subs) && t.IsMulti() && old(client.indirectCount) + |subtopics| > caps.maxIndirect
    ensures r.Proceed? || r.AlreadySubscribed? || r.TooManyIndirect?
    ensures r.Proceed? ==>
              && client.View() == CommittedSubscriber(old(client.View()), t, key, ReplyOf(value), order)
              && registry.topics == CommittedTopics(old(registry.topics), client.id, t, key, order, now)
    ensures !r.Proceed? ==> client.View() == old(client.View()) && registry.topics == old(registry.topics)
    ensures client.sender.State() ==
              if r.Proceed? && value.Some? then AfterSend(old(client.sender.State()), Subscribed(key, value.value))
              else if r.AlreadySubscribed? then AfterSend(old(client.sender.State()), Error(ALREADY_SUBSCRIBED))
              else old(client.sender.State())
    ensures client.multitopicSubscribes == old(client.multitopicSubscribes)
  {
    var list := Collect(subtopics);
    order := list;
    DistinctCount(order);
    if t in client.subs {
      client.sender.Send(Error(ALREADY_SUBSCRIBED));
      return AlreadySubscribed, order;
    }
    if t.IsMulti() && client.indirectCount + |subtopics| > caps.maxIndirect {
      return TooManyIndirect, order;
    }
    Answer(client, t, key, value);
    client.AddIndirectSubscriptions(list, t, key);
    Register(registry, client.id, t, key, list, subtopics, now);
    r := Proceed;
  }

  /** The client's side: the direct subscription and the first answer. */
  method Answer(client: Client, t: ParsedTopic, key: Key, value: Option<Json>)
    requires t !in client.subs
    modifies client`subs, client.sender
    ensures client.View() == Answered(AddDirect(old(client.View()), t, key), t, ReplyOf(value))
    ensures client.sender.State() ==
              if value.Some? then AfterSend(old(client.sender.State()), Subscribed(key, value.value))
              else old(client.sender.State())
  {
    client.AddDirectSubscription(t, key);
    if value.Some? {
      client.SendSubscribed(t, value.value);
    } else {
      client.MarkSubscriptionAsNew(t);
    }
  }

  /** The registry's side: the subscriber, and the subtopics and links of a multi-topic. */
  method Register(
      registry: ClientIdsByTopics, c: ClientId, t: ParsedTopic, key: Key, list: seq<ParsedTopic>,
      subtopics: set<ParsedTopic>, now: int)
    requires registry.Valid() && Enumerates(list, subtopics)
    modifies registry
    ensures registry.Valid() && registry.topics == CommittedTopics(old(registry.topics), c, t, key, list, now)
  {
    registry.AddSubscription(t, c, key, now);
    if t.IsMulti() {
      var _ := registry.UpdateMultitopicInfo(t, subtopics, now);
      AddedInAnyOrder(registry.topics, list, c, t, now);
      registry.UpdateIndirectSubscriptions(t, MultitopicUpdate(list, []), c, now);
    }
  }

  // ----- Unsubscribe -----

  method UnsubscribeTopic(registry: ClientIdsByTopics, client: Client, t: ParsedTopic, key: Key)
    returns (ghost order: seq<ParsedTopic>)
    requires registry.Valid()
    modifies registry, client, client.sender
    ensures registry.Valid() && Enumerates(order, Subtopics(old(registry.topics), t))
    ensures t in old(client.subs) ==>
              && client.View() == UnsubscribedSubscriber(old(client.View()), t, order)
              && registry.topics == CleanTopic(old(registry.topics), t, true, client.id)
    ensures t !in old(client.subs) ==> client.View() == old(client.View()) && registry.topics == old(registry.topics)
    ensures client.sender.State() == AfterSend(old(client.sender.State()), Unsubscribed(key))
  {
    var list := Collect(if t in registry.topics then registry.topics[t].subtopics else {});
    order := list;
    if t in client.subs {
      client.RemoveDirectSubscription(t);
      if t.IsMulti() {
        list := registry.RemoveIndirectSubscriptions(t, client.id);
        order := list;
        client.RemoveIndirectSubscriptions(list, t);
      }
      registry.RemoveSubscription(t, client.id);
    }
    client.sender.Send(Unsubscribed(key));
  }

  // ----- Disconnect -----

  /** The subscriptions at disconnect, in any order, and which of them are direct. */
  method TakeSnapshot(client: Client) returns (order: seq<ParsedTopic>, snapshot: map<ParsedTopic, bool>)
    ensures snapshot == SnapshotOf(client.View())
    ensures Enumerates(order, snapshot.Keys)
  {
    snapshot := map t | t in client.subs :: client.subs[t].isDirect;
    order := Collect(snapshot.Keys);
  }

  /** The topics of the snapshot, in its order, are taken off the registry. */
  method CleanupClient(registry: ClientIdsByTopics, c: ClientId, order: seq<ParsedTopic>, snapshot: map<ParsedTopic, bool>)
    requires registry.Valid() && forall t :: t in order ==> t in snapshot
    modifies registry
    ensures registry.Valid() && registry.topics == CleanAll(old(registry.topics), order, snapshot, c)
  {
    for i := 0 to |order|
      invariant registry.Valid() && registry.topics == CleanAll(old(registry.topics), order[..i], snapshot, c)
    {
      assert order[..i + 1][..i] == order[..i];
      if order[i].IsMulti() {
        var _ := registry.RemoveIndirectSubscriptions(order[i], c);
      }
      if snapshot[order[i]] {
        registry.RemoveSubscription(order[i], c);
      }
    }
    assert order[..|order|] == order;
  }

  // ----- Delivery -----

  /** Sending an update is a delivery event of the protocol: it changes one entry of one client, and nothing else. */
  lemma UpdateIsDelivery(w: World, c: ClientId, t: ParsedTopic, value: Json, caps: Caps)
    requires c in w.clients && t in w.clients[c].sub.subs
    ensures var u := w.clients[c].sub;
            var v := u.(subs := u.subs[t := AfterUpdate(u.subs[t], value)]);
            && Enabled(w, Deliver(c, v), caps)
            && Next(w, Deliver(c, v), caps) == w.(clients := w.clients[c := w.clients[c].(sub := v)])
  {
  }

  /** The message that a commit sends to the client. */
  ghost function Answers(key: Key, value: Option<Json>): seq<Body> {
    if value.Some? then [Subscribed(key, value.value)] else []
  }

  ghost function AnsweredValues(value: Option<Json>): seq<Json> {
    if value.Some? then [value.value] else []
  }

  lemma CommittedEntry(u: Subscriber, t: ParsedTopic, key: Key, value: Option<Json>, resolved: seq<ParsedTopic>)
    requires t !in u.subs && t !in resolved
    ensures var v := CommittedSubscriber(u, t, key, ReplyOf(value), resolved);
            t in v.subs && v.subs[t].key == key && HasSent(v.subs[t], AnsweredValues(value))
  {
    var a := Answered(AddDirect(u, t, key), t, ReplyOf(value));
    AddIndirectsEntries(a, resolved, t, key);
    if value.Some? {
      FirstIsFull(value.value);
    }
  }

  /**
   A subscribe is answered by exactly one `subscribed` message, and it comes first: at once
   when there was a value, otherwise with the first update. Whatever keys were resolved and
   however many updates follow, every later message is an update, and together they carry
   the delta stream of the values.
   */
  lemma AnsweredOnce(
      u: Subscriber, t: ParsedTopic, key: Key, value: Option<Json>, resolved: seq<ParsedTopic>, values: seq<Json>)
    requires t !in u.subs && t !in resolved
    ensures var v := CommittedSubscriber(u, t, key, ReplyOf(value), resolved);
            && t in v.subs
            && var messages := Answers(key, value) + DirectStream(v.subs[t], values);
               && messages == Labelled(key, Stream(AnsweredValues(value) + values))
               && (forall i :: 0 <= i < |messages| ==> (messages[i].Subscribed? <==> i == 0))
               && (forall i :: 0 < i < |messages| ==> messages[i].Update?)
  {
    CommittedEntry(u, t, key, value, resolved);
    var data := CommittedSubscriber(u, t, key, ReplyOf(value), resolved).subs[t];
    DirectMessagesAreStream(data, AnsweredValues(value), values);
    if value.Some? {
      FirstIsFull(value.value);
    }
    assert Labelled(key, Stream(AnsweredValues(value))) == Answers(key, value);
  }

  /**
   After a commit of a multi-topic, an update of each of its keys is sent exactly once through
   it: under the key of the subscribe, and in an array.
   */
  lemma KeyIsUpdatedThroughMultitopic(
      u: Subscriber, t: ParsedTopic, key: Key, reply: Reply, resolved: seq<ParsedTopic>, s: ParsedTopic, value: Json,
      order: seq<ParsedTopic>)
    returns (i: nat)
    requires t !in u.subs && t !in resolved && s in resolved
    requires var v := CommittedSubscriber(u, t, key, reply, resolved);
             s in v.subs ==> Enumerates(order, v.subs[s].sources.Keys)
    ensures var v := CommittedSubscriber(u, t, key, reply, resolved);
            && s in v.subs && v.subs[s].isIndirect
            && (forall mt :: mt in order ==> mt in v.subs[s].sources)
            && |IndirectMessages(v.subs[s], value, order)| == |order|
            && i < |order| && (forall j :: 0 <= j < |order| ==> (order[j] == t <==> j == i))
            && IndirectMessages(v.subs[s], value, order)[i] == Update(key, Wrapped(Sent(Entry(u, s).lastBalance, value)))
  {
    AddIndirectsEntries(Answered(AddDirect(u, t, key), t, reply), resolved, t, key);
    var data := CommittedSubscriber(u, t, key, reply, resolved).subs[s];
    i := LinkIsDelivered(data, t, value, order);
  }
}
