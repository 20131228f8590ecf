/**
 One connection as the object that handlers update in place (`Client` in
 apps/websocket-api/src/client.rs).
 */
module Clients {
  import opened Wrappers
  import opened Text
  import opened Registry
  import opened Subscribers
  import opened Deltas
  import opened Pings
  import SlidingWindow

  // ----- Sending a value -----

  /** What remains to be known after an update was sent. */
  function AfterUpdate(data: SubscriptionData, value: Json): SubscriptionData {
    data.(lastBalance := Remembered(data.lastBalance, value), isNew := data.isNew && !data.isDirect)
  }

  /** The direct message of an update, `subscribed` when it is the first. */
  function DirectMessages(data: SubscriptionData, value: Json): seq<Body> {
    if !data.isDirect then []
    else if data.isNew then [Subscribed(data.key, Sent(data.lastBalance, value))]
    else [Update(data.key, Sent(data.lastBalance, value))]
  }

  /** One message for each multi-topic through which the topic is held. */
  function IndirectMessages(data: SubscriptionData, value: Json, order: seq<ParsedTopic>): seq<Body>
    requires forall mt :: mt in order ==> mt in data.sources
  {
    if order == [] then []
    else
      IndirectMessages(data, value, order[..|order| - 1])
      + [Update(data.sources[order[|order| - 1]], Wrapped(Sent(data.lastBalance, value)))]
  }

  function SendAll(s: SenderState, bodies: seq<Body>): SenderState {
    if bodies == [] then s else AfterSend(SendAll(s, bodies[..|bodies| - 1]), bodies[|bodies| - 1])
  }

  lemma SendOneMore(s: SenderState, bodies: seq<Body>, body: Body)
    ensures SendAll(s, bodies + [body]) == AfterSend(SendAll(s, bodies), body)
  {
    assert (bodies + [body])[..|bodies|] == bodies;
  }

  class Client {
    const id: ClientId
    const sender: ClientSender
    var subs: map<ParsedTopic, SubscriptionData>
    var indirectCount: nat
    var multitopicSubscribes: seq<int>

    ghost function View(): Subscriber
      reads this
    {
      Subscriber(subs, indirectCount)
    }

    constructor (id: ClientId)
      ensures this.id == id && fresh(sender) && sender.State() == NEW_SENDER
      ensures View() == NO_SUBSCRIPTIONS && multitopicSubscribes == []
    {
      this.id := id;
      sender := new ClientSender();
      subs, indirectCount, multitopicSubscribes := map[], 0, [];
    }

    method TryRecordMultitopicSubscribe(now: int, max: nat, window: nat) returns (ok: bool)
      modifies this`multitopicSubscribes
      ensures ok <==> SlidingWindow.Accepts(old(multitopicSubscribes), now, max, window)
      ensures multitopicSubscribes == SlidingWindow.AfterTry(old(multitopicSubscribes), now, max, window)
    {
      while multitopicSubscribes != []
        invariant SlidingWindow.Trim(multitopicSubscribes, now, window)
               == SlidingWindow.Trim(old(multitopicSubscribes), now, window)
        decreases |multitopicSubscribes|
      {
        if SlidingWindow.Age(now, multitopicSubscribes[0]) < window {
          break;
        }
        multitopicSubscribes := multitopicSubscribes[1..];
      }
      if |multitopicSubscribes| >= max {
        return false;
      }
      multitopicSubscribes := multitopicSubscribes + [now];
      ok := true;
    }

    method AddDirectSubscription(t: ParsedTopic, key: Key)
      modifies this`subs
      ensures View() == AddDirect(old(View()), t, key)
    {
      var data := if t in subs then subs[t] else DEFAULT_DATA;
      subs := subs[t := data.(key := key, isDirect := true)];
    }

    method AddIndirectSubscription(s: ParsedTopic, mt: ParsedTopic, key: Key)
      modifies this`subs, this`indirectCount
      ensures View() == AddIndirect(old(View()), s, mt, key)
    {
      var data := if s in subs then subs[s] else DEFAULT_DATA;
      if mt !in data.sources {
        indirectCount := indirectCount + 1;
      }
      subs := subs[s := data.(sources := data.sources[mt := key], isIndirect := true)];
    }

    method AddIndirectSubscriptions(subtopics: seq<ParsedTopic>, mt: ParsedTopic, key: Key)
      modifies this`subs, this`indirectCount
      ensures View() == AddIndirects(old(View()), subtopics, mt, key)
    {
      for i := 0 to |subtopics|
        invariant View() == AddIndirects(old(View()), subtopics[..i], mt, key)
      {
        assert subtopics[..i + 1][..i] == subtopics[..i];
        AddIndirectSubscription(subtopics[i], mt, key);
      }
      assert subtopics[..|subtopics|] == subtopics;
    }

    method MarkSubscriptionAsNew(t: ParsedTopic)
      modifies this`subs
      ensures View() == MarkNew(old(View()), t)
    {
      if t in subs {
        subs := subs[t := subs[t].(isNew := true)];
      }
    }

    method RemoveDirectSubscription(t: ParsedTopic)
      modifies this`subs
      ensures View() == RemoveDirect(old(View()), t)
    {
      if t in subs {
        var data := subs[t].(isDirect := false);
        subs := if data.isIndirect then subs[t := data] else subs - {t};
      }
    }

    method RemoveIndirectSubscription(s: ParsedTopic, mt: ParsedTopic)
      modifies this`subs, this`indirectCount
      ensures View() == RemoveIndirect(old(View()), s, mt)
    {
      if s in subs {
        var data := subs[s];
        if mt in data.sources {
          indirectCount := if indirectCount > 0 then indirectCount - 1 else 0;
        }
        data := data.(sources := data.sources - {mt});
        if data.sources == map[] {
          data := data.(isIndirect := false);
        }
        subs := if !data.isDirect && !data.isIndirect then subs - {s} else subs[s := data];
      }
    }

    method RemoveIndirectSubscriptions(subtopics: seq<ParsedTopic>, mt: ParsedTopic)
      modifies this`subs, this`indirectCount
      ensures View() == RemoveIndirects(old(View()), subtopics, mt)
    {
      for i := 0 to |subtopics|
        invariant View() == RemoveIndirects(old(View()), subtopics[..i], mt)
      {
        assert subtopics[..i + 1][..i] == subtopics[..i];
        RemoveIndirectSubscription(subtopics[i], mt);
      }
      assert subtopics[..|subtopics|] == subtopics;
    }

    /** The first value of a topic, in full; it is remembered when it is a balance. */
    method SendSubscribed(t: ParsedTopic, value: Json)
      requires t in subs
      modifies this`subs, sender
      ensures subs == old(subs)[t := old(subs)[t].(lastBalance := Remembered(old(subs)[t].lastBalance, value))]
      ensures sender.State() == AfterSend(old(sender.State()), Subscribed(old(subs)[t].key, value))
    {
      if value.Balance? {
        subs := subs[t := subs[t].(lastBalance := Some(value.balance))];
      }
      sender.Send(Subscribed(subs[t].key, value));
    }

    method SendDirect(data: SubscriptionData, value: Json)
      modifies sender
      ensures sender.State() == SendAll(old(sender.State()), DirectMessages(data, value))
    {
      if data.isDirect {
        var sent := if value.Balance? && data.lastBalance.Some? then Diff(data.lastBalance.value, value.balance) else value;
        OneMessage(sender.State(), DirectMessages(data, value));
        if data.isNew {
          sender.Send(Subscribed(data.key, sent));
        } else {
          sender.Send(Update(data.key, sent));
        }
      }
    }

    /** One message for each multi-topic, in any order. */
    method SendIndirect(data: SubscriptionData, value: Json) returns (order: seq<ParsedTopic>)
      modifies sender
      ensures Enumerates(order, data.sources.Keys)
      ensures forall mt :: mt in order ==> mt in data.sources
      ensures sender.State() == SendAll(old(sender.State()), IndirectMessages(data, value, order))
    {
      order := [];
      var rest := data.sources.Keys;
      while rest != {}
        invariant rest <= data.sources.Keys
        invariant Enumerates(order, data.sources.Keys - rest)
        invariant forall mt :: mt in order ==> mt in data.sources
        invariant sender.State() == SendAll(old(sender.State()), IndirectMessages(data, value, order))
        decreases |rest|
      {
        var mt :| mt in rest;
        var body := Update(data.sources[mt], Wrapped(Sent(data.lastBalance, value)));
        NextSource(data, value, order, mt);
        SendOneMore(old(sender.State()), IndirectMessages(data, value, order), body);
        EnumeratesSnoc(order, data.sources.Keys - rest, mt);
        assert data.sources.Keys - (rest - {mt}) == (data.sources.Keys - rest) + {mt};
        sender.Send(body);
        order := order + [mt];
        rest := rest - {mt};
      }
      assert data.sources.Keys - rest == data.sources.Keys;
    }

    /** A later value: the difference is sent once directly and once for each multi-topic. */
    method SendUpdate(t: ParsedTopic, value: Json) returns (order: seq<ParsedTopic>)
      modifies this`subs, sender
      ensures t !in old(subs) ==> subs == old(subs) && sender.State() == old(sender.State())
      ensures t in old(subs) ==>
        var data := old(subs)[t];
        && subs == old(subs)[t := AfterUpdate(data, value)]
        && Enumerates(order, if data.isIndirect then data.sources.Keys else {})
        && (forall mt :: mt in order ==> mt in data.sources)
        && sender.State() == SendAll(old(sender.State()), DirectMessages(data, value) + IndirectMessages(data, value, order))
    {
      order := [];
      if t in subs {
        var data := subs[t];
        subs := subs[t := AfterUpdate(data, value)];
        SendDirect(data, value);
        if data.isIndirect {
          order := SendIndirect(data, value);
        }
        SendConcat(old(sender.State()), DirectMessages(data, value), IndirectMessages(data, value, order));
      }
    }
  }

  lemma {:induction false} SendConcat(s: SenderState, a: seq<Body>, b: seq<Body>)
    ensures SendAll(s, a + b) == SendAll(SendAll(s, a), b)
    decreases |b|
  {
    if b == [] {
      assert a + b == a;
    } else {
      SplitLast(b);
      Associate(a, b[..|b| - 1], [b[|b| - 1]]);
      SendConcat(s, a, b[..|b| - 1]);
      SendOneMore(s, a + b[..|b| - 1], b[|b| - 1]);
    }
  }

  lemma OneMessage(s: SenderState, bodies: seq<Body>)
    requires |bodies| == 1
    ensures SendAll(s, bodies) == AfterSend(s, bodies[0])
  {
    assert bodies[..0] == [];
  }

  lemma NextSource(data: SubscriptionData, value: Json, order: seq<ParsedTopic>, mt: ParsedTopic)
    requires (forall x :: x in order ==> x in data.sources) && mt in data.sources
    ensures forall x :: x in order + [mt] ==> x in data.sources
    ensures IndirectMessages(data, value, order + [mt])
         == IndirectMessages(data, value, order) + [Update(data.sources[mt], Wrapped(Sent(data.lastBalance, value)))]
  {
    assert (order + [mt])[..|order|] == order;
  }

  // ----- What is received through a multi-topic -----

  /** One message for each multi-topic of the list, under the key of its link, with the value in an array. */
  lemma {:induction false} IndirectMessagesAre(data: SubscriptionData, value: Json, order: seq<ParsedTopic>)
    requires forall mt :: mt in order ==> mt in data.sources
    ensures |IndirectMessages(data, value, order)| == |order|
    ensures forall i :: 0 <= i < |order| ==>
              IndirectMessages(data, value, order)[i] == Update(data.sources[order[i]], Wrapped(Sent(data.lastBalance, value)))
    decreases |order|
  {
    if order != [] {
      IndirectMessagesAre(data, value, order[..|order| - 1]);
    }
  }

  /** Exactly one of the messages is for a multi-topic through which the topic is held. */
  lemma LinkIsDelivered(data: SubscriptionData, mt: ParsedTopic, value: Json, order: seq<ParsedTopic>) returns (i: nat)
    requires Enumerates(order, data.sources.Keys) && mt in data.sources
    ensures forall x :: x in order ==> x in data.sources
    ensures |IndirectMessages(data, value, order)| == |order| == |data.sources.Keys|
    ensures i < |order| && forall j :: 0 <= j < |order| ==> (order[j] == mt <==> j == i)
    ensures IndirectMessages(data, value, order)[i] == Update(data.sources[mt], Wrapped(Sent(data.lastBalance, value)))
  {
    assert forall x :: x in order <==> x in Elems(order);
    IndirectMessagesAre(data, value, order);
    DistinctCount(order);
    NoneTwice(order);
    i :| 0 <= i < |order| && order[i] == mt;
  }

  /** A topic that is held only through multi-topics: no direct message, and only the balance is remembered. */
  lemma UpdateWithoutSubscription(data: SubscriptionData, value: Json)
    requires !data.isDirect
    ensures DirectMessages(data, value) == []
    ensures AfterUpdate(data, value)
         == data.(lastBalance := if value.Balance? then Some(value.balance) else data.lastBalance)
  {
  }

  // ----- What a direct subscriber receives -----

  ghost function AfterUpdates(data: SubscriptionData, values: seq<Json>): SubscriptionData {
    if values == [] then data else AfterUpdate(AfterUpdates(data, values[..|values| - 1]), values[|values| - 1])
  }

  /** The direct messages of a list of updates. */
  ghost function DirectStream(data: SubscriptionData, values: seq<Json>): seq<Body> {
    if values == [] then []
    else
      DirectStream(data, values[..|values| - 1])
      + DirectMessages(AfterUpdates(data, values[..|values| - 1]), values[|values| - 1])
  }

  lemma UpdatesSnoc(data: SubscriptionData, values: seq<Json>, last: Json)
    ensures AfterUpdates(data, values + [last]) == AfterUpdate(AfterUpdates(data, values), last)
    ensures DirectStream(data, values + [last])
         == DirectStream(data, values) + DirectMessages(AfterUpdates(data, values), last)
  {
    assert (values + [last])[..|values|] == values;
  }

  /** One `subscribed` message and then only updates, with these values. */
  ghost function Labelled(key: Key, values: seq<Json>): (r: seq<Body>)
    ensures |r| == |values|
    ensures forall i :: 0 <= i < |r| ==> r[i] == if i == 0 then Subscribed(key, values[i]) else Update(key, values[i])
  {
    if values == [] then []
    else
      Labelled(key, values[..|values| - 1])
      + [if |values| == 1 then Subscribed(key, values[0]) else Update(key, values[|values| - 1])]
  }

  lemma LabelledSnoc(key: Key, values: seq<Json>, last: Json)
    ensures Labelled(key, values + [last])
         == Labelled(key, values) + [if values == [] then Subscribed(key, last) else Update(key, last)]
  {
    assert (values + [last])[..|values|] == values;
  }

  /** A subscription that has sent the values `before`. */
  ghost predicate HasSent(data: SubscriptionData, before: seq<Json>) {
    data.isDirect && data.lastBalance == Latest(before) && (data.isNew <==> before == [])
  }

  /**
   However many updates follow, a direct subscriber receives the delta stream of all values,
   as one `subscribed` message and then updates, whether the first value came at once or later.
   */
  lemma {:induction false} DirectMessagesAreStream(data: SubscriptionData, before: seq<Json>, values: seq<Json>)
    requires HasSent(data, before)
    ensures Labelled(data.key, Stream(before)) + DirectStream(data, values) == Labelled(data.key, Stream(before + values))
    ensures HasSent(AfterUpdates(data, values), before + values) && AfterUpdates(data, values).key == data.key
    decreases |values|
  {
    if values == [] {
      assert before + values == before;
    } else {
      var init, last := values[..|values| - 1], values[|values| - 1];
      SplitLast(values);
      Associate(before, init, [last]);
      DirectMessagesAreStream(data, before, init);
      UpdatesSnoc(data, init, last);
      StreamSnoc(before + init, last);
      OneMessageForEachValue(before + init);
      LabelledSnoc(data.key, Stream(before + init), Sent(Latest(before + init), last));
      Associate(Labelled(data.key, Stream(before)), DirectStream(data, init), DirectMessages(AfterUpdates(data, init), last));
    }
  }

  /** The values that messages carry. */
  ghost function Payloads(messages: seq<Body>): (r: seq<Json>)
    ensures |r| == |messages|
    ensures forall i :: 0 <= i < |r| ==>
              r[i] == match messages[i] case Subscribed(_, v) => v case Update(_, v) => v case _ => Other("")
  {
    seq(|messages|, i requires 0 <= i < |messages| =>
      match messages[i] case Subscribed(_, v) => v case Update(_, v) => v case _ => Other(""))
  }

  /**
   A direct subscriber that merges the messages it receives, in order, holds at every point
   the latest balance of the server; the server remembers the same.
   */
  lemma SubscriberHoldsLatest(data: SubscriptionData, before: seq<Json>, values: seq<Json>, n: nat)
    requires HasSent(data, before) && n <= |before + values|
    requires forall i :: 0 <= i < |before + values| ==> Whole((before + values)[i])
    ensures var messages := Labelled(data.key, Stream(before)) + DirectStream(data, values);
            |messages| == |before + values| && MergeAll(Payloads(messages)[..n]) == Latest((before + values)[..n])
    ensures AfterUpdates(data, values).lastBalance == Latest(before + values)
  {
    var messages := Labelled(data.key, Stream(before)) + DirectStream(data, values);
    DirectMessagesAreStream(data, before, values);
    OneMessageForEachValue(before + values);
    AlwaysLatest(before + values, n);
    assert Payloads(messages) == Stream(before + values);
  }
}
