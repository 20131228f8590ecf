/**
 `expand_multitopics` (apps/websocket-api/src/websocket.rs) on the shared registry and
 the connections' own objects.
 */
module ExpandHandler {
  import opened Text
  import opened Registry
  import opened Subscribers
  import opened Protocol
  import opened TopicRegistry
  import opened Clients

  type ClientMap = map<ClientId, Client>

  /** Different numbers are different objects. */
  ghost predicate DistinctObjects(clients: ClientMap) {
    forall c, d :: c in clients && d in clients && c != d ==> clients[c] != clients[d]
  }

  ghost function Views(clients: ClientMap): map<ClientId, Subscriber>
    reads clients.Values
  {
    map c | c in clients :: clients[c].View()
  }

  // ----- The same on values -----

  ghost function AcceptingViews(subscribers: map<ClientId, Key>, views: map<ClientId, Subscriber>, max: nat): set<ClientId> {
    set c | c in subscribers && c in views && views[c].indirectCount < max
  }

  /** Every accepting client takes the link. */
  ghost function Granted(
      views: map<ClientId, Subscriber>, accepted: set<ClientId>, s: ParsedTopic, mt: ParsedTopic, keys: map<ClientId, Key>)
    : map<ClientId, Subscriber>
    requires accepted <= keys.Keys
  {
    map c | c in views :: ViewAfter(views, accepted, c, s, mt, keys)
  }

  ghost function InWorld(m: TopicMap, views: map<ClientId, Subscriber>): World {
    World(m, map c | c in views :: Connection(views[c], Idle), 0)
  }

  lemma ExpandOneInWorld(m: TopicMap, views: map<ClientId, Subscriber>, s: ParsedTopic, mt: ParsedTopic, max: nat, now: int)
    requires mt in m
    ensures var accepted := AcceptingViews(m[mt].clients, views, max);
            && accepted <= m[mt].clients.Keys
            && ExpandOne(InWorld(m, views), s, mt, max, now)
                 == if accepted == {} then InWorld(m, views)
                    else InWorld(LinkAll(UpdateMultitopicInfo(m, mt, m[mt].subtopics + {s}, now), s, accepted, mt, now),
                                 Granted(views, accepted, s, mt, m[mt].clients))
  {
    assert Accepting(InWorld(m, views), mt, max) == AcceptingViews(m[mt].clients, views, max);
  }

  lemma OneMoreLink(info: KeyInfo, accepted: set<ClientId>, c: ClientId, mt: ParsedTopic)
    ensures WithLink(WithLinks(info, accepted, mt), c, mt) == WithLinks(info, accepted + {c}, mt)
  {
    var one := WithLink(WithLinks(info, accepted, mt), c, mt).indirect;
    var two := WithLinks(info, accepted + {c}, mt).indirect;
    assert one.Keys == two.Keys;
    forall d | d in one ensures one[d] == two[d] {
      if d == c {
        assert mt in one[c] && mt in two[c];
      }
    }
  }

  lemma NoLink(info: KeyInfo, mt: ParsedTopic)
    ensures WithLinks(info, {}, mt) == info
  {
    var none := WithLinks(info, {}, mt).indirect;
    assert none.Keys == info.indirect.Keys;
    forall d | d in none ensures none[d] == info.indirect[d] {
    }
    assert none == info.indirect;
  }

  lemma LinkAllOneMore(m: TopicMap, s: ParsedTopic, accepted: set<ClientId>, c: ClientId, mt: ParsedTopic, now: int)
    ensures AddLink(LinkAll(m, s, accepted, mt, now), s, c, mt, now) == LinkAll(m, s, accepted + {c}, mt, now)
    ensures AddLink(m, s, c, mt, now) == LinkAll(m, s, {c}, mt, now)
  {
    var info := Lookup(m, s, now);
    OneMoreLink(info, accepted, c, mt);
    NoLink(info, mt);
    OneMoreLink(info, {}, c, mt);
    assert {} + {c} == {c};
  }

  // ----- The handler -----

  /** The clients in `taken` have taken the link since `before`, and no others have changed. */
  ghost predicate Offered(
      clients: ClientMap, before: map<ClientId, Subscriber>, taken: set<ClientId>, s: ParsedTopic, g: Gain)
    reads clients.Values
  {
    && clients.Keys == before.Keys
    && forall c :: c in clients ==> clients[c].View() == ViewAfter(before, taken, c, s, g.multitopic, g.clients)
  }

  method OfferOne(
      clients: ClientMap, c: ClientId, s: ParsedTopic, g: Gain, max: nat, ghost before: map<ClientId, Subscriber>,
      ghost taken: set<ClientId>)
    returns (ok: bool)
    requires DistinctObjects(clients) && Offered(clients, before, taken, s, g) && c in g.clients && c !in taken
    modifies clients.Values
    ensures ok <==> c in before && before[c].indirectCount < max
    ensures Offered(clients, before, if ok then taken + {c} else taken, s, g)
  {
    ok := c in clients && clients[c].indirectCount < max;
    if ok {
      assert clients[c].View() == before[c];
      clients[c].AddIndirectSubscription(s, g.multitopic, g.clients[c]);
    }
  }

  /** Every direct subscriber that is connected and below its cap takes the link. */
  method OfferLink(clients: ClientMap, g: Gain, s: ParsedTopic, max: nat, ghost before: map<ClientId, Subscriber>)
    returns (accepted: seq<ClientId>)
    requires DistinctObjects(clients) && before == Views(clients)
    modifies clients.Values
    ensures Enumerates(accepted, AcceptingViews(g.clients, before, max))
    ensures AcceptingViews(g.clients, before, max) <= g.clients.Keys
    ensures Views(clients) == Granted(before, AcceptingViews(g.clients, before, max), s, g.multitopic, g.clients)
  {
    accepted := [];
    ghost var all := AcceptingViews(g.clients, before, max);
    ghost var taken: set<ClientId> := {};
    var rest := g.clients.Keys;
    while rest != {}
      invariant rest <= g.clients.Keys
      invariant OfferedSoFar(all, rest, taken, accepted)
      invariant Offered(clients, before, taken, s, g)
      decreases |rest|
    {
      var c := AnyOf(rest);
      NextClient(all, rest, taken, accepted, c);
      var ok := OfferOne(clients, c, s, g, max, before, taken);
      if ok {
        accepted, taken := accepted + [c], taken + {c};
      }
      rest := rest - {c};
    }
    AllTaken(all, taken, accepted);
    OfferedAll(clients, before, all, s, g);
  }

  lemma OfferedAll(clients: ClientMap, before: map<ClientId, Subscriber>, accepted: set<ClientId>, s: ParsedTopic, g: Gain)
    requires accepted <= g.clients.Keys && Offered(clients, before, accepted, s, g)
    ensures Views(clients) == Granted(before, accepted, s, g.multitopic, g.clients)
  {
  }

  /** The clients that have taken the link, of those that are no longer left. */
  ghost predicate OfferedSoFar<T(!new)>(all: set<T>, rest: set<T>, taken: set<T>, accepted: seq<T>) {
    && Enumerates(accepted, taken)
    && forall c :: c in taken <==> c in all && c !in rest
  }

  lemma AllTaken<T(!new)>(all: set<T>, taken: set<T>, accepted: seq<T>)
    requires OfferedSoFar(all, {}, taken, accepted)
    ensures taken == all
  {
  }

  lemma NextClient<T(!new)>(all: set<T>, rest: set<T>, taken: set<T>, accepted: seq<T>, c: T)
    requires OfferedSoFar(all, rest, taken, accepted) && c in rest
    ensures c in all ==> OfferedSoFar(all, rest - {c}, taken + {c}, accepted + [c])
    ensures c !in all ==> OfferedSoFar(all, rest - {c}, taken, accepted)
    ensures c !in taken
  {
    if c in all {
      EnumeratesSnoc(accepted, taken, c);
    }
  }

  ghost function ViewAfter(
      views: map<ClientId, Subscriber>, accepted: set<ClientId>, c: ClientId, s: ParsedTopic, mt: ParsedTopic,
      keys: map<ClientId, Key>): Subscriber
    requires c in views
  {
    if c in accepted && c in keys then AddIndirect(views[c], s, mt, keys[c]) else views[c]
  }

  lemma OneElement<T>(list: seq<T>, x: T)
    requires Enumerates(list, {x})
    ensures list == [x]
  {
    DistinctCount(list);
    assert list[0] in Elems(list);
  }

  lemma NoElement<T>(list: seq<T>, elements: set<T>)
    requires Enumerates(list, elements) && elements == {}
    ensures list == []
  {
    DistinctCount(list);
  }

  lemma OneLink(m: TopicMap, s: ParsedTopic, c: ClientId, mt: ParsedTopic, now: int)
    ensures DropLinks(AddLinks(m, [s], c, mt, now), [], c, mt) == AddLink(m, s, c, mt, now)
  {
    assert [s][..0] == [];
  }

  /** The links of the first `i` clients that accepted. */
  ghost function LinkedFirst(m: TopicMap, s: ParsedTopic, accepted: seq<ClientId>, i: nat, mt: ParsedTopic, now: int): TopicMap
    requires i <= |accepted|
  {
    if i == 0 then m else LinkAll(m, s, Elems(accepted[..i]), mt, now)
  }

  lemma LinkNext(m: TopicMap, s: ParsedTopic, accepted: seq<ClientId>, i: nat, mt: ParsedTopic, now: int)
    requires i < |accepted|
    ensures AddLink(LinkedFirst(m, s, accepted, i, mt, now), s, accepted[i], mt, now)
         == LinkedFirst(m, s, accepted, i + 1, mt, now)
  {
    assert accepted[..i + 1] == accepted[..i] + [accepted[i]];
    ElemsOfSnoc(accepted[..i], accepted[i]);
    LinkAllOneMore(m, s, Elems(accepted[..i]), accepted[i], mt, now);
    if i == 0 {
      assert Elems(accepted[..0]) + {accepted[0]} == {accepted[0]};
    }
  }

  method LinkClient(
      registry: ClientIdsByTopics, mt: ParsedTopic, update: MultitopicUpdate, s: ParsedTopic, c: ClientId, now: int)
    requires registry.Valid() && update == MultitopicUpdate([s], [])
    modifies registry
    ensures registry.Valid() && registry.topics == AddLink(old(registry.topics), s, c, mt, now)
  {
    OneLink(registry.topics, s, c, mt, now);
    registry.UpdateIndirectSubscriptions(mt, update, c, now);
  }

  method LinkClients(
      registry: ClientIdsByTopics, mt: ParsedTopic, update: MultitopicUpdate, s: ParsedTopic, accepted: seq<ClientId>, now: int)
    requires registry.Valid() && update == MultitopicUpdate([s], []) && accepted != []
    modifies registry
    ensures registry.Valid()
    ensures registry.topics == LinkAll(old(registry.topics), s, Elems(accepted), mt, now)
  {
    ghost var m := registry.topics;
    for i := 0 to |accepted|
      invariant registry.Valid() && registry.topics == LinkedFirst(m, s, accepted, i, mt, now)
    {
      LinkNext(m, s, accepted, i, mt, now);
      LinkClient(registry, mt, update, s, accepted[i], now);
    }
    assert accepted[..|accepted|] == accepted;
  }

  /** The gaining multi-topic records the key: that is the whole change. */
  method RecordKey(registry: ClientIdsByTopics, g: Gain, s: ParsedTopic, now: int) returns (update: MultitopicUpdate)
    requires registry.Valid()
    requires GainOf(registry.topics, s, g) && s !in registry.topics[g.multitopic].subtopics
    modifies registry
    ensures registry.Valid() && update == MultitopicUpdate([s], [])
    ensures registry.topics == UpdateMultitopicInfo(old(registry.topics), g.multitopic, g.subtopics, now)
  {
    ghost var recorded := registry.topics[g.multitopic].subtopics;
    update := registry.UpdateMultitopicInfo(g.multitopic, g.subtopics, now);
    assert g.subtopics - recorded == {s};
    OneElement(update.added, s);
    NoElement(update.removed, recorded - g.subtopics);
  }

  /** The gaining multi-topic records the key, and its accepting clients are linked. */
  method RecordGain(registry: ClientIdsByTopics, g: Gain, s: ParsedTopic, accepted: seq<ClientId>, now: int)
    requires registry.Valid()
    requires GainOf(registry.topics, s, g) && s !in registry.topics[g.multitopic].subtopics
    modifies registry
    ensures registry.Valid()
    ensures registry.topics == Recorded(old(registry.topics), g, s, Elems(accepted), now)
  {
    if accepted != [] {
      assert accepted[0] in Elems(accepted);
      var update := RecordKey(registry, g, s, now);
      LinkClients(registry, g.multitopic, update, s, accepted, now);
    }
  }

  ghost function Recorded(m: TopicMap, g: Gain, s: ParsedTopic, accepted: set<ClientId>, now: int): TopicMap {
    if accepted == {} then m
    else LinkAll(UpdateMultitopicInfo(m, g.multitopic, g.subtopics, now), s, accepted, g.multitopic, now)
  }

  lemma NothingGranted(views: map<ClientId, Subscriber>, s: ParsedTopic, mt: ParsedTopic, keys: map<ClientId, Key>)
    ensures Granted(views, {}, s, mt, keys) == views
  {
  }

  /** One gaining multi-topic. */
  method ExpandGain(registry: ClientIdsByTopics, clients: ClientMap, g: Gain, s: ParsedTopic, max: nat, now: int)
    requires registry.Valid() && DistinctObjects(clients)
    requires GainOf(registry.topics, s, g) && s !in registry.topics[g.multitopic].subtopics
    modifies registry, clients.Values
    ensures registry.Valid()
    ensures InWorld(registry.topics, Views(clients))
         == ExpandOne(InWorld(old(registry.topics), old(Views(clients))), s, g.multitopic, max, now)
  {
    ghost var m, views := registry.topics, Views(clients);
    GainInWorld(m, views, g, s, max, now);
    var accepted := OfferLink(clients, g, s, max, views);
    RecordGain(registry, g, s, accepted, now);
  }

  /** The two outcomes of an offer, as one expansion. */
  lemma GainInWorld(m: TopicMap, views: map<ClientId, Subscriber>, g: Gain, s: ParsedTopic, max: nat, now: int)
    requires GainOf(m, s, g)
    ensures var accepted := AcceptingViews(g.clients, views, max);
            && accepted <= g.clients.Keys
            && ExpandOne(InWorld(m, views), s, g.multitopic, max, now)
                 == InWorld(Recorded(m, g, s, accepted, now), Granted(views, accepted, s, g.multitopic, g.clients))
  {
    ExpandOneInWorld(m, views, s, g.multitopic, max, now);
    NothingGranted(views, s, g.multitopic, g.clients);
  }

  /** Multi-topics whose turn is still to come are as they were. */
  ghost predicate StillToCome(m: TopicMap, n: TopicMap, gaining: seq<Gain>, i: nat, s: ParsedTopic) {
    forall j :: i <= j < |gaining| ==>
      && gaining[j].multitopic in m && gaining[j].multitopic in n
      && n[gaining[j].multitopic] == m[gaining[j].multitopic]
  }

  lemma OthersStillToCome(w: World, m: TopicMap, gaining: seq<Gain>, i: nat, s: ParsedTopic, max: nat, now: int)
    requires i < |gaining| && StillToCome(m, w.topics, gaining, i, s)
    requires forall j, k :: 0 <= j < k < |gaining| ==> gaining[j].multitopic != gaining[k].multitopic
    requires forall j :: 0 <= j < |gaining| ==> gaining[j].multitopic != s
    ensures StillToCome(m, ExpandOne(w, s, gaining[i].multitopic, max, now).topics, gaining, i + 1, s)
  {
  }

  lemma {:induction false} GainTopicsAt(gaining: seq<Gain>)
    ensures |GainTopics(gaining)| == |gaining|
    ensures forall i :: 0 <= i < |gaining| ==> GainTopics(gaining)[i] == gaining[i].multitopic
  {
    if gaining != [] {
      GainTopicsAt(gaining[..|gaining| - 1]);
    }
  }

  lemma ExpandNext(w: World, s: ParsedTopic, order: seq<ParsedTopic>, i: nat, max: nat, now: int)
    requires i < |order|
    ensures ExpandAll(w, s, order[..i + 1], max, now)
         == (var before := ExpandAll(w, s, order[..i], max, now);
             if order[i] in before.topics then ExpandOne(before, s, order[i], max, now) else before)
  {
    assert order[..i + 1][..i] == order[..i];
  }

  /** A list of gains: current, each multi-topic once, none of them the key. */
  ghost predicate GainsOk(m: TopicMap, gaining: seq<Gain>, s: ParsedTopic) {
    && (forall g :: g in gaining ==> GainOf(m, s, g) && s !in m[g.multitopic].subtopics && g.multitopic != s)
    && (forall j, k :: 0 <= j < k < |gaining| ==> gaining[j].multitopic != gaining[k].multitopic)
  }

  lemma GainingIsOk(m: TopicMap, gaining: seq<Gain>, s: ParsedTopic)
    requires EntriesOk(m) && s.kind.Single?
    requires Enumerates(GainTopics(gaining), Gaining(m, s)) && forall g :: g in gaining ==> GainOf(m, s, g)
    ensures GainsOk(m, gaining, s)
  {
    GainTopicsAt(gaining);
    NoneTwice(GainTopics(gaining));
    forall g | g in gaining ensures GainOf(m, s, g) && s !in m[g.multitopic].subtopics && g.multitopic != s {
      var i :| 0 <= i < |gaining| && gaining[i] == g;
      assert GainTopics(gaining)[i] in Elems(GainTopics(gaining));
      assert EntryOk(g.multitopic, m[g.multitopic]);
    }
  }

  /** Each gaining multi-topic has its turn. */
  method ExpandGains(registry: ClientIdsByTopics, clients: ClientMap, gaining: seq<Gain>, s: ParsedTopic, max: nat, now: int)
    requires registry.Valid() && DistinctObjects(clients) && GainsOk(registry.topics, gaining, s)
    modifies registry, clients.Values
    ensures registry.Valid()
    ensures InWorld(registry.topics, Views(clients))
         == ExpandAll(InWorld(old(registry.topics), old(Views(clients))), s, GainTopics(gaining), max, now)
  {
    ghost var m, order := registry.topics, GainTopics(gaining);
    ghost var w := InWorld(m, Views(clients));
    ghost var x := w;
    GainTopicsAt(gaining);
    for i := 0 to |gaining|
      invariant registry.Valid() && x == InWorld(registry.topics, Views(clients))
      invariant StillToCome(m, x.topics, gaining, i, s)
      invariant x == ExpandAll(w, s, order[..i], max, now)
    {
      ExpandNext(w, s, order, i, max, now);
      GainCurrent(m, x, gaining, i, s, max, now);
      ExpandGain(registry, clients, gaining[i], s, max, now);
      x := ExpandOne(x, s, gaining[i].multitopic, max, now);
    }
    assert order[..|gaining|] == order;
  }

  lemma GainCurrent(m: TopicMap, x: World, gaining: seq<Gain>, i: nat, s: ParsedTopic, max: nat, now: int)
    requires i < |gaining| && StillToCome(m, x.topics, gaining, i, s) && GainsOk(m, gaining, s)
    ensures GainOf(x.topics, s, gaining[i]) && s !in x.topics[gaining[i].multitopic].subtopics
    ensures StillToCome(m, ExpandOne(x, s, gaining[i].multitopic, max, now).topics, gaining, i + 1, s)
  {
    assert gaining[i] in gaining;
    forall j | 0 <= j < |gaining| ensures gaining[j].multitopic != s {
      assert gaining[j] in gaining;
    }
    OthersStillToCome(x, m, gaining, i, s, max, now);
  }

  /** A new key: nothing changes unless a multi-topic gains it; the turns come in any order. */
  method ExpandMultitopics(registry: ClientIdsByTopics, clients: ClientMap, s: ParsedTopic, max: nat, now: int)
    returns (ghost order: seq<ParsedTopic>)
    requires registry.Valid() && EntriesOk(registry.topics) && DistinctObjects(clients) && s.kind.Single?
    modifies registry, clients.Values
    ensures registry.Valid()
    ensures Enumerates(order, Gaining(old(registry.topics), s))
    ensures InWorld(registry.topics, Views(clients))
         == ExpandAll(InWorld(old(registry.topics), old(Views(clients))), s, order, max, now)
  {
    var any := registry.AnyMultitopicGaining(s);
    if !any {
      order := [];
      assert Elems<ParsedTopic>([]) == {};
      return;
    }
    var gaining := registry.MultitopicsGaining(s);
    order := GainTopics(gaining);
    GainingIsOk(registry.topics, gaining, s);
    ExpandGains(registry, clients, gaining, s, max, now);
  }

  // ----- What a connection's handler is doing does not matter -----

  ghost predicate SameViews(w: World, x: World) {
    && w.topics == x.topics && w.clients.Keys == x.clients.Keys
    && forall c :: c in w.clients ==> w.clients[c].sub == x.clients[c].sub
  }

  lemma OneExpansionSameViews(w: World, x: World, s: ParsedTopic, mt: ParsedTopic, max: nat, now: int)
    requires SameViews(w, x) && mt in w.topics
    ensures SameViews(ExpandOne(w, s, mt, max, now), ExpandOne(x, s, mt, max, now))
  {
    SameAccepting(w, x, mt, max);
  }

  lemma SameAccepting(w: World, x: World, mt: ParsedTopic, max: nat)
    requires SameViews(w, x) && mt in w.topics
    ensures Accepting(w, mt, max) == Accepting(x, mt, max)
  {
    forall c ensures c in Accepting(w, mt, max) <==> c in Accepting(x, mt, max) {
    }
  }

  /** The views and the registry after an expansion depend on the views and the registry before it. */
  lemma {:induction false} ExpansionSameViews(w: World, x: World, s: ParsedTopic, order: seq<ParsedTopic>, max: nat, now: int)
    requires SameViews(w, x)
    ensures SameViews(ExpandAll(w, s, order, max, now), ExpandAll(x, s, order, max, now))
    decreases |order|
  {
    if order != [] {
      var init, mt := order[..|order| - 1], order[|order| - 1];
      ExpansionSameViews(w, x, s, init, max, now);
      var a, b := ExpandAll(w, s, init, max, now), ExpandAll(x, s, init, max, now);
      if mt in a.topics {
        OneExpansionSameViews(a, b, s, mt, max, now);
      }
    }
  }
}
