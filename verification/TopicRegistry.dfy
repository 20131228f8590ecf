/**
 The registry as the object that the handlers update in place (`ClientIdsByTopics` in
 apps/websocket-api/src/client.rs): topic map, address index and size metrics.
 */
module TopicRegistry {
  import opened Text
  import opened Topics
  import opened Registry
  import opened Protocol

  type AddressIndex = map<string, set<ParsedTopic>>

  // ----- Index agreement -----

  ghost predicate Indexed(index: AddressIndex, a: string, t: ParsedTopic) {
    a in index && t in index[a]
  }

  ghost predicate FilterNames(m: TopicMap, a: string, t: ParsedTopic) {
    t in m && m[t].filter.Some? && a in m[t].filter.value.addresses
  }

  /** The index holds, for each address, exactly the registered topics whose filter lists it. */
  ghost predicate IndexAgrees(m: TopicMap, index: AddressIndex) {
    && (forall a, t :: Indexed(index, a, t) <==> FilterNames(m, a, t))
    && (forall a :: a in index ==> index[a] != {})
  }

  /** The topic map determines its index. */
  lemma IndexIsUnique(m: TopicMap, i: AddressIndex, j: AddressIndex)
    requires IndexAgrees(m, i) && IndexAgrees(m, j)
    ensures i == j
  {
    forall a | a in i ensures a in j {
      var t := SomeMember(i[a]);
      assert Indexed(i, a, t);
      assert Indexed(j, a, t);
    }
    forall a | a in j ensures a in i {
      var t := SomeMember(j[a]);
      assert Indexed(j, a, t);
      assert Indexed(i, a, t);
    }
    forall a | a in i ensures i[a] == j[a] {
      forall t ensures t in i[a] <==> t in j[a] {
        assert Indexed(i, a, t) <==> Indexed(j, a, t);
      }
    }
  }

  function IndexWith(index: AddressIndex, a: string, t: ParsedTopic): AddressIndex {
    index[a := (if a in index then index[a] else {}) + {t}]
  }

  function IndexWithout(index: AddressIndex, a: string, t: ParsedTopic): AddressIndex {
    if a !in index then index
    else if index[a] - {t} == {} then index - {a}
    else index[a := index[a] - {t}]
  }

  lemma IndexWithEffect(index: AddressIndex, a: string, t: ParsedTopic)
    ensures forall b, u :: Indexed(IndexWith(index, a, t), b, u) <==> Indexed(index, b, u) || (b == a && u == t)
    ensures (forall b :: b in index ==> index[b] != {})
              ==> forall b :: b in IndexWith(index, a, t) ==> IndexWith(index, a, t)[b] != {}
  {
    assert t in IndexWith(index, a, t)[a];
  }

  lemma IndexWithoutEffect(index: AddressIndex, a: string, t: ParsedTopic)
    ensures forall b, u :: Indexed(IndexWithout(index, a, t), b, u) <==> Indexed(index, b, u) && !(b == a && u == t)
    ensures (forall b :: b in index ==> index[b] != {})
              ==> forall b :: b in IndexWithout(index, a, t) ==> IndexWithout(index, a, t)[b] != {}
  {
    if a in index {
      var rest := index[a] - {t};
      assert forall u :: u in rest <==> u in index[a] && u != t;
    }
  }

  /** After the first `n` addresses. */
  ghost predicate IndexedUpTo(before: AddressIndex, index: AddressIndex, addresses: seq<string>, n: nat, t: ParsedTopic)
    requires n <= |addresses|
  {
    && (forall b, u :: Indexed(index, b, u) <==> Indexed(before, b, u) || (b in addresses[..n] && u == t))
    && (forall b :: b in index ==> index[b] != {})
  }

  ghost predicate UnindexedUpTo(before: AddressIndex, index: AddressIndex, addresses: seq<string>, n: nat, t: ParsedTopic)
    requires n <= |addresses|
  {
    && (forall b, u :: Indexed(index, b, u) <==> Indexed(before, b, u) && !(b in addresses[..n] && u == t))
    && (forall b :: b in index ==> index[b] != {})
  }

  lemma OneMoreIndexed(before: AddressIndex, index: AddressIndex, addresses: seq<string>, n: nat, t: ParsedTopic)
    requires n < |addresses| && IndexedUpTo(before, index, addresses, n, t)
    ensures IndexedUpTo(before, IndexWith(index, addresses[n], t), addresses, n + 1, t)
  {
    IndexWithEffect(index, addresses[n], t);
    assert addresses[..n + 1] == addresses[..n] + [addresses[n]];
  }

  lemma OneMoreUnindexed(before: AddressIndex, index: AddressIndex, addresses: seq<string>, n: nat, t: ParsedTopic)
    requires n < |addresses| && UnindexedUpTo(before, index, addresses, n, t)
    ensures UnindexedUpTo(before, IndexWithout(index, addresses[n], t), addresses, n + 1, t)
  {
    IndexWithoutEffect(index, addresses[n], t);
    assert addresses[..n + 1] == addresses[..n] + [addresses[n]];
  }

  method IndexTopic(before: AddressIndex, addresses: seq<string>, t: ParsedTopic) returns (index: AddressIndex)
    requires forall b :: b in before ==> before[b] != {}
    ensures IndexedUpTo(before, index, addresses, |addresses|, t)
  {
    index := before;
    for i := 0 to |addresses|
      invariant IndexedUpTo(before, index, addresses, i, t)
    {
      OneMoreIndexed(before, index, addresses, i, t);
      var entry := if addresses[i] in index then index[addresses[i]] else {};
      index := index[addresses[i] := entry + {t}];
    }
  }

  method UnindexTopic(before: AddressIndex, addresses: seq<string>, t: ParsedTopic) returns (index: AddressIndex)
    requires forall b :: b in before ==> before[b] != {}
    ensures UnindexedUpTo(before, index, addresses, |addresses|, t)
  {
    index := before;
    for i := 0 to |addresses|
      invariant UnindexedUpTo(before, index, addresses, i, t)
    {
      OneMoreUnindexed(before, index, addresses, i, t);
      if addresses[i] in index {
        var rest := index[addresses[i]] - {t};
        if rest == {} {
          index := index - {addresses[i]};
        } else {
          index := index[addresses[i] := rest];
        }
      }
    }
  }

  lemma EntryIndexed(m: TopicMap, before: AddressIndex, index: AddressIndex, t: ParsedTopic, info: KeyInfo)
    requires t !in m && IndexAgrees(m, before) && info.filter.Some?
    requires IndexedUpTo(before, index, info.filter.value.addresses, |info.filter.value.addresses|, t)
    ensures IndexAgrees(m[t := info], index)
  {
    var addresses := info.filter.value.addresses;
    assert addresses[..|addresses|] == addresses;
    forall a, u ensures Indexed(index, a, u) <==> FilterNames(m[t := info], a, u) {
      assert Indexed(before, a, u) <==> FilterNames(m, a, u);
    }
  }

  lemma EntryUnindexed(m: TopicMap, before: AddressIndex, index: AddressIndex, t: ParsedTopic)
    requires t in m && IndexAgrees(m, before) && m[t].filter.Some?
    requires UnindexedUpTo(before, index, m[t].filter.value.addresses, |m[t].filter.value.addresses|, t)
    ensures IndexAgrees(m - {t}, index)
  {
    var addresses := m[t].filter.value.addresses;
    assert addresses[..|addresses|] == addresses;
    forall a, u ensures Indexed(index, a, u) <==> FilterNames(m - {t}, a, u) {
      assert Indexed(before, a, u) <==> FilterNames(m, a, u);
    }
  }

  /** The index depends on the filters only. */
  ghost predicate SameFilters(m: TopicMap, n: TopicMap) {
    m.Keys == n.Keys && forall t :: t in m ==> m[t].filter == n[t].filter
  }

  lemma SameFiltersSameIndex(m: TopicMap, n: TopicMap, index: AddressIndex)
    requires IndexAgrees(m, index) && SameFilters(m, n)
    ensures IndexAgrees(n, index) && |m| == |n|
  {
    forall a, t ensures Indexed(index, a, t) <==> FilterNames(n, a, t) {
      assert Indexed(index, a, t) <==> FilterNames(m, a, t);
    }
    assert |m| == |m.Keys| && |n| == |n.Keys|;
  }

  lemma NoFilterSameIndex(m: TopicMap, index: AddressIndex, t: ParsedTopic, info: KeyInfo)
    requires IndexAgrees(m, index) && info.filter.None?
    ensures t !in m ==> IndexAgrees(m[t := info], index)
    ensures t in m && m[t].filter.None? ==> IndexAgrees(m - {t}, index)
  {
    forall a, u ensures Indexed(index, a, u) <==> FilterNames(m, a, u) {
    }
  }

  lemma SizeWith(m: TopicMap, t: ParsedTopic, info: KeyInfo)
    ensures |m[t := info]| == |m| + if t in m then 0 else 1
  {
    assert m[t := info].Keys == m.Keys + {t};
  }

  lemma SizeWithout(m: TopicMap, t: ParsedTopic)
    requires t in m
    ensures |m - {t}| == |m| - 1
  {
    assert (m - {t}).Keys == m.Keys - {t};
  }

  // ----- The registry -----

  class ClientIdsByTopics {
    var topics: TopicMap
    var byAddress: AddressIndex
    /** Metrics: entries ever created and ever removed, and the reported size. */
    var subscribed: nat
    var unsubscribed: nat
    var mapSize: nat

    /** Index agreement, and the counters account for the entries. */
    ghost predicate Accounted()
      reads this
    {
      && IndexAgrees(topics, byAddress)
      && subscribed - unsubscribed == |topics|
    }

    ghost predicate Valid()
      reads this
    {
      Accounted() && mapSize == |topics|
    }

    constructor ()
      ensures Valid() && topics == map[]
    {
      topics, byAddress := map[], map[];
      subscribed, unsubscribed, mapSize := 0, 0, 0;
    }

    method EntryOrCreate(t: ParsedTopic, now: int) returns (created: bool)
      requires Accounted()
      modifies this
      ensures Accounted() && mapSize == old(mapSize)
      ensures created <==> t !in old(topics)
      ensures topics == old(topics)[t := Lookup(old(topics), t, now)]
    {
      created := t !in topics;
      if created {
        subscribed := subscribed + 1;
        SizeWith(topics, t, NewInfo(t, now));
        var filter := t.Filter();
        if filter.Some? {
          var index := IndexTopic(byAddress, filter.value.addresses, t);
          EntryIndexed(topics, byAddress, index, t, NewInfo(t, now));
          byAddress := index;
        } else {
          NoFilterSameIndex(topics, byAddress, t, NewInfo(t, now));
        }
        topics := topics[t := NewInfo(t, now)];
      } else {
        assert topics == topics[t := topics[t]];
      }
    }

    method RemoveEntry(t: ParsedTopic)
      requires Accounted()
      modifies this
      ensures Accounted() && mapSize == old(mapSize)
      ensures topics == old(topics) - {t}
    {
      if t !in topics {
        assert topics - {t} == topics;
        return;
      }
      var info := topics[t];
      SizeWithout(topics, t);
      unsubscribed := unsubscribed + 1;
      if info.filter.Some? {
        var index := UnindexTopic(byAddress, info.filter.value.addresses, t);
        EntryUnindexed(topics, byAddress, index, t);
        byAddress := index;
      } else {
        NoFilterSameIndex(topics, byAddress, t, info);
      }
      topics := topics - {t};
    }

    /** Changes what an entry records, but not its filter. */
    method SetInfo(t: ParsedTopic, info: KeyInfo)
      requires Accounted() && t in topics && info.filter == topics[t].filter
      modifies this
      ensures Accounted() && mapSize == old(mapSize)
      ensures topics == old(topics)[t := info]
    {
      SameFiltersSameIndex(topics, topics[t := info], byAddress);
      topics := topics[t := info];
    }

    method UpdateSizeMetrics()
      requires Accounted()
      modifies this
      ensures Valid() && topics == old(topics)
    {
      mapSize := |topics|;
    }

    method AddSubscription(t: ParsedTopic, c: ClientId, key: Key, now: int)
      requires Valid()
      modifies this
      ensures Valid() && topics == Registry.AddSubscription(old(topics), t, c, key, now)
    {
      var created := EntryOrCreate(t, now);
      var info := topics[t];
      SetInfo(t, info.(clients := info.clients[c := key]));
      if created {
        UpdateSizeMetrics();
      } else {
        SizeWith(old(topics), t, topics[t]);
      }
    }

    method RemoveSubscription(t: ParsedTopic, c: ClientId)
      requires Valid()
      modifies this
      ensures Valid() && topics == Registry.RemoveSubscription(old(topics), t, c)
    {
      if t in topics {
        var info := topics[t].(clients := topics[t].clients - {c});
        SizeWith(topics, t, info);
        SetInfo(t, info);
        if info.clients == map[] && info.indirect == map[] {
          RemoveEntry(t);
          UpdateSizeMetrics();
        }
      }
    }

    /** Records the subtopics; returns what is new and what is gone, in any order. */
    method UpdateMultitopicInfo(mt: ParsedTopic, subtopics: set<ParsedTopic>, now: int) returns (update: MultitopicUpdate)
      requires Valid()
      modifies this
      ensures Valid() && topics == Registry.UpdateMultitopicInfo(old(topics), mt, subtopics, now)
      ensures Enumerates(update.added, subtopics - Subtopics(old(topics), mt))
      ensures Enumerates(update.removed, Subtopics(old(topics), mt) - subtopics)
    {
      var created := EntryOrCreate(mt, now);
      var info := topics[mt];
      var added := Collect(subtopics - info.subtopics);
      var removed := Collect(info.subtopics - subtopics);
      SetInfo(mt, info.(subtopics := subtopics));
      update := MultitopicUpdate(added, removed);
      if created {
        UpdateSizeMetrics();
      } else {
        SizeWith(old(topics), mt, topics[mt]);
      }
    }

    /** Detaches one client's link; returns whether the entry went with it. */
    method DropIndirectClient(s: ParsedTopic, mt: ParsedTopic, c: ClientId) returns (changed: bool)
      requires Accounted()
      modifies this
      ensures Accounted() && mapSize == old(mapSize)
      ensures topics == DropLink(old(topics), s, c, mt)
      ensures !changed ==> |topics| == |old(topics)|
    {
      if s !in topics {
        return false;
      }
      var info := topics[s];
      if c in info.indirect {
        var rest := info.indirect[c] - {mt};
        info := info.(indirect := if rest == {} then info.indirect - {c} else info.indirect[c := rest]);
      }
      SizeWith(topics, s, info);
      SetInfo(s, info);
      changed := info.clients == map[] && info.indirect == map[];
      if changed {
        RemoveEntry(s);
      }
    }

    /** Attaches one client's link; returns whether the entry was created. */
    method AddIndirectClient(s: ParsedTopic, mt: ParsedTopic, c: ClientId, now: int) returns (created: bool)
      requires Accounted()
      modifies this
      ensures Accounted() && mapSize == old(mapSize)
      ensures topics == AddLink(old(topics), s, c, mt, now)
      ensures !created ==> |topics| == |old(topics)|
    {
      created := EntryOrCreate(s, now);
      var info := topics[s];
      var parents := if c in info.indirect then info.indirect[c] else {};
      SetInfo(s, info.(indirect := info.indirect[c := parents + {mt}]));
      SizeWith(old(topics), s, topics[s]);
    }

    /** Attaches one client's links, in the order of a list; returns whether entries were created. */
    method AddIndirectClients(added: seq<ParsedTopic>, mt: ParsedTopic, c: ClientId, now: int) returns (changed: bool)
      requires Accounted()
      modifies this
      ensures Accounted() && mapSize == old(mapSize)
      ensures topics == AddLinks(old(topics), added, c, mt, now)
      ensures !changed ==> |topics| == |old(topics)|
    {
      changed := false;
      for i := 0 to |added|
        invariant Accounted() && mapSize == old(mapSize)
        invariant changed || |topics| == |old(topics)|
        invariant topics == AddLinks(old(topics), added[..i], c, mt, now)
      {
        assert added[..i + 1][..i] == added[..i];
        var created := AddIndirectClient(added[i], mt, c, now);
        changed := changed || created;
      }
      assert added[..|added|] == added;
    }

    /** Detaches one client's links; returns whether entries were removed. */
    method DropIndirectClients(dropped: seq<ParsedTopic>, mt: ParsedTopic, c: ClientId) returns (changed: bool)
      requires Accounted()
      modifies this
      ensures Accounted() && mapSize == old(mapSize)
      ensures topics == DropLinks(old(topics), dropped, c, mt)
      ensures !changed ==> |topics| == |old(topics)|
    {
      changed := false;
      for i := 0 to |dropped|
        invariant Accounted() && mapSize == old(mapSize)
        invariant changed || |topics| == |old(topics)|
        invariant topics == DropLinks(old(topics), dropped[..i], c, mt)
      {
        assert dropped[..i + 1][..i] == dropped[..i];
        var gone := DropIndirectClient(dropped[i], mt, c);
        changed := changed || gone;
      }
      assert dropped[..|dropped|] == dropped;
    }

    method UpdateIndirectSubscriptions(mt: ParsedTopic, update: MultitopicUpdate, c: ClientId, now: int)
      requires Valid()
      modifies this
      ensures Valid()
      ensures topics == DropLinks(AddLinks(old(topics), update.added, c, mt, now), update.removed, c, mt)
    {
      var created := AddIndirectClients(update.added, mt, c, now);
      var removed := DropIndirectClients(update.removed, mt, c);
      if created || removed {
        UpdateSizeMetrics();
      }
    }

    /** Drops a client's links via a multi-topic to all recorded subtopics, which it returns in any order. */
    method RemoveIndirectSubscriptions(mt: ParsedTopic, c: ClientId) returns (subtopics: seq<ParsedTopic>)
      requires Valid()
      modifies this
      ensures Valid()
      ensures Enumerates(subtopics, Subtopics(old(topics), mt))
      ensures topics == DropLinkSet(old(topics), Subtopics(old(topics), mt), c, mt)
    {
      subtopics := Collect(if mt in topics then topics[mt].subtopics else {});
      DroppedInAnyOrder(topics, subtopics, c, mt);
      var changed := DropIndirectClients(subtopics, mt, c);
      if changed {
        UpdateSizeMetrics();
      }
    }

    /** Looking only at the topics indexed under the key's address gives the full scan of all topics. */
    method MultitopicsGaining(s: ParsedTopic) returns (gaining: seq<Gain>)
      requires Valid() && s.kind.Single?
      ensures Enumerates(GainTopics(gaining), Gaining(topics, s))
      ensures forall g :: g in gaining ==> GainOf(topics, s, g)
      ensures forall mt :: mt in GainTopics(gaining) <==>
                && mt in topics && topics[mt].clients != map[]
                && topics[mt].filter.Some? && FilterMatches(topics[mt].filter.value, s.kind.single)
                && s !in topics[mt].subtopics && |topics[mt].subtopics| < MAX_SUBTOPICS
    {
      gaining := [];
      var candidates := if s.kind.single.address in byAddress then byAddress[s.kind.single.address] else {};
      NothingElseGains(topics, byAddress, s);
      var m, rest := topics, candidates;
      while rest != {}
        invariant rest <= candidates
        invariant Collected(m, s, gaining, candidates - rest)
        decreases |rest|
      {
        var mt :| mt in rest;
        TakeOne(candidates, rest, mt);
        var gains := DoesGain(mt, s);
        if gains {
          CollectedOneMore(m, s, gaining, candidates - rest, mt);
          gaining := gaining + [Gain(mt, m[mt].subtopics + {s}, m[mt].clients)];
        } else {
          CollectedNoMore(m, s, gaining, candidates - rest, mt);
        }
        rest := rest - {mt};
      }
      AllCollected(m, s, gaining, candidates - rest);
      assert forall mt :: mt in GainTopics(gaining) <==> mt in Elems(GainTopics(gaining));
    }

    /** The checks on one candidate. */
    method DoesGain(mt: ParsedTopic, s: ParsedTopic) returns (r: bool)
      requires s.kind.Single?
      ensures r <==> mt in topics && Gains(topics, mt, s)
    {
      if mt !in topics || topics[mt].filter.None? {
        return false;
      }
      var info := topics[mt];
      if info.clients == map[] || s in info.subtopics || |info.subtopics| >= MAX_SUBTOPICS {
        return false;
      }
      r := Matches(info.filter.value, s.kind.single);
    }

    method AnyMultitopicGaining(s: ParsedTopic) returns (r: bool)
      requires Valid() && s.kind.Single?
      ensures r <==> Gaining(topics, s) != {}
      ensures r <==> exists mt ::
                && mt in topics && topics[mt].clients != map[]
                && topics[mt].filter.Some? && FilterMatches(topics[mt].filter.value, s.kind.single)
                && s !in topics[mt].subtopics && |topics[mt].subtopics| < MAX_SUBTOPICS
    {
      var rest := if s.kind.single.address in byAddress then byAddress[s.kind.single.address] else {};
      NothingElseGains(topics, byAddress, s);
      while rest != {}
        invariant forall mt :: mt in Gaining(topics, s) ==> mt in rest
        decreases |rest|
      {
        var mt :| mt in rest;
        var gains := DoesGain(mt, s);
        if gains {
          assert mt in Gaining(topics, s);
          return true;
        }
        rest := rest - {mt};
      }
      assert forall mt :: mt in topics ==> (mt in Gaining(topics, s) <==> Gains(topics, mt, s));
      r := false;
    }

    method RefreshTopic(t: ParsedTopic, time: int)
      requires Valid()
      modifies this
      ensures Valid() && topics == Refreshed(old(topics), t, time)
    {
      if t in topics && topics[t].lastRefresh < time {
        SizeWith(topics, t, topics[t].(lastRefresh := time));
        SetInfo(t, topics[t].(lastRefresh := time));
      }
    }
  }

  // ----- Lists of changes -----

  datatype MultitopicUpdate = MultitopicUpdate(added: seq<ParsedTopic>, removed: seq<ParsedTopic>)

  /** A multi-topic that gains a key, its new subtopic set and its direct subscribers. */
  datatype Gain = Gain(multitopic: ParsedTopic, subtopics: set<ParsedTopic>, clients: map<ClientId, Key>)

  ghost predicate GainOf(m: TopicMap, s: ParsedTopic, g: Gain) {
    && g.multitopic in m
    && g.subtopics == m[g.multitopic].subtopics + {s}
    && g.clients == m[g.multitopic].clients
  }

  ghost function GainTopics(gaining: seq<Gain>): seq<ParsedTopic> {
    if gaining == [] then [] else GainTopics(gaining[..|gaining| - 1]) + [gaining[|gaining| - 1].multitopic]
  }

  /** The gains among the multi-topics examined so far. */
  ghost predicate Collected(m: TopicMap, s: ParsedTopic, gaining: seq<Gain>, examined: set<ParsedTopic>) {
    && Enumerates(GainTopics(gaining), examined * Gaining(m, s))
    && forall g :: g in gaining ==> GainOf(m, s, g)
  }

  lemma CollectedOneMore(m: TopicMap, s: ParsedTopic, gaining: seq<Gain>, examined: set<ParsedTopic>, mt: ParsedTopic)
    requires Collected(m, s, gaining, examined) && mt !in examined && mt in Gaining(m, s)
    ensures Collected(m, s, gaining + [Gain(mt, m[mt].subtopics + {s}, m[mt].clients)], examined + {mt})
  {
    var found := examined * Gaining(m, s);
    OneMoreGain(gaining, Gain(mt, m[mt].subtopics + {s}, m[mt].clients), found);
    assert (examined + {mt}) * Gaining(m, s) == found + {mt};
  }

  lemma CollectedNoMore(m: TopicMap, s: ParsedTopic, gaining: seq<Gain>, examined: set<ParsedTopic>, mt: ParsedTopic)
    requires Collected(m, s, gaining, examined) && mt !in Gaining(m, s)
    ensures Collected(m, s, gaining, examined + {mt})
  {
    assert (examined + {mt}) * Gaining(m, s) == examined * Gaining(m, s);
  }

  lemma AllCollected(m: TopicMap, s: ParsedTopic, gaining: seq<Gain>, examined: set<ParsedTopic>)
    requires Collected(m, s, gaining, examined) && Gaining(m, s) <= examined
    ensures Enumerates(GainTopics(gaining), Gaining(m, s))
  {
    assert examined * Gaining(m, s) == Gaining(m, s);
  }

  lemma TakeOne<T>(all: set<T>, rest: set<T>, x: T)
    requires x in rest && rest <= all
    ensures all - (rest - {x}) == (all - rest) + {x}
  {
  }

  lemma OneMoreGain(gaining: seq<Gain>, g: Gain, elements: set<ParsedTopic>)
    requires Enumerates(GainTopics(gaining), elements) && g.multitopic !in elements
    ensures Enumerates(GainTopics(gaining + [g]), elements + {g.multitopic})
  {
    assert (gaining + [g])[..|gaining|] == gaining;
    EnumeratesSnoc(GainTopics(gaining), elements, g.multitopic);
  }

  /** A topic that gains is indexed under the address of the key. */
  lemma NothingElseGains(m: TopicMap, index: AddressIndex, s: ParsedTopic)
    requires IndexAgrees(m, index) && s.kind.Single?
    ensures forall mt :: mt in Gaining(m, s) ==> Indexed(index, s.kind.single.address, mt)
  {
    forall mt | mt in Gaining(m, s) ensures Indexed(index, s.kind.single.address, mt) {
      assert FilterNames(m, s.kind.single.address, mt);
    }
  }

  /** The elements of a set in any order. */
  method Collect<T(==)>(elements: set<T>) returns (list: seq<T>)
    ensures Enumerates(list, elements)
  {
    list := [];
    var rest := elements;
    while rest != {}
      invariant rest <= elements && Enumerates(list, elements - rest)
      decreases |rest|
    {
      var x :| x in rest;
      EnumeratesSnoc(list, elements - rest, x);
      assert elements - (rest - {x}) == (elements - rest) + {x};
      list := list + [x];
      rest := rest - {x};
    }
    assert elements - rest == elements;
  }
}
