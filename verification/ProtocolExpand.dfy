/**
 Expansion: a new concrete topic is added to every multi-topic that gains it, for
 every subscriber below its cap.
 */
module ProtocolExpand {
  import opened Numbers
  import opened Text
  import opened Registry
  import opened Subscribers
  import opened Protocol
  import opened ProtocolInvariant

  // ----- One multi-topic -----

  lemma WithLinksEffect(info: KeyInfo, accepted: set<ClientId>, mt: ParsedTopic) returns (after: KeyInfo)
    ensures after == WithLinks(info, accepted, mt)
    ensures forall d, p :: d in after.indirect && p in after.indirect[d]
              <==> (d in info.indirect && p in info.indirect[d]) || (d in accepted && p == mt)
    ensures accepted != {} ==> after.indirect != map[]
    ensures (forall d :: d in info.indirect ==> info.indirect[d] != {})
              ==> forall d :: d in after.indirect ==> after.indirect[d] != {}
  {
    after := WithLinks(info, accepted, mt);
    if accepted != {} {
      var d := SomeMember(accepted);
      assert d in after.indirect;
    }
  }

  lemma LinkAllEffect(m: TopicMap, s: ParsedTopic, accepted: set<ClientId>, mt: ParsedTopic, now: int)
    returns (n: TopicMap)
    requires accepted != {}
    ensures n == LinkAll(m, s, accepted, mt, now)
    ensures SameDirect(m, n) && SameSubtopics(m, n)
    ensures forall x, d, p :: Linked(n, x, d, p) <==> Linked(m, x, d, p) || (x == s && d in accepted && p == mt)
    ensures EntriesOk(m) ==> EntriesOk(n)
    ensures forall x :: x != s ==> (x in n <==> x in m) && (x in m ==> n[x] == m[x])
  {
    var after := WithLinksEffect(Lookup(m, s, now), accepted, mt);
    n := LinkAll(m, s, accepted, mt, now);
  }

  lemma MoreSubtopics(m: TopicMap, mt: ParsedTopic, s: ParsedTopic)
    requires RegistryOk(m) && Gains(m, mt, s)
    ensures SubtopicsOk(mt, m[mt].subtopics + {s})
    ensures mt.kind.Multi? && mt != s
  {
    CountAdded(m[mt].subtopics, m[mt].subtopics + {s}, s);
    assert EntryOk(mt, m[mt]);
    assert SubtopicsOk(mt, Subtopics(m, mt));
  }

  /** What one expansion does to the registry. */
  ghost predicate Expanded(m: TopicMap, n: TopicMap, s: ParsedTopic, mt: ParsedTopic, accepted: set<ClientId>) {
    && SameDirect(m, n)
    && (forall x, d, p :: Linked(n, x, d, p) <==> Linked(m, x, d, p) || (x == s && d in accepted && p == mt))
    && (forall x :: Subtopics(n, x) == Subtopics(m, x) + if x == mt && accepted != {} then {s} else {})
    && (forall x :: x != s && x != mt ==> (x in n <==> x in m) && (x in m ==> n[x] == m[x]))
  }

  lemma ExpandedTopics(m: TopicMap, s: ParsedTopic, mt: ParsedTopic, accepted: set<ClientId>, now: int)
    returns (n: TopicMap)
    requires EntriesOk(m) && mt in m && mt != s && accepted != {}
    ensures n == LinkAll(UpdateMultitopicInfo(m, mt, m[mt].subtopics + {s}, now), s, accepted, mt, now)
    ensures EntriesOk(n) && Expanded(m, n, s, mt, accepted)
  {
    var between := UpdateMultitopicInfoEffect(m, mt, m[mt].subtopics + {s}, now);
    n := LinkAllEffect(between, s, accepted, mt, now);
  }

  lemma ExpandedRegistryOk(m: TopicMap, n: TopicMap, s: ParsedTopic, mt: ParsedTopic, accepted: set<ClientId>)
    requires RegistryOk(m) && Gains(m, mt, s) && EntriesOk(n) && Expanded(m, n, s, mt, accepted)
    ensures RegistryOk(n)
  {
    MoreSubtopics(m, mt, s);
    forall t ensures SubtopicsOk(t, Subtopics(n, t)) {
      assert SubtopicsOk(t, Subtopics(m, t));
      assert t != mt ==> Subtopics(n, t) == Subtopics(m, t);
    }
  }

  lemma ExpandOneTopics(w: World, s: ParsedTopic, mt: ParsedTopic, max: nat, now: int)
    requires RegistryOk(w.topics) && Gains(w.topics, mt, s)
    ensures var n := ExpandOne(w, s, mt, max, now).topics;
            RegistryOk(n) && Expanded(w.topics, n, s, mt, Accepting(w, mt, max))
  {
    MoreSubtopics(w.topics, mt, s);
    if Accepting(w, mt, max) == {} {
      NobodyAccepts(w.topics, s, mt);
    } else {
      var n := ExpandedTopics(w.topics, s, mt, Accepting(w, mt, max), now);
      ExpandedRegistryOk(w.topics, n, s, mt, Accepting(w, mt, max));
    }
  }

  lemma NobodyAccepts(m: TopicMap, s: ParsedTopic, mt: ParsedTopic)
    ensures Expanded(m, m, s, mt, {})
  {
  }

  /** What one expansion does to a connection. */
  ghost predicate Grown(a: Connection, b: Connection, s: ParsedTopic, mt: ParsedTopic, gained: bool) {
    && b.phase == a.phase
    && SubscriberOk(b.sub)
    && DirectTopics(b.sub) == DirectTopics(a.sub)
    && (forall x :: HasDirect(b.sub, x) <==> HasDirect(a.sub, x))
    && (forall x, p :: HasSource(b.sub, x, p) <==> HasSource(a.sub, x, p) || (gained && x == s && p == mt))
    && b.sub.indirectCount == a.sub.indirectCount + if gained && !HasSource(a.sub, s, mt) then 1 else 0
  }

  lemma ExpandOneClient(w: World, s: ParsedTopic, mt: ParsedTopic, max: nat, now: int, c: ClientId)
    requires mt in w.topics && c in w.clients && SubscriberOk(w.clients[c].sub)
    ensures var x := ExpandOne(w, s, mt, max, now);
            c in x.clients && Grown(w.clients[c], x.clients[c], s, mt, c in Accepting(w, mt, max))
  {
    if c in Accepting(w, mt, max) {
      var v := AddIndirectEffect(w.clients[c].sub, s, mt, w.topics[mt].clients[c]);
    }
  }

  lemma GrownConnectionOk(
      m: TopicMap, n: TopicMap, s: ParsedTopic, mt: ParsedTopic, accepted: set<ClientId>,
      c: ClientId, a: Connection, b: Connection, caps: Caps)
    requires ConnectionOk(m, c, a, caps)
    requires Expanded(m, n, s, mt, accepted) && Grown(a, b, s, mt, c in accepted)
    requires c in accepted ==> Direct(m, mt, c) && a.sub.indirectCount < caps.maxIndirect
    ensures ConnectionOk(n, c, b, caps)
  {
    if !a.phase.Cleaned? {
      assert Mirror(n, c, b.sub);
    }
  }

  lemma ExpandOneKeeps(w: World, s: ParsedTopic, mt: ParsedTopic, now: int, caps: Caps)
    requires Inv(w, caps) && Gains(w.topics, mt, s)
    ensures Inv(ExpandOne(w, s, mt, caps.maxIndirect, now), caps)
  {
    var x, accepted := ExpandOne(w, s, mt, caps.maxIndirect, now), Accepting(w, mt, caps.maxIndirect);
    var m, n := w.topics, x.topics;
    ExpandOneTopics(w, s, mt, caps.maxIndirect, now);
    forall c | c in x.clients ensures ConnectionOk(n, c, x.clients[c], caps) {
      ExpandOneClient(w, s, mt, caps.maxIndirect, now, c);
      GrownConnectionOk(m, n, s, mt, accepted, c, w.clients[c], x.clients[c], caps);
    }
    assert x.clients.Keys == w.clients.Keys;
    forall c | c !in x.clients ensures NoDirect(n, c) {
      assert NoDirect(m, c);
    }
  }

  // ----- All multi-topics, in any order -----

  /** Links that client `c` still lacks for the multi-topics of a list. */
  ghost function NewLinks(m: TopicMap, s: ParsedTopic, order: seq<ParsedTopic>, c: ClientId): nat {
    if order == [] then 0
    else
      var mt := order[|order| - 1];
      NewLinks(m, s, order[..|order| - 1], c) + if Direct(m, mt, c) && !Linked(m, s, c, mt) then 1 else 0
  }

  /** Whether `c` is below its cap when the turn comes to the `i`-th multi-topic. */
  ghost predicate Accepts(w: World, s: ParsedTopic, order: seq<ParsedTopic>, i: nat, c: ClientId, max: nat)
    requires i < |order|
  {
    && Direct(w.topics, order[i], c) && c in w.clients
    && w.clients[c].sub.indirectCount + NewLinks(w.topics, s, order[..i], c) < max
  }

  /** Somebody accepts `s` at turn `i`. */
  ghost predicate Accepted(w: World, s: ParsedTopic, order: seq<ParsedTopic>, i: nat, max: nat)
    requires i < |order|
  {
    exists c :: Accepts(w, s, order, i, c, max)
  }

  /** Client `c` takes `s` via `mt`, one of the first `n` multi-topics. */
  ghost predicate Took(w: World, s: ParsedTopic, order: seq<ParsedTopic>, n: nat, c: ClientId, mt: ParsedTopic, max: nat)
    requires n <= |order|
  {
    exists i :: 0 <= i < n && order[i] == mt && Accepts(w, s, order, i, c, max)
  }

  ghost predicate Recorded(w: World, s: ParsedTopic, order: seq<ParsedTopic>, n: nat, mt: ParsedTopic, max: nat)
    requires n <= |order|
  {
    exists c :: Took(w, s, order, n, c, mt, max)
  }

  ghost predicate ClientUpTo(w: World, x: World, s: ParsedTopic, order: seq<ParsedTopic>, n: nat, c: ClientId, max: nat)
    requires n <= |order| && c in w.clients && c in x.clients
  {
    && x.clients[c].phase == w.clients[c].phase
    && (forall t :: HasDirect(x.clients[c].sub, t) <==> HasDirect(w.clients[c].sub, t))
    && x.clients[c].sub.indirectCount
         == Min(max, w.clients[c].sub.indirectCount + NewLinks(w.topics, s, order[..n], c))
    && ((forall i :: 0 <= i < n ==> !Accepts(w, s, order, i, c, max)) ==> x.clients[c] == w.clients[c])
  }

  ghost predicate TopicsUpTo(w: World, m: TopicMap, s: ParsedTopic, order: seq<ParsedTopic>, n: nat, max: nat)
    requires n <= |order|
  {
    && SameDirect(w.topics, m)
    && (forall y, c, p :: Linked(m, y, c, p) <==> Linked(w.topics, y, c, p) || (y == s && Took(w, s, order, n, c, p, max)))
    && (forall p :: Subtopics(m, p) == Subtopics(w.topics, p) + if Recorded(w, s, order, n, p, max) then {s} else {})
    && (forall y :: y != s && y !in order[..n] ==> (y in m <==> y in w.topics) && (y in m ==> m[y] == w.topics[y]))
  }

  /** The exact effect of the first `n` expansions. */
  ghost predicate ExpandedUpTo(w: World, x: World, s: ParsedTopic, order: seq<ParsedTopic>, n: nat, max: nat)
    requires n <= |order|
  {
    && x.nextId == w.nextId && x.clients.Keys == w.clients.Keys
    && TopicsUpTo(w, x.topics, s, order, n, max)
    && forall c :: c in w.clients ==> ClientUpTo(w, x, s, order, n, c, max)
  }

  ghost predicate AllGain(m: TopicMap, s: ParsedTopic, order: seq<ParsedTopic>) {
    && (forall mt :: mt in order ==> Gains(m, mt, s))
    && forall i, j :: 0 <= i < j < |order| ==> order[i] != order[j]
  }

  lemma TookOneMore(w: World, s: ParsedTopic, order: seq<ParsedTopic>, n: nat, c: ClientId, mt: ParsedTopic, max: nat)
    requires n < |order|
    ensures Took(w, s, order, n + 1, c, mt, max)
       <==> Took(w, s, order, n, c, mt, max) || (mt == order[n] && Accepts(w, s, order, n, c, max))
  {
  }

  lemma RecordedOneMore(
      w: World, s: ParsedTopic, order: seq<ParsedTopic>, n: nat, mt: ParsedTopic, accepted: set<ClientId>, max: nat)
    requires n < |order|
    requires forall c :: c in accepted <==> Accepts(w, s, order, n, c, max)
    ensures Recorded(w, s, order, n + 1, mt, max)
       <==> Recorded(w, s, order, n, mt, max) || (mt == order[n] && accepted != {})
  {
    if Recorded(w, s, order, n + 1, mt, max) {
      var c :| Took(w, s, order, n + 1, c, mt, max);
      TookOneMore(w, s, order, n, c, mt, max);
      assert Took(w, s, order, n, c, mt, max) || c in accepted;
    }
    if Recorded(w, s, order, n, mt, max) {
      var c :| Took(w, s, order, n, c, mt, max);
      assert Took(w, s, order, n + 1, c, mt, max);
    }
    if mt == order[n] && accepted != {} {
      var c := SomeMember(accepted);
      assert Took(w, s, order, n + 1, c, mt, max);
    }
  }

  lemma NewLinksOneMore(m: TopicMap, s: ParsedTopic, order: seq<ParsedTopic>, n: nat, c: ClientId)
    requires n < |order|
    ensures NewLinks(m, s, order[..n + 1], c)
         == NewLinks(m, s, order[..n], c) + if Direct(m, order[n], c) && !Linked(m, s, c, order[n]) then 1 else 0
  {
    assert order[..n + 1][..n] == order[..n];
  }

  /** Its turn comes: the multi-topic is still as it was, and exactly those below their cap accept. */
  lemma TurnOf(w: World, x: World, s: ParsedTopic, order: seq<ParsedTopic>, n: nat, caps: Caps)
    requires Inv(w, caps) && AllGain(w.topics, s, order) && n < |order|
    requires ExpandedUpTo(w, x, s, order, n, caps.maxIndirect)
    ensures Gains(x.topics, order[n], s)
    ensures forall c :: c in Accepting(x, order[n], caps.maxIndirect) <==> Accepts(w, s, order, n, c, caps.maxIndirect)
  {
    var mt := order[n];
    MoreSubtopics(w.topics, mt, s);
    assert mt !in order[..n];
    assert x.topics[mt] == w.topics[mt];
    forall c ensures c in Accepting(x, mt, caps.maxIndirect) <==> Accepts(w, s, order, n, c, caps.maxIndirect) {
      if c in w.clients {
        assert ClientUpTo(w, x, s, order, n, c, caps.maxIndirect);
      }
    }
  }

  lemma {:induction false} ExpandAllUpTo(w: World, s: ParsedTopic, order: seq<ParsedTopic>, n: nat, now: int, caps: Caps)
    returns (x: World)
    requires Inv(w, caps) && AllGain(w.topics, s, order) && n <= |order|
    ensures x == ExpandAll(w, s, order[..n], caps.maxIndirect, now)
    ensures Inv(x, caps) && ExpandedUpTo(w, x, s, order, n, caps.maxIndirect)
    decreases n
  {
    if n == 0 {
      x := w;
      NothingExpanded(w, s, order, caps);
    } else {
      var before := ExpandAllUpTo(w, s, order, n - 1, now, caps);
      assert order[..n][..n - 1] == order[..n - 1];
      TurnOf(w, before, s, order, n - 1, caps);
      ExpandOneKeeps(before, s, order[n - 1], now, caps);
      ExpandOneExact(w, before, s, order, n - 1, now, caps);
      x := ExpandOne(before, s, order[n - 1], caps.maxIndirect, now);
    }
  }

  lemma NothingExpanded(w: World, s: ParsedTopic, order: seq<ParsedTopic>, caps: Caps)
    requires Inv(w, caps)
    ensures ExpandedUpTo(w, w, s, order, 0, caps.maxIndirect)
  {
    forall c | c in w.clients ensures ClientUpTo(w, w, s, order, 0, c, caps.maxIndirect) {
      assert ConnectionOk(w.topics, c, w.clients[c], caps);
    }
  }

  lemma ExpandOneExact(w: World, before: World, s: ParsedTopic, order: seq<ParsedTopic>, n: nat, now: int, caps: Caps)
    requires Inv(w, caps) && AllGain(w.topics, s, order) && n < |order|
    requires Inv(before, caps) && ExpandedUpTo(w, before, s, order, n, caps.maxIndirect)
    requires Gains(before.topics, order[n], s)
    requires forall c :: c in Accepting(before, order[n], caps.maxIndirect) <==> Accepts(w, s, order, n, c, caps.maxIndirect)
    ensures ExpandedUpTo(w, ExpandOne(before, s, order[n], caps.maxIndirect, now), s, order, n + 1, caps.maxIndirect)
  {
    ExpandOneTopicsExact(w, before, s, order, n, now, caps);
    ExpandOneFrame(before, s, order[n], caps.maxIndirect, now);
    forall c | c in w.clients
      ensures ClientUpTo(w, ExpandOne(before, s, order[n], caps.maxIndirect, now), s, order, n + 1, c, caps.maxIndirect)
    {
      ExpandOneClientExact(w, before, s, order, n, now, c, caps);
    }
  }

  lemma ExpandOneFrame(w: World, s: ParsedTopic, mt: ParsedTopic, max: nat, now: int)
    requires mt in w.topics
    ensures var x := ExpandOne(w, s, mt, max, now);
            x.nextId == w.nextId && x.clients.Keys == w.clients.Keys
  {
  }

  lemma ExpandOneTopicsExact(
      w: World, before: World, s: ParsedTopic, order: seq<ParsedTopic>, n: nat, now: int, caps: Caps)
    requires n < |order| && Gains(before.topics, order[n], s) && RegistryOk(before.topics)
    requires TopicsUpTo(w, before.topics, s, order, n, caps.maxIndirect)
    requires forall c :: c in Accepting(before, order[n], caps.maxIndirect) <==> Accepts(w, s, order, n, c, caps.maxIndirect)
    ensures TopicsUpTo(w, ExpandOne(before, s, order[n], caps.maxIndirect, now).topics, s, order, n + 1, caps.maxIndirect)
  {
    var x := ExpandOne(before, s, order[n], caps.maxIndirect, now);
    ExpandOneTopics(before, s, order[n], caps.maxIndirect, now);
    TopicsOneMore(w, before.topics, x.topics, s, order, n, Accepting(before, order[n], caps.maxIndirect), caps.maxIndirect);
  }

  lemma ExpandOneClientExact(
      w: World, before: World, s: ParsedTopic, order: seq<ParsedTopic>, n: nat, now: int, c: ClientId, caps: Caps)
    requires n < |order| && Gains(before.topics, order[n], s)
    requires Inv(before, caps) && ExpandedUpTo(w, before, s, order, n, caps.maxIndirect)
    requires AllGain(w.topics, s, order)
    requires c in Accepting(before, order[n], caps.maxIndirect) <==> Accepts(w, s, order, n, c, caps.maxIndirect)
    requires c in w.clients && c in before.clients
    ensures var x := ExpandOne(before, s, order[n], caps.maxIndirect, now);
            c in x.clients && ClientUpTo(w, x, s, order, n + 1, c, caps.maxIndirect)
  {
    var x := ExpandOne(before, s, order[n], caps.maxIndirect, now);
    assert ClientUpTo(w, before, s, order, n, c, caps.maxIndirect);
    assert ConnectionOk(before.topics, c, before.clients[c], caps);
    ExpandOneClient(before, s, order[n], caps.maxIndirect, now, c);
    if Accepts(w, s, order, n, c, caps.maxIndirect) {
      LinkNotYetTaken(w, before.topics, s, order, n, c, before.clients[c], caps);
    }
    ClientOneMore(w, before, x, s, order, n, c, caps.maxIndirect);
  }

  /** No earlier turn has given the link of this turn. */
  lemma LinkNotYetTaken(
      w: World, m: TopicMap, s: ParsedTopic, order: seq<ParsedTopic>, n: nat, c: ClientId, conn: Connection, caps: Caps)
    requires AllGain(w.topics, s, order) && n < |order| && Direct(w.topics, order[n], c)
    requires TopicsUpTo(w, m, s, order, n, caps.maxIndirect) && ConnectionOk(m, c, conn, caps)
    ensures HasSource(conn.sub, s, order[n]) <==> Linked(w.topics, s, c, order[n])
  {
    assert Direct(m, order[n], c);
    assert !Took(w, s, order, n, c, order[n], caps.maxIndirect);
  }

  lemma TopicsOneMore(
      w: World, m: TopicMap, n: TopicMap, s: ParsedTopic, order: seq<ParsedTopic>, i: nat, accepted: set<ClientId>, max: nat)
    requires i < |order| && TopicsUpTo(w, m, s, order, i, max)
    requires forall c :: c in accepted <==> Accepts(w, s, order, i, c, max)
    requires Expanded(m, n, s, order[i], accepted)
    ensures TopicsUpTo(w, n, s, order, i + 1, max)
  {
    forall c, p ensures Took(w, s, order, i + 1, c, p, max)
                   <==> Took(w, s, order, i, c, p, max) || (p == order[i] && c in accepted) {
      TookOneMore(w, s, order, i, c, p, max);
    }
    forall p ensures Recorded(w, s, order, i + 1, p, max)
                <==> Recorded(w, s, order, i, p, max) || (p == order[i] && accepted != {}) {
      RecordedOneMore(w, s, order, i, p, accepted, max);
    }
    assert order[..i + 1] == order[..i] + [order[i]];
  }

  lemma ClientOneMore(
      w: World, before: World, x: World, s: ParsedTopic, order: seq<ParsedTopic>, n: nat, c: ClientId, max: nat)
    requires n < |order| && c in w.clients && c in before.clients && c in x.clients
    requires ClientUpTo(w, before, s, order, n, c, max)
    requires Grown(before.clients[c], x.clients[c], s, order[n], Accepts(w, s, order, n, c, max))
    requires !Accepts(w, s, order, n, c, max) ==> x.clients[c] == before.clients[c]
    requires Accepts(w, s, order, n, c, max) ==>
               (HasSource(before.clients[c].sub, s, order[n]) <==> Linked(w.topics, s, c, order[n]))
    ensures ClientUpTo(w, x, s, order, n + 1, c, max)
  {
    NewLinksOneMore(w.topics, s, order, n, c);
  }

  // ----- The event -----

  lemma {:induction false} NewLinksGrow(m: TopicMap, s: ParsedTopic, order: seq<ParsedTopic>, i: nat, c: ClientId)
    requires i <= |order|
    ensures NewLinks(m, s, order[..i], c) <= NewLinks(m, s, order, c)
    decreases |order| - i
  {
    if i == |order| {
      assert order[..i] == order;
    } else {
      NewLinksOneMore(m, s, order, i, c);
      NewLinksGrow(m, s, order, i + 1, c);
    }
  }

  lemma EnabledExpandGains(w: World, s: ParsedTopic, order: seq<ParsedTopic>)
    requires Enumerates(order, Gaining(w.topics, s))
    ensures AllGain(w.topics, s, order)
  {
    NoneTwice(order);
    forall mt | mt in order ensures Gains(w.topics, mt, s) {
      assert mt in Elems(order);
    }
  }

  /**
   The exact effect of an expansion, in whatever order the gaining multi-topics come:
   who gains which link, which multi-topics record the key, what each client's count
   becomes; and that the invariant is kept.
   */
  lemma ExpansionIsExact(w: World, e: Event, caps: Caps)
    requires Inv(w, caps) && e.Expand? && Enabled(w, e, caps)
    ensures Inv(Next(w, e, caps), caps)
    ensures AllGain(w.topics, e.s, e.order)
    ensures ExpandedUpTo(w, Next(w, e, caps), e.s, e.order, |e.order|, caps.maxIndirect)
  {
    EnabledExpandGains(w, e.s, e.order);
    var x := ExpandAllUpTo(w, e.s, e.order, |e.order|, e.now, caps);
    assert e.order[..|e.order|] == e.order;
  }

  /** Every subscriber of a gaining multi-topic gains the link on both sides, or is at its cap. */
  lemma GainedOrAtCap(w: World, e: Event, caps: Caps, mt: ParsedTopic, c: ClientId)
    requires Inv(w, caps) && e.Expand? && Enabled(w, e, caps)
    requires mt in Gaining(w.topics, e.s) && Direct(w.topics, mt, c)
    ensures var x := Next(w, e, caps);
            && c in x.clients
            && ((Linked(x.topics, e.s, c, mt) && HasSource(x.clients[c].sub, e.s, mt))
                || x.clients[c].sub.indirectCount == caps.maxIndirect)
  {
    ExpansionIsExact(w, e, caps);
    assert mt in Elems(e.order);
    var i :| 0 <= i < |e.order| && e.order[i] == mt;
    SubscriberIsConnected(w, mt, c, caps);
    GainedOrAtCapAt(w, Next(w, e, caps), e.s, e.order, i, c, caps);
  }

  lemma SubscriberIsConnected(w: World, t: ParsedTopic, c: ClientId, caps: Caps)
    requires Inv(w, caps) && Direct(w.topics, t, c)
    ensures c in w.clients && !w.clients[c].phase.Cleaned?
  {
    assert c !in w.clients ==> NoDirect(w.topics, c);
    assert c in w.clients ==> ConnectionOk(w.topics, c, w.clients[c], caps);
  }

  lemma GainedOrAtCapAt(w: World, x: World, s: ParsedTopic, order: seq<ParsedTopic>, i: nat, c: ClientId, caps: Caps)
    requires i < |order| && c in w.clients && Direct(w.topics, order[i], c)
    requires Inv(x, caps) && ExpandedUpTo(w, x, s, order, |order|, caps.maxIndirect)
    ensures c in x.clients
    ensures (Linked(x.topics, s, c, order[i]) && HasSource(x.clients[c].sub, s, order[i]))
            || x.clients[c].sub.indirectCount == caps.maxIndirect
  {
    assert order[..|order|] == order;
    assert ClientUpTo(w, x, s, order, |order|, c, caps.maxIndirect);
    if Accepts(w, s, order, i, c, caps.maxIndirect) {
      assert Took(w, s, order, |order|, c, order[i], caps.maxIndirect);
      assert Direct(x.topics, order[i], c);
      SubscriberIsConnected(x, order[i], c, caps);
      assert ConnectionOk(x.topics, c, x.clients[c], caps);
    } else {
      RefusedIsAtCap(w, x, s, order, i, c, caps.maxIndirect);
    }
  }

  /** A subscriber that refuses at some turn is at the cap in the end. */
  lemma RefusedIsAtCap(w: World, x: World, s: ParsedTopic, order: seq<ParsedTopic>, i: nat, c: ClientId, max: nat)
    requires i < |order| && c in w.clients && Direct(w.topics, order[i], c)
    requires ExpandedUpTo(w, x, s, order, |order|, max) && !Accepts(w, s, order, i, c, max)
    ensures c in x.clients && x.clients[c].sub.indirectCount == max
  {
    assert order[..|order|] == order;
    assert ClientUpTo(w, x, s, order, |order|, c, max);
    NewLinksGrow(w.topics, s, order, i, c);
  }

  lemma TookAtTurn(w: World, s: ParsedTopic, order: seq<ParsedTopic>, i: nat, c: ClientId, max: nat)
    requires i < |order| && AllGain(w.topics, s, order)
    ensures Took(w, s, order, |order|, c, order[i], max) <==> Accepts(w, s, order, i, c, max)
  {
    if Took(w, s, order, |order|, c, order[i], max) {
      var j :| 0 <= j < |order| && order[j] == order[i] && Accepts(w, s, order, j, c, max);
      assert !(i < j) && !(j < i);
    }
  }

  lemma RecordedAtTurn(w: World, x: World, s: ParsedTopic, order: seq<ParsedTopic>, i: nat, max: nat)
    requires i < |order| && AllGain(w.topics, s, order) && ExpandedUpTo(w, x, s, order, |order|, max)
    ensures s in Subtopics(x.topics, order[i]) <==> Accepted(w, s, order, i, max)
    ensures !Accepted(w, s, order, i, max) ==>
              forall c :: Direct(w.topics, order[i], c) && c in w.clients ==>
                c in x.clients && x.clients[c].sub.indirectCount == max
    ensures (forall c :: !Linked(w.topics, s, c, order[i])) ==>
              (Accepted(w, s, order, i, max) <==> exists c :: Linked(x.topics, s, c, order[i]))
  {
    assert Gains(w.topics, order[i], s);
    assert TopicsUpTo(w, x.topics, s, order, |order|, max);
    forall c ensures Took(w, s, order, |order|, c, order[i], max) <==> Accepts(w, s, order, i, c, max) {
      TookAtTurn(w, s, order, i, c, max);
    }
    if Accepted(w, s, order, i, max) {
      var c :| Accepts(w, s, order, i, c, max);
      assert Took(w, s, order, |order|, c, order[i], max);
      assert Linked(x.topics, s, c, order[i]);
    } else {
      forall c | Direct(w.topics, order[i], c) && c in w.clients
        ensures c in x.clients && x.clients[c].sub.indirectCount == max
      {
        RefusedIsAtCap(w, x, s, order, i, c, max);
      }
    }
  }

  /**
   A gaining multi-topic records the key exactly when, at its turn, one of its subscribers
   is below the cap; so one that does not record it has all its subscribers at the cap.
   Where no link to the key is left from before, it is recorded exactly when somebody gains it.
   */
  lemma RecordedIffGained(w: World, e: Event, caps: Caps, i: nat)
    requires Inv(w, caps) && e.Expand? && Enabled(w, e, caps) && i < |e.order|
    ensures var x, mt := Next(w, e, caps), e.order[i];
            && (e.s in Subtopics(x.topics, mt) <==> Accepted(w, e.s, e.order, i, caps.maxIndirect))
            && (e.s !in Subtopics(x.topics, mt) ==>
                  forall c :: Direct(w.topics, mt, c) ==> c in x.clients && x.clients[c].sub.indirectCount == caps.maxIndirect)
            && ((forall c :: !Linked(w.topics, e.s, c, mt)) ==>
                  (e.s in Subtopics(x.topics, mt) <==> exists c :: Linked(x.topics, e.s, c, mt)))
  {
    ExpansionIsExact(w, e, caps);
    RecordedAtTurn(w, Next(w, e, caps), e.s, e.order, i, caps.maxIndirect);
    forall c | Direct(w.topics, e.order[i], c) ensures c in w.clients {
      SubscriberIsConnected(w, e.order[i], c, caps);
    }
  }

  /** Nobody else gains anything, and nobody loses anything. */
  lemma OnlySubscribersGain(w: World, e: Event, caps: Caps, y: ParsedTopic, c: ClientId, p: ParsedTopic)
    requires Inv(w, caps) && e.Expand? && Enabled(w, e, caps)
    ensures var n := Next(w, e, caps).topics;
            && (Linked(w.topics, y, c, p) ==> Linked(n, y, c, p))
            && (Linked(n, y, c, p) && !Linked(w.topics, y, c, p) ==>
                  y == e.s && p in Gaining(w.topics, e.s) && Direct(w.topics, p, c))
  {
    ExpansionIsExact(w, e, caps);
    var x := Next(w, e, caps);
    assert TopicsUpTo(w, x.topics, e.s, e.order, |e.order|, caps.maxIndirect);
    if Linked(x.topics, y, c, p) && !Linked(w.topics, y, c, p) {
      var i :| 0 <= i < |e.order| && e.order[i] == p && Accepts(w, e.s, e.order, i, c, caps.maxIndirect);
      assert p in Elems(e.order);
    }
  }
}
