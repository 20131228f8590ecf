/**
 The shared subscription registry as a value (`ClientIdsByTopics` and `KeyInfo` in
 apps/websocket-api/src/client.rs): what each operation does to the topic map, and
 to the three relations it records.
 */
module Registry {
  import opened Wrappers
  import opened Text
  import opened Topics

  /** Connection numbers, handed out in increasing order. */
  type ClientId = int

  /** The URI under which a client asked for a topic. */
  datatype Key = Key(text: string)

  datatype Kind = Single(single: StateSingle) | Multi(filter: StateMulti) | MultiWithoutFilter | Plain

  /** A topic with what its URI says. */
  datatype ParsedTopic = ParsedTopic(uri: Topic, kind: Kind) {
    predicate IsMulti() {
      kind.Multi? || kind.MultiWithoutFilter?
    }

    function Filter(): Option<StateMulti> {
      if kind.Multi? then Some(kind.filter) else None
    }
  }

  function KindOf(uri: Topic): Kind {
    if IsMultiTopic(uri) then
      var filter := AsStateMulti(uri);
      if filter.Some? then Multi(filter.value) else MultiWithoutFilter
    else
      var single := AsStateSingle(uri);
      if single.Some? then Single(single.value) else Plain
  }

  /** What kind of topic a URI is, told from the URI alone. */
  lemma KindMeaning(uri: Topic)
    ensures forall s :: KindOf(uri) == Single(s) <==> uri == SingleUri(s) && PathSegment(s.address) && PathSegment(s.key)
    ensures KindOf(uri).Multi? || KindOf(uri).MultiWithoutFilter? <==> MULTI_PREFIX <= uri
    ensures forall f :: KindOf(uri) == Multi(f) <==> AsStateMulti(uri) == Some(f)
  {
    FilterMeaning(uri);
    forall s ensures AsStateSingle(uri) == Some(s) <==> uri == SingleUri(s) && PathSegment(s.address) && PathSegment(s.key) {
      SingleRoundTrip(uri, s);
    }
    if AsStateSingle(uri).Some? {
      SingleIsNotMulti(uri);
    }
  }

  datatype KeyInfo = KeyInfo(
    clients: map<ClientId, Key>,
    indirect: map<ClientId, set<ParsedTopic>>,
    subtopics: set<ParsedTopic>,
    filter: Option<StateMulti>,
    lastRefresh: int)

  type TopicMap = map<ParsedTopic, KeyInfo>

  predicate Abandoned(info: KeyInfo) {
    info.clients == map[] && info.indirect == map[]
  }

  // ----- Operations -----

  function NewInfo(t: ParsedTopic, now: int): KeyInfo {
    KeyInfo(map[], map[], {}, t.Filter(), now)
  }

  function Lookup(m: TopicMap, t: ParsedTopic, now: int): KeyInfo {
    if t in m then m[t] else NewInfo(t, now)
  }

  function KeepIfUsed(m: TopicMap, t: ParsedTopic, info: KeyInfo): TopicMap {
    if Abandoned(info) then m - {t} else m[t := info]
  }

  function AddSubscription(m: TopicMap, t: ParsedTopic, c: ClientId, key: Key, now: int): TopicMap {
    var info := Lookup(m, t, now);
    m[t := info.(clients := info.clients[c := key])]
  }

  function RemoveSubscription(m: TopicMap, t: ParsedTopic, c: ClientId): TopicMap {
    if t !in m then m else KeepIfUsed(m, t, m[t].(clients := m[t].clients - {c}))
  }

  function UpdateMultitopicInfo(m: TopicMap, mt: ParsedTopic, subtopics: set<ParsedTopic>, now: int): TopicMap {
    m[mt := Lookup(m, mt, now).(subtopics := subtopics)]
  }

  function WithLink(info: KeyInfo, c: ClientId, mt: ParsedTopic): KeyInfo {
    var parents := if c in info.indirect then info.indirect[c] else {};
    info.(indirect := info.indirect[c := parents + {mt}])
  }

  function WithoutLink(info: KeyInfo, c: ClientId, mt: ParsedTopic): KeyInfo {
    if c !in info.indirect then info
    else if info.indirect[c] - {mt} == {} then info.(indirect := info.indirect - {c})
    else info.(indirect := info.indirect[c := info.indirect[c] - {mt}])
  }

  function AddLink(m: TopicMap, s: ParsedTopic, c: ClientId, mt: ParsedTopic, now: int): TopicMap {
    m[s := WithLink(Lookup(m, s, now), c, mt)]
  }

  function DropLink(m: TopicMap, s: ParsedTopic, c: ClientId, mt: ParsedTopic): TopicMap {
    if s !in m then m else KeepIfUsed(m, s, WithoutLink(m[s], c, mt))
  }

  /** The links of one client via one multi-topic, in the order of a list. */
  function AddLinks(m: TopicMap, subtopics: seq<ParsedTopic>, c: ClientId, mt: ParsedTopic, now: int): TopicMap {
    if subtopics == [] then m
    else AddLink(AddLinks(m, subtopics[..|subtopics| - 1], c, mt, now), subtopics[|subtopics| - 1], c, mt, now)
  }

  function DropLinks(m: TopicMap, subtopics: seq<ParsedTopic>, c: ClientId, mt: ParsedTopic): TopicMap {
    if subtopics == [] then m
    else DropLink(DropLinks(m, subtopics[..|subtopics| - 1], c, mt), subtopics[|subtopics| - 1], c, mt)
  }

  /** A refresh time never moves backwards. */
  function Refreshed(m: TopicMap, t: ParsedTopic, time: int): TopicMap {
    if t in m && m[t].lastRefresh < time then m[t := m[t].(lastRefresh := time)] else m
  }

  // The same on sets: a list in any order gives this map.

  function AddLinkSet(m: TopicMap, subtopics: set<ParsedTopic>, c: ClientId, mt: ParsedTopic, now: int): TopicMap {
    map t | t in m.Keys + subtopics :: if t in subtopics then WithLink(Lookup(m, t, now), c, mt) else m[t]
  }

  function DropLinkSet(m: TopicMap, subtopics: set<ParsedTopic>, c: ClientId, mt: ParsedTopic): TopicMap {
    map t | t in m && !(t in subtopics && Abandoned(WithoutLink(m[t], c, mt)))
      :: if t in subtopics then WithoutLink(m[t], c, mt) else m[t]
  }

  // ----- The relations a registry records -----

  /** Client `c` is a direct subscriber of `t`. */
  ghost predicate Direct(m: TopicMap, t: ParsedTopic, c: ClientId) {
    t in m && c in m[t].clients
  }

  /** Client `c` receives `s` because it subscribes to multi-topic `mt`. */
  ghost predicate Linked(m: TopicMap, s: ParsedTopic, c: ClientId, mt: ParsedTopic) {
    s in m && c in m[s].indirect && mt in m[s].indirect[c]
  }

  function Subtopics(m: TopicMap, mt: ParsedTopic): set<ParsedTopic> {
    if mt in m then m[mt].subtopics else {}
  }

  /** What holds of every single entry. */
  ghost predicate EntryOk(t: ParsedTopic, info: KeyInfo) {
    && info.filter == t.Filter()
    && (forall c :: c in info.indirect ==> info.indirect[c] != {})
  }

  ghost predicate EntriesOk(m: TopicMap) {
    forall t :: t in m ==> EntryOk(t, m[t]) && !Abandoned(m[t])
  }

  // ----- Lists and sets of links agree -----

  lemma LinkTwice(info: KeyInfo, c: ClientId, mt: ParsedTopic)
    ensures WithLink(WithLink(info, c, mt), c, mt) == WithLink(info, c, mt)
    ensures WithoutLink(WithoutLink(info, c, mt), c, mt) == WithoutLink(info, c, mt)
  {
    var parents := if c in info.indirect then info.indirect[c] else {};
    assert parents + {mt} + {mt} == parents + {mt};
    assert info.indirect[c := parents + {mt}][c := parents + {mt}] == info.indirect[c := parents + {mt}];
    if c in info.indirect {
      var rest := info.indirect[c] - {mt};
      assert rest - {mt} == rest;
      assert info.indirect[c := rest][c := rest] == info.indirect[c := rest];
    }
  }

  lemma AddOneMore(m: TopicMap, ss: set<ParsedTopic>, s: ParsedTopic, c: ClientId, mt: ParsedTopic, now: int)
    ensures AddLink(AddLinkSet(m, ss, c, mt, now), s, c, mt, now) == AddLinkSet(m, ss + {s}, c, mt, now)
  {
    LinkTwice(Lookup(m, s, now), c, mt);
  }

  lemma DropOneMore(m: TopicMap, ss: set<ParsedTopic>, s: ParsedTopic, c: ClientId, mt: ParsedTopic)
    ensures DropLink(DropLinkSet(m, ss, c, mt), s, c, mt) == DropLinkSet(m, ss + {s}, c, mt)
  {
    if s in m {
      LinkTwice(m[s], c, mt);
    }
    var l, r := DropLink(DropLinkSet(m, ss, c, mt), s, c, mt), DropLinkSet(m, ss + {s}, c, mt);
    assert forall t :: t != s ==> (t in l <==> t in r);
  }

  /** Links may be added in any order. */
  lemma {:induction false} AddedInAnyOrder(m: TopicMap, subtopics: seq<ParsedTopic>, c: ClientId, mt: ParsedTopic, now: int)
    ensures AddLinks(m, subtopics, c, mt, now) == AddLinkSet(m, Elems(subtopics), c, mt, now)
    decreases |subtopics|
  {
    if subtopics != [] {
      var init, last := subtopics[..|subtopics| - 1], subtopics[|subtopics| - 1];
      AddedInAnyOrder(m, init, c, mt, now);
      AddOneMore(m, Elems(init), last, c, mt, now);
      assert subtopics == init + [last];
      assert Elems(subtopics) == Elems(init) + {last};
    }
  }

  lemma {:induction false} DroppedInAnyOrder(m: TopicMap, subtopics: seq<ParsedTopic>, c: ClientId, mt: ParsedTopic)
    ensures DropLinks(m, subtopics, c, mt) == DropLinkSet(m, Elems(subtopics), c, mt)
    decreases |subtopics|
  {
    if subtopics != [] {
      var init, last := subtopics[..|subtopics| - 1], subtopics[|subtopics| - 1];
      DroppedInAnyOrder(m, init, c, mt);
      DropOneMore(m, Elems(init), last, c, mt);
      assert subtopics == init + [last];
      assert Elems(subtopics) == Elems(init) + {last};
    }
  }

  // ----- What each operation does to the relations -----

  /** Two maps record the same subscribers and subtopics. */
  ghost predicate SameDirect(m: TopicMap, n: TopicMap) {
    forall t, c :: Direct(n, t, c) <==> Direct(m, t, c)
  }

  ghost predicate SameLinks(m: TopicMap, n: TopicMap) {
    forall s, c, mt :: Linked(n, s, c, mt) <==> Linked(m, s, c, mt)
  }

  ghost predicate SameSubtopics(m: TopicMap, n: TopicMap) {
    forall mt :: Subtopics(n, mt) == Subtopics(m, mt)
  }

  lemma AddSubscriptionEffect(m: TopicMap, t: ParsedTopic, c: ClientId, key: Key, now: int) returns (n: TopicMap)
    ensures n == AddSubscription(m, t, c, key, now)
    ensures forall u, d :: Direct(n, u, d) <==> Direct(m, u, d) || (u == t && d == c)
    ensures SameLinks(m, n) && SameSubtopics(m, n)
    ensures EntriesOk(m) ==> EntriesOk(n)
  {
    n := AddSubscription(m, t, c, key, now);
    assert c in n[t].clients;
  }

  lemma RemoveSubscriptionEffect(m: TopicMap, t: ParsedTopic, c: ClientId) returns (n: TopicMap)
    ensures n == RemoveSubscription(m, t, c)
    ensures forall u, d :: Direct(n, u, d) <==> Direct(m, u, d) && !(u == t && d == c)
    ensures SameLinks(m, n)
    ensures forall mt :: mt != t || t in n ==> Subtopics(n, mt) == Subtopics(m, mt)
    ensures EntriesOk(m) ==> EntriesOk(n)
  {
    n := RemoveSubscription(m, t, c);
    if t in m {
      var rest := m[t].clients - {c};
      assert forall d :: d in rest <==> d in m[t].clients && d != c;
    }
  }

  lemma UpdateMultitopicInfoEffect(m: TopicMap, mt: ParsedTopic, subtopics: set<ParsedTopic>, now: int)
    returns (n: TopicMap)
    ensures n == UpdateMultitopicInfo(m, mt, subtopics, now)
    ensures SameDirect(m, n) && SameLinks(m, n)
    ensures forall t :: Subtopics(n, t) == if t == mt then subtopics else Subtopics(m, t)
    ensures EntriesOk(m) && mt in m ==> EntriesOk(n)
  {
    n := UpdateMultitopicInfo(m, mt, subtopics, now);
  }

  lemma WithLinkEffect(info: KeyInfo, c: ClientId, mt: ParsedTopic)
    ensures forall d, p :: d in WithLink(info, c, mt).indirect && p in WithLink(info, c, mt).indirect[d]
              <==> (d in info.indirect && p in info.indirect[d]) || (d == c && p == mt)
    ensures !Abandoned(WithLink(info, c, mt))
    ensures forall t :: EntryOk(t, info) ==> EntryOk(t, WithLink(info, c, mt))
  {
    assert c in WithLink(info, c, mt).indirect;
  }

  lemma WithoutLinkEffect(info: KeyInfo, c: ClientId, mt: ParsedTopic)
    ensures forall d, p :: d in WithoutLink(info, c, mt).indirect && p in WithoutLink(info, c, mt).indirect[d]
              <==> d in info.indirect && p in info.indirect[d] && !(d == c && p == mt)
    ensures forall t :: EntryOk(t, info) ==> EntryOk(t, WithoutLink(info, c, mt))
  {
    if c in info.indirect {
      var rest := info.indirect[c] - {mt};
      assert forall p :: p in rest <==> p in info.indirect[c] && p != mt;
    }
  }

  lemma AddLinkSetEffect(m: TopicMap, ss: set<ParsedTopic>, c: ClientId, mt: ParsedTopic, now: int)
    returns (n: TopicMap)
    ensures n == AddLinkSet(m, ss, c, mt, now)
    ensures SameDirect(m, n) && SameSubtopics(m, n)
    ensures forall s, d, p :: Linked(n, s, d, p) <==> Linked(m, s, d, p) || (s in ss && d == c && p == mt)
    ensures EntriesOk(m) ==> EntriesOk(n)
  {
    n := AddLinkSet(m, ss, c, mt, now);
    forall s | s in ss ensures n[s] == WithLink(Lookup(m, s, now), c, mt) {
      WithLinkEffect(Lookup(m, s, now), c, mt);
    }
    forall s, d, p ensures Linked(n, s, d, p) <==> Linked(m, s, d, p) || (s in ss && d == c && p == mt) {
      WithLinkEffect(Lookup(m, s, now), c, mt);
    }
    if EntriesOk(m) {
      forall t | t in n ensures EntryOk(t, n[t]) && !Abandoned(n[t]) {
        WithLinkEffect(Lookup(m, t, now), c, mt);
      }
    }
  }

  lemma DropLinkSetEffect(m: TopicMap, ss: set<ParsedTopic>, c: ClientId, mt: ParsedTopic)
    returns (n: TopicMap)
    ensures n == DropLinkSet(m, ss, c, mt)
    ensures SameDirect(m, n)
    ensures forall t :: t !in ss ==> (t in n <==> t in m) && Subtopics(n, t) == Subtopics(m, t)
    ensures forall t :: t in n ==> t in m && n[t].subtopics == m[t].subtopics
    ensures forall s, d, p :: Linked(n, s, d, p) <==> Linked(m, s, d, p) && !(s in ss && d == c && p == mt)
    ensures EntriesOk(m) ==> EntriesOk(n)
  {
    n := DropLinkSet(m, ss, c, mt);
    forall s, d, p ensures Linked(n, s, d, p) <==> Linked(m, s, d, p) && !(s in ss && d == c && p == mt) {
      if s in m {
        WithoutLinkEffect(m[s], c, mt);
      }
    }
    if EntriesOk(m) {
      forall t | t in n ensures EntryOk(t, n[t]) && !Abandoned(n[t]) {
        WithoutLinkEffect(m[t], c, mt);
      }
    }
  }
}
