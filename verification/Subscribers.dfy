/**
 One connection's own view of its subscriptions as a value (`Client` in
 apps/websocket-api/src/client.rs), and what each operation does to it.
 */
module Subscribers {
  import opened Wrappers
  import opened Text
  import opened Registry

  datatype LeasingBalance = LeasingBalance(address: string, balanceIn: int, balanceOut: int)

  datatype SubscriptionData = SubscriptionData(
    key: Key,
    sources: map<ParsedTopic, Key>,
    isNew: bool,
    isDirect: bool,
    isIndirect: bool,
    lastBalance: Option<LeasingBalance>)

  const DEFAULT_DATA := SubscriptionData(Key(""), map[], false, false, false, None)

  datatype Subscriber = Subscriber(subs: map<ParsedTopic, SubscriptionData>, indirectCount: nat)

  const NO_SUBSCRIPTIONS := Subscriber(map[], 0)

  // ----- Operations -----

  function Entry(u: Subscriber, t: ParsedTopic): SubscriptionData {
    if t in u.subs then u.subs[t] else DEFAULT_DATA
  }

  function AddDirect(u: Subscriber, t: ParsedTopic, key: Key): Subscriber {
    u.(subs := u.subs[t := Entry(u, t).(key := key, isDirect := true)])
  }

  function MarkNew(u: Subscriber, t: ParsedTopic): Subscriber {
    if t in u.subs then u.(subs := u.subs[t := u.subs[t].(isNew := true)]) else u
  }

  function RemoveDirect(u: Subscriber, t: ParsedTopic): Subscriber {
    if t !in u.subs then u
    else if u.subs[t].isIndirect then u.(subs := u.subs[t := u.subs[t].(isDirect := false)])
    else u.(subs := u.subs - {t})
  }

  function WithSource(data: SubscriptionData, mt: ParsedTopic, key: Key): SubscriptionData {
    data.(sources := data.sources[mt := key], isIndirect := true)
  }

  function WithoutSource(data: SubscriptionData, mt: ParsedTopic): SubscriptionData {
    var rest := data.sources - {mt};
    data.(sources := rest, isIndirect := data.isIndirect && rest != map[])
  }

  function KeepIfHeld(u: Subscriber, t: ParsedTopic, data: SubscriptionData, count: nat): Subscriber {
    if data.isDirect || data.isIndirect then Subscriber(u.subs[t := data], count)
    else Subscriber(u.subs - {t}, count)
  }

  function SaturatingSub(a: nat, b: nat): nat {
    if b <= a then a - b else 0
  }

  function AddIndirect(u: Subscriber, s: ParsedTopic, mt: ParsedTopic, key: Key): Subscriber {
    Subscriber(u.subs[s := WithSource(Entry(u, s), mt, key)],
               if mt in Entry(u, s).sources then u.indirectCount else u.indirectCount + 1)
  }

  function RemoveIndirect(u: Subscriber, s: ParsedTopic, mt: ParsedTopic): Subscriber {
    if s !in u.subs then u
    else KeepIfHeld(u, s, WithoutSource(u.subs[s], mt),
                    if mt in u.subs[s].sources then SaturatingSub(u.indirectCount, 1) else u.indirectCount)
  }

  function AddIndirects(u: Subscriber, subtopics: seq<ParsedTopic>, mt: ParsedTopic, key: Key): Subscriber {
    if subtopics == [] then u
    else AddIndirect(AddIndirects(u, subtopics[..|subtopics| - 1], mt, key), subtopics[|subtopics| - 1], mt, key)
  }

  function RemoveIndirects(u: Subscriber, subtopics: seq<ParsedTopic>, mt: ParsedTopic): Subscriber {
    if subtopics == [] then u
    else RemoveIndirect(RemoveIndirects(u, subtopics[..|subtopics| - 1], mt), subtopics[|subtopics| - 1], mt)
  }

  // ----- What a subscriber holds -----

  ghost predicate HasDirect(u: Subscriber, t: ParsedTopic) {
    t in u.subs && u.subs[t].isDirect
  }

  ghost predicate HasSource(u: Subscriber, s: ParsedTopic, mt: ParsedTopic) {
    s in u.subs && mt in u.subs[s].sources
  }

  /** The direct subscriptions, and the (subtopic, multi-topic) pairs. */
  function DirectTopics(u: Subscriber): set<ParsedTopic> {
    set t | t in u.subs && u.subs[t].isDirect
  }

  ghost function Pairs(u: Subscriber): set<(ParsedTopic, ParsedTopic)> {
    set s, mt | s in u.subs && mt in u.subs[s].sources :: (s, mt)
  }

  ghost predicate DataOk(data: SubscriptionData) {
    (data.isIndirect <==> data.sources != map[]) && (data.isDirect || data.isIndirect)
  }

  /** The flags agree with the sources, nothing is kept in vain, and the count is the number of pairs. */
  ghost predicate SubscriberOk(u: Subscriber) {
    && (forall t :: t in u.subs ==> DataOk(u.subs[t]))
    && u.indirectCount == |Pairs(u)|
  }

  /** `v` holds the sources of `u` and one more, or one less. */
  ghost predicate SameSources(u: Subscriber, v: Subscriber) {
    forall x, p :: HasSource(v, x, p) <==> HasSource(u, x, p)
  }

  ghost predicate OneSourceMore(u: Subscriber, v: Subscriber, s: ParsedTopic, mt: ParsedTopic) {
    forall x, p :: HasSource(v, x, p) <==> HasSource(u, x, p) || (x == s && p == mt)
  }

  ghost predicate OneSourceLess(u: Subscriber, v: Subscriber, s: ParsedTopic, mt: ParsedTopic) {
    forall x, p :: HasSource(v, x, p) <==> HasSource(u, x, p) && !(x == s && p == mt)
  }

  lemma PairsMeaning(u: Subscriber, x: ParsedTopic, p: ParsedTopic)
    ensures (x, p) in Pairs(u) <==> HasSource(u, x, p)
  {
  }

  lemma SamePairs(u: Subscriber, v: Subscriber)
    requires SameSources(u, v)
    ensures Pairs(v) == Pairs(u)
  {
    forall x, p ensures (x, p) in Pairs(v) <==> (x, p) in Pairs(u) {
      PairsMeaning(u, x, p);
      PairsMeaning(v, x, p);
    }
  }

  lemma CountAdded<T>(a: set<T>, b: set<T>, x: T)
    requires forall y :: y in b <==> y in a || y == x
    ensures |b| == |a| + if x in a then 0 else 1
  {
    if x in a {
      assert b == a;
    } else {
      assert b == a + {x};
    }
  }

  lemma CountRemoved<T>(a: set<T>, b: set<T>, x: T)
    requires forall y :: y in b <==> y in a && y != x
    ensures |a| == |b| + if x in a then 1 else 0
  {
    if x in a {
      assert b == a - {x};
    } else {
      assert b == a;
    }
  }

  lemma OnePairMore(u: Subscriber, v: Subscriber, s: ParsedTopic, mt: ParsedTopic)
    requires OneSourceMore(u, v, s, mt)
    ensures |Pairs(v)| == |Pairs(u)| + if HasSource(u, s, mt) then 0 else 1
  {
    forall x, p ensures (x, p) in Pairs(v) <==> (x, p) in Pairs(u) || (x == s && p == mt) {
      PairsMeaning(u, x, p);
      PairsMeaning(v, x, p);
    }
    PairsMeaning(u, s, mt);
    CountAdded(Pairs(u), Pairs(v), (s, mt));
  }

  lemma OnePairLess(u: Subscriber, v: Subscriber, s: ParsedTopic, mt: ParsedTopic)
    requires OneSourceLess(u, v, s, mt)
    ensures |Pairs(u)| == |Pairs(v)| + if HasSource(u, s, mt) then 1 else 0
  {
    forall x, p ensures (x, p) in Pairs(v) <==> (x, p) in Pairs(u) && !(x == s && p == mt) {
      PairsMeaning(u, x, p);
      PairsMeaning(v, x, p);
    }
    PairsMeaning(u, s, mt);
    CountRemoved(Pairs(u), Pairs(v), (s, mt));
  }

  lemma WithoutSourceEffect(data: SubscriptionData, mt: ParsedTopic)
    requires DataOk(data)
    ensures var d := WithoutSource(data, mt);
            && (forall p :: p in d.sources <==> p in data.sources && p != mt)
            && d.isDirect == data.isDirect
            && (if d.isDirect || d.isIndirect then DataOk(d) else forall p :: p in data.sources ==> p == mt)
  {
    var rest := data.sources - {mt};
    assert forall p :: p in rest <==> p in data.sources && p != mt;
  }

  lemma AddDirectEffect(u: Subscriber, t: ParsedTopic, key: Key) returns (v: Subscriber)
    requires SubscriberOk(u)
    ensures v == AddDirect(u, t, key) && SubscriberOk(v)
    ensures DirectTopics(v) == DirectTopics(u) + {t}
    ensures forall x :: HasDirect(v, x) <==> HasDirect(u, x) || x == t
    ensures SameSources(u, v)
  {
    v := AddDirect(u, t, key);
    SamePairs(u, v);
  }

  lemma RemoveDirectEffect(u: Subscriber, t: ParsedTopic) returns (v: Subscriber)
    requires SubscriberOk(u)
    ensures v == RemoveDirect(u, t) && SubscriberOk(v)
    ensures DirectTopics(v) == DirectTopics(u) - {t}
    ensures forall x :: HasDirect(v, x) <==> HasDirect(u, x) && x != t
    ensures SameSources(u, v)
  {
    v := RemoveDirect(u, t);
    SamePairs(u, v);
  }

  lemma AddIndirectEffect(u: Subscriber, s: ParsedTopic, mt: ParsedTopic, key: Key) returns (v: Subscriber)
    requires SubscriberOk(u)
    ensures v == AddIndirect(u, s, mt, key) && SubscriberOk(v)
    ensures DirectTopics(v) == DirectTopics(u)
    ensures forall x :: HasDirect(v, x) <==> HasDirect(u, x)
    ensures OneSourceMore(u, v, s, mt)
    ensures v.indirectCount == u.indirectCount + if HasSource(u, s, mt) then 0 else 1
  {
    v := AddIndirect(u, s, mt, key);
    assert mt in v.subs[s].sources;
    OnePairMore(u, v, s, mt);
  }

  lemma RemoveIndirectSources(u: Subscriber, s: ParsedTopic, mt: ParsedTopic)
    requires forall t :: t in u.subs ==> DataOk(u.subs[t])
    ensures OneSourceLess(u, RemoveIndirect(u, s, mt), s, mt)
    ensures forall t :: t in RemoveIndirect(u, s, mt).subs ==> DataOk(RemoveIndirect(u, s, mt).subs[t])
  {
    if s in u.subs {
      WithoutSourceEffect(u.subs[s], mt);
    }
  }

  /** The count is exact, so that taking one away never saturates. */
  lemma RemoveIndirectEffect(u: Subscriber, s: ParsedTopic, mt: ParsedTopic) returns (v: Subscriber)
    requires SubscriberOk(u)
    ensures v == RemoveIndirect(u, s, mt) && SubscriberOk(v)
    ensures DirectTopics(v) == DirectTopics(u)
    ensures forall x :: HasDirect(v, x) <==> HasDirect(u, x)
    ensures OneSourceLess(u, v, s, mt)
    ensures v.indirectCount == u.indirectCount - if HasSource(u, s, mt) then 1 else 0
  {
    v := RemoveIndirect(u, s, mt);
    RemoveIndirectSources(u, s, mt);
    OnePairLess(u, v, s, mt);
  }

  lemma {:induction false} AddIndirectsEffect(u: Subscriber, ss: seq<ParsedTopic>, mt: ParsedTopic, key: Key)
    returns (v: Subscriber)
    requires SubscriberOk(u)
    ensures v == AddIndirects(u, ss, mt, key) && SubscriberOk(v)
    ensures DirectTopics(v) == DirectTopics(u)
    ensures forall x :: HasDirect(v, x) <==> HasDirect(u, x)
    ensures forall x, p :: HasSource(v, x, p) <==> HasSource(u, x, p) || (x in ss && p == mt)
    ensures u.indirectCount <= v.indirectCount <= u.indirectCount + |ss|
    decreases |ss|
  {
    v := u;
    if ss != [] {
      SplitLast(ss);
      v := AddIndirectsEffect(u, ss[..|ss| - 1], mt, key);
      v := AddIndirectEffect(v, ss[|ss| - 1], mt, key);
    }
  }

  lemma {:induction false} RemoveIndirectsEffect(u: Subscriber, ss: seq<ParsedTopic>, mt: ParsedTopic)
    returns (v: Subscriber)
    requires SubscriberOk(u)
    ensures v == RemoveIndirects(u, ss, mt) && SubscriberOk(v)
    ensures DirectTopics(v) == DirectTopics(u)
    ensures forall x :: HasDirect(v, x) <==> HasDirect(u, x)
    ensures forall x, p :: HasSource(v, x, p) <==> HasSource(u, x, p) && !(x in ss && p == mt)
    ensures v.indirectCount <= u.indirectCount
    decreases |ss|
  {
    v := u;
    if ss != [] {
      SplitLast(ss);
      v := RemoveIndirectsEffect(u, ss[..|ss| - 1], mt);
      v := RemoveIndirectEffect(v, ss[|ss| - 1], mt);
    }
  }

  // ----- Lists of sources, entry by entry -----

  /** Every listed topic has one source more. */
  ghost predicate AddedEntries(u: Subscriber, v: Subscriber, ss: seq<ParsedTopic>, mt: ParsedTopic, key: Key) {
    && (forall x :: x in v.subs <==> x in u.subs || x in ss)
    && (forall x :: x in v.subs ==> v.subs[x] == if x in ss then WithSource(Entry(u, x), mt, key) else u.subs[x])
  }

  lemma SourceTwice(data: SubscriptionData, mt: ParsedTopic, key: Key)
    ensures WithSource(WithSource(data, mt, key), mt, key) == WithSource(data, mt, key)
    ensures WithoutSource(WithoutSource(data, mt), mt) == WithoutSource(data, mt)
  {
    assert data.sources[mt := key][mt := key] == data.sources[mt := key];
    assert data.sources - {mt} - {mt} == data.sources - {mt};
  }

  lemma {:induction false} AddIndirectsEntries(u: Subscriber, ss: seq<ParsedTopic>, mt: ParsedTopic, key: Key)
    ensures AddedEntries(u, AddIndirects(u, ss, mt, key), ss, mt, key)
    decreases |ss|
  {
    if ss != [] {
      var last := ss[|ss| - 1];
      SplitLast(ss);
      AddIndirectsEntries(u, ss[..|ss| - 1], mt, key);
      SourceTwice(Entry(u, last), mt, key);
    }
  }

  ghost predicate Held(data: SubscriptionData) {
    data.isDirect || data.isIndirect
  }

  /** Every listed topic has one source less, and goes when nothing is left. */
  ghost predicate RemovedEntries(u: Subscriber, v: Subscriber, ss: seq<ParsedTopic>, mt: ParsedTopic) {
    && (forall x :: x in v.subs <==> x in u.subs && (x in ss ==> Held(WithoutSource(u.subs[x], mt))))
    && (forall x :: x in v.subs ==> v.subs[x] == if x in ss then WithoutSource(u.subs[x], mt) else u.subs[x])
  }

  lemma {:induction false} RemoveIndirectsEntries(u: Subscriber, ss: seq<ParsedTopic>, mt: ParsedTopic)
    ensures RemovedEntries(u, RemoveIndirects(u, ss, mt), ss, mt)
    decreases |ss|
  {
    if ss != [] {
      var last := ss[|ss| - 1];
      SplitLast(ss);
      RemoveIndirectsEntries(u, ss[..|ss| - 1], mt);
      if last in u.subs {
        SourceTwice(u.subs[last], mt, Key(""));
      }
    }
  }
}
