/**
 Keeping Redis keys alive: the refresh passes (apps/websocket-api/src/refresher.rs) and
 the splitting of one pass into batches (`refresh` in apps/websocket-api/src/repo.rs).
 */
module Refreshing {
  import opened Wrappers
  import opened Text
  import opened Registry
  import opened TopicRegistry
  import Protocol
  import ProtocolKeys

  // ----- Batches -----

  function DivCeil(a: nat, b: nat): nat
    requires b > 0
  {
    (a + b - 1) / b
  }

  /** The batches, last one first: they were split off from the end. */
  ghost function Rejoined<T>(batches: seq<seq<T>>): seq<T> {
    if batches == [] then [] else batches[|batches| - 1] + Rejoined(batches[..|batches| - 1])
  }

  lemma RejoinSnoc<T>(batches: seq<seq<T>>, batch: seq<T>)
    ensures Rejoined(batches + [batch]) == batch + Rejoined(batches)
  {
    assert (batches + [batch])[..|batches|] == batches;
  }

  lemma CeilCovers(a: nat, b: nat)
    requires b > 0
    ensures DivCeil(a, b) * b >= a
  {
    assert a + b - 1 == b * ((a + b - 1) / b) + (a + b - 1) % b;
  }

  /** The length of full batches, by addition. */
  ghost function FullLength(count: nat, chunk: nat): nat {
    if count == 0 then 0 else FullLength(count - 1, chunk) + chunk
  }

  lemma {:induction false} FullLengthIsProduct(count: nat, chunk: nat)
    ensures FullLength(count, chunk) == count * chunk
  {
    if count > 0 {
      FullLengthIsProduct(count - 1, chunk);
      assert count * chunk == (count - 1) * chunk + chunk;
    }
  }

  /** Full batches that leave something out are fewer than the threads. */
  lemma FewerThanThreads(count: nat, chunk: nat, threads: nat, total: nat)
    requires FullLength(count, chunk) < total <= threads * chunk
    ensures count < threads
  {
    FullLengthIsProduct(count, chunk);
    SmallerFactor(count, threads, chunk);
  }

  lemma SmallerFactor(a: nat, b: nat, c: nat)
    ensures a >= b ==> a * c >= b * c
  {
  }

  /** Every topic is in exactly one batch; batches are small enough, and no more than the threads. */
  method SplitBatches<T>(topics: seq<T>, refreshThreads: nat) returns (batches: seq<seq<T>>)
    requires topics != [] && refreshThreads >= 1
    ensures Rejoined(batches) == topics
    ensures var threads := if refreshThreads <= |topics| then refreshThreads else |topics|;
            && |batches| <= threads
            && forall i :: 0 <= i < |batches| ==> 1 <= |batches[i]| <= DivCeil(|topics|, threads)
  {
    var threads := if refreshThreads <= |topics| then refreshThreads else |topics|;
    var chunk := DivCeil(|topics|, threads);
    CeilCovers(|topics|, threads);
    batches := SplitInto(topics, chunk, threads);
  }

  method SplitInto<T>(topics: seq<T>, chunk: nat, ghost threads: nat) returns (batches: seq<seq<T>>)
    requires topics != [] && chunk >= 1 && |topics| <= threads * chunk
    ensures Rejoined(batches) == topics
    ensures |batches| <= threads
    ensures forall i :: 0 <= i < |batches| ==> 1 <= |batches[i]| <= chunk
  {
    var rest := topics;
    batches := [];
    while |rest| > chunk
      invariant rest != []
      invariant rest + Rejoined(batches) == topics
      invariant FullLength(|batches|, chunk) + |rest| == |topics|
      invariant forall i :: 0 <= i < |batches| ==> 1 <= |batches[i]| <= chunk
      decreases |rest|
    {
      var at := |rest| - chunk;
      var batch := rest[at..];
      Associate(rest[..at], batch, Rejoined(batches));
      RejoinSnoc(batches, batch);
      batches, rest := batches + [batch], rest[..at];
    }
    RejoinSnoc(batches, rest);
    FewerThanThreads(|batches|, chunk, threads, |topics|);
    batches := batches + [rest];
  }

  // ----- One pass -----

  /** A subtraction that would go before the start of the clock makes everything expiring. */
  function Threshold(now: nat, ttl: nat): nat {
    if now >= ttl / 2 then now - ttl / 2 else now
  }

  function Expiring(m: TopicMap, threshold: int): set<ParsedTopic> {
    set t | t in m && m[t].lastRefresh < threshold
  }

  function StoreAll(m: TopicMap, order: seq<ParsedTopic>, times: map<ParsedTopic, int>): TopicMap
    requires forall t :: t in order ==> t in times
  {
    if order == [] then m
    else Refreshed(StoreAll(m, order[..|order| - 1], times), order[|order| - 1], times[order[|order| - 1]])
  }

  method CollectExpiring(registry: ClientIdsByTopics, now: nat, ttl: nat) returns (pending: seq<ParsedTopic>)
    ensures Enumerates(pending, Expiring(registry.topics, Threshold(now, ttl)))
    ensures forall t :: t in pending <==>
              && t in registry.topics
              && (if now >= ttl / 2 then now - registry.topics[t].lastRefresh > ttl / 2 else registry.topics[t].lastRefresh < now)
  {
    var threshold := if now >= ttl / 2 then now - ttl / 2 else now;
    pending := Collect(set t | t in registry.topics && registry.topics[t].lastRefresh < threshold);
    assert forall t :: t in pending <==> t in Elems(pending);
  }

  /** Expiring is exactly what has not been refreshed for more than half the TTL. */
  lemma ExpiringIff(m: TopicMap, now: nat, ttl: nat, t: ParsedTopic)
    requires t in m && now >= ttl / 2
    ensures t in Expiring(m, Threshold(now, ttl)) <==> now - m[t].lastRefresh > ttl / 2
  {
  }

  method StoreRefreshed(registry: ClientIdsByTopics, order: seq<ParsedTopic>, times: map<ParsedTopic, int>)
    requires registry.Valid() && forall t :: t in order ==> t in times
    modifies registry
    ensures registry.Valid() && registry.topics == StoreAll(old(registry.topics), order, times)
  {
    for i := 0 to |order|
      invariant registry.Valid() && registry.topics == StoreAll(old(registry.topics), order[..i], times)
    {
      assert order[..i + 1][..i] == order[..i];
      registry.RefreshTopic(order[i], times[order[i]]);
    }
    assert order[..|order|] == order;
  }

  /** What storing refresh times does: never backwards, and at least the new time. */
  lemma {:induction false} StoreAllEffect(m: TopicMap, order: seq<ParsedTopic>, times: map<ParsedTopic, int>)
    requires forall t :: t in order ==> t in times
    ensures StoreAll(m, order, times).Keys == m.Keys
    ensures forall t :: t in m ==> StoreAll(m, order, times)[t].lastRefresh >= m[t].lastRefresh
    ensures forall t :: t in m && t in order ==> StoreAll(m, order, times)[t].lastRefresh >= times[t]
    ensures forall t :: t in m && StoreAll(m, order, times)[t].lastRefresh != m[t].lastRefresh ==>
              t in order && StoreAll(m, order, times)[t].lastRefresh == times[t]
    decreases |order|
  {
    if order != [] {
      var init, last := FrontMembers(order);
      StoreAllEffect(m, init, times);
    }
  }

  // ----- Passes over time, with the registry changing in between -----

  datatype Phase = Sleeping(lastBegin: nat) | Refreshing(prevBegin: nat, begin: nat, pending: set<ParsedTopic>)

  datatype State = State(topics: TopicMap, phase: Phase)

  datatype Event =
    | Begin(now: nat)
    | Store(now: nat, order: seq<ParsedTopic>, times: map<ParsedTopic, int>)
    | Change(now: nat, topics: TopicMap)

  /** Passes come and end in time: each ends less than half the TTL after the one before began. */
  ghost predicate Timely(s: State, now: nat, ttl: nat) {
    match s.phase
    case Sleeping(b) => b <= now && 2 * (now - b) < ttl
    case Refreshing(p, b, _) => p <= b <= now && 2 * (now - p) < ttl
  }

  ghost predicate Enabled(s: State, e: Event, ttl: nat) {
    && Timely(s, e.now, ttl)
    && match e
       case Begin(now) => s.phase.Sleeping?
       case Store(now, order, times) =>
         && s.phase.Refreshing? && Elems(order) == s.phase.pending && times.Keys == s.phase.pending
         && forall t :: t in times ==> s.phase.begin <= times[t] <= now
       case Change(now, topics) =>
         forall t :: t in topics ==> (t in s.topics && topics[t].lastRefresh == s.topics[t].lastRefresh) || topics[t].lastRefresh == now
  }

  ghost function Next(s: State, e: Event, ttl: nat): State
    requires Enabled(s, e, ttl)
  {
    match e
    case Begin(now) => s.(phase := Refreshing(s.phase.lastBegin, now, Expiring(s.topics, Threshold(now, ttl))))
    case Store(now, order, times) =>
      assert forall t :: t in order ==> t in Elems(order);
      State(StoreAll(s.topics, order, times), Sleeping(s.phase.begin))
    case Change(now, topics) => s.(topics := topics)
  }

  /** A pass refreshes exactly what was due when it began, and nothing else changes. */
  lemma PassRefreshesWhatIsDue(s: State, begin: nat, e: Event, ttl: nat, t: ParsedTopic)
    requires Enabled(s, Begin(begin), ttl) && t in s.topics && begin >= ttl / 2
    requires e.Store? && Enabled(Next(s, Begin(begin), ttl), e, ttl)
    ensures var x := Next(Next(s, Begin(begin), ttl), e, ttl);
            && x.phase == Sleeping(begin) && x.topics.Keys == s.topics.Keys
            && (begin - s.topics[t].lastRefresh > ttl / 2 ==> x.topics[t].lastRefresh >= begin)
            && (begin - s.topics[t].lastRefresh <= ttl / 2 ==> x.topics[t].lastRefresh == s.topics[t].lastRefresh)
  {
    ExpiringIff(s.topics, begin, ttl, t);
    assert forall y :: y in e.order <==> y in Elems(e.order);
    StoreAllEffect(s.topics, e.order, e.times);
  }

  /** Every entry was refreshed no earlier than half the TTL before the last completed pass began. */
  ghost predicate Safe(s: State, ttl: nat) {
    match s.phase
    case Sleeping(b) => forall t :: t in s.topics ==> s.topics[t].lastRefresh >= b - ttl / 2
    case Refreshing(p, b, pending) =>
      forall t :: t in s.topics ==>
        && s.topics[t].lastRefresh >= p - ttl / 2
        && (t !in pending ==> s.topics[t].lastRefresh >= b - ttl / 2)
  }

  lemma StepKeepsSafe(s: State, e: Event, ttl: nat)
    requires Safe(s, ttl) && Enabled(s, e, ttl)
    ensures Safe(Next(s, e, ttl), ttl)
  {
    if e.Store? {
      assert forall t :: t in e.order <==> t in Elems(e.order);
      StoreAllEffect(s.topics, e.order, e.times);
    }
  }

  /** A safe state is safe until the next pass ends: no entry's age reaches the TTL. */
  lemma NoEntryExpires(s: State, now: nat, ttl: nat, t: ParsedTopic)
    requires Safe(s, ttl) && Timely(s, now, ttl) && t in s.topics
    ensures now - s.topics[t].lastRefresh < ttl
  {
  }

  ghost function After(events: seq<Event>, start: nat, ttl: nat): Option<State> {
    if events == [] then Some(State(map[], Sleeping(start)))
    else
      var before := After(events[..|events| - 1], start, ttl);
      if before.Some? && Enabled(before.value, events[|events| - 1], ttl)
      then Some(Next(before.value, events[|events| - 1], ttl))
      else None
  }

  lemma {:induction false} EveryRunIsSafe(events: seq<Event>, start: nat, ttl: nat)
    requires After(events, start, ttl).Some?
    ensures Safe(After(events, start, ttl).value, ttl)
    decreases |events|
  {
    if events != [] {
      var init := events[..|events| - 1];
      EveryRunIsSafe(init, start, ttl);
      StepKeepsSafe(After(init, start, ttl).value, events[|events| - 1], ttl);
    }
  }

  /** In every timely run, at every moment, no registered topic has gone a whole TTL without a refresh. */
  lemma TtlSafety(events: seq<Event>, start: nat, ttl: nat, now: nat, t: ParsedTopic)
    requires After(events, start, ttl).Some? && Timely(After(events, start, ttl).value, now, ttl)
    requires t in After(events, start, ttl).value.topics
    ensures now - After(events, start, ttl).value.topics[t].lastRefresh < ttl
  {
    EveryRunIsSafe(events, start, ttl);
    NoEntryExpires(After(events, start, ttl).value, now, ttl, t);
  }

  /** Whatever the subscription protocol does in between, other than refreshing, is a change that the theorem admits. */
  lemma ProtocolEventIsChange(
      w: Protocol.World, e: Protocol.Event, caps: Protocol.Caps, s: State, now: nat, ttl: nat)
    requires Protocol.Enabled(w, e, caps) && !e.Refresh? && (e.Commit? || e.Expand? ==> e.now == now)
    requires s.topics == w.topics && Timely(s, now, ttl)
    ensures Enabled(s, Change(now, Protocol.Next(w, e, caps).topics), ttl)
    ensures Next(s, Change(now, Protocol.Next(w, e, caps).topics), ttl).topics == Protocol.Next(w, e, caps).topics
  {
    forall t | t in Protocol.Next(w, e, caps).topics
      ensures var x := Protocol.Next(w, e, caps).topics;
              (t in w.topics && x[t].lastRefresh == w.topics[t].lastRefresh) || x[t].lastRefresh == now
    {
      ProtocolKeys.RefreshTimeOrigin(w, e, caps, t);
    }
  }
}
