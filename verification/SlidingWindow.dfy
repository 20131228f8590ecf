/**
 The limit on multi-topic subscribes of one connection
 (`try_record_multitopic_subscribe` in apps/websocket-api/src/client.rs).
 */
module SlidingWindow {
  import opened Text
  import opened Times

  /** `saturating_duration_since`. */
  function Age(now: int, t: int): nat {
    if t <= now then now - t else 0
  }

  /** Drops start times from the front until one is younger than the window. */
  function Trim(recent: seq<int>, now: int, window: nat): seq<int> {
    if recent == [] || Age(now, recent[0]) < window then recent else Trim(recent[1..], now, window)
  }

  predicate Accepts(recent: seq<int>, now: int, max: nat, window: nat) {
    |Trim(recent, now, window)| < max
  }

  function AfterTry(recent: seq<int>, now: int, max: nat, window: nat): seq<int> {
    if Accepts(recent, now, max, window) then Trim(recent, now, window) + [now] else Trim(recent, now, window)
  }

  // ----- Sequences of calls -----

  /** What is remembered after the calls, and every acceptance so far. */
  datatype Limiter = Limiter(recent: seq<int>, accepted: seq<int>)

  function Calls(times: seq<int>, max: nat, window: nat): Limiter {
    if times == [] then Limiter([], [])
    else
      var before := Calls(times[..|times| - 1], max, window);
      var now := times[|times| - 1];
      Limiter(AfterTry(before.recent, now, max, window),
              if Accepts(before.recent, now, max, window) then before.accepted + [now] else before.accepted)
  }

  lemma OldestFirst(times: seq<int>)
    requires Ascending(times) && times != []
    ensures forall t :: t in times ==> times[0] <= t
    ensures Ascending(times[1..]) && times == [times[0]] + times[1..]
  {
  }

  lemma TailMembers(times: seq<int>, tail: seq<int>)
    requires times != [] && tail == times[1..]
    ensures times[0] in times && forall t :: t in tail ==> t in times
  {
  }

  /** Trimming removes a prefix of times that are too old, and stops at one that is not. */
  lemma {:induction false} TrimCuts(recent: seq<int>, now: int, window: nat) returns (dropped: seq<int>)
    requires Ascending(recent) && forall t :: t in recent ==> t <= now
    ensures recent == dropped + Trim(recent, now, window)
    ensures forall t :: t in dropped ==> now - t >= window
    ensures forall t :: t in Trim(recent, now, window) ==> now - t < window
    decreases |recent|
  {
    dropped := [];
    if recent != [] {
      var first, tail := recent[0], recent[1..];
      OldestFirst(recent);
      TailMembers(recent, tail);
      if Age(now, first) >= window {
        var rest := TrimCuts(tail, now, window);
        Associate([first], rest, Trim(tail, now, window));
        dropped := [first] + rest;
      }
    }
  }

  /** Up to `now`, the remembered times are exactly the acceptances that may still count. */
  ghost predicate Remembers(l: Limiter, forgotten: seq<int>, now: int, window: nat) {
    && l.accepted == forgotten + l.recent
    && Ascending(l.accepted)
    && (forall t :: t in l.accepted ==> t <= now)
    && (forall t :: t in forgotten ==> now - t >= window)
  }

  lemma LatestTime(times: seq<int>)
    requires times != [] && Ascending(times)
    ensures Ascending(times[..|times| - 1])
    ensures |times| > 1 ==> times[|times| - 2] <= times[|times| - 1]
  {
  }

  /** One call at a time no earlier than the last. */
  lemma CallRemembers(l: Limiter, forgotten: seq<int>, before: int, now: int, window: nat)
    returns (gone: seq<int>)
    requires Remembers(l, forgotten, before, window) && before <= now
    ensures Remembers(Limiter(Trim(l.recent, now, window), l.accepted), gone, now, window)
    ensures |Trim(l.recent, now, window)| == Count(l.accepted, now - window + 1, now + 1)
  {
    assert forall i :: 0 <= i < |l.recent| ==> l.recent[i] == l.accepted[|forgotten| + i];
    forall t | t in l.recent ensures t <= now {
      assert t in l.accepted;
    }
    var dropped := TrimCuts(l.recent, now, window);
    var kept := Trim(l.recent, now, window);
    gone := forgotten + dropped;
    Associate(forgotten, dropped, kept);
    CountConcat(gone, kept, now - window + 1, now + 1);
    CountNone(gone, now - window + 1, now + 1);
    forall t | t in kept ensures now - window + 1 <= t < now + 1 {
      assert t in l.accepted;
    }
    CountAll(kept, now - window + 1, now + 1);
  }

  lemma AcceptRemembers(l: Limiter, forgotten: seq<int>, now: int, window: nat)
    requires Remembers(l, forgotten, now, window)
    ensures Remembers(Limiter(l.recent + [now], l.accepted + [now]), forgotten, now, window)
  {
    Associate(forgotten, l.recent, [now]);
    var all := l.accepted + [now];
    forall i, j | 0 <= i <= j < |all| ensures all[i] <= all[j] {
      assert i < |l.accepted| ==> l.accepted[i] in l.accepted;
    }
  }

  lemma {:induction false} CallsRemember(times: seq<int>, max: nat, window: nat) returns (forgotten: seq<int>)
    requires Ascending(times) && times != []
    ensures Remembers(Calls(times, max, window), forgotten, times[|times| - 1], window)
    decreases |times|
  {
    var init, now := times[..|times| - 1], times[|times| - 1];
    var l := Calls(init, max, window);
    if init == [] {
      forgotten := CallRemembers(l, [], now, now, window);
    } else {
      LatestTime(times);
      var before := CallsRemember(init, max, window);
      forgotten := CallRemembers(l, before, times[|times| - 2], now, window);
    }
    if Accepts(l.recent, now, max, window) {
      AcceptRemembers(Limiter(Trim(l.recent, now, window), l.accepted), forgotten, now, window);
    }
  }

  /** A call is accepted exactly when fewer than `max` acceptances lie less than `window` before it. */
  lemma AcceptedIff(times: seq<int>, now: int, max: nat, window: nat)
    requires Ascending(times + [now])
    ensures Accepts(Calls(times, max, window).recent, now, max, window)
       <==> Count(Calls(times, max, window).accepted, now - window + 1, now + 1) < max
  {
    var l := Calls(times, max, window);
    var gone;
    if times == [] {
      gone := CallRemembers(l, [], now, now, window);
    } else {
      assert forall i :: 0 <= i < |times| ==> times[i] == (times + [now])[i];
      var forgotten := CallsRemember(times, max, window);
      assert times[|times| - 1] <= (times + [now])[|times|];
      gone := CallRemembers(l, forgotten, times[|times| - 1], now, window);
    }
  }

  /** Every half-open interval as long as the window holds at most `max` acceptances. */
  lemma {:induction false} AtMostMaxInWindow(times: seq<int>, max: nat, window: nat, lo: int)
    requires Ascending(times)
    ensures Count(Calls(times, max, window).accepted, lo, lo + window) <= max
    decreases |times|
  {
    if times != [] {
      var init, now := times[..|times| - 1], times[|times| - 1];
      SplitLast(times);
      LatestTime(times);
      AtMostMaxInWindow(init, max, window, lo);
      var l := Calls(init, max, window);
      if Accepts(l.recent, now, max, window) && lo <= now < lo + window {
        AcceptedIff(init, now, max, window);
        CountSnoc(l.accepted, now, lo, lo + window);
        AcceptedInPast(init, now, max, window);
        CountWider(l.accepted, lo, lo + window, now - window + 1, now + 1);
      } else if Accepts(l.recent, now, max, window) {
        CountSnoc(l.accepted, now, lo, lo + window);
      }
    }
  }

  lemma AcceptedInPast(times: seq<int>, now: int, max: nat, window: nat)
    requires Ascending(times + [now])
    ensures forall t :: t in Calls(times, max, window).accepted ==> t <= now
  {
    if times != [] {
      assert forall i :: 0 <= i < |times| ==> times[i] == (times + [now])[i];
      var forgotten := CallsRemember(times, max, window);
      assert times[|times| - 1] <= (times + [now])[|times|];
    }
  }
}
