/**
 The fixed-window limiter of the admin dashboard (`createRateLimiter` in
 apps/admin-dashboard/src/lib/rateLimiter.ts), with its background cleanup.
 */
module RateLimiting {
  import opened Numbers
  import opened Wrappers
  import opened Times

  datatype Window = Window(count: nat, resetAt: int)

  // ----- One key -----

  /** No window, or one whose end has passed. */
  predicate Expired(w: Option<Window>, now: int) {
    w.None? || w.value.resetAt < now
  }

  function AfterCall(w: Option<Window>, now: int, windowMs: nat): Window {
    if Expired(w, now) then Window(1, now + windowMs) else w.value.(count := w.value.count + 1)
  }

  predicate Accepted(w: Option<Window>, now: int, max: nat) {
    Expired(w, now) || w.value.count + 1 <= max
  }

  function AfterCleanup(w: Option<Window>, now: int): Option<Window> {
    if Expired(w, now) then None else w
  }

  // ----- The limiter -----

  function Lookup(windows: map<string, Window>, key: string): Option<Window> {
    if key in windows then Some(windows[key]) else None
  }

  /** `Math.ceil((resetAt - now) / 1000)` for a window that has not ended. */
  function RetryAfterSeconds(w: Window, now: int): nat
    requires now <= w.resetAt
  {
    (w.resetAt - now + 999) / 1000
  }

  /** The least number of whole seconds after which the window is not longer open; just behind, it has ended. */
  lemma RetryIsLeast(w: Window, now: int)
    requires now <= w.resetAt
    ensures var r := RetryAfterSeconds(w, now);
            && now + 1000 * r >= w.resetAt
            && (r > 0 ==> now + 1000 * (r - 1) < w.resetAt)
            && Expired(Some(w), now + 1000 * r + 1)
  {
  }

  datatype Decision = Pass | Refuse(retryAfterSeconds: nat)

  class RateLimiter {
    const windowMs: nat
    const max: nat
    var windows: map<string, Window>

    constructor (windowMs: nat, max: nat)
      ensures this.windowMs == windowMs && this.max == max && windows == map[]
    {
      this.windowMs, this.max, windows := windowMs, max, map[];
    }

    method CheckRateLimit(key: string, now: int) returns (r: Decision)
      modifies this
      ensures r.Pass? <==> Accepted(Lookup(old(windows), key), now, max)
      ensures r.Refuse? ==> key in windows && now <= windows[key].resetAt
                            && r.retryAfterSeconds == RetryAfterSeconds(windows[key], now)
                            && 0 <= now + 1000 * r.retryAfterSeconds - windows[key].resetAt < 1000
      ensures windows == old(windows)[key := AfterCall(Lookup(old(windows), key), now, windowMs)]
    {
      if key !in windows || windows[key].resetAt < now {
        windows := windows[key := Window(1, now + windowMs)];
        return Pass;
      }
      var win := windows[key].(count := windows[key].count + 1);
      windows := windows[key := win];
      if win.count > max {
        return Refuse(RetryAfterSeconds(win, now));
      }
      r := Pass;
    }

    /** Runs in the background at arbitrary moments. */
    method Cleanup(now: int)
      modifies this
      ensures forall key :: Lookup(windows, key) == AfterCleanup(Lookup(old(windows), key), now)
      ensures forall key :: key in windows <==> key in old(windows) && old(windows)[key].resetAt >= now
      ensures forall key :: key in windows ==> windows[key] == old(windows)[key]
    {
      var rest := windows.Keys;
      while rest != {}
        invariant rest <= old(windows).Keys
        invariant forall key :: key in rest ==> Lookup(windows, key) == Lookup(old(windows), key)
        invariant forall key :: key !in rest ==> Lookup(windows, key) == AfterCleanup(Lookup(old(windows), key), now)
        decreases |rest|
      {
        var key :| key in rest;
        if windows[key].resetAt < now {
          windows := windows - {key};
        }
        rest := rest - {key};
      }
      forall key ensures key in windows <==> Lookup(windows, key).Some? {
      }
    }
  }

  // ----- Runs, seen from one key -----

  /** Calls for other keys do not touch this key's window. */
  datatype Event = Call(now: int) | Sweep(now: int)

  datatype KeyState = KeyState(window: Option<Window>, accepted: seq<int>)

  function Step(s: KeyState, e: Event, windowMs: nat, max: nat): KeyState {
    match e
    case Call(now) =>
      KeyState(Some(AfterCall(s.window, now, windowMs)),
               if Accepted(s.window, now, max) then s.accepted + [now] else s.accepted)
    case Sweep(now) => s.(window := AfterCleanup(s.window, now))
  }

  function Run(events: seq<Event>, windowMs: nat, max: nat): KeyState {
    if events == [] then KeyState(None, [])
    else Step(Run(events[..|events| - 1], windowMs, max), events[|events| - 1], windowMs, max)
  }

  /** The clock never goes back. */
  ghost predicate Ordered(events: seq<Event>) {
    forall i, j :: 0 <= i <= j < |events| ==> events[i].now <= events[j].now
  }

  function WithoutSweeps(events: seq<Event>): seq<Event> {
    if events == [] then []
    else WithoutSweeps(events[..|events| - 1]) + if events[|events| - 1].Call? then [events[|events| - 1]] else []
  }

  /** At `now` and later, both windows lead to the same decisions. */
  ghost predicate Alike(v: Option<Window>, w: Option<Window>, now: int) {
    v == w || (Expired(v, now) && Expired(w, now))
  }

  /** The cleanup, at whatever moments it runs, changes no decision. */
  lemma {:induction false} CleanupIsInvisible(events: seq<Event>, windowMs: nat, max: nat, now: int)
    requires Ordered(events) && forall i :: 0 <= i < |events| ==> events[i].now <= now
    ensures var s, t := Run(events, windowMs, max), Run(WithoutSweeps(events), windowMs, max);
            && s.accepted == t.accepted
            && Alike(s.window, t.window, now)
            && (Accepted(s.window, now, max) <==> Accepted(t.window, now, max))
    decreases |events|
  {
    if events != [] {
      var init, e := events[..|events| - 1], events[|events| - 1];
      assert forall i :: 0 <= i < |init| ==> init[i] == events[i];
      CleanupIsInvisible(init, windowMs, max, e.now);
      if e.Call? {
        var calls := WithoutSweeps(init);
        assert (calls + [e])[..|calls|] == calls;
      } else {
        assert WithoutSweeps(events) == WithoutSweeps(init);
      }
    }
  }

  // ----- How many calls an interval may hold -----

  /** A window always lets its first call through. */
  function PerWindow(max: nat): nat {
    Max(max, 1)
  }

  /**
   The last window began at `start`, with an acceptance. It holds at most the maximum,
   one less after its start, and the `windowMs` before it also hold one less, since the
   first acceptance of the window before lies further back.
   */
  ghost predicate WindowOk(s: KeyState, start: int, now: int, windowMs: nat, max: nat) {
    && (forall t :: t in s.accepted ==> t <= now && t <= start + windowMs)
    && start <= now
    && Count(s.accepted, start, now + 1) <= PerWindow(max)
    && Count(s.accepted, start + 1, now + 1) < PerWindow(max)
    && Count(s.accepted, start - windowMs, start) < PerWindow(max)
    && (if s.window.Some? then s.window.value.resetAt == start + windowMs && s.window.value.count >= 1
                               && Count(s.accepted, start, now + 1) == Min(s.window.value.count, PerWindow(max))
                               && Count(s.accepted, start, start + 1) >= 1
        else start + windowMs < now)
  }

  lemma LaterStillOk(s: KeyState, start: int, before: int, now: int, windowMs: nat, max: nat)
    requires WindowOk(s, start, before, windowMs, max) && before <= now
    ensures WindowOk(s, start, now, windowMs, max)
  {
    CountWider(s.accepted, start, now + 1, start, before + 1);
    CountWider(s.accepted, start, before + 1, start, now + 1);
    CountWider(s.accepted, start + 1, now + 1, start + 1, before + 1);
  }

  /** A call that opens a new window. */
  lemma NewWindowOk(s: KeyState, start: int, now: int, windowMs: nat, max: nat)
    requires WindowOk(s, start, now, windowMs, max) && start + windowMs < now
    ensures WindowOk(KeyState(Some(Window(1, now + windowMs)), s.accepted + [now]), now, now, windowMs, max)
  {
    CountSnoc(s.accepted, now, now, now + 1);
    CountSnoc(s.accepted, now, now + 1, now + 1);
    CountSnoc(s.accepted, now, now - windowMs, now);
    CountWider(s.accepted, now - windowMs, now, start + 1, now + 1);
    CountNone(s.accepted, now, now + 1);
    CountNone(s.accepted, now + 1, now + 1);
  }

  /** A call in a window that has not ended. */
  lemma SameWindowOk(s: KeyState, start: int, now: int, windowMs: nat, max: nat)
    requires WindowOk(s, start, now, windowMs, max) && s.window.Some? && now <= s.window.value.resetAt
    ensures WindowOk(Step(s, Call(now), windowMs, max), start, now, windowMs, max)
  {
    if Accepted(s.window, now, max) {
      CountSnoc(s.accepted, now, start, now + 1);
      CountSnoc(s.accepted, now, start, start + 1);
      CountSnoc(s.accepted, now, start + 1, now + 1);
      CountSnoc(s.accepted, now, start - windowMs, start);
      CountSplit(s.accepted, start, start + 1, now + 1);
    }
  }

  lemma StepOk(s: KeyState, start: int, e: Event, windowMs: nat, max: nat) returns (next: int)
    requires WindowOk(s, start, e.now, windowMs, max)
    ensures WindowOk(Step(s, e, windowMs, max), next, e.now, windowMs, max)
    ensures next == if e.Call? && start + windowMs < e.now then e.now else start
  {
    next := start;
    if e.Call? {
      if Expired(s.window, e.now) {
        NewWindowOk(s, start, e.now, windowMs, max);
        next := e.now;
      } else {
        SameWindowOk(s, start, e.now, windowMs, max);
      }
    }
  }

  /** When the last window began: at the first call, and at every call after the end of a window. */
  ghost function WindowStart(events: seq<Event>, windowMs: nat): Option<int> {
    if events == [] then None
    else
      var before, e := WindowStart(events[..|events| - 1], windowMs), events[|events| - 1];
      if e.Call? && (before.None? || before.value + windowMs < e.now) then Some(e.now) else before
  }

  lemma {:induction false} RunOk(events: seq<Event>, windowMs: nat, max: nat) returns (start: int)
    requires Ordered(events) && events != []
    ensures WindowOk(Run(events, windowMs, max), start, events[|events| - 1].now, windowMs, max)
    ensures if WindowStart(events, windowMs).Some? then WindowStart(events, windowMs).value == start
            else start + windowMs < events[|events| - 1].now
    decreases |events|
  {
    var init, e := events[..|events| - 1], events[|events| - 1];
    start := e.now - windowMs - 1;
    if init != [] {
      start := RunOk(init, windowMs, max);
      LaterStillOk(Run(init, windowMs, max), start, init[|init| - 1].now, e.now, windowMs, max);
    }
    start := StepOk(Run(init, windowMs, max), start, e, windowMs, max);
  }

  lemma LastWindow(events: seq<Event>, windowMs: nat, max: nat) returns (start: int)
    requires Ordered(events) && events != []
    ensures WindowOk(Run(events, windowMs, max), start, events[|events| - 1].now, windowMs, max)
  {
    start := RunOk(events, windowMs, max);
  }

  /**
   A call is accepted exactly when the last window has ended, or fewer calls than the maximum
   have been accepted since it began.
   */
  lemma AcceptedIff(events: seq<Event>, windowMs: nat, max: nat, now: int)
    requires Ordered(events + [Call(now)])
    ensures var start := WindowStart(events, windowMs);
            Accepted(Run(events, windowMs, max).window, now, max) <==>
              || start.None? || start.value + windowMs < now
              || Count(Run(events, windowMs, max).accepted, start.value, now + 1) < PerWindow(max)
  {
    if events != [] {
      assert forall i :: 0 <= i < |events| ==> events[i] == (events + [Call(now)])[i];
      assert (events + [Call(now)])[|events|] == Call(now);
      var start := RunOk(events, windowMs, max);
      LaterStillOk(Run(events, windowMs, max), start, events[|events| - 1].now, now, windowMs, max);
    }
  }

  /** An interval that ends after `now` spans at most the last window and the time before it. */
  lemma LastIntervals(s: KeyState, start: int, now: int, windowMs: nat, max: nat, a: int)
    requires WindowOk(s, start, now, windowMs, max) && now < a + windowMs
    ensures Count(s.accepted, a, a + windowMs) <= 2 * PerWindow(max) - 1
  {
    CountWider(s.accepted, a, a + windowMs, start - windowMs, now + 1);
    CountSplit(s.accepted, start - windowMs, start, now + 1);
  }

  /**
   Every half-open interval as long as the window holds less than twice the maximum,
   with any cleanup. (A maximum of zero behaves like one.)
   */
  lemma {:induction false} LessThanTwiceMax(events: seq<Event>, windowMs: nat, max: nat, a: int)
    requires Ordered(events)
    ensures Count(Run(events, windowMs, max).accepted, a, a + windowMs) <= 2 * PerWindow(max) - 1
    decreases |events|
  {
    if events != [] {
      var init, e := events[..|events| - 1], events[|events| - 1];
      var start := LastWindow(events, windowMs, max);
      if e.now < a + windowMs {
        LastIntervals(Run(events, windowMs, max), start, e.now, windowMs, max, a);
      } else {
        LessThanTwiceMax(init, windowMs, max, a);
        CountSnoc(Run(init, windowMs, max).accepted, e.now, a, a + windowMs);
      }
    }
  }

  // ----- The bound is reached -----

  lemma RunSnoc(events: seq<Event>, e: Event, windowMs: nat, max: nat)
    ensures Run(events + [e], windowMs, max) == Step(Run(events, windowMs, max), e, windowMs, max)
  {
    assert (events + [e])[..|events|] == events;
  }

  /** A run that ended at `last` with this window, and its acceptances in `lo..hi`. */
  ghost predicate Reached(
      events: seq<Event>, windowMs: nat, max: nat, last: int, window: Window, lo: int, hi: int, total: nat)
  {
    && events != [] && Ordered(events) && events[|events| - 1].now == last
    && Run(events, windowMs, max).window == Some(window)
    && Count(Run(events, windowMs, max).accepted, lo, hi) == total
  }

  lemma OneCall(
      events: seq<Event>, windowMs: nat, max: nat, last: int, window: Window, lo: int, hi: int, total: nat, now: int)
    requires Reached(events, windowMs, max, last, window, lo, hi, total)
    requires last <= now && lo <= now < hi && (window.resetAt < now || window.count < max)
    ensures Reached(events + [Call(now)], windowMs, max, now, AfterCall(Some(window), now, windowMs), lo, hi, total + 1)
  {
    RunSnoc(events, Call(now), windowMs, max);
    CountSnoc(Run(events, windowMs, max).accepted, now, lo, hi);
  }

  lemma {:induction false} ManyCalls(
      events: seq<Event>, windowMs: nat, max: nat, last: int, window: Window, lo: int, hi: int, total: nat, now: int, n: nat)
    returns (more: seq<Event>)
    requires Reached(events, windowMs, max, last, window, lo, hi, total)
    requires last <= now <= window.resetAt && lo <= now < hi && window.count + n <= max && n > 0
    ensures Reached(more, windowMs, max, now, Window(window.count + n, window.resetAt), lo, hi, total + n)
    decreases n
  {
    if n == 1 {
      OneCall(events, windowMs, max, last, window, lo, hi, total, now);
      more := events + [Call(now)];
    } else {
      more := ManyCalls(events, windowMs, max, last, window, lo, hi, total, now, n - 1);
      OneCall(more, windowMs, max, now, Window(window.count + n - 1, window.resetAt), lo, hi, total + n - 1, now);
      more := more + [Call(now)];
    }
  }

  /**
   The bound is reached for every maximum of at least two: one call opens a window, the
   others come at its end, and a full window follows.
   */
  lemma BoundIsReached(windowMs: nat, max: nat) returns (events: seq<Event>)
    requires windowMs >= 2 && max >= 2
    ensures Ordered(events)
    ensures Count(Run(events, windowMs, max).accepted, windowMs, 2 * windowMs) == 2 * max - 1
  {
    var w, lo, hi := windowMs, windowMs, 2 * windowMs;
    events := [Call(0)];
    FirstCall(w, max);
    events := ManyCalls(events, w, max, 0, Window(1, w), lo, hi, 0, w, max - 1);
    OneCall(events, w, max, w, Window(max, w), lo, hi, max - 1, w + 1);
    events := ManyCalls(events + [Call(w + 1)], w, max, w + 1, Window(1, w + 1 + w), lo, hi, max, w + 1, max - 1);
  }

  lemma FirstCall(windowMs: nat, max: nat)
    requires windowMs >= 2
    ensures Reached([Call(0)], windowMs, max, 0, Window(1, windowMs), windowMs, 2 * windowMs, 0)
  {
    assert [Call(0)][..0] == [];
    assert Run([Call(0)], windowMs, max) == KeyState(Some(Window(1, windowMs)), [0]);
    CountSnoc([], 0, windowMs, 2 * windowMs);
    assert [] + [0] == [0];
  }

  /** Windows of at most one unit: an interval is a single moment, and lies in one window. */
  lemma {:induction false} ShortWindowsKeepMax(events: seq<Event>, windowMs: nat, max: nat, a: int)
    requires Ordered(events) && windowMs <= 1
    ensures Count(Run(events, windowMs, max).accepted, a, a + windowMs) <= PerWindow(max)
    decreases |events|
  {
    if events != [] {
      var init, e := events[..|events| - 1], events[|events| - 1];
      var start := LastWindow(events, windowMs, max);
      if e.now < a + windowMs {
        CountWider(Run(events, windowMs, max).accepted, a, a + windowMs, start, e.now + 1);
      } else {
        ShortWindowsKeepMax(init, windowMs, max, a);
        CountSnoc(Run(init, windowMs, max).accepted, e.now, a, a + windowMs);
      }
    }
  }

  /** An interval as long as the window that holds more than the maximum. */
  ghost predicate Exceeds(events: seq<Event>, a: int, windowMs: nat, max: nat) {
    Ordered(events) && Count(Run(events, windowMs, max).accepted, a, a + windowMs) > max
  }

  ghost predicate MayExceed(windowMs: nat, max: nat) {
    exists events, a :: Exceeds(events, a, windowMs, max)
  }

  /** A maximum of one is kept in every interval; a larger one may be exceeded, unless windows are single moments. */
  lemma ExceededIff(windowMs: nat, max: nat)
    requires max >= 1
    ensures MayExceed(windowMs, max) <==> max >= 2 && windowMs >= 2
  {
    if max >= 2 && windowMs >= 2 {
      var events := BoundIsReached(windowMs, max);
      assert Exceeds(events, windowMs, windowMs, max);
    } else if MayExceed(windowMs, max) {
      var events, a :| Exceeds(events, a, windowMs, max);
      if windowMs <= 1 {
        ShortWindowsKeepMax(events, windowMs, max, a);
      } else {
        LessThanTwiceMax(events, windowMs, max, a);
      }
    }
  }
}
