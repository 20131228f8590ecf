/**
 The load tester's pool of pre-signed transactions: its size (apps/load-tester/src/cli.rs),
 its contents (apps/load-tester/src/tx.rs) and the phases that use it up
 (apps/load-tester/src/worker.rs). Times are in microseconds.
 */
module LoadTester {
  import opened Numbers

  datatype LoadPhase = Warmup | Ramp | Sustained

  function TargetTps(phase: LoadPhase, baseTps: nat): nat {
    match phase
    case Warmup => Max(baseTps / 10, 1)
    case Ramp => baseTps / 2
    case Sustained => baseTps
  }

  function DurationSecs(phase: LoadPhase, sustainedSecs: nat): nat {
    match phase
    case Warmup => 30
    case Ramp => 60
    case Sustained => sustainedSecs
  }

  const CLAMP := 10_000_000
  const SECOND := 1_000_000

  /** The transactions that the three phases are meant to send. */
  function Planned(targetTps: nat, duration: nat): nat {
    30 * Max(targetTps / 10, 1) + 60 * Max(targetTps / 2, 1) + duration * targetTps
  }

  function PreSignCount(targetTps: nat, duration: nat): nat {
    if Planned(targetTps, duration) * 3 / 2 <= CLAMP then Planned(targetTps, duration) * 3 / 2 else CLAMP
  }

  /** The rates and durations of the three phases make up the plan, and the pool is half as much again, unless clamped. */
  lemma PlanIsTheSum(targetTps: nat, duration: nat)
    requires targetTps >= 1
    ensures Planned(targetTps, duration)
         == DurationSecs(Warmup, duration) * Max(TargetTps(Warmup, targetTps), 1)
            + DurationSecs(Ramp, duration) * Max(TargetTps(Ramp, targetTps), 1)
            + DurationSecs(Sustained, duration) * Max(TargetTps(Sustained, targetTps), 1)
    ensures PreSignCount(targetTps, duration) <= CLAMP
    ensures PreSignCount(targetTps, duration) < CLAMP ==>
              2 * PreSignCount(targetTps, duration) <= 3 * Planned(targetTps, duration) <= 2 * PreSignCount(targetTps, duration) + 1
  {
  }

  // ----- The pool -----

  datatype SignedTx = SignedTx(sender: nat, timestamp: nat)

  method PresignBatch(count: nat, senderCount: nat, now: nat) returns (txs: seq<SignedTx>)
    ensures |txs| == count
    ensures AllDifferent(txs)
    ensures var senders := Max(senderCount, 1);
            forall i :: 0 <= i < count ==> txs[i].sender == i % senders && txs[i].timestamp == now + i / senders
  {
    var senders := Max(senderCount, 1);
    txs := [];
    for i := 0 to count
      invariant |txs| == i
      invariant forall k :: 0 <= k < i ==> txs[k] == Signed(k, senders, now)
    {
      txs := txs + [SignedTx(i % senders, now + i / senders)];
    }
    forall i, j | 0 <= i < j < count ensures txs[i] != txs[j] {
      SignedDiffer(i, j, senders, now);
    }
  }

  function Signed(i: nat, senders: nat, now: nat): SignedTx
    requires senders > 0
  {
    SignedTx(i % senders, now + i / senders)
  }

  /** Round-robin senders, each with its own sequence of timestamps: no pair occurs twice. */
  lemma SignedDiffer(i: nat, j: nat, senders: nat, now: nat)
    requires senders > 0 && i != j
    ensures Signed(i, senders, now) != Signed(j, senders, now)
  {
    assert i == senders * (i / senders) + i % senders;
    assert j == senders * (j / senders) + j % senders;
  }

  // ----- One phase -----

  /** The shared cursor, and every index taken from it. */
  class Cursor {
    var next: nat
    ghost var taken: seq<nat>

    ghost predicate Valid()
      reads this
    {
      next == |taken| && forall i :: 0 <= i < next ==> taken[i] == i
    }

    constructor ()
      ensures Valid() && next == 0
    {
      next, taken := 0, [];
    }

    method FetchAdd() returns (raw: nat)
      requires Valid()
      modifies this
      ensures Valid() && raw == old(next) && next == old(next) + 1
    {
      raw := next;
      taken := taken + [next];
      next := next + 1;
    }
  }

  /** Whole microseconds between ticks. */
  function Interval(targetTps: nat): nat {
    SECOND / Max(targetTps, 1)
  }

  /**
   Clock readings at the loop head, since the start of the phase. A tick comes no
   earlier than scheduled, so the reading after the `j`-th tick is at least `j - 1`
   intervals.
   */
  ghost predicate Paced(clock: seq<nat>, interval: nat) {
    forall j :: 1 <= j < |clock| ==> clock[j] >= (j - 1) * interval
  }

  /** How many ticks a phase has: it ends at the first reading past its deadline. */
  ghost function Ticks(clock: seq<nat>, deadline: nat): nat {
    if clock == [] || clock[0] >= deadline then 0 else 1 + Ticks(clock[1..], deadline)
  }

  /** No more than this, with one late tick. */
  function MaxTicks(deadline: nat, interval: nat): nat
    requires interval > 0
  {
    if deadline == 0 then 0 else (deadline - 1) / interval + 2
  }

  lemma {:induction false} TicksCount(clock: seq<nat>, deadline: nat, n: nat)
    requires n <= |clock|
    requires forall j :: 0 <= j < n ==> clock[j] < deadline
    requires n == |clock| || clock[n] >= deadline
    ensures Ticks(clock, deadline) == n
  {
    if n > 0 {
      TicksCount(clock[1..], deadline, n - 1);
    }
  }

  method RunPhase(poolSize: nat, targetTps: nat, duration: nat, cursor: Cursor, clock: seq<nat>) returns (ok: bool)
    requires cursor.Valid()
    modifies cursor
    ensures cursor.Valid()
    ensures ok <==> poolSize > 0
    ensures cursor.next == old(cursor.next) + if ok then Ticks(clock, duration * SECOND) else 0
  {
    if poolSize == 0 {
      return false;
    }
    var deadline := duration * SECOND;
    var j := 0;
    while j < |clock| && clock[j] < deadline
      invariant 0 <= j <= |clock| && cursor.Valid()
      invariant forall k :: 0 <= k < j ==> clock[k] < deadline
      invariant cursor.next == old(cursor.next) + j
    {
      var raw := cursor.FetchAdd();
      j := j + 1;
    }
    TicksCount(clock, deadline, j);
    ok := true;
  }

  lemma {:induction false} TicksStopAtDeadline(clock: seq<nat>, deadline: nat)
    ensures Ticks(clock, deadline) <= |clock|
    ensures forall j :: 0 <= j < Ticks(clock, deadline) ==> clock[j] < deadline
  {
    if clock != [] && clock[0] < deadline {
      TicksStopAtDeadline(clock[1..], deadline);
      assert forall j :: 1 <= j < |clock| ==> clock[j] == clock[1..][j - 1];
    }
  }

  lemma TicksBound(clock: seq<nat>, deadline: nat, interval: nat)
    requires interval > 0 && Paced(clock, interval)
    ensures Ticks(clock, deadline) <= MaxTicks(deadline, interval)
  {
    TicksStopAtDeadline(clock, deadline);
    var n := Ticks(clock, deadline);
    if n >= 2 {
      assert clock[n - 1] >= (n - 2) * interval;
      QuotientBound(n - 2, interval, deadline - 1);
    }
  }

  lemma QuotientBound(q: nat, d: nat, a: nat)
    requires d > 0 && q * d <= a
    ensures q <= a / d
  {
    assert a == d * (a / d) + a % d;
    ProductMonotone(a / d + 1, q, d);
  }

  lemma ProductMonotone(a: nat, b: nat, q: nat)
    ensures a <= b ==> a * q <= b * q
  {
  }

  /** A clock that is never late, except that the last tick comes just before the deadline passes. */
  ghost function Punctual(interval: nat, n: nat): (clock: seq<nat>)
    ensures |clock| == n
    ensures forall j :: 0 <= j < n ==> clock[j] == if j == 0 then 0 else (j - 1) * interval
  {
    if n == 0 then [] else Punctual(interval, n - 1) + [if n == 1 then 0 else (n - 2) * interval]
  }

  /** The bound on ticks is reached. */
  lemma BoundIsReached(deadline: nat, interval: nat) returns (clock: seq<nat>)
    requires interval > 0
    ensures Paced(clock, interval) && Ticks(clock, deadline) == MaxTicks(deadline, interval)
  {
    var n := MaxTicks(deadline, interval);
    clock := Punctual(interval, n);
    forall j | 0 <= j < n ensures clock[j] < deadline {
      if j > 0 {
        ProductMonotone(j - 1, n - 2, interval);
        assert (deadline - 1) / interval * interval <= deadline - 1;
      }
    }
    TicksCount(clock, deadline, n);
  }

  // ----- All phases -----

  /** The clock readings of the three phases. */
  datatype Clocks = Clocks(warmup: seq<nat>, ramp: seq<nat>, sustained: seq<nat>)

  ghost predicate AllPaced(clocks: Clocks, targetTps: nat) {
    && Paced(clocks.warmup, Interval(TargetTps(Warmup, targetTps)))
    && Paced(clocks.ramp, Interval(TargetTps(Ramp, targetTps)))
    && Paced(clocks.sustained, Interval(TargetTps(Sustained, targetTps)))
  }

  /** How many indices a run takes. */
  ghost function RunTicks(clocks: Clocks, duration: nat): nat {
    Ticks(clocks.warmup, DurationSecs(Warmup, duration) * SECOND)
    + Ticks(clocks.ramp, DurationSecs(Ramp, duration) * SECOND)
    + Ticks(clocks.sustained, DurationSecs(Sustained, duration) * SECOND)
  }

  function PhaseMaxTicks(phase: LoadPhase, targetTps: nat, duration: nat): nat
    requires targetTps <= SECOND
  {
    IntervalIsPositive(TargetTps(phase, targetTps));
    MaxTicks(DurationSecs(phase, duration) * SECOND, Interval(TargetTps(phase, targetTps)))
  }

  lemma IntervalIsPositive(t: nat)
    requires t <= SECOND
    ensures Interval(t) > 0
  {
    QuotientBound(1, Max(t, 1), SECOND);
  }

  /** The most indices that a run may take; above one tick a microsecond there is no interval. */
  function WorstCase(targetTps: nat, duration: nat): nat
    requires targetTps <= SECOND
  {
    PhaseMaxTicks(Warmup, targetTps, duration) + PhaseMaxTicks(Ramp, targetTps, duration)
    + PhaseMaxTicks(Sustained, targetTps, duration)
  }

  lemma RunIsWithinWorstCase(clocks: Clocks, targetTps: nat, duration: nat)
    requires targetTps <= SECOND && AllPaced(clocks, targetTps)
    ensures RunTicks(clocks, duration) <= WorstCase(targetTps, duration)
  {
    IntervalIsPositive(TargetTps(Warmup, targetTps));
    IntervalIsPositive(TargetTps(Ramp, targetTps));
    IntervalIsPositive(TargetTps(Sustained, targetTps));
    TicksBound(clocks.warmup, DurationSecs(Warmup, duration) * SECOND, Interval(TargetTps(Warmup, targetTps)));
    TicksBound(clocks.ramp, DurationSecs(Ramp, duration) * SECOND, Interval(TargetTps(Ramp, targetTps)));
    TicksBound(clocks.sustained, DurationSecs(Sustained, duration) * SECOND, Interval(TargetTps(Sustained, targetTps)));
  }

  lemma WorstCaseIsReached(targetTps: nat, duration: nat) returns (clocks: Clocks)
    requires targetTps <= SECOND
    ensures AllPaced(clocks, targetTps) && RunTicks(clocks, duration) == WorstCase(targetTps, duration)
  {
    IntervalIsPositive(TargetTps(Warmup, targetTps));
    IntervalIsPositive(TargetTps(Ramp, targetTps));
    IntervalIsPositive(TargetTps(Sustained, targetTps));
    var w := BoundIsReached(DurationSecs(Warmup, duration) * SECOND, Interval(TargetTps(Warmup, targetTps)));
    var r := BoundIsReached(DurationSecs(Ramp, duration) * SECOND, Interval(TargetTps(Ramp, targetTps)));
    var s := BoundIsReached(DurationSecs(Sustained, duration) * SECOND, Interval(TargetTps(Sustained, targetTps)));
    clocks := Clocks(w, r, s);
  }

  // ----- Sending every transaction once -----

  ghost predicate AllDifferent(txs: seq<SignedTx>) {
    forall i, j :: 0 <= i < j < |txs| ==> txs[i] != txs[j]
  }

  /** The transaction sent for an index: the pool is used in rotation. */
  function TxAt(txs: seq<SignedTx>, raw: nat): SignedTx
    requires |txs| > 0
  {
    txs[raw % |txs|]
  }

  lemma FirstRotation(txs: seq<SignedTx>, raw: nat)
    requires raw < |txs|
    ensures TxAt(txs, raw) == txs[raw]
  {
  }

  /** Index 0 and the first index beyond the pool send the same transaction. */
  lemma SecondRotation(txs: seq<SignedTx>)
    requires |txs| > 0
    ensures TxAt(txs, |txs|) == TxAt(txs, 0)
  {
  }

  /** The indices that a cursor gives out. */
  ghost function FirstIndices(n: nat): (taken: seq<nat>)
    ensures |taken| == n && forall i :: 0 <= i < n ==> taken[i] == i
  {
    if n == 0 then [] else FirstIndices(n - 1) + [n - 1]
  }

  /** No transaction of the pool was sent twice. */
  ghost predicate SentOnce(txs: seq<SignedTx>, taken: seq<nat>)
    requires |txs| > 0
  {
    forall i, j :: 0 <= i < j < |taken| ==> TxAt(txs, taken[i]) != TxAt(txs, taken[j])
  }

  /** Nothing is sent twice iff no more indices are taken than the pool holds. */
  lemma SentOnceIff(txs: seq<SignedTx>, n: nat)
    requires AllDifferent(txs) && |txs| > 0
    ensures SentOnce(txs, FirstIndices(n)) <==> n <= |txs|
  {
    var taken := FirstIndices(n);
    if n <= |txs| {
      forall i, j | 0 <= i < j < n ensures TxAt(txs, taken[i]) != TxAt(txs, taken[j]) {
        FirstRotation(txs, i);
        FirstRotation(txs, j);
      }
    } else {
      SecondRotation(txs);
      assert taken[0] == 0 && taken[|txs|] == |txs|;
    }
  }

  ghost predicate NeverSentTwice(txs: seq<SignedTx>, targetTps: nat, duration: nat)
    requires |txs| > 0
  {
    forall clocks :: AllPaced(clocks, targetTps) ==> SentOnce(txs, FirstIndices(RunTicks(clocks, duration)))
  }

  /** For every pool: no run sends a transaction twice iff the worst case fits the pool. */
  lemma NeverSentTwiceIff(txs: seq<SignedTx>, targetTps: nat, duration: nat)
    requires targetTps <= SECOND && AllDifferent(txs) && |txs| > 0
    ensures NeverSentTwice(txs, targetTps, duration) <==> WorstCase(targetTps, duration) <= |txs|
  {
    forall clocks | AllPaced(clocks, targetTps)
      ensures RunTicks(clocks, duration) <= WorstCase(targetTps, duration)
      ensures SentOnce(txs, FirstIndices(RunTicks(clocks, duration))) <==> RunTicks(clocks, duration) <= |txs|
    {
      RunIsWithinWorstCase(clocks, targetTps, duration);
      SentOnceIff(txs, RunTicks(clocks, duration));
    }
    var worst := WorstCaseIsReached(targetTps, duration);
    assert AllPaced(worst, targetTps);
  }

  /** The three phases with one cursor: exactly when nothing is sent twice. */
  method RunAll(txs: seq<SignedTx>, targetTps: nat, duration: nat, clocks: Clocks) returns (cursor: Cursor)
    requires AllDifferent(txs) && |txs| > 0
    ensures cursor.Valid() && cursor.taken == FirstIndices(RunTicks(clocks, duration))
    ensures SentOnce(txs, cursor.taken) <==> RunTicks(clocks, duration) <= |txs|
  {
    cursor := new Cursor();
    var _ := RunPhase(|txs|, TargetTps(Warmup, targetTps), DurationSecs(Warmup, duration), cursor, clocks.warmup);
    var _ := RunPhase(|txs|, TargetTps(Ramp, targetTps), DurationSecs(Ramp, duration), cursor, clocks.ramp);
    var _ := RunPhase(|txs|, TargetTps(Sustained, targetTps), DurationSecs(Sustained, duration), cursor, clocks.sustained);
    assert cursor.taken == FirstIndices(|cursor.taken|);
    SentOnceIff(txs, RunTicks(clocks, duration));
  }

  // ----- The default pool -----

  /** Flooring the interval to whole microseconds speeds a phase up by at most a quarter. */
  lemma FlooredInterval(t: nat)
    requires 1 <= t <= 250_000
    ensures SECOND / t > 0 && 5 * (t * (SECOND / t)) >= 4 * SECOND
  {
    var product := DivisionBounds(SECOND, t);
    if t > 200_000 {
      QuotientBound(4, t, SECOND);
      ProductMonotone(4, SECOND / t, t);
    }
  }

  lemma DivisionBounds(a: nat, d: nat) returns (product: nat)
    requires 0 < d
    ensures product == d * (a / d) && a - d < product <= a
    ensures d <= a ==> a / d > 0
  {
    product := d * (a / d);
    assert a == d * (a / d) + a % d;
    if d <= a {
      QuotientBound(1, d, a);
    }
  }

  lemma PhaseBound(secs: nat, t: nat)
    requires 1 <= t <= 250_000
    ensures SECOND / t > 0 && 4 * MaxTicks(secs * SECOND, SECOND / t) <= 5 * (secs * t) + 8
  {
    FlooredInterval(t);
    var i := SECOND / t;
    if secs > 0 {
      var d := secs * SECOND - 1;
      var q := d / i;
      assert i * q <= d;
      ProductMonotone(4 * SECOND, 5 * (t * i), q);
      assert 5 * (t * i) * q == 5 * t * (i * q);
      ProductMonotone(i * q, secs * SECOND, 5 * t);
      assert 4 * SECOND * q <= 5 * t * (secs * SECOND);
      assert 5 * t * (secs * SECOND) == 5 * (secs * t) * SECOND;
    }
  }

  /** Without the clamp, the rate is far below one transaction for each microsecond. */
  lemma RateBound(targetTps: nat, duration: nat)
    requires Planned(targetTps, duration) * 3 / 2 <= CLAMP
    ensures targetTps <= 250_000
  {
    assert Planned(targetTps, duration) >= 30 * (targetTps / 10) + 60 * (targetTps / 2);
  }

  /**
   For every positive rate and every duration: unless the clamp is reached, the worst
   case of the three phases together fits the pool.
   */
  lemma PoolSuffices(targetTps: nat, duration: nat)
    requires targetTps >= 1
    requires Planned(targetTps, duration) * 3 / 2 <= CLAMP
    ensures targetTps <= SECOND && WorstCase(targetTps, duration) <= PreSignCount(targetTps, duration)
  {
    RateBound(targetTps, duration);
    var w, r := Max(targetTps / 10, 1), Max(targetTps / 2, 1);
    PhaseBound(30, w);
    PhaseBound(60, r);
    PhaseBound(duration, targetTps);
    assert Interval(TargetTps(Warmup, targetTps)) == SECOND / w;
    assert Interval(TargetTps(Ramp, targetTps)) == SECOND / r;
    assert Interval(TargetTps(Sustained, targetTps)) == SECOND / targetTps;
  }

  lemma PoolIsNotEmpty(targetTps: nat, duration: nat)
    ensures PreSignCount(targetTps, duration) > 0
  {
    assert Planned(targetTps, duration) >= 90;
  }

  /** So no run with the default pool sends a transaction twice. */
  lemma DefaultPoolIsSafe(txs: seq<SignedTx>, targetTps: nat, duration: nat)
    requires targetTps >= 1 && Planned(targetTps, duration) * 3 / 2 <= CLAMP
    requires AllDifferent(txs) && |txs| == PreSignCount(targetTps, duration)
    ensures |txs| > 0 && NeverSentTwice(txs, targetTps, duration)
  {
    PoolIsNotEmpty(targetTps, duration);
    PoolSuffices(targetTps, duration);
    NeverSentTwiceIff(txs, targetTps, duration);
  }

  /**
   At rate zero the sustained phase still sends one a second, which the pool does not
   count: nothing is sent twice iff it lasts at most 42 seconds.
   */
  lemma ZeroRate(txs: seq<SignedTx>, duration: nat)
    requires AllDifferent(txs) && |txs| == PreSignCount(0, duration)
    ensures |txs| > 0 && (NeverSentTwice(txs, 0, duration) <==> duration <= 42)
  {
    assert PreSignCount(0, duration) == 135;
    NeverSentTwiceIff(txs, 0, duration);
    SecondsAtRateZero(duration);
  }

  lemma SecondsAtRateZero(duration: nat)
    ensures WorstCase(0, duration) == 92 + (if duration == 0 then 0 else duration + 1)
  {
    WholeIntervals(30, SECOND);
    WholeIntervals(60, SECOND);
    WholeIntervals(duration, SECOND);
  }

  /** A phase of whole intervals has one tick more. */
  lemma WholeIntervals(n: nat, interval: nat)
    requires interval > 0
    ensures MaxTicks(n * interval, interval) == if n == 0 then 0 else n + 1
  {
    if n > 0 {
      ProductMonotone(1, n, interval);
      QuotientBound(n - 1, interval, n * interval - 1);
      var product := DivisionBounds(n * interval - 1, interval);
      BelowMultiple((n * interval - 1) / interval, n, interval);
    }
  }

  lemma BelowMultiple(q: nat, n: nat, d: nat)
    requires d * q < n * d
    ensures q < n
  {
    ProductMonotone(n, q, d);
  }

  /** With the pool clamped, nothing is sent twice iff the worst case is at most the clamp. */
  lemma ClampedPool(txs: seq<SignedTx>, targetTps: nat, duration: nat)
    requires targetTps <= SECOND && Planned(targetTps, duration) * 3 / 2 > CLAMP
    requires AllDifferent(txs) && |txs| == PreSignCount(targetTps, duration)
    ensures |txs| > 0 && (NeverSentTwice(txs, targetTps, duration) <==> WorstCase(targetTps, duration) <= CLAMP)
  {
    NeverSentTwiceIff(txs, targetTps, duration);
  }

  /** Both happen with a clamped pool, at one and the same rate. */
  lemma ClampedEitherWay()
    ensures Planned(1000, 7000) * 3 / 2 > CLAMP && WorstCase(1000, 7000) <= CLAMP
    ensures Planned(1000, 9990) * 3 / 2 > CLAMP && WorstCase(1000, 9990) > CLAMP
  {
    AtRateThousand(7000);
    AtRateThousand(9990);
  }

  lemma AtRateThousand(duration: nat)
    requires duration > 0
    ensures WorstCase(1000, duration) == 33_003 + 1000 * duration
  {
    WholeIntervals(3000, 10_000);
    WholeIntervals(30_000, 2000);
    WholeIntervals(1000 * duration, 1000);
    assert Interval(TargetTps(Warmup, 1000)) == 10_000;
    assert Interval(TargetTps(Ramp, 1000)) == 2000;
    assert Interval(TargetTps(Sustained, 1000)) == 1000;
  }
}
