/** Graceful shutdown (`_drain_concurrency`) and the `/health` counters, both of which only
    look at the semaphore values. */
module Drain {
  import opened Admission

  datatype Outcome = Skipped | Complete | TimedOut

  const POLL_SECONDS: real := 0.05

  function Min(a: real, b: real): real {
    if a <= b then a else b
  }

  /** Seconds since the deadline was set when poll `i` is made. A sleep advances the clock
      by its argument plus `lag`, the scheduling delay. */
  function Elapsed(i: nat, budget: real, lag: nat -> real): real {
    if i == 0 then lag(0)
    else
      var before := Elapsed(i - 1, budget, lag);
      before + Min(POLL_SECONDS, budget - before) + lag(i)
  }

  /** Before the deadline a poll is followed by one a full interval later or at the deadline. */
  lemma SleepAdvances(polls: nat, now: real, drainSeconds: nat, late: real)
    requires late >= 0.0 && now < drainSeconds as real && 20.0 * now >= polls as real
    ensures polls < 20 * drainSeconds
    ensures var next := now + Min(POLL_SECONDS, drainSeconds as real - now) + late;
      next >= drainSeconds as real || 20.0 * next >= (polls + 1) as real
  {
    assert polls as real < (20 * drainSeconds) as real;
  }

  /** Polls `0` to `n - 1` all saw a busy semaphore before the deadline. */
  ghost predicate BusyThrough(n: nat, capacity: int, budget: real, available: nat -> int, lag: nat -> real) {
    forall i: nat | i < n :: available(i) < capacity && Elapsed(i, budget, lag) < budget
  }

  /** A finished drain made `polls` polls; all but the last were busy and early, and the last
      one either saw every permit back or found the deadline passed. */
  ghost predicate Report(outcome: Outcome, polls: nat, capacity: int, drainSeconds: int,
                         available: nat -> int, lag: nat -> real) {
    && !outcome.Skipped? && 1 <= polls <= 20 * drainSeconds + 1
    && BusyThrough(polls - 1, capacity, drainSeconds as real, available, lag)
    && (outcome.Complete? ==> available(polls - 1) >= capacity)
    && (outcome.TimedOut? ==>
          available(polls - 1) < capacity && Elapsed(polls - 1, drainSeconds as real, lag) >= drainSeconds as real)
  }

  lemma ElapsedNext(i: nat, budget: real, lag: nat -> real)
    ensures var before := Elapsed(i, budget, lag);
      Elapsed(i + 1, budget, lag) == before + Min(POLL_SECONDS, budget - before) + lag(i + 1)
  { }

  /** `available(i)` is the semaphore value seen at poll `i`. */
  method DrainConcurrency(capacity: int, drainSeconds: int, available: nat -> int, lag: nat -> real)
    returns (outcome: Outcome, polls: nat)
    requires forall i :: lag(i) >= 0.0
    ensures outcome.Skipped? <==> capacity <= 0 || drainSeconds <= 0
    ensures !outcome.Skipped? ==> Report(outcome, polls, capacity, drainSeconds, available, lag)
  {
    polls := 0;
    if capacity <= 0 {
      return Skipped, 0;
    }
    if drainSeconds <= 0 {
      return Skipped, 0;
    }
    var budget := drainSeconds as real;
    var now := lag(0);
    while true
      invariant polls <= 20 * drainSeconds
      invariant now == Elapsed(polls, budget, lag)
      invariant now >= budget || 20.0 * now >= polls as real
      invariant BusyThrough(polls, capacity, budget, available, lag)
      decreases 20 * drainSeconds - polls
    {
      if available(polls) >= capacity {
        return Complete, polls + 1;
      }
      var remaining := budget - now;
      if remaining <= 0.0 {
        return TimedOut, polls + 1;
      }
      SleepAdvances(polls, now, drainSeconds, lag(polls + 1));
      ElapsedNext(polls, budget, lag);
      now := now + Min(POLL_SECONDS, remaining) + lag(polls + 1);
      polls := polls + 1;
    }
  }

  /** Poll `i` is made if no earlier one sees every permit back: all before it are early. */
  ghost predicate Reached(i: nat, budget: real, lag: nat -> real) {
    forall j: nat | j < i :: Elapsed(j, budget, lag) < budget
  }

  /** The drain completes exactly when some poll that the deadline does not forestall sees
      every permit back, however late the sleeps wake. */
  lemma CompleteIffSeenIdle(outcome: Outcome, polls: nat, capacity: int, drainSeconds: int,
                            available: nat -> int, lag: nat -> real)
    requires drainSeconds > 0 && Report(outcome, polls, capacity, drainSeconds, available, lag)
    ensures outcome.Complete?
            <==> exists i: nat :: available(i) >= capacity && Reached(i, drainSeconds as real, lag)
  {
    if outcome.Complete? {
      assert available(polls - 1) >= capacity && Reached(polls - 1, drainSeconds as real, lag);
    }
  }

  lemma {:induction false} PunctualPolls(i: nat, budget: real, lag: nat -> real)
    requires budget >= 0.0 && forall k :: lag(k) == 0.0
    ensures Elapsed(i, budget, lag) == Min(POLL_SECONDS * i as real, budget)
  {
    if i > 0 {
      PunctualPolls(i - 1, budget, lag);
      assert POLL_SECONDS * i as real == POLL_SECONDS * (i - 1) as real + POLL_SECONDS;
    }
  }

  /** Before the deadline a sleep lasts to the next interval or to the deadline, whichever is
      nearer, plus its lag; so the drain overshoots its budget by no more than the last lag. */
  lemma SleepsToTheDeadline(i: nat, budget: real, lag: nat -> real)
    requires i >= 1 && Reached(i, budget, lag)
    ensures var before, now := Elapsed(i - 1, budget, lag), Elapsed(i, budget, lag) - lag(i);
      && before < now <= budget && now <= before + 0.05
      && (now == budget || now == before + 0.05)
  { }

  /** With sleeps that wake on time those polls are the ones up to and at the deadline. */
  lemma PunctualReach(i: nat, drainSeconds: int, lag: nat -> real)
    requires drainSeconds > 0 && forall k :: lag(k) == 0.0
    ensures Reached(i, drainSeconds as real, lag) <==> i <= 20 * drainSeconds
  {
    var budget := drainSeconds as real;
    forall j: nat | true ensures Elapsed(j, budget, lag) < budget <==> j < 20 * drainSeconds {
      PunctualPolls(j, budget, lag);
      assert POLL_SECONDS * j as real < budget <==> j < 20 * drainSeconds;
    }
    if i > 20 * drainSeconds {
      var at: nat := 20 * drainSeconds;
      assert !(Elapsed(at, budget, lag) < budget);
    }
  }

  ghost predicate NobodyActive(s: System) {
    forall i | 0 <= i < |s.requests| :: !HoldsConcurrency(s.requests[i].stage)
  }

  lemma {:induction false} NoneActive(rs: seq<Request>)
    requires Total(rs, ConcurrencyShare) == 0
    ensures forall i | 0 <= i < |rs| :: !HoldsConcurrency(rs[i].stage)
  {
    if rs != [] {
      NoneActive(rs[1..]);
    }
  }

  /** A state some run from the start ends in. */
  ghost predicate Reachable(s: System, queueCap: nat, concurrencyCap: nat) {
    exists events :: Runnable(Init(queueCap, concurrencyCap), events)
                     && After(Init(queueCap, concurrencyCap), events) == s
  }

  lemma ReachableInv(s: System, queueCap: nat, concurrencyCap: nat)
    requires concurrencyCap >= 1 && Reachable(s, queueCap, concurrencyCap)
    ensures Inv(s) && s.queueCap == queueCap && s.concurrencyCap == concurrencyCap
  {
    hide Inv, Next, Enabled;
    var events :| Runnable(Init(queueCap, concurrencyCap), events)
      && After(Init(queueCap, concurrencyCap), events) == s;
    InitHoldsInv(queueCap, concurrencyCap);
    RunKeepsInv(Init(queueCap, concurrencyCap), events);
  }

  /** In every reachable state the value the drain compares with the capacity reaches it
      exactly when no request holds a concurrency permit. */
  lemma IdleIffAllPermitsBack(s: System, queueCap: nat, concurrencyCap: nat)
    requires concurrencyCap >= 1 && Reachable(s, queueCap, concurrencyCap)
    ensures s.concurrency >= concurrencyCap <==> NobodyActive(s)
  {
    ReachableInv(s, queueCap, concurrencyCap);
    hide Reachable, LocksConsistent, FilesMatch;
    if Active(s) >= 1 {
      var i := SomeActive(s.requests);
    } else {
      NoneActive(s.requests);
    }
  }

  /** "Drain complete" is reported only in a state where no request is being synthesised;
      `states(i)` is the state poll `i` looks at. */
  lemma CompleteMeansIdle(outcome: Outcome, polls: nat, drainSeconds: int, queueCap: nat, concurrencyCap: nat,
                          states: nat -> System, lag: nat -> real)
    requires concurrencyCap >= 1 && forall i :: Reachable(states(i), queueCap, concurrencyCap)
    requires Report(outcome, polls, concurrencyCap, drainSeconds, (i: nat) => states(i).concurrency as int, lag)
    requires outcome.Complete?
    ensures NobodyActive(states(polls - 1))
  {
    IdleIffAllPermitsBack(states(polls - 1), queueCap, concurrencyCap);
  }

  /** `_semaphore_used` */
  function SemaphoreUsed(value: nat, capacity: int): int {
    if capacity <= 0 then 0
    else
      var used := capacity - value;
      if used > 0 then used else 0
  }

  /** The counter is the permits out, never negative, and 0 without a limit. */
  lemma SemaphoreUsedSpec(value: nat, capacity: int)
    ensures SemaphoreUsed(value, capacity) >= 0
    ensures capacity <= 0 || value >= capacity ==> SemaphoreUsed(value, capacity) == 0
    ensures 0 <= value <= capacity ==> SemaphoreUsed(value, capacity) + value == capacity
  { }

  /** In every reachable state `/health` reports exactly the admitted and the active requests;
      clamping at zero never hides a negative count. */
  lemma HealthCountsHolders(s: System, queueCap: nat, concurrencyCap: nat)
    requires concurrencyCap >= 1 && Reachable(s, queueCap, concurrencyCap)
    ensures SemaphoreUsed(s.queue, queueCap) == queueCap - s.queue == Admitted(s)
    ensures SemaphoreUsed(s.concurrency, concurrencyCap) == concurrencyCap - s.concurrency == Active(s)
  {
    ReachableInv(s, queueCap, concurrencyCap);
  }
}
