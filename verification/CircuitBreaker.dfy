/** The circuit breaker around outgoing calls. Calls do not overlap; the clock is a parameter. */
module CircuitBreaker {
  datatype State = Closed | Open | HalfOpen

  /** One call: when it arrives, whether the wrapped function would succeed, and when that is known. */
  datatype Attempt = Attempt(start: real, succeeds: bool, end: real)

  datatype Answer = Rejected | Returned | Raised

  datatype Breaker = Breaker(failureCount: int, state: State, lastFailureTime: real)

  datatype Settings = Limits(failureThreshold: int, recoveryTimeout: int)

  const FRESH := Breaker(0, Closed, 0.0)

  function Call(b: Breaker, s: Settings, a: Attempt): (Breaker, Answer) {
    if b.state.Open? && !(b.lastFailureTime + s.recoveryTimeout as real < a.start) then (b, Rejected)
    else
      var probing := if b.state.Open? then HalfOpen else b.state;
      if a.succeeds then
        (Breaker(0, if probing.HalfOpen? then Closed else probing, b.lastFailureTime), Returned)
      else if b.failureCount + 1 >= s.failureThreshold then
        (Breaker(b.failureCount + 1, Open, a.end), Raised)
      else
        (Breaker(b.failureCount + 1, probing, b.lastFailureTime), Raised)
  }

  class CircuitBreaker {
    const failureThreshold: int
    const recoveryTimeout: int
    var failureCount: int
    var state: State
    var lastFailureTime: real

    constructor (failureThreshold: int, recoveryTimeout: int)
      ensures Configured() == Limits(failureThreshold, recoveryTimeout) && Current() == FRESH
    {
      this.failureThreshold, this.recoveryTimeout := failureThreshold, recoveryTimeout;
      failureCount, state, lastFailureTime := 0, Closed, 0.0;
    }

    function Configured(): Settings {
      Limits(failureThreshold, recoveryTimeout)
    }

    function Current(): Breaker
      reads this
    {
      Breaker(failureCount, state, lastFailureTime)
    }

    method Invoke(a: Attempt) returns (answer: Answer)
      modifies this
      ensures (Current(), answer) == Call(old(Current()), Configured(), a)
    {
      if state == Open {
        if lastFailureTime + recoveryTimeout as real < a.start {
          state := HalfOpen;
        } else {
          return Rejected;
        }
      }
      if a.succeeds {
        failureCount := 0;
        if state == HalfOpen {
          state := Closed;
        }
        return Returned;
      }
      failureCount := failureCount + 1;
      if failureCount >= failureThreshold {
        state := Open;
        lastFailureTime := a.end;
      }
      return Raised;
    }
  }

  /** The breaker after a run of calls, from fresh. */
  function Run(s: Settings, attempts: seq<Attempt>): Breaker {
    if attempts == [] then FRESH
    else Call(Run(s, attempts[..|attempts| - 1]), s, attempts[|attempts| - 1]).0
  }

  /** The calls of the run that reached the wrapped function, in order. */
  function Invocations(s: Settings, attempts: seq<Attempt>): seq<Attempt> {
    if attempts == [] then []
    else
      var init, a := attempts[..|attempts| - 1], attempts[|attempts| - 1];
      if Call(Run(s, init), s, a).1.Rejected? then Invocations(s, init)
      else Invocations(s, init) + [a]
  }

  /** How many invocations at the end of a history failed in a row. */
  function TrailingFailures(invoked: seq<Attempt>): nat {
    if invoked == [] || invoked[|invoked| - 1].succeeds then 0
    else 1 + TrailingFailures(invoked[..|invoked| - 1])
  }

  /** The number of failures in a row that opens the breaker: a threshold below one acts as one. */
  function TripsAt(s: Settings): int {
    if s.failureThreshold > 1 then s.failureThreshold else 1
  }

  /**
   * Between calls the breaker is a function of its history: the failure count is the number of
   * trailing failed invocations, it is open exactly when that number has reached the threshold,
   * then timed from the last of them, and otherwise closed: it is never left half-open.
   */
  lemma {:induction false} StateIsHistory(s: Settings, attempts: seq<Attempt>)
    ensures var b, invoked := Run(s, attempts), Invocations(s, attempts);
      && b.failureCount == TrailingFailures(invoked)
      && (b.state.Open? <==> TrailingFailures(invoked) >= TripsAt(s))
      && (b.state.Closed? <==> TrailingFailures(invoked) < TripsAt(s))
      && (b.state.Open? ==> b.lastFailureTime == invoked[|invoked| - 1].end)
  {
    if attempts != [] {
      var init, a := attempts[..|attempts| - 1], attempts[|attempts| - 1];
      StateIsHistory(s, init);
      var invoked := Invocations(s, init);
      assert (invoked + [a])[..|invoked|] == invoked;
    }
  }

  /** A call is rejected exactly when enough failures came last and the last is not older than the recovery timeout. */
  lemma RejectedIff(s: Settings, attempts: seq<Attempt>, a: Attempt)
    ensures var invoked := Invocations(s, attempts);
      Call(Run(s, attempts), s, a).1.Rejected? <==>
      TrailingFailures(invoked) >= TripsAt(s) && a.start <= invoked[|invoked| - 1].end + s.recoveryTimeout as real
  {
    StateIsHistory(s, attempts);
  }

  /** Calls come one after the other. */
  ghost predicate Sequential(attempts: seq<Attempt>) {
    && (forall i :: 0 <= i < |attempts| ==> attempts[i].start <= attempts[i].end)
    && (forall i, j :: 0 <= i < j < |attempts| ==> attempts[i].end <= attempts[j].start)
  }

  lemma {:induction false} InvocationsAreAttempts(s: Settings, attempts: seq<Attempt>)
    ensures forall a :: a in Invocations(s, attempts) ==> a in attempts
  {
    if attempts != [] {
      InvocationsAreAttempts(s, attempts[..|attempts| - 1]);
    }
  }

  /** Invocations are calls of the run, so they too come one after the other. */
  lemma {:induction false} InvocationsAreSequential(s: Settings, attempts: seq<Attempt>)
    requires Sequential(attempts)
    ensures Sequential(Invocations(s, attempts))
  {
    if attempts != [] {
      var init, a := attempts[..|attempts| - 1], attempts[|attempts| - 1];
      var invoked := Invocations(s, init);
      InvocationsAreSequential(s, init);
      InvocationsAreAttempts(s, init);
      forall i | 0 <= i < |invoked|
        ensures invoked[i].end <= a.start
      {
        assert invoked[i] in init;
        var j :| 0 <= j < |init| && init[j] == invoked[i];
        assert attempts[j] == invoked[i];
      }
    }
  }

  /** Every invocation that comes when enough failures came last starts more than the recovery timeout after the previous one ended. */
  ghost predicate ProbesWait(s: Settings, invoked: seq<Attempt>) {
    forall k :: 0 < k < |invoked| && TrailingFailures(invoked[..k]) >= TripsAt(s)
      ==> invoked[k - 1].end + s.recoveryTimeout as real < invoked[k].start
  }

  lemma {:induction false} EveryProbeWaits(s: Settings, attempts: seq<Attempt>)
    ensures ProbesWait(s, Invocations(s, attempts))
  {
    if attempts != [] {
      var init, a := attempts[..|attempts| - 1], attempts[|attempts| - 1];
      var before, after := Invocations(s, init), Invocations(s, attempts);
      EveryProbeWaits(s, init);
      RejectedIff(s, init, a);
      forall k | 0 < k < |after| && TrailingFailures(after[..k]) >= TripsAt(s)
        ensures after[k - 1].end + s.recoveryTimeout as real < after[k].start
      {
        assert after[..k] == before[..k];
        if k == |before| {
          assert before[..k] == before;
        }
      }
    }
  }

  /** The invocations from number `first` up to, but not including, number `next` all failed. */
  ghost predicate FailingStretch(invoked: seq<Attempt>, first: nat, next: nat) {
    first <= next <= |invoked| && forall i :: first <= i < next ==> !invoked[i].succeeds
  }

  lemma {:induction false} StretchTrails(invoked: seq<Attempt>, first: nat, next: nat)
    requires FailingStretch(invoked, first, next)
    ensures TrailingFailures(invoked[..next]) >= next - first
  {
    if first < next {
      StretchTrails(invoked, first, next - 1);
      assert invoked[..next][..next - 1] == invoked[..next - 1];
    }
  }

  lemma OneMoreProbe(from: real, n: int, timeout: int, probe: Attempt, next: real)
    requires from + (n * timeout) as real < probe.start <= probe.end && probe.end + timeout as real < next
    ensures from + ((n + 1) * timeout) as real < next
  {
    assert (n + 1) * timeout == n * timeout + timeout;
  }

  lemma {:induction false} WaitsAddUp(invoked: seq<Attempt>, from: nat, to: nat, timeout: int)
    requires from < to < |invoked| && Sequential(invoked)
    requires forall k :: from < k <= to ==> invoked[k - 1].end + timeout as real < invoked[k].start
    ensures invoked[from].end + ((to - from) * timeout) as real < invoked[to].start
  {
    if from + 1 < to {
      WaitsAddUp(invoked, from, to - 1, timeout);
      assert invoked[to - 1].start <= invoked[to - 1].end;
      OneMoreProbe(invoked[from].end, to - 1 - from, timeout, invoked[to - 1], invoked[to].start);
    } else {
      assert invoked[to - 1].end + timeout as real < invoked[to].start;
    }
  }

  lemma StretchSpreads(s: Settings, invoked: seq<Attempt>, first: nat, tripped: nat, last: nat)
    requires ProbesWait(s, invoked) && Sequential(invoked)
    requires FailingStretch(invoked, first, last) && tripped == first + TripsAt(s) - 1 && tripped < last < |invoked|
    ensures invoked[tripped].end + ((last - tripped) * s.recoveryTimeout) as real < invoked[last].start
  {
    forall k | tripped < k <= last
      ensures invoked[k - 1].end + s.recoveryTimeout as real < invoked[k].start
    {
      StretchTrails(invoked, first, k);
    }
    WaitsAddUp(invoked, tripped, last, s.recoveryTimeout);
  }

  /**
   * In any failing stretch of any run, from the failure that makes it long enough to trip the
   * breaker, each further invocation starts more than the recovery timeout after the one before
   * ended; so the n-th starts more than n timeouts after that failure ended. The last of them may
   * succeed.
   */
  lemma ProbesAreFarApart(s: Settings, attempts: seq<Attempt>, first: nat, tripped: nat, last: nat)
    requires Sequential(attempts) && FailingStretch(Invocations(s, attempts), first, last)
    requires tripped == first + TripsAt(s) - 1 && tripped < last < |Invocations(s, attempts)|
    ensures var invoked := Invocations(s, attempts);
      invoked[tripped].end + ((last - tripped) * s.recoveryTimeout) as real < invoked[last].start
  {
    EveryProbeWaits(s, attempts);
    InvocationsAreSequential(s, attempts);
    StretchSpreads(s, Invocations(s, attempts), first, tripped, last);
  }

  lemma DivideBound(n: int, timeout: int, duration: real)
    requires timeout > 0 && (n * timeout) as real < duration
    ensures n as real < duration / timeout as real
  {
    var t := timeout as real;
    assert (n * timeout) as real == n as real * t;
    assert n as real * t / t == n as real;
  }

  /**
   * A failing stretch, anywhere in any run, has at most threshold + D / recoveryTimeout
   * invocations, where D is the time from the end of the failure that trips the breaker to the
   * start of the last, however many calls arrive.
   */
  lemma FailingStretchBound(s: Settings, attempts: seq<Attempt>, first: nat, next: nat)
    requires Sequential(attempts) && s.recoveryTimeout > 0
    requires FailingStretch(Invocations(s, attempts), first, next) && next - first > TripsAt(s)
    ensures var invoked := Invocations(s, attempts);
      var duration := invoked[next - 1].start - invoked[first + TripsAt(s) - 1].end;
      (next - first - TripsAt(s)) as real < duration / s.recoveryTimeout as real
  {
    var invoked, tripped, n := Invocations(s, attempts), first + TripsAt(s) - 1, next - first - TripsAt(s);
    ProbesAreFarApart(s, attempts, first, tripped, next - 1);
    assert next - 1 - tripped == n;
    DivideBound(n, s.recoveryTimeout, invoked[next - 1].start - invoked[tripped].end);
  }

  /** A call that is not rejected returns exactly when the wrapped function succeeds, and raises otherwise. */
  lemma AnswerIsTheFunctions(b: Breaker, s: Settings, a: Attempt)
    ensures Call(b, s, a).1.Rejected? || (Call(b, s, a).1 == Returned <==> a.succeeds)
    ensures Call(b, s, a).1.Rejected? || (Call(b, s, a).1 == Raised <==> !a.succeeds)
    ensures Call(b, s, a).1.Rejected? ==> Call(b, s, a).0 == b
  {
  }
}
