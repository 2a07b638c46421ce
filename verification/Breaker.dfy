/** The circuit breaker (breaker.go): a lazy state machine against a function of its history. */
module CircuitBreaker {

  datatype Phase = Closed | Open | HalfOpen

  /** Calls in the order they take the lock, each with its clock reading. */
  datatype Call = Success(at: int) | Failure(at: int) | Query(at: int)

  datatype Inner = Inner(phase: Phase, failures: nat, lastFailure: int)

  function Step(threshold: int, reset: int, s: Inner, c: Call): Inner {
    match c
    case Success(_) => Inner(Closed, 0, s.lastFailure)
    case Failure(at) => Inner(if s.failures + 1 >= threshold then Open else s.phase, s.failures + 1, at)
    case Query(at) => if s.phase == Open && at - s.lastFailure >= reset then s.(phase := HalfOpen) else s
  }

  class Breaker {
    const threshold: int
    const resetTimeout: int
    var phase: Phase
    var failures: nat
    var lastFailure: int

    ghost function State(): Inner
      reads this
    {
      Inner(phase, failures, lastFailure)
    }

    constructor (threshold: int, resetTimeout: int)
      ensures this.threshold == threshold && this.resetTimeout == resetTimeout && State() == Inner(Closed, 0, 0)
    {
      this.threshold, this.resetTimeout := threshold, resetTimeout;
      phase, failures, lastFailure := Closed, 0, 0;
    }

    method CurrentState(now: int) returns (r: Phase)
      modifies this
      ensures State() == Step(threshold, resetTimeout, old(State()), Query(now)) && r == phase
    {
      if phase == Open && now - lastFailure >= resetTimeout { phase := HalfOpen; }
      r := phase;
    }

    method Allow(now: int) returns (ok: bool)
      modifies this
      ensures State() == Step(threshold, resetTimeout, old(State()), Query(now)) && (ok <==> phase != Open)
    {
      var s := CurrentState(now);
      ok := s == Closed || s == HalfOpen;
    }

    method RecordSuccess(now: int)
      modifies this
      ensures State() == Step(threshold, resetTimeout, old(State()), Success(now))
    {
      failures := 0;
      phase := Closed;
    }

    method RecordFailure(now: int)
      modifies this
      ensures State() == Step(threshold, resetTimeout, old(State()), Failure(now))
    {
      failures := failures + 1;
      lastFailure := now;
      if failures >= threshold { phase := Open; }
    }
  }

  function After(threshold: int, reset: int, calls: seq<Call>): Inner {
    if calls == [] then Inner(Closed, 0, 0)
    else Step(threshold, reset, After(threshold, reset, calls[..|calls| - 1]), calls[|calls| - 1])
  }

  /* The history. */

  /** The failures since the last success. */
  function Streak(calls: seq<Call>): nat {
    if calls == [] then 0
    else match calls[|calls| - 1]
         case Success(_) => 0
         case Failure(_) => Streak(calls[..|calls| - 1]) + 1
         case Query(_) => Streak(calls[..|calls| - 1])
  }

  function LastFailureTime(calls: seq<Call>): int {
    if calls == [] then 0
    else if calls[|calls| - 1].Failure? then calls[|calls| - 1].at else LastFailureTime(calls[..|calls| - 1])
  }

  ghost predicate Monotone(calls: seq<Call>) { forall i, j :: 0 <= i < j < |calls| ==> calls[i].at <= calls[j].at }

  /** What the state should be at a time: closed below the threshold, else open until the reset time has passed. */
  function Expected(threshold: int, reset: int, calls: seq<Call>, now: int): Phase {
    if Streak(calls) == 0 || Streak(calls) < threshold then Closed
    else if now - LastFailureTime(calls) < reset then Open else HalfOpen
  }

  /** The stored phase may lag behind the clock, but only between open and half-open. */
  lemma {:induction false} StoredState(threshold: int, reset: int, calls: seq<Call>)
    requires Monotone(calls)
    ensures var s := After(threshold, reset, calls);
            && s.failures == Streak(calls) && s.lastFailure == LastFailureTime(calls)
            && (s.phase == Closed <==> Streak(calls) == 0 || Streak(calls) < threshold)
            && (s.phase == HalfOpen ==> calls != [] && calls[|calls| - 1].at - s.lastFailure >= reset)
  {
    if calls != [] {
      var before := calls[..|calls| - 1];
      StoredState(threshold, reset, before);
      if before != [] { assert before[|before| - 1].at <= calls[|calls| - 1].at; }
    }
  }

  /** The breaker is a function of its history: after any calls under a clock that does not go back, what
      State answers at `now` depends only on the failures since the last success and the time of the last one. */
  lemma StateRefinesHistory(threshold: int, reset: int, calls: seq<Call>, now: int)
    requires Monotone(calls + [Query(now)])
    ensures Step(threshold, reset, After(threshold, reset, calls), Query(now)).phase ==
            Expected(threshold, reset, calls, now)
  {
    var longer := calls + [Query(now)];
    assert forall i :: 0 <= i < |calls| ==> calls[i] == longer[i];
    if calls != [] { assert longer[|calls| - 1].at <= longer[|calls|].at; }
    StoredState(threshold, reset, calls);
  }

  /** One failure while half-open opens the breaker again. */
  lemma FailureReopens(threshold: int, reset: int, calls: seq<Call>, now: int)
    requires Monotone(calls + [Query(now)]) && Expected(threshold, reset, calls, now) == HalfOpen && reset > 0
    ensures Expected(threshold, reset, calls + [Query(now), Failure(now)], now) == Open
  {
    var longer := calls + [Query(now), Failure(now)];
    var mid := calls + [Query(now)];
    assert mid[..|mid| - 1] == calls && Streak(mid) == Streak(calls);
    assert longer[..|longer| - 1] == mid && longer[|longer| - 1] == Failure(now);
    assert Streak(longer) == Streak(mid) + 1 && LastFailureTime(longer) == now;
  }
}
