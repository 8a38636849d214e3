/** `Breaker` of `medulla/placement.py`, against its history of recorded results. */
module CircuitBreaker {
  datatype State = Closed | Open | HalfOpen
  datatype Opened = Never | At(time: real)

  /** What was recorded, and for a failure when. */
  datatype Event = Success | Failure(at: real)

  /** Failures since the last success. */
  function Consecutive(history: seq<Event>): nat
  {
    if history == [] || history[|history| - 1].Success? then 0 else 1 + Consecutive(history[..|history| - 1])
  }

  /** The state is a function of the failures since the last success and the time of the last one. */
  function StateOf(history: seq<Event>, threshold: nat, resetAfter: real, now: real): State
    requires threshold >= 1
  {
    if Consecutive(history) < threshold then Closed
    else if now - history[|history| - 1].at >= resetAfter then HalfOpen
    else Open
  }

  lemma ConsecutiveSnoc(history: seq<Event>, e: Event)
    ensures Consecutive(history + [e]) == if e.Success? then 0 else Consecutive(history) + 1
  {
    assert (history + [e])[..|history|] == history;
  }

  class Breaker {
    const threshold: nat
    const resetAfter: real
    var failures: nat
    var openedAt: Opened
    ghost var history: seq<Event>

    ghost predicate Valid()
      reads this
    {
      && threshold >= 1 && resetAfter > 0.0
      && (openedAt.Never? ==> failures == Consecutive(history) < threshold)
      && (openedAt.At? ==> failures >= threshold && Consecutive(history) >= threshold
                           && history != [] && history[|history| - 1] == Failure(openedAt.time))
    }

    constructor (failureThreshold: nat, resetAfter: real)
      requires failureThreshold >= 1 && resetAfter > 0.0
      ensures Valid() && history == [] && threshold == failureThreshold && this.resetAfter == resetAfter
    {
      threshold, this.resetAfter := failureThreshold, resetAfter;
      failures, openedAt, history := 0, Never, [];
    }

    function Current(now: real): (s: State)
      requires Valid()
      reads this
      ensures s == StateOf(history, threshold, resetAfter, now)
    {
      if openedAt.Never? then Closed else if now - openedAt.time >= resetAfter then HalfOpen else Open
    }

    /** Calls are refused exactly while the last `threshold` results were failures and the last of them is less
        than `resetAfter` ago. */
    predicate Allow(now: real): (ok: bool)
      requires Valid()
      reads this
      ensures !ok <==> Consecutive(history) >= threshold && now < history[|history| - 1].at + resetAfter
    {
      Current(now) != Open
    }

    method RecordSuccess()
      requires Valid()
      modifies this
      ensures Valid() && history == old(history) + [Success]
    {
      failures, openedAt := 0, Never;
      history := history + [Success];
    }

    /** The clock is read once for the state and again for the opening time. */
    method RecordFailure(now: real, at: real)
      requires Valid()
      modifies this
      ensures Valid() && history == old(history) + [Failure(at)]
    {
      ConsecutiveSnoc(history, Failure(at));
      history := history + [Failure(at)];
      if openedAt.At? && now - openedAt.time >= resetAfter {
        openedAt := At(at);
        return;
      }
      failures := failures + 1;
      if failures >= threshold {
        openedAt := At(at);
      }
    }
  }

  /** `Breaker(...)`, which refuses a threshold below one and a reset time that is not positive. */
  method NewBreaker(failureThreshold: int, resetAfter: real) returns (b: Breaker?)
    ensures b == null <==> failureThreshold < 1 || resetAfter <= 0.0
    ensures b != null ==> b.Valid() && b.history == [] && b.threshold == failureThreshold && b.resetAfter == resetAfter
  {
    if failureThreshold < 1 || resetAfter <= 0.0 {
      return null;
    }
    b := new Breaker(failureThreshold, resetAfter);
  }

  ghost function Failures(times: seq<real>): seq<Event>
  {
    if times == [] then [] else Failures(times[..|times| - 1]) + [Failure(times[|times| - 1])]
  }

  lemma {:induction false} FailuresCount(history: seq<Event>, times: seq<real>)
    ensures Consecutive(history + Failures(times)) == Consecutive(history) + |times|
  {
    if times == [] {
      assert history + [] == history;
    } else {
      var init, last := times[..|times| - 1], times[|times| - 1];
      FailuresCount(history, init);
      ConsecutiveSnoc(history + Failures(init), Failure(last));
      assert (history + Failures(init)) + [Failure(last)] == history + Failures(times);
    }
  }

  /** The documented cycle, after any history: a success closes the breaker; `n` failures after it open it
      exactly when `n` reaches the threshold; it is half-open exactly from `resetAfter` after the last failure,
      however many there were; one more failure then opens it again. */
  lemma BreakerCycle(history: seq<Event>, times: seq<real>, threshold: nat, resetAfter: real, now: real, at: real)
    requires threshold >= 1 && resetAfter > 0.0
    ensures var h := history + [Success] + Failures(times);
      && (StateOf(h, threshold, resetAfter, now) == Closed <==> |times| < threshold)
      && (|times| >= threshold ==>
            (StateOf(h, threshold, resetAfter, now) == HalfOpen <==> now >= times[|times| - 1] + resetAfter))
      && (StateOf(h, threshold, resetAfter, now) == HalfOpen ==>
            StateOf(h + [Failure(at)], threshold, resetAfter, at) == Open)
  {
    var h := history + [Success] + Failures(times);
    FailuresCount(history + [Success], times);
    ConsecutiveSnoc(h, Failure(at));
    if times != [] { assert h[|h| - 1] == Failure(times[|times| - 1]); }
  }
}
