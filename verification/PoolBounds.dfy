/** How far the pool's cap and its waiters can be trusted: both bounds are shown exact by
    runs that attain them. */
module PoolBounds {
  import opened ConnectionPools

  // ---------------------------------------------- the cap is off by the failed pings

  /** An acquire that finds the queue empty and a slot free opens one connection. */
  lemma Open(maxSize: int, minSize: int, s: State) returns (r: State)
    requires Reachable(maxSize, minSize, s) && s.queue == [] && s.lock.Free? && s.active < s.maxSize
    ensures Reachable(maxSize, minSize, r)
    ensures r == s.(active := s.active + 1, holding := s.holding + multiset{s.minted}, minted := s.minted + 1)
  {
    ReachStep(maxSize, minSize, s, Acquire);
    var s1 := Step(s, Acquire);
    ReachStep(maxSize, minSize, s1, EnterSlot);
    var s2 := Step(s1, EnterSlot);
    ReachStep(maxSize, minSize, s2, Connect(true));
    r := Step(s2, Connect(true));
  }

  /** One client is queued, the lock is free, `count` connections are counted and `failed`
      health checks have failed, all their reconnects still in flight. */
  ghost predicate Poised(s: State, maxSize: int, count: int, failed: nat)
  {
    && |s.queue| == 1 && s.lock.Free? && s.maxSize == maxSize && s.active == count
    && s.reconnecting == s.past.failedPings == failed
  }

  /** One more connection is opened while the queued client is out for its health check. */
  lemma Grow(maxSize: int, s: State) returns (r: State)
    requires Reachable(maxSize, 1, s) && Poised(s, maxSize, s.active, 0) && s.active < maxSize
    ensures Reachable(maxSize, 1, r) && Poised(r, maxSize, s.active + 1, 0)
  {
    var c := s.queue[0];
    ReachStep(maxSize, 1, s, Acquire);
    var s1 := Open(maxSize, 1, Step(s, Acquire));
    ReachStep(maxSize, 1, s1, Ping(c, true));
    var s2 := Step(s1, Ping(c, true));
    ReachStep(maxSize, 1, s2, Release(c));
    r := Step(s2, Release(c));
  }

  lemma {:induction false} Fill(maxSize: int, count: int) returns (r: State)
    requires 1 <= count <= maxSize
    ensures Reachable(maxSize, 1, r) && Poised(r, maxSize, count, 0)
    decreases count
  {
    if count == 1 {
      ReachStart(maxSize, 1);
      ReachStep(maxSize, 1, Start(maxSize, 1), InitConnect(true));
      r := Step(Start(maxSize, 1), InitConnect(true));
    } else {
      var s := Fill(maxSize, count - 1);
      r := Grow(maxSize, s);
    }
  }

  /** The health check of a checked-out client fails and its slot is given back. */
  lemma Lose(maxSize: int, minSize: int, s: State, c: Client) returns (r: State)
    requires Reachable(maxSize, minSize, s) && c in s.pinging && s.lock.Free?
    ensures Reachable(maxSize, minSize, r)
    ensures r == s.(active := s.active - 1, pinging := s.pinging - multiset{c}, reconnecting := s.reconnecting + 1,
                    past := s.past.(failedPings := s.past.failedPings + 1))
  {
    ReachStep(maxSize, minSize, s, Ping(c, false));
    var s1 := Step(s, Ping(c, false));
    ReachStep(maxSize, minSize, s1, Drop(c));
    r := Step(s1, Drop(c));
    assert s.dropping + multiset{c} - multiset{c} == s.dropping;
  }

  /** A failed health check frees a slot that another acquire takes before the reconnect lands. */
  lemma Fail(maxSize: int, s: State, failed: nat) returns (r: State)
    requires maxSize >= 1 && Reachable(maxSize, 1, s) && Poised(s, maxSize, maxSize, failed)
    ensures Reachable(maxSize, 1, r) && Poised(r, maxSize, maxSize, failed + 1)
  {
    ReachStep(maxSize, 1, s, Acquire);
    var s1 := Lose(maxSize, 1, Step(s, Acquire), s.queue[0]);
    var s2 := Open(maxSize, 1, s1);
    ReachStep(maxSize, 1, s2, Release(s1.minted));
    r := Step(s2, Release(s1.minted));
  }

  lemma {:induction false} FailTimes(maxSize: int, failed: nat) returns (r: State)
    requires maxSize >= 1
    ensures Reachable(maxSize, 1, r) && Poised(r, maxSize, maxSize, failed)
    decreases failed
  {
    if failed == 0 {
      r := Fill(maxSize, maxSize);
    } else {
      var s := FailTimes(maxSize, failed - 1);
      r := Fail(maxSize, s, failed - 1);
    }
  }

  lemma {:induction false} Land(maxSize: int, s: State, pending: nat) returns (r: State)
    requires Reachable(maxSize, 1, s) && s.reconnecting == pending
    ensures Reachable(maxSize, 1, r) && r.active == s.active + pending && r.past == s.past
    decreases pending
  {
    if pending == 0 {
      r := s;
    } else {
      ReachStep(maxSize, 1, s, Reconnect(true));
      r := Land(maxSize, Step(s, Reconnect(true)), pending - 1);
    }
  }

  /** The bound of `PoolSafety` is attained for every cap and every number of failures. */
  lemma OvershootAttained(maxSize: int, failed: nat) returns (s: State)
    requires maxSize >= 1
    ensures Reachable(maxSize, 1, s) && s.past.failedPings == failed && s.active == maxSize + failed
  {
    var r := FailTimes(maxSize, failed);
    s := Land(maxSize, r, failed);
  }

  /** A pool whose cap is not positive never owns anything. */
  ghost predicate Barren(s: State)
  {
    s.maxSize <= 0 ==>
      && s.queue == [] && s.pinging == s.dropping == s.holding == multiset{}
      && s.active == s.reconnecting == 0 && s.lock.Free?
  }

  lemma {:induction false} ExecBarren(s: State, run: seq<Event>)
    requires Barren(s) && Feasible(s, run)
    ensures Barren(Exec(s, run))
    decreases |run|
  {
    if run != [] {
      var r := Step(s, run[0]);
      ExecBarren(r, run[1..]);
      assert Exec(s, run) == Exec(r, run[1..]);
    }
  }

  /** The cap holds over every run exactly when no health check may fail, or there is
      nothing to check. */
  lemma CapHoldsIff(maxSize: int, failures: nat)
    ensures (forall minSize, s :: Reachable(maxSize, minSize, s) && s.past.failedPings <= failures ==>
              s.active <= Cap(s))
            <==> failures == 0 || maxSize <= 0
  {
    if failures == 0 || maxSize <= 0 {
      forall minSize, s | Reachable(maxSize, minSize, s) && s.past.failedPings <= failures
        ensures s.active <= Cap(s)
      {
        PoolSafety(maxSize, minSize, s);
        assert s.maxSize == maxSize;
        var start := Start(maxSize, minSize);
        var run :| Feasible(start, run) && Exec(start, run) == s;
        ExecBarren(start, run);
      }
    } else {
      var s := OvershootAttained(maxSize, failures);
      PoolSafety(maxSize, 1, s);
    }
  }

  // ------------------------------------------------------- waiters and lost clients

  /** Clients that are queued, held, in a health check, or on their way. */
  function Live(s: State): (n: nat)
  {
    |s.queue| + |s.pinging| + |s.dropping| + |s.holding| + s.reconnecting
    + (if s.lock.Connecting? then 1 else 0)
  }

  /** A coroutine blocked on the queue with no client left to be put there. */
  predicate Stranded(s: State) { s.waiting > 0 && Live(s) == 0 }

  ghost predicate Provided(s: State)
  {
    s.past.closeCalls == 0 ==>
      && s.wantClose == 0 && !s.lock.Closing? && s.past.failedCloses == 0
      && (s.waiting > 0 ==> Live(s) + s.past.failedConnects >= s.maxSize)
  }

  lemma OwnedSize(s: State)
    ensures |Owned(s)| == |s.queue| + |s.pinging| + |s.dropping| + |s.holding| + (if s.lock.Closing? then 1 else 0)
  {
  }

  lemma CheckProvided(s: State, e: Event)
    requires Enabled(s, e) && (e.Acquire? || e.Ping? || e.Drop?)
    requires Provided(s) && s.active == |Owned(s)| + s.past.failedCloses
    ensures Provided(Step(s, e))
  {
    OwnedSize(s);
  }

  lemma ConnectProvided(s: State, e: Event)
    requires Enabled(s, e) && (e.Reconnect? || e.EnterSlot? || e.Connect?)
    requires Provided(s) && s.active == |Owned(s)| + s.past.failedCloses
    ensures Provided(Step(s, e))
  {
    OwnedSize(s);
  }

  lemma StepProvided(s: State, e: Event)
    requires Enabled(s, e) && Provided(s) && s.active == |Owned(s)| + s.past.failedCloses
    ensures Provided(Step(s, e))
  {
    if e.Acquire? || e.Ping? || e.Drop? {
      CheckProvided(s, e);
    } else if e.Reconnect? || e.EnterSlot? || e.Connect? {
      ConnectProvided(s, e);
    }
  }

  lemma {:induction false} ExecProvided(s: State, run: seq<Event>)
    requires Inv(s) && Provided(s) && Feasible(s, run)
    ensures Provided(Exec(s, run))
    decreases |run|
  {
    if run != [] {
      var r := Step(s, run[0]);
      StepInv(s, run[0]);
      StepProvided(s, run[0]);
      ExecProvided(r, run[1..]);
      assert Exec(s, run) == Exec(r, run[1..]);
    }
  }

  lemma WaitersProvided(maxSize: int, minSize: int, s: State)
    requires Reachable(maxSize, minSize, s) && s.past.closeCalls == 0 && s.waiting > 0
    ensures Live(s) + s.past.failedConnects >= maxSize
  {
    var start := Start(maxSize, minSize);
    var run :| Feasible(start, run) && Exec(start, run) == s;
    StartInv(maxSize, minSize);
    ExecInv(start, run);
    ExecProvided(start, run);
  }

  /** `out` of the `maxSize` connections opened by `initialize` are in a health check, the
      rest are queued, and nobody else is around. */
  ghost predicate Checking(s: State, maxSize: int, waiting: nat, out: nat, failed: nat)
  {
    && s.maxSize == maxSize && s.waiting == waiting && |s.pinging| == out && s.lock.Free?
    && s.dropping == s.holding == multiset{} && s.reconnecting == s.wantSlot == 0
    && s.past.closeCalls == 0 && s.past.failedConnects == failed
  }

  lemma {:induction false} Warm(maxSize: int, done: nat) returns (s: State)
    requires maxSize >= 1 && done <= maxSize
    ensures Reachable(maxSize, maxSize, s) && |s.queue| == s.active == done && s.past == Past(0, 0, 0, 0)
    ensures Checking(s.(lock := Free), maxSize, 0, 0, 0)
    ensures s.lock == if done < maxSize then Init(maxSize - done) else Free
    decreases done
  {
    if done == 0 {
      s := Start(maxSize, maxSize);
      ReachStart(maxSize, maxSize);
    } else {
      var r := Warm(maxSize, done - 1);
      ReachStep(maxSize, maxSize, r, InitConnect(true));
      s := Step(r, InitConnect(true));
    }
  }

  lemma {:induction false} CheckOut(maxSize: int, out: nat) returns (s: State)
    requires maxSize >= 1 && out <= maxSize
    ensures Reachable(maxSize, maxSize, s) && |s.queue| == maxSize - out && s.active == maxSize
    ensures s.past == Past(0, 0, 0, 0)
    ensures Checking(s, maxSize, 0, out, 0)
    decreases out
  {
    if out == 0 {
      s := Warm(maxSize, maxSize);
    } else {
      var r := CheckOut(maxSize, out - 1);
      ReachStep(maxSize, maxSize, r, Acquire);
      s := Step(r, Acquire);
    }
  }

  /** Every health check fails, and so does every reconnect. */
  lemma {:induction false} LoseAll(maxSize: int, s: State, failed: nat) returns (r: State)
    requires Reachable(maxSize, maxSize, s) && s.queue == [] && Checking(s, maxSize, 1, |s.pinging|, failed)
    ensures Reachable(maxSize, maxSize, r) && r.queue == [] && Checking(r, maxSize, 1, 0, failed + |s.pinging|)
    decreases |s.pinging|
  {
    if |s.pinging| == 0 {
      r := s;
    } else {
      var c :| c in s.pinging;
      var s1 := Lose(maxSize, maxSize, s, c);
      ReachStep(maxSize, maxSize, s1, Reconnect(false));
      r := LoseAll(maxSize, Step(s1, Reconnect(false)), failed + 1);
    }
  }

  lemma Strand(maxSize: int) returns (s: State)
    ensures Reachable(maxSize, maxSize, s) && Stranded(s) && s.past.closeCalls == 0
    ensures s.past.failedConnects == if maxSize > 0 then maxSize else 0
  {
    var r := Start(maxSize, maxSize);
    ReachStart(maxSize, maxSize);
    if maxSize >= 1 { r := CheckOut(maxSize, maxSize); }
    ReachStep(maxSize, maxSize, r, Acquire);
    var r1 := Step(r, Acquire);
    ReachStep(maxSize, maxSize, r1, EnterSlot);
    s := LoseAll(maxSize, Step(r1, EnterSlot), 0);
  }

  /** Without `close_all`, no run strands a waiter exactly when fewer connects fail than the
      pool may hold; a pool of size zero or less strands its first caller. */
  lemma NeverStrandedIff(maxSize: int, failures: nat)
    ensures (forall minSize, s |
               Reachable(maxSize, minSize, s) && s.past.closeCalls == 0 && s.past.failedConnects <= failures ::
               !Stranded(s))
            <==> failures < maxSize
  {
    if failures < maxSize {
      forall minSize, s | Reachable(maxSize, minSize, s) && s.past.closeCalls == 0 && s.past.failedConnects <= failures
        ensures !Stranded(s)
      {
        if s.waiting > 0 { WaitersProvided(maxSize, minSize, s); }
      }
    } else {
      var s := Strand(maxSize);
    }
  }

  /** A waiter is blocked while the only client is held. */
  lemma OneWaits() returns (s: State, c: Client)
    ensures Reachable(1, 1, s) && s.past == Past(0, 0, 0, 0)
    ensures s.queue == [] && s.holding == multiset{c} && Checking(s.(holding := multiset{}), 1, 1, 0, 0)
  {
    var r := CheckOut(1, 1);
    PoolSafety(1, 1, r);
    c :| c in r.pinging;
    ReachStep(1, 1, r, Acquire);
    var r1 := Step(r, Acquire);
    ReachStep(1, 1, r1, EnterSlot);
    var r2 := Step(r1, EnterSlot);
    ReachStep(1, 1, r2, Ping(c, true));
    s := Step(r2, Ping(c, true));
  }

  /** `close_all` alone can strand a waiter, even when every connect succeeds. */
  lemma CloseAllStrands() returns (s: State)
    ensures Reachable(1, 1, s) && Stranded(s) && s.past == Past(0, 0, 0, 1)
  {
    var r, c := OneWaits();
    ReachStep(1, 1, r, Release(c));
    var r1 := Step(r, Release(c));
    ReachStep(1, 1, r1, CloseAll);
    var r2 := Step(r1, CloseAll);
    ReachStep(1, 1, r2, EnterClose);
    var r3 := Step(r2, EnterClose);
    ReachStep(1, 1, r3, Close(true));
    s := Step(r3, Close(true));
  }
}
