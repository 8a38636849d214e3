/** The bounded process lifecycle of `scripts/bounded_test_runner.py`: run, time out, TERM,
    KILL, reap, and the handling of orphans, against an arbitrary child and clock. */
module Supervision {
  import opened Basics
  import opened OutputPumps

  /** One interaction with the operating system: how long a wait would last, what the rest
      of the interaction costs, what a read finds, and whether the process group has members. */
  datatype Obs = Obs(wait: real, cost: real, input: Option<seq<Byte>>, members: bool)

  /** The number of ticks that fit into `x` seconds. */
  function Ticks(x: real, tick: real): (n: nat)
    requires tick > 0.0
  {
    if x <= 0.0 then 0
    else
      PositiveQuotient(x, tick);
      (x / tick).Floor + 1
  }

  lemma PositiveQuotient(x: real, tick: real)
    requires x > 0.0 && tick > 0.0
    ensures x / tick > 0.0
  {
  }

  lemma PositiveProduct(x: real, y: real)
    requires x > 0.0 && y > 0.0
    ensures x * y > 0.0
  {
  }

  lemma QuotientDown(x: real, y: real, tick: real)
    requires tick > 0.0 && y <= x - tick
    ensures y / tick <= x / tick - 1.0
  {
    var q, r := x / tick, y / tick;
    assert q * tick == x && r * tick == y;
    var d := r - (q - 1.0);
    assert d * tick == r * tick - q * tick + tick;
    if d > 0.0 { PositiveProduct(d, tick); }
  }

  lemma TickDown(x: real, y: real, tick: real)
    requires tick > 0.0 && x > 0.0 && y <= x - tick
    ensures Ticks(y, tick) < Ticks(x, tick)
  {
    PositiveQuotient(x, tick);
    if y > 0.0 {
      QuotientDown(x, y, tick);
      assert (x / tick - 1.0).Floor == (x / tick).Floor - 1;
    }
  }

  /** The child, its group and the clock.  Every interaction advances the clock, by at least
      `tick` and at most `slack` beyond the wait asked for.  The child exits at interaction
      `exitAt`, if ever, with `status`. */
  class World {
    const env: nat -> Obs
    const exitAt: Option<nat>
    const status: int
    const tick: real
    const slack: real
    var step: nat
    var now: real
    var returncode: Option<int>

    predicate Exited()
      reads this`step
    {
      exitAt.Some? && exitAt.value <= step
    }

    ghost predicate Valid()
      reads this
    {
      0.0 < tick <= slack && (returncode.Some? ==> Exited() && returncode.value == status)
    }

    constructor (env: nat -> Obs, exitAt: Option<nat>, status: int, tick: real, slack: real, now: real)
      requires 0.0 < tick <= slack
      ensures Valid() && step == 0 && this.now == now && returncode.None?
      ensures this.env == env && this.exitAt == exitAt && this.status == status
      ensures this.tick == tick && this.slack == slack
    {
      this.env, this.exitAt, this.status, this.tick, this.slack := env, exitAt, status, tick, slack;
      step, this.now, returncode := 0, now, None;
    }

    /** What the interaction costs beyond its wait. */
    function Cost(): (r: real)
      requires 0.0 < tick <= slack
      reads this`step
      ensures tick <= r <= slack
    {
      Max(tick, Min(slack, env(step).cost))
    }

    /** What a read that may wait `timeout` finds. */
    function Found(at: nat, timeout: real): Option<seq<Byte>>
    {
      if Max(0.0, env(at).wait) <= Max(0.0, timeout) then env(at).input else None
    }

    /** `process.poll()` */
    method Poll() returns (exited: bool)
      requires Valid()
      modifies this`returncode
      ensures Valid() && exited == Exited() == returncode.Some?
    {
      if exitAt.Some? && exitAt.value <= step {
        returncode := Some(status);
        return true;
      }
      return false;
    }

    /** `selector.select(max(0, timeout))` and the read that follows. */
    method Select(timeout: real) returns (input: Option<seq<Byte>>)
      requires Valid()
      modifies this`step, this`now
      ensures Valid() && step == old(step) + 1 && input == Found(old(step), timeout)
      ensures old(now) + tick <= now <= old(now) + Max(0.0, timeout) + slack
    {
      var wait := Max(0.0, env(step).wait);
      input := Found(step, timeout);
      now := now + Min(wait, Max(0.0, timeout)) + Cost();
      step := step + 1;
    }

    /** `_group_snapshots` */
    method Snapshot() returns (members: bool)
      requires Valid()
      modifies this`step, this`now
      ensures Valid() && step == old(step) + 1 && members == env(old(step)).members
      ensures old(now) <= now <= old(now) + slack
    {
      members := env(step).members;
      now := now + Cost();
      step := step + 1;
    }

    /** Whether the child or its group is still there, by a snapshot and then a poll. */
    method Remains() returns (left: bool)
      requires Valid()
      modifies this
      ensures Valid() && step == old(step) + 1 && old(now) <= now <= old(now) + slack
      ensures left <==> returncode.None? || env(old(step)).members
      ensures old(returncode).Some? ==> returncode.Some?
    {
      left := Snapshot();
      var exited := Poll();
      left := left || !exited;
    }

    /** `process.wait()`, without a timeout */
    method Wait(time: real)
      modifies this`now
      ensures now == old(now) + Max(0.0, time)
    {
      now := now + Max(0.0, time);
    }

    /** `process.wait(timeout=...)`, its expiry swallowed */
    method WaitFor(timeout: real)
      requires Valid() && timeout >= 0.0
      modifies this
      ensures Valid() && step == old(step) + 1 && (returncode.Some? <==> Exited())
      ensures old(now) <= now <= old(now) + timeout + slack
    {
      now := now + Min(Max(0.0, env(step).wait), timeout) + Cost();
      step := step + 1;
      var _ := Poll();
    }
  }

  function Clamp(low: real, high: real, x: real): (r: real)
    requires low <= high
    ensures low <= r <= high
  {
    Max(low, Min(high, x))
  }

  /** The times of the observations of one read: whatever the clock says, between its start and its end. */
  function Times(clock: (nat, nat) -> real, at: nat, from: real, until: real): (times: nat -> real)
    requires from <= until
    ensures forall n: nat :: from <= times(n) <= until
  {
    var times := (n: nat) => Clamp(from, until, clock(at, n));
    assert forall n: nat :: times(n) == Clamp(from, until, clock(at, n));
    times
  }

  /** A test active after a read was active before it, or started during it. */
  predicate StartsWithin(before: Option<real>, after: Option<real>, from: real, until: real)
  {
    after == before || after.None? || from <= after.value <= until
  }

  /** `pump.read(timeout)`; the lines it observes are observed while it lasts. */
  method ReadFor<S(!new)>(w: World, pump: OutputPump<S>, timeout: real, clock: (nat, nat) -> real)
    requires w.Valid() && pump.Valid() && Disjoint(pump.classifier)
    modifies w, pump, pump.progress
    ensures w.Valid() && pump.Valid() && w.step == old(w.step) + 1 && w.returncode == old(w.returncode)
    ensures old(w.now) + w.tick <= w.now <= old(w.now) + Max(0.0, timeout) + w.slack
    ensures StartsWithin(old(pump.progress.seen.testStartedAt), pump.progress.seen.testStartedAt, old(w.now), w.now)
    ensures pump.closed == (old(pump.closed) || w.Found(old(w.step), timeout) == Some([]))
    ensures w.Found(old(w.step), timeout).None? ==> pump.Whole() == old(pump.Whole())
  {
    var from := w.now;
    var input := w.Select(timeout);
    var at, until := w.step, w.now;
    var times := Times(clock, at, from, until);
    pump.Read(input, times);
    ClampedStart(old(pump.progress.seen.testStartedAt), pump.progress.seen.testStartedAt, times, from, until);
  }

  lemma ClampedStart(before: Option<real>, after: Option<real>, times: nat -> real, from: real, until: real)
    requires StartsAt(before, after, times) && forall n: nat :: from <= times(n) <= until
    ensures StartsWithin(before, after, from, until)
  {
    if after != before && after.Some? {
      var k: nat :| after == Some(times(k));
    }
  }

  /** No test has been active for longer than its timeout and one read. */
  predicate InTime(startedAt: Option<real>, test: real, slack: real, now: real)
  {
    startedAt.Some? ==> startedAt.value <= now <= startedAt.value + test + slack
  }

  datatype Config = Config(suite: real, test: real, term: real, kill: real)

  /** `LifecycleConfig.__post_init__` refuses anything else. */
  predicate Positive(c: Config) { c.suite > 0.0 && c.test > 0.0 && c.term > 0.0 && c.kill > 0.0 }

  datatype Reason = SuiteTimeout | TestTimeout | OrphanedOutput | OrphanedChild | AttributionFailed

  /** One turn of the loop of `_drain_until`. */
  method DrainOnce<S(!new)>(w: World, pump: OutputPump<S>, deadline: real, clock: (nat, nat) -> real)
    returns (done: bool)
    requires w.Valid() && pump.Valid() && Disjoint(pump.classifier) && w.now < deadline
    modifies w, pump, pump.progress
    ensures w.Valid() && pump.Valid() && w.step > old(w.step) && (old(w.returncode).Some? ==> w.returncode.Some?)
    ensures done <==> w.returncode.Some? && pump.closed
    ensures old(w.now) <= w.now <= deadline + w.slack
    ensures Ticks(deadline - w.now, w.tick) < Ticks(deadline - old(w.now), w.tick)
  {
    ReadFor(w, pump, Min(0.1, Max(0.0, deadline - w.now)), clock);
    TickDown(deadline - old(w.now), deadline - w.now, w.tick);
    var exited := w.Poll();
    done := exited && pump.closed;
  }

  /** `_drain_until`: the whole time is given, unless the child is gone and its output has ended. */
  method DrainUntil<S(!new)>(w: World, pump: OutputPump<S>, deadline: real, clock: (nat, nat) -> real)
    requires w.Valid() && pump.Valid() && Disjoint(pump.classifier)
    modifies w, pump, pump.progress
    ensures w.Valid() && pump.Valid() && w.step >= old(w.step)
    ensures old(w.now) <= w.now <= Max(old(w.now), deadline + w.slack)
    ensures old(w.returncode).Some? ==> w.returncode.Some?
    ensures w.now < deadline ==> w.returncode.Some? && pump.closed
  {
    while w.now < deadline
      invariant w.Valid() && pump.Valid() && w.step >= old(w.step)
      invariant old(w.returncode).Some? ==> w.returncode.Some?
      invariant old(w.now) <= w.now <= Max(old(w.now), deadline + w.slack)
      decreases Ticks(deadline - w.now, w.tick)
    {
      var done := DrainOnce(w, pump, deadline, clock);
      if done {
        return;
      }
    }
  }

  const ORPHAN_DRAIN_GRACE := 2.0

  // ------------------------------------------------------------- what the monitor sees

  /** What the monitor finds at one turn of its loop, which is one interaction: the time, since when a test is
      active, and whether the output has ended. */
  datatype Moment = Moment(step: nat, now: real, startedAt: Option<real>, closed: bool)

  /** The moment a world and a pump are in. */
  function At<S(!new)>(w: World, pump: OutputPump<S>): Moment
    reads w, pump, pump.progress
  {
    Moment(w.step, w.now, pump.progress.seen.testStartedAt, pump.closed)
  }

  /** One read leads from `m` to `n`: only an end of file ends the output, and one that is there at once does; a
      silent read changes nothing but the time. */
  predicate Leads(w: World, m: Moment, n: Moment)
  {
    && n.step == m.step + 1 && m.now + w.tick <= n.now && StartsWithin(m.startedAt, n.startedAt, m.now, n.now)
    && (n.closed ==> m.closed || w.env(m.step).input == Some([]))
    && (w.env(m.step).input.None? ==> n.startedAt == m.startedAt)
    && (m.closed || (w.env(m.step).input == Some([]) && w.env(m.step).wait <= 0.0) ==> n.closed)
  }

  /** A watch over a child that exits at interaction `exitAt`, begun at interaction `from`. */
  datatype Watch = Watch(exitAt: Option<nat>, from: nat, started: real, c: Config)
  {
    predicate Gone(m: Moment) { exitAt.Some? && exitAt.value <= m.step }

    /** The number of the first moment that finds the child gone. */
    function FirstGone(): nat { if exitAt.Some? && from < exitAt.value then exitAt.value - from else 0 }

    predicate SuiteOver(m: Moment) { m.now >= started + c.suite }

    predicate TestOver(m: Moment) { m.startedAt.Some? && m.now >= m.startedAt.value + c.test }

    predicate TestInTime(w: World, m: Moment) { InTime(m.startedAt, c.test, w.slack, m.now) }

    /** The output has been left open for the whole drain since the child was first found gone. */
    predicate DrainOver(ms: seq<Moment>, m: Moment)
    {
      FirstGone() < |ms| && m.now >= ms[FirstGone()].now + ORPHAN_DRAIN_GRACE
    }

    /** Nothing is due yet: a live child is within both timeouts, a gone one within its drain. */
    predicate Waits(ms: seq<Moment>, m: Moment)
    {
      if Gone(m) then !m.closed && !DrainOver(ms, m) else !SuiteOver(m) && !TestOver(m)
    }

    /** The moments of a watch that has not ended before the last of them. */
    ghost predicate Watches(w: World, ms: seq<Moment>)
    {
      && ms != [] && (forall k :: 0 <= k < |ms| ==> ms[k].step == from + k)
      && (forall k :: 0 <= k < |ms| - 1 ==> Leads(w, ms[k], ms[k + 1]) && Waits(ms, ms[k]))
    }

    /** A child found gone is watched for no longer than its drain and one read. */
    predicate InDrain(w: World, ms: seq<Moment>)
      requires ms != []
    {
      Gone(ms[|ms| - 1]) ==>
        FirstGone() < |ms| && ms[|ms| - 1].now <= ms[FirstGone()].now + ORPHAN_DRAIN_GRACE + w.slack
    }

    /** The child is gone, its output has ended, and its group is found empty next. */
    predicate EndsClean(w: World, m: Moment) { Gone(m) && m.closed && !w.env(m.step).members }
  }

  /** What the last moment of a watch ends it with. */
  predicate Verdict(watch: Watch, ms: seq<Moment>, reason: Option<Reason>)
    requires ms != []
  {
    var m := ms[|ms| - 1];
    match reason
    case None => watch.Gone(m) && m.closed
    case Some(SuiteTimeout) => !watch.Gone(m) && watch.SuiteOver(m)
    case Some(TestTimeout) => !watch.Gone(m) && !watch.SuiteOver(m) && watch.TestOver(m)
    case Some(OrphanedOutput) => watch.Gone(m) && !m.closed && watch.DrainOver(ms, m)
    case Some(_) => false
  }

  /** A watch on which nothing is due yet goes on. */
  lemma Extend(watch: Watch, w: World, ms: seq<Moment>, n: Moment)
    requires watch.Watches(w, ms) && watch.Waits(ms, ms[|ms| - 1]) && Leads(w, ms[|ms| - 1], n)
    ensures watch.Watches(w, ms + [n])
  {
    var all := ms + [n];
    forall k | 0 <= k < |ms| ensures Leads(w, all[k], all[k + 1]) && watch.Waits(all, all[k]) {
      assert all[k] == ms[k];
      if k < |ms| - 1 { assert Leads(w, ms[k], ms[k + 1]); }
    }
  }

  /** The watch is at `m`, after `ms`; the drain has a deadline since the child was found gone, and both kinds of
      waiting are bounded. */
  ghost predicate Ongoing(watch: Watch, w: World, ms: seq<Moment>, deadline: Option<real>, m: Moment)
  {
    && watch.Watches(w, ms + [m])
    && (deadline.Some? <==> watch.exitAt.Some? && watch.FirstGone() < |ms|)
    && (deadline.None? ==> m.now <= watch.started + watch.c.suite + w.slack)
    && (deadline.None? && watch.TestInTime(w, (ms + [m])[0]) ==> watch.TestInTime(w, m))
    && (deadline.Some? ==>
          && deadline.value == ms[watch.FirstGone()].now + ORPHAN_DRAIN_GRACE && m.now <= deadline.value + w.slack
          && deadline.value <= watch.started + watch.c.suite + w.slack + ORPHAN_DRAIN_GRACE)
  }

  lemma GoneIff(watch: Watch, w: World, ms: seq<Moment>, deadline: Option<real>, m: Moment)
    requires Ongoing(watch, w, ms, deadline, m)
    ensures deadline.Some? ==> watch.Gone(m)
    ensures deadline.None? && watch.Gone(m) ==> watch.FirstGone() == |ms|
  {
    assert (ms + [m])[|ms|] == m;
  }

  lemma LiveTurn(watch: Watch, w: World, ms: seq<Moment>, deadline: Option<real>, m: Moment, n: Moment)
    requires Ongoing(watch, w, ms, deadline, m) && !watch.Gone(m) && watch.Waits(ms + [m], m)
    requires Leads(w, m, n) && n.now <= watch.started + watch.c.suite + w.slack
    requires watch.TestInTime(w, m) ==> watch.TestInTime(w, n)
    requires 0.0 < w.tick
    ensures Ongoing(watch, w, ms + [m], deadline, n)
    ensures deadline.None? && Left(watch, deadline, n, w.tick) < Left(watch, deadline, m, w.tick)
  {
    TickDown(watch.started + watch.c.suite - m.now, watch.started + watch.c.suite - n.now, w.tick);
    GoneIff(watch, w, ms, deadline, m);
    assert (ms + [m])[|ms|] == m;
    Extend(watch, w, ms + [m], n);
  }

  lemma GoneTurn(watch: Watch, w: World, ms: seq<Moment>, deadline: Option<real>, m: Moment, until: real, n: Moment)
    requires Ongoing(watch, w, ms, deadline, m) && watch.Gone(m) && !m.closed && m.now < until
    requires until == if deadline.Some? then deadline.value else m.now + ORPHAN_DRAIN_GRACE
    requires Leads(w, m, n) && n.now <= until + w.slack
    requires 0.0 < w.tick
    ensures Ongoing(watch, w, ms + [m], Some(until), n) && watch.Gone(n)
    ensures Left(watch, Some(until), n, w.tick) < Left(watch, Some(until), m, w.tick)
  {
    TickDown(until - m.now, until - n.now, w.tick);
    GoneIff(watch, w, ms, deadline, m);
    assert (ms + [m])[|ms|] == m;
    Extend(watch, w, ms + [m], n);
  }

  /** What ends the watch once the child is gone. */
  lemma GoneVerdict(watch: Watch, w: World, ms: seq<Moment>, deadline: Option<real>, m: Moment, until: real)
    requires Ongoing(watch, w, ms, deadline, m) && watch.Gone(m)
    requires until == if deadline.Some? then deadline.value else m.now + ORPHAN_DRAIN_GRACE
    ensures m.closed ==> Verdict(watch, ms + [m], None)
    ensures !m.closed && m.now >= until ==> Verdict(watch, ms + [m], Some(OrphanedOutput))
  {
    GoneIff(watch, w, ms, deadline, m);
    assert (ms + [m])[|ms|] == m;
  }

  lemma Stopped(watch: Watch, w: World, ms: seq<Moment>, deadline: Option<real>, m: Moment, reason: Option<Reason>)
    requires Ongoing(watch, w, ms, deadline, m) && Verdict(watch, ms + [m], reason) && w.slack > 0.0
    ensures m.now <= watch.started + watch.c.suite + ORPHAN_DRAIN_GRACE + 2.0 * w.slack && m.step >= watch.from
    ensures reason.None? <==> watch.Gone(m) && m.closed
    ensures reason == Some(OrphanedOutput) <==> watch.Gone(m) && !m.closed
    ensures watch.TestInTime(w, (ms + [m])[0]) && !watch.Gone(m) ==> watch.TestInTime(w, m)
    ensures watch.InDrain(w, ms + [m])
  {
    GoneIff(watch, w, ms, deadline, m);
    assert (ms + [m])[|ms|] == m;
  }

  /** How long the watch can still last. */
  function Left(watch: Watch, deadline: Option<real>, m: Moment, tick: real): nat
    requires tick > 0.0
  {
    Ticks((if deadline.None? then watch.started + watch.c.suite else deadline.value) - m.now, tick)
  }

  /** One turn brings the end of the watch nearer: the child goes, the drain begins, or time passes. */
  predicate Nearer(watch: Watch, d: Option<real>, m: Moment, e: Option<real>, n: Moment, tick: real)
    requires tick > 0.0
  {
    || (!watch.Gone(m) && watch.Gone(n))
    || (watch.Gone(m) == watch.Gone(n) &&
        ((d.None? && e.Some?) || (d.None? == e.None? && Left(watch, e, n, tick) < Left(watch, d, m, tick))))
  }

  /** `_check_live_bounded_process` */
  method CheckLive<S(!new)>(w: World, pump: OutputPump<S>, started: real, c: Config, clock: (nat, nat) -> real)
    returns (reason: Option<Reason>)
    requires w.Valid() && pump.Valid() && Disjoint(pump.classifier) && Positive(c)
    modifies w, pump, pump.progress
    ensures w.Valid() && pump.Valid() && w.step >= old(w.step)
    ensures reason.Some? ==> w.now == old(w.now) && w.step == old(w.step) && w.returncode == old(w.returncode)
    ensures reason.Some? ==> reason.value == SuiteTimeout || reason.value == TestTimeout
    ensures reason == Some(SuiteTimeout) <==> old(w.now) >= started + c.suite
    ensures reason == Some(TestTimeout) ==>
              pump.progress.seen.testStartedAt.Some? && w.now >= pump.progress.seen.testStartedAt.value + c.test
    ensures reason.None? ==> old(w.now) + w.tick <= w.now <= started + c.suite + w.slack
    ensures reason == Some(TestTimeout) ==> old(w.now) < started + c.suite
    ensures reason.Some? ==> At(w, pump) == old(At(w, pump))
    ensures reason.None? ==> Leads(w, old(At(w, pump)), At(w, pump)) && w.returncode == old(w.returncode)
    ensures reason.None? ==>
              old(pump.progress.seen.testStartedAt.Some? ==> w.now < pump.progress.seen.testStartedAt.value + c.test)
    ensures old(InTime(pump.progress.seen.testStartedAt, c.test, w.slack, w.now)) ==>
              InTime(pump.progress.seen.testStartedAt, c.test, w.slack, w.now)
  {
    var suiteRemaining := c.suite - (w.now - started);
    if suiteRemaining <= 0.0 {
      return Some(SuiteTimeout);
    }
    var testRemaining := c.test;
    if pump.progress.seen.testStartedAt.Some? {
      testRemaining := c.test - (w.now - pump.progress.seen.testStartedAt.value);
      if testRemaining <= 0.0 {
        return Some(TestTimeout);
      }
    }
    ReadFor(w, pump, Min(0.2, Min(suiteRemaining, testRemaining)), clock);
    return None;
  }

  /** The turn of the monitor's loop for a child that is gone: stop, or read on until the drain is over. */
  method CheckGone<S(!new)>(w: World, pump: OutputPump<S>, until: real, clock: (nat, nat) -> real)
    returns (stop: bool, reason: Option<Reason>)
    requires w.Valid() && pump.Valid() && Disjoint(pump.classifier)
    modifies w, pump, pump.progress
    ensures w.Valid() && pump.Valid() && w.returncode == old(w.returncode)
    ensures stop <==> old(pump.closed || w.now >= until)
    ensures reason == if stop && !old(pump.closed) then Some(OrphanedOutput) else None
    ensures stop ==> At(w, pump) == old(At(w, pump))
    ensures !stop ==> Leads(w, old(At(w, pump)), At(w, pump)) && w.now <= until + w.slack
  {
    if pump.closed {
      return true, None;
    }
    if w.now >= until {
      return true, Some(OrphanedOutput);
    }
    ReadFor(w, pump, Min(0.1, Max(0.0, until - w.now)), clock);
    return false, None;
  }

  /** One turn of the monitor's loop. */
  method Turn<S(!new)>(w: World, pump: OutputPump<S>, started: real, c: Config, deadline: Option<real>,
                       clock: (nat, nat) -> real, ghost watch: Watch, ghost ms: seq<Moment>)
    returns (stop: bool, reason: Option<Reason>, next: Option<real>)
    requires w.Valid() && pump.Valid() && Disjoint(pump.classifier) && Positive(c)
    requires watch.exitAt == w.exitAt && watch.started == started && watch.c == c
    requires Ongoing(watch, w, ms, deadline, At(w, pump))
    modifies w, pump, pump.progress
    ensures w.Valid() && pump.Valid()
    ensures stop ==> At(w, pump) == old(At(w, pump)) && Verdict(watch, ms + [At(w, pump)], reason)
    ensures stop ==> (w.returncode.Some? <==> w.Exited())
    ensures !stop ==> Ongoing(watch, w, ms + [old(At(w, pump))], next, At(w, pump))
                      && Nearer(watch, deadline, old(At(w, pump)), next, At(w, pump), w.tick)
  {
    ghost var m := At(w, pump);
    next := deadline;
    GoneIff(watch, w, ms, deadline, m);
    var exited := w.Poll();
    if !exited {
      reason := CheckLive(w, pump, started, c, clock);
      stop := reason.Some?;
      if !stop { LiveTurn(watch, w, ms, deadline, m, At(w, pump)); }
    } else {
      if next.None? {
        next := Some(w.now + ORPHAN_DRAIN_GRACE);
      }
      GoneVerdict(watch, w, ms, deadline, m, next.value);
      stop, reason := CheckGone(w, pump, next.value, clock);
      if !stop { GoneTurn(watch, w, ms, deadline, m, next.value, At(w, pump)); }
    }
  }

  /** `_monitor_bounded_process`: ends at the first moment at which something is due, and says what. */
  method Monitor<S(!new)>(w: World, pump: OutputPump<S>, started: real, c: Config, clock: (nat, nat) -> real)
    returns (reason: Option<Reason>, ghost ms: seq<Moment>)
    requires w.Valid() && pump.Valid() && Disjoint(pump.classifier) && Positive(c) && w.now <= started + w.slack
    modifies w, pump, pump.progress
    ensures w.Valid() && pump.Valid() && w.step >= old(w.step)
    ensures w.now <= started + c.suite + ORPHAN_DRAIN_GRACE + 2.0 * w.slack
    ensures var watch := Watch(w.exitAt, old(w.step), started, c);
      && watch.Watches(w, ms) && ms[0] == old(At(w, pump)) && ms[|ms| - 1] == At(w, pump)
      && Verdict(watch, ms, reason) && watch.InDrain(w, ms)
    ensures w.returncode.Some? <==> w.Exited()
    ensures reason.None? <==> w.returncode.Some? && pump.closed
    ensures reason == Some(OrphanedOutput) <==> w.returncode.Some? && !pump.closed
    ensures old(InTime(pump.progress.seen.testStartedAt, c.test, w.slack, w.now)) && w.returncode.None? ==>
              InTime(pump.progress.seen.testStartedAt, c.test, w.slack, w.now)
  {
    var orphanDeadline := None;
    ms := [];
    ghost var watch := Watch(w.exitAt, w.step, started, c);
    while true
      invariant w.Valid() && pump.Valid() && (ms + [At(w, pump)])[0] == old(At(w, pump))
      invariant Ongoing(watch, w, ms, orphanDeadline, At(w, pump))
      decreases if watch.Gone(At(w, pump)) then 0 else 1, if orphanDeadline.None? then 1 else 0,
                Left(watch, orphanDeadline, At(w, pump), w.tick)
    {
      ghost var m, before := At(w, pump), orphanDeadline;
      var stop;
      stop, reason, orphanDeadline := Turn(w, pump, started, c, orphanDeadline, clock, watch, ms);
      ghost var past := ms;
      ms := ms + [m];
      if stop {
        Stopped(watch, w, past, before, m, reason);
        return;
      }
    }
  }

  /** How a run ended, and what the supervisor knew of the child and its group then. */
  datatype Outcome =
    | NotSpawned
    | NoGroup                                                              // the group id could not be read
    | Contained(reason: Reason, known: Option<int>, survivors: bool)       // TERM, KILL, reap
    | Orphaned(status: int, survivors: bool)                               // exited, but left members behind
    | Completed(status: int)                                               // exited and left nothing behind

  /** The exit status of `_contain`. */
  function ContainedCode(reason: Reason, status: Option<int>, survivors: bool): int
  {
    if status.Some? && status.value != 0 && reason == OrphanedOutput then status.value
    else if survivors then 125
    else 124
  }

  function ExitCode(o: Outcome): int
  {
    match o
    case NotSpawned => 127
    case NoGroup => 125
    case Contained(reason, status, survivors) => ContainedCode(reason, status, survivors)
    case Orphaned(status, survivors) =>
      if status == 0 then ContainedCode(OrphanedChild, Some(status), survivors) else status
    case Completed(status) => status
  }

  /** TERM and its grace period; true if anything is left to kill. */
  method Terminate<S(!new)>(w: World, pump: OutputPump<S>, c: Config, clock: (nat, nat) -> real) returns (left: bool)
    requires w.Valid() && pump.Valid() && Disjoint(pump.classifier) && Positive(c)
    modifies w, pump, pump.progress
    ensures w.Valid() && pump.Valid() && w.step >= old(w.step)
    ensures old(w.now) <= w.now <= old(w.now) + c.term + 3.0 * w.slack
    ensures old(w.returncode).Some? ==> w.returncode.Some?
    ensures w.now < old(w.now) + c.term ==> w.returncode.Some? && pump.closed
    ensures w.step > old(w.step) && (left <==> w.returncode.None? || w.env(w.step - 1).members)
  {
    hide Flowing, Ended, Notes;
    var _ := w.Snapshot();
    DrainUntil(w, pump, w.now + c.term, clock);
    left := w.Remains();
  }

  /** KILL and its grace period if anything is left, then a bounded wait for the child. */
  method Reap<S(!new)>(w: World, pump: OutputPump<S>, c: Config, left: bool, clock: (nat, nat) -> real)
    returns (survivors: bool)
    requires w.Valid() && pump.Valid() && Disjoint(pump.classifier) && Positive(c)
    modifies w, pump, pump.progress
    ensures w.Valid() && pump.Valid() && w.step > old(w.step) && survivors == w.env(w.step - 1).members
    ensures old(w.now) <= w.now <= old(w.now) + 2.0 * c.kill + 3.0 * w.slack
    ensures old(w.returncode).Some? ==> w.returncode.Some?
    ensures left && w.now < old(w.now) + c.kill ==> w.returncode.Some? && pump.closed
  {
    if left {
      DrainUntil(w, pump, w.now + c.kill, clock);
    }
    w.WaitFor(c.kill);
    survivors := w.Snapshot();
  }

  /** `_contain`.  The signals themselves are the environment's business. */
  method Contain<S(!new)>(w: World, pump: OutputPump<S>, c: Config, reason: Reason, clock: (nat, nat) -> real)
    returns (code: int, survivors: bool)
    requires w.Valid() && pump.Valid() && Disjoint(pump.classifier) && Positive(c)
    modifies w, pump, pump.progress
    ensures w.Valid() && pump.Valid() && pump.closed && w.step > old(w.step)
    ensures old(w.now) <= w.now <= old(w.now) + c.term + 2.0 * c.kill + 6.0 * w.slack
    ensures code == ContainedCode(reason, w.returncode, survivors) && survivors == w.env(w.step - 1).members
    ensures old(w.returncode).Some? ==> w.returncode.Some?
    // A child that is still there has had both its graces.
    ensures w.returncode.None? ==> w.now >= old(w.now) + c.term + c.kill
  {
    hide Flowing, Ended, Notes;
    var left := Terminate(w, pump, c, clock);
    survivors := Reap(w, pump, c, left, clock);
    pump.Finish(clock(w.step, 0));
    code := ContainedCode(reason, w.returncode, survivors);
  }

  /** An outcome that reports the child's own exit, and the group as last seen. */
  ghost predicate Reports(w: World, o: Outcome)
    reads w
  {
    && w.step > 0
    && match o
       case Completed(status) => w.Exited() && status == w.status && !w.env(w.step - 1).members
       case Orphaned(status, survivors) => w.Exited() && status == w.status && survivors == w.env(w.step - 1).members
       case Contained(reason, known, survivors) =>
         && survivors == w.env(w.step - 1).members && (known.Some? ==> w.Exited() && known.value == w.status)
         && (reason == OrphanedOutput ==> known.Some?)
       case NotSpawned => false
       case NoGroup => false
  }

  /** `_finish_bounded_process` */
  method FinishProcess<S(!new)>(w: World, pump: OutputPump<S>, c: Config, clock: (nat, nat) -> real)
    returns (code: int, outcome: Outcome)
    requires w.Valid() && pump.Valid() && Disjoint(pump.classifier) && Positive(c) && w.returncode.Some?
    modifies w, pump, pump.progress
    ensures w.Valid() && pump.Valid() && pump.closed
    ensures w.now <= old(w.now) + c.term + 2.0 * c.kill + 7.0 * w.slack
    ensures code == ExitCode(outcome) && Reports(w, outcome) && (outcome.Orphaned? || outcome.Completed?)
    ensures outcome.Orphaned? <==> w.env(old(w.step)).members
  {
    var status := w.returncode.value;
    var members := w.Snapshot();
    if members {
      var contained, survivors := Contain(w, pump, c, OrphanedChild, clock);
      code, outcome := if status == 0 then contained else status, Orphaned(status, survivors);
    } else {
      pump.Finish(clock(w.step, 0));
      code, outcome := status, Completed(status);
    }
  }

  /** What `_spawn_bounded_process` and `_resolve_process_group` came back with; a child without a group is killed
      and waited for, for as long as it takes. */
  datatype Spawn = Failed | Unattributed(wait: real) | SharedGroup | PrivateGroup

  /** How the outcome follows from what the monitor saw last. */
  ghost predicate Decides(w: World, watch: Watch, ms: seq<Moment>, o: Outcome)
  {
    && watch.Watches(w, ms) && watch.InDrain(w, ms)
    && var m := ms[|ms| - 1];
       && (o.Contained? ==> Verdict(watch, ms, Some(o.reason)))
       && (o.Completed? <==> watch.EndsClean(w, m))
       && (o.Orphaned? <==> watch.Gone(m) && m.closed && w.env(m.step).members)
  }

  /** The supervised part of `run_bounded_command`: the child has its own process group. */
  method Supervise<S(!new)>(w: World, pump: OutputPump<S>, c: Config, clock: (nat, nat) -> real)
    returns (code: int, outcome: Outcome, ghost ms: seq<Moment>)
    requires w.Valid() && pump.Valid() && Disjoint(pump.classifier) && Positive(c)
    modifies w, pump, pump.progress
    ensures w.Valid() && pump.Valid() && pump.closed
    ensures w.now <= old(w.now) + c.suite + ORPHAN_DRAIN_GRACE + c.term + 2.0 * c.kill + 9.0 * w.slack
    ensures code == ExitCode(outcome) && Reports(w, outcome)
    ensures var watch := Watch(w.exitAt, old(w.step), old(w.now), c);
      && Decides(w, watch, ms, outcome) && ms[0] == old(At(w, pump))
      && (code == 0 <==> w.status == 0 && watch.EndsClean(w, ms[|ms| - 1]))
    ensures outcome.Contained? && outcome.reason == SuiteTimeout ==> w.now >= old(w.now) + c.suite
  {
    var reason: Option<Reason>;
    reason, ms := Monitor(w, pump, w.now, c, clock);
    if reason.Some? {
      var contained, survivors := Contain(w, pump, c, reason.value, clock);
      code, outcome := contained, Contained(reason.value, w.returncode, survivors);
    } else {
      code, outcome := FinishProcess(w, pump, c, clock);
    }
  }

  /** `run_bounded_command`.  The time bound is the sum of the configured timeouts and graces,
      plus the cost of a fixed number of interactions. */
  method Run<S(!new)>(w: World, pump: OutputPump<S>, spawn: Spawn, c: Config, clock: (nat, nat) -> real)
    returns (code: int, outcome: Outcome, ghost ms: seq<Moment>)
    requires w.Valid() && pump.Valid() && Disjoint(pump.classifier) && Positive(c)
    modifies w, pump, pump.progress
    ensures code == ExitCode(outcome)
    ensures w.now <= old(w.now) + (if spawn.Unattributed? then Max(0.0, spawn.wait)
                                   else c.suite + ORPHAN_DRAIN_GRACE + c.term + 2.0 * c.kill + 9.0 * w.slack)
    ensures var watch := Watch(w.exitAt, old(w.step), old(w.now), c);
            match spawn
            case Failed => outcome == NotSpawned
            case Unattributed(wait) => outcome == NoGroup && w.now == old(w.now) + Max(0.0, wait)
            case SharedGroup => Reports(w, outcome) && outcome.Contained? && outcome.reason == AttributionFailed
            case PrivateGroup =>
              Reports(w, outcome) && pump.closed && Decides(w, watch, ms, outcome) && ms[0] == old(At(w, pump))
    // Success is exactly a child in its own group that exits 0 before a timeout, whose output ends within the drain,
    // and whose group is then empty.
    ensures var watch := Watch(w.exitAt, old(w.step), old(w.now), c);
            code == 0 <==>
              spawn.PrivateGroup? && w.status == 0 && watch.Watches(w, ms) && watch.EndsClean(w, ms[|ms| - 1])
    // A child that failed by itself is never reported as anything else.
    ensures (outcome.Completed? || outcome.Orphaned?) && w.status != 0 ==> code == w.status
    ensures outcome.Contained? && outcome.reason == OrphanedOutput && w.status != 0 ==> code == w.status
    // Every other containment says 124, or 125 if members of the group survived it.
    ensures outcome.Contained? && outcome.reason != OrphanedOutput ==> code == if outcome.survivors then 125 else 124
    // No containment before its time.
    ensures outcome.Contained? && outcome.reason == SuiteTimeout ==> w.now >= old(w.now) + c.suite
  {
    ms := [];
    match spawn
    case Failed =>
      code, outcome := 127, NotSpawned;
    case Unattributed(wait) =>
      w.Wait(wait);
      code, outcome := 125, NoGroup;
    case SharedGroup =>
      var contained, survivors := Contain(w, pump, c, AttributionFailed, clock);
      code, outcome := contained, Contained(AttributionFailed, w.returncode, survivors);
    case PrivateGroup =>
      code, outcome, ms := Supervise(w, pump, c, clock);
  }

  lemma {:induction false} StaysOpen(w: World, watch: Watch, ms: seq<Moment>, k: nat)
    requires watch.Watches(w, ms) && k < |ms| && !ms[0].closed && forall n: nat :: w.env(n).input != Some([])
    ensures !ms[k].closed
  {
    if k > 0 {
      StaysOpen(w, watch, ms, k - 1);
      assert Leads(w, ms[k - 1], ms[k - 1 + 1]);
    }
  }

  /** A child that exits 0 and leaves an empty group is not reported a success if its output never ends, as when a
      process outside the group holds the pipe. */
  method HeldPipe<S(!new)>(w: World, pump: OutputPump<S>, c: Config, clock: (nat, nat) -> real) returns (code: int)
    requires w.Valid() && pump.Valid() && Disjoint(pump.classifier) && Positive(c) && !pump.closed
    requires w.exitAt == Some(w.step) && w.status == 0
    requires forall n: nat :: w.env(n).input != Some([]) && !w.env(n).members
    modifies w, pump, pump.progress
    ensures code == 124
  {
    var outcome: Outcome;
    ghost var ms;
    code, outcome, ms := Run(w, pump, PrivateGroup, c, clock);
    StaysOpen(w, Watch(w.exitAt, old(w.step), old(w.now), c), ms, |ms| - 1);
  }

  lemma {:induction false} StaysActive(w: World, watch: Watch, ms: seq<Moment>, k: nat)
    requires watch.Watches(w, ms) && k < |ms| && forall n: nat :: n >= watch.from ==> w.env(n).input.None?
    ensures ms[k].startedAt == ms[0].startedAt
  {
    if k > 0 {
      StaysActive(w, watch, ms, k - 1);
      assert Leads(w, ms[k - 1], ms[k - 1 + 1]);
    }
  }

  /** A child that says no more after a start mark, and does not exit, is contained for it, no later than its test's
      timeout and one read after the mark, if the suite has that long. */
  method HungTest<S(!new)>(w: World, pump: OutputPump<S>, started: real, c: Config, clock: (nat, nat) -> real)
    returns (reason: Option<Reason>)
    requires w.Valid() && pump.Valid() && Disjoint(pump.classifier) && Positive(c) && w.now <= started + w.slack
    requires w.exitAt.None? && (forall n: nat :: n >= w.step ==> w.env(n).input.None?)
    requires Active(pump.classifier, pump.views).Some?
    requires InTime(pump.progress.seen.testStartedAt, c.test, w.slack, w.now)
    modifies w, pump, pump.progress
    ensures old(pump.progress.seen.testStartedAt).Some?
    ensures var mark := old(pump.progress.seen.testStartedAt).value;
      && w.now <= mark + c.test + w.slack
      && (mark + c.test + w.slack < started + c.suite ==> reason == Some(TestTimeout) && w.now >= mark + c.test)
  {
    ghost var ms;
    reason, ms := Monitor(w, pump, started, c, clock);
    StaysActive(w, Watch(w.exitAt, old(w.step), started, c), ms, |ms| - 1);
  }
}
