/** The connection pool of `medulla/pool.py` as a protocol of coroutines.

    A coroutine runs atomically between two `await` points, so the pool is a state machine
    whose events are exactly those atomic segments.  Coroutines suspended at the same point
    with the same client are interchangeable, so the state records how many stand where
    (and with which client) rather than their names.  Health checks, connects and closes
    belong to the environment: each event carries their outcome. */
module ConnectionPools {

  type Client = nat

  /** Who is suspended inside `async with self._lock`. */
  datatype Lock =
    | Free
    | Init(left: nat)           // initialize, still owing `left` > 0 connects
    | Connecting                // acquire, connect in flight
    | Closing(client: Client)   // close_all, close of `client` in flight

  datatype State = State(
    maxSize: int,
    queue: seq<Client>,
    active: int,
    lock: Lock,
    pinging: multiset<Client>,   // acquire: taken off the queue, health check in flight
    dropping: multiset<Client>,  // acquire: health check failed, wants the lock
    holding: multiset<Client>,   // acquire has returned, release not yet called
    reconnecting: nat,           // acquire: slot given back, reconnect in flight outside the lock
    wantSlot: nat,               // acquire: the queue was empty, wants the lock
    waiting: nat,                // acquire: blocked on the queue
    wantClose: nat,              // close_all: wants the lock
    minted: nat,                 // clients 0..minted have been connected so far
    past: Past)

  /** Environment history; the code never reads it. */
  datatype Past = Past(failedPings: nat, failedConnects: nat, failedCloses: nat, closeCalls: nat)

  datatype Event =
    | InitConnect(ok: bool)
    | Acquire
    | Ping(client: Client, ok: bool)
    | Drop(client: Client)
    | Reconnect(ok: bool)
    | EnterSlot
    | Connect(ok: bool)
    | TakeQueued
    | Release(client: Client)
    | CloseAll
    | EnterClose
    | Close(ok: bool)

  /** `initialize` runs once and first: it has just taken the lock. */
  function Start(maxSize: int, minSize: int): (s: State)
  {
    var owed := if minSize < maxSize then minSize else maxSize;
    State(maxSize, [], 0, if owed > 0 then Init(owed) else Free,
          multiset{}, multiset{}, multiset{}, 0, 0, 0, 0, 0, Past(0, 0, 0, 0))
  }

  /** `asyncio.Queue.full`: a non-positive bound means unbounded. */
  predicate Full(s: State) { s.maxSize > 0 && |s.queue| >= s.maxSize }

  predicate Enabled(s: State, e: Event)
  {
    match e
    case InitConnect(_) => s.lock.Init? && s.lock.left > 0
    case Acquire => true
    case Ping(c, _) => c in s.pinging
    case Drop(c) => c in s.dropping && s.lock.Free?
    case Reconnect(_) => s.reconnecting > 0
    case EnterSlot => s.wantSlot > 0 && s.lock.Free?
    case Connect(_) => s.lock.Connecting?
    case TakeQueued => s.waiting > 0 && s.queue != []
    case Release(c) => c in s.holding
    case CloseAll => true
    case EnterClose => s.wantClose > 0 && s.lock.Free?
    case Close(_) => s.lock.Closing?
  }

  /** The loop head of `close_all`, reached holding the lock. */
  function CloseLoop(s: State): (r: State)
  {
    if s.queue == [] then s.(lock := Free)
    else s.(lock := Closing(s.queue[0]), queue := s.queue[1..])
  }

  function Step(s: State, e: Event): (r: State)
    requires Enabled(s, e)
  {
    match e
    case InitConnect(ok) =>
      if !ok then
        s.(lock := Free, past := s.past.(failedConnects := s.past.failedConnects + 1))
      else
        s.(active := s.active + 1, queue := s.queue + [s.minted], minted := s.minted + 1,
           lock := if s.lock.left > 1 then Init(s.lock.left - 1) else Free)
    case Acquire =>
      if s.queue != [] then
        s.(queue := s.queue[1..], pinging := s.pinging + multiset{s.queue[0]})
      else
        s.(wantSlot := s.wantSlot + 1)
    case Ping(c, ok) =>
      if ok then
        s.(pinging := s.pinging - multiset{c}, holding := s.holding + multiset{c})
      else
        s.(pinging := s.pinging - multiset{c}, dropping := s.dropping + multiset{c},
           past := s.past.(failedPings := s.past.failedPings + 1))
    case Drop(c) =>
      s.(active := s.active - 1, dropping := s.dropping - multiset{c}, reconnecting := s.reconnecting + 1)
    case Reconnect(ok) =>
      if ok then
        s.(active := s.active + 1, reconnecting := s.reconnecting - 1,
           holding := s.holding + multiset{s.minted}, minted := s.minted + 1)
      else
        s.(reconnecting := s.reconnecting - 1,
           past := s.past.(failedConnects := s.past.failedConnects + 1))
    case EnterSlot =>
      if s.active < s.maxSize then
        s.(wantSlot := s.wantSlot - 1, lock := Connecting)
      else
        s.(wantSlot := s.wantSlot - 1, waiting := s.waiting + 1)
    case Connect(ok) =>
      if ok then
        s.(active := s.active + 1, lock := Free,
           holding := s.holding + multiset{s.minted}, minted := s.minted + 1)
      else
        s.(lock := Free, past := s.past.(failedConnects := s.past.failedConnects + 1))
    case TakeQueued =>
      s.(waiting := s.waiting - 1, queue := s.queue[1..], holding := s.holding + multiset{s.queue[0]})
    case Release(c) =>
      if Full(s) then
        s.(active := s.active - 1, holding := s.holding - multiset{c})
      else
        s.(queue := s.queue + [c], holding := s.holding - multiset{c})
    case CloseAll =>
      s.(wantClose := s.wantClose + 1, past := s.past.(closeCalls := s.past.closeCalls + 1))
    case EnterClose =>
      CloseLoop(s.(wantClose := s.wantClose - 1))
    case Close(ok) =>
      if ok then CloseLoop(s.(active := s.active - 1))
      else s.(lock := Free, past := s.past.(failedCloses := s.past.failedCloses + 1))
  }

  /** A run is a finite sequence of enabled events. */
  predicate Feasible(s: State, run: seq<Event>)
    decreases |run|
  {
    run == [] || (Enabled(s, run[0]) && Feasible(Step(s, run[0]), run[1..]))
  }

  function Exec(s: State, run: seq<Event>): (r: State)
    requires Feasible(s, run)
    decreases |run|
  {
    if run == [] then s else Exec(Step(s, run[0]), run[1..])
  }

  ghost predicate Reachable(maxSize: int, minSize: int, s: State)
  {
    exists run :: Feasible(Start(maxSize, minSize), run) && Exec(Start(maxSize, minSize), run) == s
  }

  lemma {:induction false} ExecSnoc(s: State, run: seq<Event>, e: Event)
    requires Feasible(s, run) && Enabled(Exec(s, run), e)
    ensures Feasible(s, run + [e]) && Exec(s, run + [e]) == Step(Exec(s, run), e)
    decreases |run|
  {
    if run == [] {
      assert [e][1..] == [];
    } else {
      assert (run + [e])[1..] == run[1..] + [e];
      ExecSnoc(Step(s, run[0]), run[1..], e);
    }
  }

  lemma ReachStart(maxSize: int, minSize: int)
    ensures Reachable(maxSize, minSize, Start(maxSize, minSize))
  {
    assert Feasible(Start(maxSize, minSize), []);
  }

  lemma ReachStep(maxSize: int, minSize: int, s: State, e: Event)
    requires Reachable(maxSize, minSize, s) && Enabled(s, e)
    ensures Reachable(maxSize, minSize, Step(s, e))
  {
    var run :| Feasible(Start(maxSize, minSize), run) && Exec(Start(maxSize, minSize), run) == s;
    ExecSnoc(Start(maxSize, minSize), run, e);
  }

  // -------------------------------------------------------------- invariant

  /** Every client the pool or one of its coroutines still owns, with multiplicity. */
  function Owned(s: State): (m: multiset<Client>)
  {
    multiset(s.queue) + s.pinging + s.dropping + s.holding
    + (if s.lock.Closing? then multiset{s.lock.client} else multiset{})
  }

  function Cap(s: State): (n: nat) { if s.maxSize > 0 then s.maxSize else 0 }

  /** Connections counted, plus those some coroutine has already decided to open. */
  function Reserved(s: State): (n: int)
  {
    s.active + s.reconnecting + (if s.lock.Connecting? then 1 else if s.lock.Init? then s.lock.left else 0)
  }

  /** `_active_connections` counts exactly the owned clients and no client is owned twice. */
  ghost predicate Accounted(s: State)
  {
    && s.active == |Owned(s)| + s.past.failedCloses
    && (forall c :: Owned(s)[c] <= 1)
    && (forall c :: c in Owned(s) ==> c < s.minted)
  }

  ghost predicate Bounded(s: State)
  {
    && (s.maxSize > 0 ==> |s.queue| <= s.maxSize)
    && s.reconnecting + |s.dropping| <= s.past.failedPings
    && Reserved(s) <= Cap(s) + s.past.failedPings
    && (s.lock.Init? ==> s.lock.left > 0 && s.reconnecting == 0 && s.active + s.lock.left <= Cap(s))
  }

  ghost predicate Inv(s: State) { Accounted(s) && Bounded(s) }

  lemma StartInv(maxSize: int, minSize: int)
    ensures Inv(Start(maxSize, minSize))
  {
    assert Owned(Start(maxSize, minSize)) == multiset{};
  }

  lemma PopSplits(q: seq<Client>)
    requires q != []
    ensures multiset(q) == multiset{q[0]} + multiset(q[1..])
  {
    assert q == [q[0]] + q[1..];
  }

  /** What a step does to the owned clients: keep them, hand out a fresh one, give one up. */
  datatype Effect = Keeps | Mints | Loses(client: Client)

  function EffectOf(s: State, e: Event): (f: Effect)
    requires Enabled(s, e)
  {
    match e
    case InitConnect(ok) => if ok then Mints else Keeps
    case Reconnect(ok) => if ok then Mints else Keeps
    case Connect(ok) => if ok then Mints else Keeps
    case Drop(c) => Loses(c)
    case Release(c) => if Full(s) then Loses(c) else Keeps
    case Close(_) => Loses(s.lock.client)
    case _ => Keeps
  }

  function Apply(m: multiset<Client>, f: Effect, next: Client): (r: multiset<Client>)
  {
    match f
    case Keeps => m
    case Mints => m + multiset{next}
    case Loses(c) => m - multiset{c}
  }

  ghost predicate OwnedFollows(s: State, e: Event)
    requires Enabled(s, e)
  {
    var r, f := Step(s, e), EffectOf(s, e);
    && Owned(r) == Apply(Owned(s), f, s.minted)
    && r.minted == s.minted + (if f.Mints? then 1 else 0)
    && (f.Loses? ==> f.client in Owned(s))
  }

  lemma AcquireOwned(s: State)
    ensures OwnedFollows(s, Acquire)
  {
    if s.queue != [] { PopSplits(s.queue); }
  }

  lemma TakeOwned(s: State)
    requires Enabled(s, TakeQueued)
    ensures OwnedFollows(s, TakeQueued)
  {
    PopSplits(s.queue);
  }

  lemma EnterCloseOwned(s: State)
    requires Enabled(s, EnterClose)
    ensures OwnedFollows(s, EnterClose)
  {
    if s.queue != [] { PopSplits(s.queue); }
  }

  lemma MoveOwned(s: State, e: Event)
    requires Enabled(s, e) && (e.EnterSlot? || e.CloseAll?)
    ensures OwnedFollows(s, e)
  {
  }

  lemma PingOwned(s: State, e: Event)
    requires Enabled(s, e) && e.Ping?
    ensures OwnedFollows(s, e)
  {
  }

  lemma ConnectOwned(s: State, e: Event)
    requires Enabled(s, e) && (e.Connect? || e.Reconnect?)
    ensures OwnedFollows(s, e)
  {
  }

  lemma InitOwned(s: State, e: Event)
    requires Enabled(s, e) && e.InitConnect?
    ensures OwnedFollows(s, e)
  {
    assert multiset(s.queue + [s.minted]) == multiset(s.queue) + multiset{s.minted};
  }

  lemma DropOwned(s: State, e: Event)
    requires Enabled(s, e) && e.Drop?
    ensures OwnedFollows(s, e)
  {
  }

  lemma RequeueOwned(s: State, e: Event)
    requires Enabled(s, e) && e.Release? && !Full(s)
    ensures OwnedFollows(s, e)
  {
  }

  lemma ReleaseOwned(s: State, e: Event)
    requires Enabled(s, e) && e.Release?
    ensures OwnedFollows(s, e)
  {
    if !Full(s) { RequeueOwned(s, e); }
  }

  lemma ClosedOwned(s: State, e: Event)
    requires Enabled(s, e) && e.Close? && e.ok
    ensures OwnedFollows(s, e)
  {
    if s.queue != [] { PopSplits(s.queue); }
  }

  lemma CloseOwned(s: State, e: Event)
    requires Enabled(s, e) && e.Close?
    ensures OwnedFollows(s, e)
  {
    if e.ok { ClosedOwned(s, e); }
  }

  lemma StepOwned(s: State, e: Event)
    requires Enabled(s, e)
    ensures OwnedFollows(s, e)
  {
    match e
    case Acquire => AcquireOwned(s);
    case TakeQueued => TakeOwned(s);
    case EnterClose => EnterCloseOwned(s);
    case Ping(_, _) => PingOwned(s, e);
    case EnterSlot => MoveOwned(s, e);
    case CloseAll => MoveOwned(s, e);
    case InitConnect(_) => InitOwned(s, e);
    case Connect(_) => ConnectOwned(s, e);
    case Reconnect(_) => ConnectOwned(s, e);
    case Drop(_) => DropOwned(s, e);
    case Release(_) => ReleaseOwned(s, e);
    case Close(_) => CloseOwned(s, e);
  }

  lemma StepActive(s: State, e: Event)
    requires Enabled(s, e)
    ensures Step(s, e).active - Step(s, e).past.failedCloses == s.active - s.past.failedCloses
      + match EffectOf(s, e) { case Keeps => 0 case Mints => 1 case Loses(_) => -1 }
  {
  }

  lemma ApplyAccounted(m: multiset<Client>, f: Effect, minted: nat)
    requires (forall c :: m[c] <= 1) && (forall c :: c in m ==> c < minted)
    requires f.Loses? ==> f.client in m
    ensures var r, n := Apply(m, f, minted), minted + (if f.Mints? then 1 else 0);
      && (forall c :: r[c] <= 1) && (forall c :: c in r ==> c < n)
      && |r| == |m| + match f { case Keeps => 0 case Mints => 1 case Loses(_) => -1 }
  {
    assert minted !in m;
  }

  lemma StepAccounted(s: State, e: Event)
    requires Enabled(s, e) && Accounted(s)
    ensures Accounted(Step(s, e))
  {
    StepOwned(s, e);
    StepActive(s, e);
    ApplyAccounted(Owned(s), EffectOf(s, e), s.minted);
  }

  lemma QueueWithinActive(s: State)
    requires Accounted(s)
    ensures |s.queue| + |s.holding| <= s.active
  {
  }

  lemma AcquireBounded(s: State, e: Event)
    requires Enabled(s, e) && Bounded(s) && |s.queue| <= s.active
    requires e.Acquire? || e.Ping? || e.Drop? || e.Reconnect? || e.EnterSlot? || e.Connect?
    ensures Bounded(Step(s, e))
  {
  }

  lemma OtherBounded(s: State, e: Event)
    requires Enabled(s, e) && Bounded(s) && |s.queue| <= s.active
    requires e.InitConnect? || e.TakeQueued? || e.Release? || e.CloseAll? || e.EnterClose? || e.Close?
    ensures Bounded(Step(s, e))
  {
  }

  lemma StepBounded(s: State, e: Event)
    requires Enabled(s, e) && Bounded(s) && |s.queue| <= s.active
    ensures Bounded(Step(s, e))
  {
    if e.Acquire? || e.Ping? || e.Drop? || e.Reconnect? || e.EnterSlot? || e.Connect? {
      AcquireBounded(s, e);
    } else {
      OtherBounded(s, e);
    }
  }

  lemma StepInv(s: State, e: Event)
    requires Enabled(s, e) && Inv(s)
    ensures Inv(Step(s, e)) && Step(s, e).maxSize == s.maxSize
  {
    QueueWithinActive(s);
    StepAccounted(s, e);
    StepBounded(s, e);
  }

  lemma {:induction false} ExecInv(s: State, run: seq<Event>)
    requires Inv(s) && Feasible(s, run)
    ensures Inv(Exec(s, run)) && Exec(s, run).maxSize == s.maxSize
    decreases |run|
  {
    if run != [] {
      var r := Step(s, run[0]);
      StepInv(s, run[0]);
      ExecInv(r, run[1..]);
      assert Exec(s, run) == Exec(r, run[1..]);
    }
  }

  /** Safety over every run: the count is exact, no client is owned twice, the cap is exceeded
      by at most one connection per failed health check, and the queue never overflows while
      `initialize` fills it. */
  lemma PoolSafety(maxSize: int, minSize: int, s: State)
    requires Reachable(maxSize, minSize, s)
    ensures s.maxSize == maxSize
    ensures s.active == |s.queue| + |s.pinging| + |s.dropping| + |s.holding|
                        + (if s.lock.Closing? then 1 else 0) + s.past.failedCloses
    ensures forall c :: Owned(s)[c] <= 1
    ensures s.active <= (if maxSize > 0 then maxSize else 0) + s.past.failedPings
    ensures s.lock.Init? ==> !Full(s)
  {
    var run :| Feasible(Start(maxSize, minSize), run) && Exec(Start(maxSize, minSize), run) == s;
    StartInv(maxSize, minSize);
    ExecInv(Start(maxSize, minSize), run);
    QueueWithinActive(s);
  }

  /** The queue-full branch of `release` runs only after a failed health check. */
  lemma QueueFullNeedsFailedPing(maxSize: int, minSize: int, s: State, c: Client)
    requires Reachable(maxSize, minSize, s) && c in s.holding && Full(s)
    ensures s.active > maxSize && s.past.failedPings > 0
  {
    PoolSafety(maxSize, minSize, s);
    var run :| Feasible(Start(maxSize, minSize), run) && Exec(Start(maxSize, minSize), run) == s;
    StartInv(maxSize, minSize);
    ExecInv(Start(maxSize, minSize), run);
  }
}
