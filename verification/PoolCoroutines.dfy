/** `ConnectionPool` as an object.  Each method is one segment of a coroutine, from the
    `await` it resumes at to the `await` (or return) it stops at, written as the source
    writes it.  It performs exactly one event of the protocol, so every object is in a state
    some run reaches, and what holds over all runs holds of its fields between any two calls. */
module PoolCoroutines {
  import opened Basics
  import opened ConnectionPools

  /** Handed out, and nowhere else. */
  ghost predicate OwnedBy(s: State, c: Client)
  {
    s.holding[c] == 1 && c !in s.queue && c !in s.pinging && c !in s.dropping && s.lock != Closing(c)
  }

  lemma HeldAlone(maxSize: int, minSize: int, s: State, c: Client)
    requires Reachable(maxSize, minSize, s) && c in s.holding
    ensures OwnedBy(s, c)
  {
    PoolSafety(maxSize, minSize, s);
    assert Owned(s)[c] <= 1;
    assert c in s.queue ==> multiset(s.queue)[c] >= 1;
  }

  lemma Reaches(maxSize: int, minSize: int, s: State, e: Event, t: State)
    requires Reachable(maxSize, minSize, s) && Enabled(s, e) && t == Step(s, e)
    ensures Reachable(maxSize, minSize, t)
  {
    ReachStep(maxSize, minSize, s, e);
  }

  class ConnectionPool {
    const maxSize: int
    ghost const minSize: int
    var queue: seq<Client>
    var active: int
    var lock: Lock
    // Coroutines suspended outside the lock, by the await they are suspended at.
    var pinging: multiset<Client>
    var dropping: multiset<Client>
    var holding: multiset<Client>
    var reconnecting: nat
    var wantSlot: nat
    var waiting: nat
    var wantClose: nat
    var minted: nat
    var past: Past

    function View(): (s: State)
      reads this
    {
      State(maxSize, queue, active, lock, pinging, dropping, holding,
            reconnecting, wantSlot, waiting, wantClose, minted, past)
    }

    ghost predicate Valid()
      reads this
    {
      Reachable(maxSize, minSize, View())
    }

    /** What holds over every run, of the fields of any pool between any two calls: the count is exact, no client
        has two owners, and the cap is exceeded by at most one connection per failed health check. */
    lemma Safety()
      requires Valid()
      ensures active == |queue| + |pinging| + |dropping| + |holding|
                        + (if lock.Closing? then 1 else 0) + past.failedCloses
      ensures forall c :: (multiset(queue) + pinging + dropping + holding)[c] <= 1
      ensures active <= (if maxSize > 0 then maxSize else 0) + past.failedPings
      ensures lock.Init? && maxSize > 0 ==> |queue| < maxSize
      ensures forall c :: c in holding ==> OwnedBy(View(), c)
    {
      PoolSafety(maxSize, minSize, View());
      forall c ensures (multiset(queue) + pinging + dropping + holding)[c] <= 1 { assert Owned(View())[c] <= 1; }
      forall c | c in holding ensures OwnedBy(View(), c) { HeldAlone(maxSize, minSize, View(), c); }
    }

    /** `__init__`, then `initialize` up to its first await. */
    constructor (maxSize: int, minSize: int)
      ensures Valid() && View() == Start(maxSize, minSize)
    {
      this.maxSize, this.minSize := maxSize, minSize;
      queue, active := [], 0;
      var floor := if minSize < maxSize then minSize else maxSize;
      lock := if floor > 0 then Init(floor) else Free;
      pinging, dropping, holding := multiset{}, multiset{}, multiset{};
      reconnecting, wantSlot, waiting, wantClose, minted := 0, 0, 0, 0, 0;
      past := Past(0, 0, 0, 0);
      new;
      ReachStart(maxSize, minSize);
    }

    /** The tail of `_create_client`, after the connect has succeeded. */
    method CreateClient() returns (client: Client)
      modifies this`active, this`minted
      ensures client == old(minted) && minted == old(minted) + 1 && active == old(active) + 1
    {
      client := minted;
      minted := minted + 1;
      active := active + 1;
    }

    method OnConnectFailed()
      modifies this`past
      ensures past == old(past).(failedConnects := old(past).failedConnects + 1)
    {
      past := past.(failedConnects := past.failedConnects + 1);
    }

    method InitConnectDone(ok: bool)
      requires Valid() && Enabled(View(), InitConnect(ok))
      modifies this
      ensures Valid() && View() == Step(old(View()), InitConnect(ok))
    {
      ghost var s := View();
      if !ok {
        OnConnectFailed();
        lock := Free;
        Reaches(maxSize, minSize, s, InitConnect(ok), View());
        return;
      }
      var client := CreateClient();
      queue := queue + [client];
      if lock.left > 1 {
        lock := Init(lock.left - 1);
      } else {
        lock := Free;
      }
      Reaches(maxSize, minSize, s, InitConnect(ok), View());
    }

    method BeginAcquire()
      requires Valid()
      modifies this
      ensures Valid() && View() == Step(old(View()), Acquire)
    {
      ghost var s := View();
      if queue != [] {
        var client := queue[0];
        queue := queue[1..];
        pinging := pinging + multiset{client};
      } else {
        wantSlot := wantSlot + 1;
      }
      Reaches(maxSize, minSize, s, Acquire, View());
    }

    method PingDone(client: Client, ok: bool)
      requires Valid() && client in pinging
      modifies this
      ensures Valid() && View() == Step(old(View()), Ping(client, ok))
    {
      ghost var s := View();
      pinging := pinging - multiset{client};
      if ok {
        holding := holding + multiset{client};
      } else {
        dropping := dropping + multiset{client};
        past := past.(failedPings := past.failedPings + 1);
      }
      assert View() == Step(s, Ping(client, ok));
      Reaches(maxSize, minSize, s, Ping(client, ok), View());
    }

    method DropDead(client: Client)
      requires Valid() && Enabled(View(), Drop(client))
      modifies this
      ensures Valid() && View() == Step(old(View()), Drop(client))
    {
      ghost var s := View();
      active := active - 1;
      dropping := dropping - multiset{client};
      reconnecting := reconnecting + 1;
      Reaches(maxSize, minSize, s, Drop(client), View());
    }

    method ReconnectDone(ok: bool)
      requires Valid() && Enabled(View(), Reconnect(ok))
      modifies this
      ensures Valid() && View() == Step(old(View()), Reconnect(ok))
    {
      ghost var s := View();
      reconnecting := reconnecting - 1;
      if ok {
        var client := CreateClient();
        holding := holding + multiset{client};
      } else {
        OnConnectFailed();
      }
      Reaches(maxSize, minSize, s, Reconnect(ok), View());
    }

    method TakeSlot()
      requires Valid() && Enabled(View(), EnterSlot)
      modifies this
      ensures Valid() && View() == Step(old(View()), EnterSlot)
    {
      ghost var s := View();
      wantSlot := wantSlot - 1;
      if active < maxSize {
        lock := Connecting;
      } else {
        waiting := waiting + 1;
      }
      Reaches(maxSize, minSize, s, EnterSlot, View());
    }

    method ConnectDone(ok: bool)
      requires Valid() && Enabled(View(), Connect(ok))
      modifies this
      ensures Valid() && View() == Step(old(View()), Connect(ok))
    {
      ghost var s := View();
      if ok {
        var client := CreateClient();
        holding := holding + multiset{client};
      } else {
        OnConnectFailed();
      }
      lock := Free;
      assert View() == Step(s, Connect(ok));
      Reaches(maxSize, minSize, s, Connect(ok), View());
    }

    method GetQueued()
      requires Valid() && Enabled(View(), TakeQueued)
      modifies this
      ensures Valid() && View() == Step(old(View()), TakeQueued)
    {
      ghost var s := View();
      waiting := waiting - 1;
      holding := holding + multiset{queue[0]};
      queue := queue[1..];
      Reaches(maxSize, minSize, s, TakeQueued, View());
    }

    method ReleaseClient(client: Client)
      requires Valid() && Enabled(View(), Release(client))
      modifies this
      ensures Valid() && View() == Step(old(View()), Release(client))
    {
      ghost var s := View();
      holding := holding - multiset{client};
      if maxSize > 0 && |queue| >= maxSize {
        active := active - 1;
      } else {
        queue := queue + [client];
      }
      Reaches(maxSize, minSize, s, Release(client), View());
    }

    method BeginCloseAll()
      requires Valid()
      modifies this
      ensures Valid() && View() == Step(old(View()), CloseAll)
    {
      ghost var s := View();
      wantClose := wantClose + 1;
      past := past.(closeCalls := past.closeCalls + 1);
      Reaches(maxSize, minSize, s, CloseAll, View());
    }

    /** The loop test of `close_all`, holding the lock. */
    method PopNextToClose()
      modifies this`queue, this`lock
      ensures View() == CloseLoop(old(View()))
    {
      if queue == [] {
        lock := Free;
      } else {
        lock := Closing(queue[0]);
        queue := queue[1..];
      }
    }

    method CloseAllLocked()
      requires Valid() && Enabled(View(), EnterClose)
      modifies this
      ensures Valid() && View() == Step(old(View()), EnterClose)
    {
      ghost var s := View();
      wantClose := wantClose - 1;
      PopNextToClose();
      Reaches(maxSize, minSize, s, EnterClose, View());
    }

    method CloseDone(ok: bool)
      requires Valid() && Enabled(View(), Close(ok))
      modifies this
      ensures Valid() && View() == Step(old(View()), Close(ok))
    {
      ghost var s := View();
      if ok {
        active := active - 1;
        assert View() == s.(active := s.active - 1);
        PopNextToClose();
      } else {
        past := past.(failedCloses := past.failedCloses + 1);
        lock := Free;
      }
      assert View() == Step(s, Close(ok));
      Reaches(maxSize, minSize, s, Close(ok), View());
    }

    /** A close that succeeds: the next queued client is taken, or the lock is given back. */
    method CloseNext()
      requires Valid() && lock.Closing?
      modifies this
      ensures Valid() && active == old(active) - 1
      ensures holding == old(holding) && pinging == old(pinging) && past == old(past)
      ensures if old(queue) == [] then lock.Free? && queue == []
              else lock == Closing(old(queue)[0]) && queue == old(queue)[1..]
    {
      CloseDone(true);
    }

    /** `close_all`, up to its first close. */
    method EnterCloseAll()
      requires Valid() && lock.Free?
      modifies this
      ensures Valid() && active == old(active)
      ensures holding == old(holding) && pinging == old(pinging) && past.failedCloses == old(past.failedCloses)
      ensures if old(queue) == [] then lock.Free? && queue == []
              else lock == Closing(old(queue)[0]) && queue == old(queue)[1..]
    {
      BeginCloseAll();
      CloseAllLocked();
    }

    /** A whole `close_all` that no other coroutine interrupts: the queued clients are closed in queue order, each
        once, up to the first close that fails, and each one closed is counted off. */
    method CloseAllAlone(failsAt: Option<nat>) returns (closed: seq<Client>)
      requires Valid() && lock.Free?
      modifies this
      ensures Valid() && lock.Free?
      ensures var n := |old(queue)|;
        if failsAt.Some? && failsAt.value < n then
          && closed == old(queue)[..failsAt.value] && queue == old(queue)[failsAt.value + 1..]
          && past.failedCloses == old(past.failedCloses) + 1
        else closed == old(queue) && queue == [] && past.failedCloses == old(past.failedCloses)
      ensures active == old(active) - |closed| && holding == old(holding) && pinging == old(pinging)
    {
      EnterCloseAll();
      closed := [];
      ghost var all := old(queue);
      while lock.Closing?
        invariant Valid() && (lock.Free? || lock.Closing?) && |closed| <= |all|
        invariant closed == all[..|closed|] && active == old(active) - |closed|
        invariant holding == old(holding) && pinging == old(pinging) && past.failedCloses == old(past.failedCloses)
        invariant if lock.Closing? then |closed| < |all| && lock.client == all[|closed|] && queue == all[|closed| + 1..]
                  else |closed| == |all| && queue == []
        invariant failsAt.Some? && failsAt.value < |all| ==> |closed| <= failsAt.value
        decreases |all| - |closed|
      {
        if failsAt == Some(|closed|) {
          CloseDone(false);
          return;
        }
        closed := closed + [lock.client];
        CloseNext();
      }
    }

    /** A whole `acquire` that no other coroutine interrupts, whatever its health check and connect come to: a client
        it returns is the caller's alone, and the count grows only up to the cap, a failed health check included. */
    method AcquireAlone(pingOk: bool, connectOk: bool) returns (client: Option<Client>)
      requires Valid() && lock.Free?
      modifies this
      ensures Valid() && lock.Free?
      ensures active <= old(active) || active <= maxSize
      ensures client.Some? ==> OwnedBy(View(), client.value)
      ensures client.None? ==> !connectOk || waiting == old(waiting) + 1
    {
      if queue != [] {
        client := CheckOut(pingOk, connectOk);
      } else {
        client := OpenOrWait(connectOk);
      }
    }

    /** `acquire` on a non-empty queue. */
    method CheckOut(pingOk: bool, connectOk: bool) returns (client: Option<Client>)
      requires Valid() && lock.Free? && queue != []
      modifies this
      ensures Valid() && lock.Free? && active <= old(active)
      ensures client.Some? ==> OwnedBy(View(), client.value)
      ensures client.None? ==> !connectOk
    {
      var taken := queue[0];
      BeginAcquire();
      PingDone(taken, pingOk);
      if pingOk {
        HeldAlone(maxSize, minSize, View(), taken);
        return Some(taken);
      }
      client := Reopen(taken, connectOk);
    }

    /** The rest of `acquire` after its health check has failed. */
    method Reopen(dead: Client, connectOk: bool) returns (client: Option<Client>)
      requires Valid() && lock.Free? && dead in dropping
      modifies this
      ensures Valid() && lock.Free? && active <= old(active)
      ensures client.Some? ==> OwnedBy(View(), client.value)
      ensures client.None? ==> !connectOk
    {
      DropDead(dead);
      ReconnectDone(connectOk);
      if !connectOk {
        return None;
      }
      HeldAlone(maxSize, minSize, View(), minted - 1);
      return Some(minted - 1);
    }

    /** `acquire` on an empty queue. */
    method OpenOrWait(connectOk: bool) returns (client: Option<Client>)
      requires Valid() && lock.Free? && queue == []
      modifies this
      ensures Valid() && lock.Free?
      ensures active <= old(active) || active <= maxSize
      ensures client.Some? ==> OwnedBy(View(), client.value)
      ensures client.None? ==> !connectOk || waiting == old(waiting) + 1
    {
      BeginAcquire();
      TakeSlot();
      if lock.Free? {
        return None;
      }
      ConnectDone(connectOk);
      if connectOk {
        HeldAlone(maxSize, minSize, View(), minted - 1);
        return Some(minted - 1);
      }
      return None;
    }
  }
}
