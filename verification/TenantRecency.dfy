/** `TenantPool.acquire`, one call after another: the cache holds the most recently used tenants. */
module TenantRecency {
  import opened Sequences
  import opened TenantClients

  // ------------------------------------------------------- recency, from the history alone

  function MoveOrAppend(order: seq<Tenant>, t: Tenant): seq<Tenant>
  {
    if t in order then ToEnd(order, FirstIndex(order, t)) else order + [t]
  }

  /** The tenants of a history of calls, least recently used first. */
  function ByRecency(history: seq<Tenant>): (r: seq<Tenant>)
  {
    if history == [] then [] else MoveOrAppend(ByRecency(history[..|history| - 1]), history[|history| - 1])
  }

  function LastUse(history: seq<Tenant>, t: Tenant): (i: nat)
    requires t in history
    ensures i < |history| && history[i] == t && t !in history[i + 1..]
  {
    var n := |history| - 1;
    if history[n] == t then n else
      assert history == history[..n] + [history[n]];
      LastUse(history[..n], t)
  }

  ghost predicate InUseOrder(history: seq<Tenant>, order: seq<Tenant>)
  {
    && (forall t :: t in order <==> t in history)
    && forall i, j :: 0 <= i < j < |order| ==> LastUse(history, order[i]) < LastUse(history, order[j])
  }

  lemma LastUseSnoc(history: seq<Tenant>, last: Tenant, t: Tenant)
    requires t in history
    ensures LastUse(history + [last], t) == if t == last then |history| else LastUse(history, t)
  {
    assert (history + [last])[..|history|] == history;
  }

  lemma MoveMembers(order: seq<Tenant>, t: Tenant, x: Tenant)
    requires Distinct(order)
    ensures Distinct(MoveOrAppend(order, t))
    ensures x in MoveOrAppend(order, t) <==> x in order || x == t
  {
    if t in order {
      DistinctToEnd(order, FirstIndex(order, t));
      SplitAt(order, FirstIndex(order, t));
      assert x in multiset(order) <==> x in order;
      assert x in multiset(MoveOrAppend(order, t)) <==> x in MoveOrAppend(order, t);
    }
  }

  /** The order is the order of last uses, each tenant once. */
  lemma {:induction false} ByRecencyIs(history: seq<Tenant>)
    ensures Distinct(ByRecency(history)) && InUseOrder(history, ByRecency(history))
  {
    if history != [] {
      var init, t := history[..|history| - 1], history[|history| - 1];
      var before, after := ByRecency(init), ByRecency(history);
      assert history == init + [t];
      ByRecencyIs(init);
      forall x ensures Distinct(after) && (x in after <==> x in history) { MoveMembers(before, t, x); }
      forall i, j | 0 <= i < j < |after| ensures LastUse(history, after[i]) < LastUse(history, after[j]) {
        MovedBefore(before, t, i, j);
        LastUseSnoc(init, t, after[i]);
        if j < |after| - 1 { LastUseSnoc(init, t, after[j]); }
      }
    }
  }

  /** Apart from `t`, now last, the order is as before. */
  lemma MovedBefore(before: seq<Tenant>, t: Tenant, i: nat, j: nat)
    requires Distinct(before) && i < j < |MoveOrAppend(before, t)|
    ensures var after := MoveOrAppend(before, t);
      && after[|after| - 1] == t && after[i] != t && after[i] in before
      && (j < |after| - 1 ==>
            after[j] != t && exists k, l :: 0 <= k < l < |before| && before[k] == after[i] && before[l] == after[j])
  {
    var after := MoveOrAppend(before, t);
    if t in before {
      var m := FirstIndex(before, t);
      var k, l := if i < m then i else i + 1, if j < m then j else j + 1;
      assert after[i] == before[k];
      assert j < |after| - 1 ==> after[j] == before[l];
    } else {
      assert after[i] == before[i];
      assert j < |after| - 1 ==> after[j] == before[j];
    }
  }

  // ------------------------------------------------------------ the last `n` of them

  /** How many of `length` elements lie before the last `n`. */
  function Skip(length: nat, n: nat): nat { if length <= n then 0 else length - n }

  function Tail<T>(s: seq<T>, n: nat): seq<T> { s[Skip(|s|, n)..] }

  lemma MoveInside<T>(s: seq<T>, off: nat, k: nat)
    requires off + k < |s|
    ensures ToEnd(s, off + k)[off..] == ToEnd(s[off..], k)
  {
    var x, y := ToEnd(s, off + k)[off..], ToEnd(s[off..], k);
    assert |x| == |y|;
    forall j | 0 <= j < |x| ensures x[j] == y[j] {}
  }

  lemma MoveOutside<T>(s: seq<T>, off: nat, i: nat)
    requires i < off < |s|
    ensures ToEnd(s, i)[off..] == s[off..][1..] + [s[i]]
  {
    var x, y := ToEnd(s, i)[off..], s[off..][1..] + [s[i]];
    assert |x| == |y|;
    forall j | 0 <= j < |x| ensures x[j] == y[j] {}
  }

  lemma AppendTail<T>(s: seq<T>, n: nat, x: T)
    requires n >= 1
    ensures Tail(s + [x], n) == if |s| < n then s + [x] else Tail(s, n)[1..] + [x]
  {
  }

  lemma MoveKept<T>(s: seq<T>, n: nat, k: nat)
    requires Skip(|s|, n) + k < |s|
    ensures Tail(ToEnd(s, Skip(|s|, n) + k), n) == ToEnd(Tail(s, n), k) && s[Skip(|s|, n) + k] == Tail(s, n)[k]
  {
    MoveInside(s, Skip(|s|, n), k);
  }

  lemma TailMoveKept(order: seq<Tenant>, n: nat, t: Tenant)
    requires Distinct(order) && n >= 1 && t in Tail(order, n)
    ensures Tail(MoveOrAppend(order, t), n) == ToEnd(Tail(order, n), FirstIndex(Tail(order, n), t))
  {
    KeptIndex(order, n, t);
    MoveKept(order, n, FirstIndex(Tail(order, n), t));
  }

  lemma KeptIndex(order: seq<Tenant>, n: nat, t: Tenant)
    requires Distinct(order) && t in Tail(order, n)
    ensures t in order && FirstIndex(order, t) == Skip(|order|, n) + FirstIndex(Tail(order, n), t)
  {
    DistinctIndex(order, Skip(|order|, n) + FirstIndex(Tail(order, n), t));
  }

  lemma TailMoveNew(order: seq<Tenant>, n: nat, t: Tenant)
    requires Distinct(order) && n >= 1 && t !in Tail(order, n)
    ensures var kept := Tail(order, n);
      Tail(MoveOrAppend(order, t), n) == if |kept| < n then kept + [t] else kept[1..] + [t]
  {
    if t in order {
      var i := FirstIndex(order, t);
      InsideTail(order, n, i);
      MoveOutside(order, Skip(|order|, n), i);
    } else {
      AppendTail(order, n, t);
    }
  }

  lemma InsideTail<T>(s: seq<T>, n: nat, i: nat)
    requires i < |s|
    ensures i >= Skip(|s|, n) ==> s[i] in Tail(s, n)
  {
    if i >= Skip(|s|, n) { assert Tail(s, n)[i - Skip(|s|, n)] == s[i]; }
  }

  // ----------------------------------------------------------------- sequential calls

  /** A call: its tenant, and what its factory and its close come to, should it await them. */
  datatype Call = Call(tenant: Tenant, factoryOk: bool, closeOk: bool)

  /** One whole call of `acquire` with no other step between its own. */
  ghost function Acquired(s: Pool, c: Call): (r: Pool)
    requires Inv(s)
    ensures Inv(r)
  {
    if c.tenant in s.tenants then
      StepInv(s, Use(c.tenant));
      Step(s, Use(c.tenant))
    else
      var waiting := Step(s, Miss(c.tenant));
      StepInv(s, Miss(c.tenant));
      if !c.factoryOk then
        StepInv(waiting, MakeFailed(c.tenant));
        Step(waiting, MakeFailed(c.tenant))
      else
        StepInv(waiting, Made(c.tenant));
        var made := Step(waiting, Made(c.tenant));
        if |s.tenants| == s.capacity && s.closes then
          InsertFull(waiting, c.tenant);
          var closed := if c.closeOk then Closed(s.clients[0]) else CloseFailed(s.clients[0]);
          StepInv(made, closed);
          Step(made, closed)
        else made
  }

  lemma EmptyInv(capacity: nat, closes: bool)
    requires capacity >= 1
    ensures Inv(Empty(capacity, closes))
  {
  }

  /** What calls, one after another, make of a new pool. */
  ghost function PoolAfter(capacity: nat, closes: bool, calls: seq<Call>): (r: Pool)
    requires capacity >= 1
    ensures Inv(r)
  {
    if calls == [] then
      EmptyInv(capacity, closes);
      Empty(capacity, closes)
    else Acquired(PoolAfter(capacity, closes, calls[..|calls| - 1]), calls[|calls| - 1])
  }

  /** The tenants of the calls that left theirs in the cache: the factory succeeded, or was not asked because the
      tenant was among the `capacity` most recent ones. */
  function Served(capacity: nat, calls: seq<Call>): (r: seq<Tenant>)
  {
    if calls == [] then []
    else
      var before, c := Served(capacity, calls[..|calls| - 1]), calls[|calls| - 1];
      if c.factoryOk || c.tenant in Tail(ByRecency(before), capacity) then before + [c.tenant] else before
  }

  ghost predicate Idle(s: Pool) { s.pending == multiset{} && s.closing == multiset{} && s.lost == [] }

  function Inserted(s: Pool, t: Tenant): Pool
  {
    s.(tenants := s.tenants + [t], clients := s.clients + [s.made], made := s.made + 1)
  }

  function Rotated(s: Pool, t: Tenant): Pool
    requires s.tenants != [] && s.clients != []
  {
    s.(tenants := s.tenants[1..] + [t], clients := s.clients[1..] + [s.made], made := s.made + 1,
       evictions := s.evictions + 1,
       evicted := s.evicted + [s.clients[0]],
       closed := if s.closes then s.closed + multiset{s.clients[0]} else s.closed)
  }

  /** One turn of the eviction loop, its close awaited to the end. */
  function Popped(s: Pool): Pool
    requires |s.tenants| == |s.clients| > 0
  {
    PopOldest(s).(closed := if s.closes then s.closed + multiset{s.clients[0]} else s.closed)
  }

  lemma PoppedIsRotated(s: Pool, t: Tenant)
    requires |s.tenants| == |s.clients| > 0
    ensures Popped(Inserted(s, t)) == Rotated(s, t)
  {
    assert (s.tenants + [t])[1..] == s.tenants[1..] + [t];
    assert (s.clients + [s.made])[1..] == s.clients[1..] + [s.made];
  }

  /** After the whole call, by case. */
  function After(s: Pool, c: Call): Pool
    requires |s.tenants| == |s.clients| <= s.capacity && s.capacity >= 1
  {
    if c.tenant in s.tenants then
      var i := FirstIndex(s.tenants, c.tenant);
      s.(tenants := ToEnd(s.tenants, i), clients := ToEnd(s.clients, i))
    else if !c.factoryOk then s
    else if |s.tenants| < s.capacity then Inserted(s, c.tenant)
    else Rotated(s, c.tenant)
  }

  lemma AcquiredIsAfter(s: Pool, c: Call)
    requires Inv(s)
    ensures Acquired(s, c) == After(s, c)
  {
    if c.tenant !in s.tenants {
      if !c.factoryOk || |s.tenants| < s.capacity { AcquiredRoom(s, c); } else { AcquiredFull(s, c); }
    }
  }

  lemma AcquiredRoom(s: Pool, c: Call)
    requires Inv(s) && c.tenant !in s.tenants && (!c.factoryOk || |s.tenants| < s.capacity)
    ensures Acquired(s, c) == After(s, c)
  {
    assert s.pending + multiset{c.tenant} - multiset{c.tenant} == s.pending;
  }

  lemma AcquiredFull(s: Pool, c: Call)
    requires Inv(s) && c.tenant !in s.tenants && c.factoryOk && |s.tenants| == s.capacity
    ensures Acquired(s, c) == Rotated(s, c.tenant)
  {
    var waiting := Step(s, Miss(c.tenant));
    StepInv(s, Miss(c.tenant));
    InsertFull(waiting, c.tenant);
    assert s.pending + multiset{c.tenant} - multiset{c.tenant} == s.pending;
    if s.closes { ClosedOldest(s, Step(waiting, Made(c.tenant)), c); }
  }

  lemma ClosedOldest(s: Pool, made: Pool, c: Call)
    requires s.clients != [] && s.closes && |s.tenants| == |s.clients| == s.capacity
    requires made == Rotated(s, c.tenant).(closing := s.closing + multiset{s.clients[0]}, closed := s.closed)
    ensures var e := if c.closeOk then Closed(s.clients[0]) else CloseFailed(s.clients[0]);
      Enabled(made, e) && Step(made, e) == Rotated(s, c.tenant)
  {
    assert s.closing + multiset{s.clients[0]} - multiset{s.clients[0]} == s.closing;
  }

  /** One more call: the cached tenants stay the most recent ones. */
  lemma AfterTenants(s: Pool, served: seq<Tenant>, c: Call)
    requires |s.tenants| == |s.clients| <= s.capacity && s.capacity >= 1
    requires Idle(s) && Distinct(ByRecency(served)) && s.tenants == Tail(ByRecency(served), s.capacity)
    ensures var r := After(s, c);
      && Idle(r) && r.capacity == s.capacity && r.closes == s.closes
      && r.tenants ==
           if c.factoryOk || c.tenant in s.tenants then Tail(MoveOrAppend(ByRecency(served), c.tenant), s.capacity)
           else s.tenants
  {
    if c.tenant in s.tenants {
      TailMoveKept(ByRecency(served), s.capacity, c.tenant);
    } else if c.factoryOk {
      TailMoveNew(ByRecency(served), s.capacity, c.tenant);
    }
  }

  lemma ServedSnoc(served: seq<Tenant>, t: Tenant)
    ensures ByRecency(served + [t]) == MoveOrAppend(ByRecency(served), t)
  {
    assert (served + [t])[..|served|] == served;
  }

  /** What calls, one after another, make of a new pool, call by call. */
  function PoolOf(capacity: nat, closes: bool, calls: seq<Call>): (r: Pool)
    requires capacity >= 1
    ensures |r.tenants| == |r.clients| <= r.capacity == capacity
  {
    if calls == [] then Empty(capacity, closes)
    else After(PoolOf(capacity, closes, calls[..|calls| - 1]), calls[|calls| - 1])
  }

  /** Taking each call step by step through the interleaving machine comes to the same. */
  lemma {:induction false} CallsAreSteps(capacity: nat, closes: bool, calls: seq<Call>)
    requires capacity >= 1
    ensures PoolAfter(capacity, closes, calls) == PoolOf(capacity, closes, calls)
  {
    if calls != [] {
      var init := calls[..|calls| - 1];
      CallsAreSteps(capacity, closes, init);
      AcquiredIsAfter(PoolAfter(capacity, closes, init), calls[|calls| - 1]);
    }
  }

  ghost predicate HoldsRecent(s: Pool, served: seq<Tenant>)
  {
    s.tenants == Tail(ByRecency(served), s.capacity) && Idle(s)
  }

  lemma RecentStep(s: Pool, served: seq<Tenant>, c: Call)
    requires |s.tenants| == |s.clients| <= s.capacity && s.capacity >= 1 && HoldsRecent(s, served)
    ensures HoldsRecent(After(s, c), if c.factoryOk || c.tenant in s.tenants then served + [c.tenant] else served)
    ensures After(s, c).closes == s.closes
  {
    ByRecencyIs(served);
    ServedSnoc(served, c.tenant);
    AfterTenants(s, served, c);
  }

  lemma {:induction false} PoolOfRecent(capacity: nat, closes: bool, calls: seq<Call>)
    requires capacity >= 1
    ensures HoldsRecent(PoolOf(capacity, closes, calls), Served(capacity, calls))
    ensures PoolOf(capacity, closes, calls).closes == closes
  {
    if calls != [] {
      var init, c := calls[..|calls| - 1], calls[|calls| - 1];
      PoolOfRecent(capacity, closes, init);
      RecentStep(PoolOf(capacity, closes, init), Served(capacity, init), c);
    }
  }

  lemma IdleCounts(s: Pool)
    requires Inv(s) && Idle(s)
    ensures s.made == |s.tenants| + s.evictions && (s.closes ==> s.closed == multiset(s.evicted))
  {
  }

  /** After any sequence of calls, whatever their factories and closes come to, the pool holds exactly the `capacity`
      most recently served tenants, in order of last use; the factory made one client per cached client and
      eviction, and every evicted client was handed to the close once. */
  lemma MostRecentTenants(capacity: nat, closes: bool, calls: seq<Call>)
    requires capacity >= 1
    ensures var s := PoolOf(capacity, closes, calls);
      && s.tenants == Tail(ByRecency(Served(capacity, calls)), capacity)
      && s.made == |s.tenants| + s.evictions && (closes ==> s.closed == multiset(s.evicted))
      && s == PoolAfter(capacity, closes, calls)
  {
    PoolOfRecent(capacity, closes, calls);
    CallsAreSteps(capacity, closes, calls);
    IdleCounts(PoolOf(capacity, closes, calls));
  }

  lemma CallsSnoc(capacity: nat, closes: bool, calls: seq<Call>, c: Call)
    requires capacity >= 1
    ensures PoolOf(capacity, closes, calls + [c]) == After(PoolOf(capacity, closes, calls), c)
  {
    assert (calls + [c])[..|calls|] == calls;
  }

  // ------------------------------------------------------------------------ the class

  datatype AcquireResult = Got(client: Client) | EmptyTenant | FactoryRaised | CloseRaised

  class TenantPool {
    const capacity: nat
    const closes: bool
    var tenants: seq<Tenant>
    var clients: seq<Client>
    var evictions: nat
    var made: nat
    var closed: seq<Client>
    ghost var evicted: seq<Client>
    ghost var calls: seq<Call>

    /** Between calls nothing waits. */
    ghost function View(): Pool
      reads this
    {
      Pool(capacity, closes, tenants, clients, evictions, made, multiset{}, multiset{}, evicted, multiset(closed), [])
    }

    /** The pool is what its calls have made of an empty one. */
    ghost predicate Valid()
      reads this
    {
      capacity >= 1 && View() == PoolOf(capacity, closes, calls)
    }

    /** The tenants cached between any two calls, from the calls alone. */
    lemma Recent()
      requires Valid()
      ensures tenants == Tail(ByRecency(Served(capacity, calls)), capacity)
      ensures made == |tenants| + evictions && |clients| == |tenants| <= capacity
      ensures closes ==> multiset(closed) == multiset(evicted)
    {
      MostRecentTenants(capacity, closes, calls);
    }

    constructor (capacity: nat, closes: bool)
      requires capacity >= 1
      ensures Valid() && calls == [] && View() == Empty(capacity, closes)
    {
      this.capacity := capacity;
      this.closes := closes;
      tenants, clients, evictions, made, closed, evicted, calls := [], [], 0, 0, [], [], [];
      new;
    }

    /** `acquire`; the factory's next client is number `made`. */
    method Acquire(tenant: Tenant, factoryOk: bool, closeOk: bool) returns (res: AcquireResult)
      requires Valid()
      modifies this
      ensures Valid() && (res == EmptyTenant <==> tenant == "")
      ensures calls == if tenant == "" then old(calls) else old(calls) + [Call(tenant, factoryOk, closeOk)]
      ensures View() == if tenant == "" then old(View()) else After(old(View()), Call(tenant, factoryOk, closeOk))
      ensures res.Got? ==>
                0 < |tenants| == |clients| && tenants[|tenants| - 1] == tenant && res.client == clients[|clients| - 1]
      ensures res == FactoryRaised <==> tenant != "" && tenant !in old(tenants) && !factoryOk
    {
      if tenant == "" {
        return EmptyTenant;
      }
      ghost var c := Call(tenant, factoryOk, closeOk);
      CallsSnoc(capacity, closes, calls, c);
      res := AcquireFor(tenant, factoryOk, closeOk);
      calls := calls + [c];
    }

    /** The body of `acquire` for a non-empty tenant. */
    method AcquireFor(tenant: Tenant, factoryOk: bool, closeOk: bool) returns (res: AcquireResult)
      requires 1 <= capacity && |clients| == |tenants| <= capacity
      modifies this`tenants, this`clients, this`made, this`evictions, this`evicted, this`closed
      ensures View() == After(old(View()), Call(tenant, factoryOk, closeOk)) && res != EmptyTenant
      ensures res.Got? ==>
                0 < |tenants| == |clients| && tenants[|tenants| - 1] == tenant && res.client == clients[|clients| - 1]
      ensures res == FactoryRaised <==> tenant !in old(tenants) && !factoryOk
    {
      var i := FirstIndex(tenants, tenant);
      if i < |tenants| {
        tenants, clients := ToEnd(tenants, i), ToEnd(clients, i);
        return Got(clients[|clients| - 1]);
      }
      if !factoryOk {
        return FactoryRaised;
      }
      var raised := StoreNew(tenant, closeOk);
      return if raised then CloseRaised else Got(clients[|clients| - 1]);
    }

    /** The rest of `acquire` after a miss: store the new client and evict down to the capacity. */
    method StoreNew(tenant: Tenant, closeOk: bool) returns (raised: bool)
      requires 1 <= capacity && |clients| == |tenants| <= capacity
      modifies this`tenants, this`clients, this`made, this`evictions, this`evicted, this`closed
      ensures View() == if |old(tenants)| < capacity then Inserted(old(View()), tenant)
                else Rotated(old(View()), tenant)
    {
      ghost var s := View();
      tenants, clients := tenants + [tenant], clients + [made];
      made := made + 1;
      if s.tenants != [] { PoppedIsRotated(s, tenant); }
      while |tenants| > capacity
        invariant |clients| == |tenants|
        invariant View() == Inserted(s, tenant) ||
                  (|tenants| == capacity == |s.tenants| && View() == Popped(Inserted(s, tenant)))
      {
        EvictOldest();
        if closes && !closeOk {
          return true;
        }
      }
      return false;
    }

    method EvictOldest()
      requires |tenants| == |clients| > 0
      modifies this`tenants, this`clients, this`evictions, this`evicted, this`closed
      ensures View() == Popped(old(View()))
    {
      var oldest := clients[0];
      tenants, clients := tenants[1..], clients[1..];
      evictions := evictions + 1;
      evicted := evicted + [oldest];
      if closes {
        closed := closed + [oldest];
      }
    }
  }

  /** `TenantPool(...)`, which refuses a capacity below one. */
  method NewTenantPool(capacity: int, closes: bool) returns (pool: TenantPool?)
    ensures pool == null <==> capacity < 1
    ensures pool != null ==> pool.Valid() && pool.calls == [] && pool.View() == Empty(capacity, closes)
  {
    if capacity < 1 {
      return null;
    }
    pool := new TenantPool(capacity, closes);
  }
}
