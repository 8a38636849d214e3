/** `TenantPool`: the bounded, least-recently-used cache of per-tenant clients.  Calls of `acquire`
    interleave at their two awaits, on the factory and on closing an evicted client. */
module TenantClients {
  import opened Sequences

  type Tenant = string
  /** Clients are numbered in the order the factory returns them. */
  type Client = nat

  /** The ordered dictionary is `tenants` beside `clients`, oldest first.  `pending` holds the tenants of the
      calls waiting for the factory, `closing` the clients of the calls waiting for a close, `lost` the
      clients another client took the place of. */
  datatype Pool = Pool(
    capacity: nat, closes: bool, tenants: seq<Tenant>, clients: seq<Client>, evictions: nat,
    made: nat, pending: multiset<Tenant>, closing: multiset<Client>,
    evicted: seq<Client>, closed: multiset<Client>, lost: seq<Client>)

  function Empty(capacity: nat, closes: bool): Pool
  {
    Pool(capacity, closes, [], [], 0, 0, multiset{}, multiset{}, [], multiset{}, [])
  }

  datatype Event = Use(tenant: Tenant) | Miss(tenant: Tenant) | Made(tenant: Tenant) | MakeFailed(tenant: Tenant)
                 | Closed(client: Client) | CloseFailed(client: Client)

  function Without<T>(s: seq<T>, i: nat): seq<T>
    requires i < |s|
  {
    s[..i] + s[i + 1..]
  }

  /** `move_to_end` */
  function ToEnd<T>(s: seq<T>, i: nat): seq<T>
    requires i < |s|
  {
    Without(s, i) + [s[i]]
  }

  predicate Enabled(s: Pool, e: Event)
  {
    |s.tenants| == |s.clients| &&
    match e
    case Use(t) => t in s.tenants
    case Miss(t) => t !in s.tenants
    case Made(t) => t in s.pending
    case MakeFailed(t) => t in s.pending
    case Closed(c) => c in s.closing
    case CloseFailed(c) => c in s.closing
  }

  function PopOldest(s: Pool): Pool
    requires |s.tenants| == |s.clients| > 0
  {
    s.(tenants := s.tenants[1..], clients := s.clients[1..], evictions := s.evictions + 1,
       evicted := s.evicted + [s.clients[0]])
  }

  /** The eviction loop, up to its next await. */
  function Evict(s: Pool): Pool
    requires |s.tenants| == |s.clients|
    decreases |s.tenants|
  {
    if |s.tenants| <= s.capacity then s
    else if s.closes then PopOldest(s).(closing := s.closing + multiset{s.clients[0]})
    else Evict(PopOldest(s))
  }

  /** Assignment to the ordered dictionary: a key that is there keeps its place. */
  function Store(s: Pool, t: Tenant, c: Client): Pool
    requires |s.tenants| == |s.clients|
  {
    if t in s.tenants then
      var i := FirstIndex(s.tenants, t);
      s.(clients := s.clients[i := c], lost := s.lost + [s.clients[i]])
    else s.(tenants := s.tenants + [t], clients := s.clients + [c])
  }

  function Step(s: Pool, e: Event): Pool
    requires Enabled(s, e)
  {
    match e
    case Use(t) =>
      var i := FirstIndex(s.tenants, t);
      s.(tenants := ToEnd(s.tenants, i), clients := ToEnd(s.clients, i))
    case Miss(t) => s.(pending := s.pending + multiset{t})
    case Made(t) => Evict(Store(s.(pending := s.pending - multiset{t}, made := s.made + 1), t, s.made))
    case MakeFailed(t) => s.(pending := s.pending - multiset{t})
    case Closed(c) => Evict(s.(closing := s.closing - multiset{c}, closed := s.closed + multiset{c}))
    case CloseFailed(c) => s.(closing := s.closing - multiset{c}, closed := s.closed + multiset{c})
  }

  predicate Feasible(s: Pool, run: seq<Event>)
    decreases |run|
  {
    run != [] ==> Enabled(s, run[0]) && Feasible(Step(s, run[0]), run[1..])
  }

  function Exec(s: Pool, run: seq<Event>): Pool
    requires Feasible(s, run)
    decreases |run|
  {
    if run == [] then s else Exec(Step(s, run[0]), run[1..])
  }

  // ----------------------------------------------------------- what every step keeps

  /** Every client the factory returned, wherever it is now. */
  ghost function Clients(s: Pool): multiset<Client>
  {
    multiset(s.clients) + multiset(s.evicted) + multiset(s.lost)
  }

  /** Each of the first `n` clients is somewhere once, and no other is anywhere. */
  ghost predicate Once(m: multiset<Client>, n: nat)
  {
    forall c: nat :: m[c] == if c < n then 1 else 0
  }

  /** Holds at every await.  Each eviction is one close begun, ended or under way. */
  ghost predicate Inv(s: Pool)
  {
    && 1 <= s.capacity && |s.clients| == |s.tenants| <= s.capacity
    && Distinct(s.tenants)
    && Once(Clients(s), s.made)
    && s.made == |s.clients| + |s.evicted| + |s.lost|
    && s.evictions == |s.evicted|
    && (s.closes ==> multiset(s.evicted) == s.closing + s.closed)
  }

  lemma SplitAt<T>(s: seq<T>, i: nat)
    requires i < |s|
    ensures multiset(Without(s, i)) == multiset(s) - multiset{s[i]} && multiset(ToEnd(s, i)) == multiset(s)
  {
    assert s == s[..i] + [s[i]] + s[i + 1..];
  }

  lemma UpdateAt<T>(s: seq<T>, i: nat, x: T)
    requires i < |s|
    ensures multiset(s[i := x]) == multiset(s) - multiset{s[i]} + multiset{x}
  {
    assert s == s[..i] + [s[i]] + s[i + 1..] && s[i := x] == s[..i] + [x] + s[i + 1..];
  }

  lemma DistinctToEnd<T>(s: seq<T>, i: nat)
    requires i < |s| && Distinct(s)
    ensures Distinct(ToEnd(s, i)) && Distinct(Without(s, i)) && s[i] !in Without(s, i)
  {
  }

  lemma UseKeeps(s: Pool, t: Tenant)
    requires Inv(s) && Enabled(s, Use(t))
    ensures Inv(Step(s, Use(t)))
  {
    var i := FirstIndex(s.tenants, t);
    SplitAt(s.clients, i);
    DistinctToEnd(s.tenants, i);
  }

  lemma OnceNext(m: multiset<Client>, n: nat)
    requires Once(m, n)
    ensures Once(m + multiset{n}, n + 1)
  {
  }

  /** A client that takes another's place: nothing is evicted and the other is lost. */
  lemma ReplaceKeeps(s: Pool, t: Tenant)
    requires Inv(s) && Enabled(s, Made(t)) && t in s.tenants
    ensures Inv(Step(s, Made(t)))
    ensures Step(s, Made(t)).lost == s.lost + [s.clients[FirstIndex(s.tenants, t)]]
    ensures Step(s, Made(t)).tenants == s.tenants
  {
    var i := FirstIndex(s.tenants, t);
    var u := Step(s, Made(t));
    UpdateAt(s.clients, i, s.made);
    OnceNext(Clients(s), s.made);
    assert Clients(u) == Clients(s) + multiset{s.made};
  }

  lemma InsertRoom(s: Pool, t: Tenant)
    requires Inv(s) && Enabled(s, Made(t)) && t !in s.tenants && |s.tenants| < s.capacity
    ensures Inv(Step(s, Made(t)))
  {
    OnceNext(Clients(s), s.made);
    assert Clients(Step(s, Made(t))) == Clients(s) + multiset{s.made};
  }

  /** Taking the oldest client out of a full cache that just got one more. */
  lemma PopOne<T>(s: seq<T>, x: T)
    requires s != []
    ensures (s + [x])[0] == s[0] && (s + [x])[1..] == s[1..] + [x]
    ensures multiset(s[1..]) + multiset{s[0]} == multiset(s)
  {
    assert s == [s[0]] + s[1..];
  }

  lemma PopKeeps(clients: seq<Client>, c: Client, evicted: seq<Client>)
    requires clients != []
    ensures (clients + [c])[0] == clients[0] && (clients + [c])[1..] == clients[1..] + [c]
    ensures multiset(clients[1..] + [c]) + multiset(evicted + [clients[0]]) ==
              multiset(clients) + multiset(evicted) + multiset{c}
  {
    PopOne(clients, c);
  }

  lemma InsertFull(s: Pool, t: Tenant)
    requires Inv(s) && Enabled(s, Made(t)) && t !in s.tenants && |s.tenants| == s.capacity
    ensures var u := Step(s, Made(t));
      u == s.(tenants := s.tenants[1..] + [t], clients := s.clients[1..] + [s.made], evictions := s.evictions + 1,
              evicted := s.evicted + [s.clients[0]], made := s.made + 1, pending := s.pending - multiset{t},
              closing := if s.closes then s.closing + multiset{s.clients[0]} else s.closing)
  {
    PopKeeps(s.clients, s.made, s.evicted);
    assert (s.tenants + [t])[1..] == s.tenants[1..] + [t];
    var popped := PopOldest(Store(s.(pending := s.pending - multiset{t}, made := s.made + 1), t, s.made));
    assert Evict(popped) == popped;
  }

  lemma InsertFullKeeps(s: Pool, t: Tenant)
    requires Inv(s) && Enabled(s, Made(t)) && t !in s.tenants && |s.tenants| == s.capacity
    ensures Inv(Step(s, Made(t)))
  {
    InsertFull(s, t);
    PopKeeps(s.clients, s.made, s.evicted);
    OnceNext(Clients(s), s.made);
    assert Clients(Step(s, Made(t))) == Clients(s) + multiset{s.made};
    DistinctToEnd(s.tenants, 0);
  }

  /** A client for a tenant not in the cache: at most the oldest client is evicted. */
  lemma InsertKeeps(s: Pool, t: Tenant)
    requires Inv(s) && Enabled(s, Made(t)) && t !in s.tenants
    ensures Inv(Step(s, Made(t)))
    ensures Step(s, Made(t)).lost == s.lost && Step(s, Made(t)).pending == s.pending - multiset{t}
    ensures Step(s, Made(t)).tenants == if |s.tenants| < s.capacity then s.tenants + [t] else s.tenants[1..] + [t]
  {
    if |s.tenants| < s.capacity {
      InsertRoom(s, t);
    } else {
      InsertFull(s, t);
      InsertFullKeeps(s, t);
    }
  }

  lemma StepInv(s: Pool, e: Event)
    requires Inv(s) && Enabled(s, e)
    ensures Inv(Step(s, e))
  {
    match e
    case Use(t) => UseKeeps(s, t);
    case Made(t) => if t in s.tenants { ReplaceKeeps(s, t); } else { InsertKeeps(s, t); }
    case _ =>
  }

  lemma {:induction false} ExecInv(s: Pool, run: seq<Event>)
    requires Inv(s) && Feasible(s, run)
    ensures Inv(Exec(s, run))
    decreases |run|
  {
    if run != [] {
      StepInv(s, run[0]);
      ExecInv(Step(s, run[0]), run[1..]);
    }
  }

  /** Under every interleaving: at most `capacity` clients at every await, no tenant twice, and every
      client made is cached, evicted or lost, exactly once. */
  lemma AnyInterleaving(capacity: nat, closes: bool, run: seq<Event>)
    requires capacity >= 1 && Feasible(Empty(capacity, closes), run)
    ensures var s := Exec(Empty(capacity, closes), run);
      && |s.tenants| == |s.clients| <= s.capacity && Distinct(s.tenants)
      && Once(Clients(s), s.made) && s.made == |s.clients| + s.evictions + |s.lost|
      && (s.closes ==> multiset(s.evicted) == s.closing + s.closed)
  {
    ExecInv(Empty(capacity, closes), run);
  }

  // ------------------------------------------------- when a client is lost for good

  /** The calls that may still put a client for `t` into the cache, and the client there now. */
  function Claims(s: Pool, t: Tenant): nat { s.pending[t] + if t in s.tenants then 1 else 0 }

  ghost predicate OneClaimEach(s: Pool)
  {
    forall t :: Claims(s, t) <= 1
  }

  /** The calls of one tenant do not overlap: none begins to wait while another waits for the factory. */
  predicate Serial(s: Pool, run: seq<Event>)
    requires Feasible(s, run)
    decreases |run|
  {
    run != [] ==> (run[0].Miss? ==> run[0].tenant !in s.pending) && Serial(Step(s, run[0]), run[1..])
  }

  lemma SubsetClaims(s: Pool, u: Pool)
    requires OneClaimEach(s) && u.pending <= s.pending
    requires forall t :: t in u.tenants ==> t in s.tenants
    ensures OneClaimEach(u)
  {
    forall t ensures Claims(u, t) <= 1 { assert Claims(s, t) <= 1; }
  }

  lemma SerialMiss(s: Pool, t: Tenant)
    requires OneClaimEach(s) && Enabled(s, Miss(t)) && t !in s.pending
    ensures OneClaimEach(Step(s, Miss(t)))
  {
    forall x ensures Claims(Step(s, Miss(t)), x) <= 1 { assert Claims(s, x) <= 1; }
  }

  lemma SerialMade(s: Pool, u: Pool, t: Tenant)
    requires OneClaimEach(s) && t in s.pending && u.pending == s.pending - multiset{t}
    requires forall x :: x in u.tenants ==> x == t || x in s.tenants
    ensures OneClaimEach(u)
  {
    forall x ensures Claims(u, x) <= 1 { assert Claims(s, x) <= 1; }
  }

  lemma SerialUse(s: Pool, t: Tenant)
    requires OneClaimEach(s) && Enabled(s, Use(t))
    ensures OneClaimEach(Step(s, Use(t)))
  {
    var u := Step(s, Use(t));
    SplitAt(s.tenants, FirstIndex(s.tenants, t));
    forall x | x in u.tenants ensures x in s.tenants { assert x in multiset(u.tenants) && x in multiset(s.tenants); }
    SubsetClaims(s, u);
  }

  lemma SerialStep(s: Pool, e: Event)
    requires Inv(s) && Enabled(s, e) && OneClaimEach(s) && (e.Miss? ==> e.tenant !in s.pending)
    ensures OneClaimEach(Step(s, e)) && Step(s, e).lost == s.lost
  {
    match e
    case Use(t) => SerialUse(s, t);
    case Miss(t) => SerialMiss(s, t);
    case Made(t) =>
      assert Claims(s, t) <= 1;
      InsertKeeps(s, t);
      SerialMade(s, Step(s, e), t);
    case _ => SubsetClaims(s, Step(s, e));
  }

  /** When the calls of each tenant do not overlap, no client is lost. */
  lemma {:induction false} SerialLosesNone(s: Pool, run: seq<Event>)
    requires Inv(s) && OneClaimEach(s) && Feasible(s, run) && Serial(s, run)
    ensures Exec(s, run).lost == s.lost && OneClaimEach(Exec(s, run))
    decreases |run|
  {
    if run != [] {
      SerialStep(s, run[0]);
      StepInv(s, run[0]);
      SerialLosesNone(Step(s, run[0]), run[1..]);
    }
  }

  /** A run in which calls only finish. */
  predicate Finishing(run: seq<Event>) { forall i :: 0 <= i < |run| ==> !run[i].Miss? }

  lemma {:induction false} FinishingIsSerial(s: Pool, run: seq<Event>)
    requires Feasible(s, run) && Finishing(run)
    ensures Serial(s, run)
    decreases |run|
  {
    if run != [] { FinishingIsSerial(Step(s, run[0]), run[1..]); }
  }

  /** From any await on, the calls under way can lose a client exactly when two of them wait for the
      factory with one tenant, or one does whose tenant is in the cache by now. */
  lemma LossPossibleIff(s: Pool)
    requires Inv(s)
    ensures (exists run :: Feasible(s, run) && Finishing(run) && Exec(s, run).lost != s.lost)
       <==> exists t :: Claims(s, t) >= 2
  {
    if exists t :: Claims(s, t) >= 2 {
      var t :| Claims(s, t) >= 2;
      var run := OverlapLoses(s, t);
    } else {
      assert OneClaimEach(s);
      forall run | Feasible(s, run) && Finishing(run) ensures Exec(s, run).lost == s.lost {
        FinishingIsSerial(s, run);
        SerialLosesNone(s, run);
      }
    }
  }

  /** Two overlapping misses on one tenant lose the first client: it is overwritten and never closed. */
  lemma OverlapLoses(s: Pool, t: Tenant) returns (run: seq<Event>)
    requires Inv(s) && Claims(s, t) >= 2
    ensures Feasible(s, run) && Finishing(run) && Exec(s, run).lost != s.lost
    decreases t !in s.tenants
  {
    if t in s.tenants {
      run := [Made(t)];
      ReplaceKeeps(s, t);
      ExecOne(s, Made(t));
    } else {
      InsertKeeps(s, t);
      var u := Step(s, Made(t));
      assert u.tenants[|u.tenants| - 1] == t;
      var rest := OverlapLoses(u, t);
      run := [Made(t)] + rest;
      ExecFirst(s, Made(t), rest);
    }
  }

  lemma ExecFirst(s: Pool, e: Event, rest: seq<Event>)
    requires Enabled(s, e) && Feasible(Step(s, e), rest)
    ensures Feasible(s, [e] + rest) && Exec(s, [e] + rest) == Exec(Step(s, e), rest)
  {
    assert ([e] + rest)[1..] == rest;
  }

  lemma ExecOne(s: Pool, e: Event)
    requires Enabled(s, e)
    ensures Feasible(s, [e]) && Exec(s, [e]) == Step(s, e)
  {
    ExecFirst(s, e, []);
    assert [e] + [] == [e];
  }

  /** `n` calls of one tenant that miss before any of their clients is made. */
  lemma {:induction false} MissMany(s: Pool, t: Tenant, n: nat) returns (run: seq<Event>)
    requires |s.tenants| == |s.clients| && t !in s.tenants
    ensures Feasible(s, run) && Exec(s, run) == s.(pending := s.pending[t := s.pending[t] + n])
    decreases n
  {
    if n == 0 {
      run := [];
      assert s.pending[t := s.pending[t]] == s.pending;
    } else {
      var u := Step(s, Miss(t));
      var rest := MissMany(u, t, n - 1);
      run := [Miss(t)] + rest;
      ExecFirst(s, Miss(t), rest);
      assert u.pending[t := u.pending[t] + (n - 1)] == s.pending[t := s.pending[t] + n];
    }
  }

  /** Each client made for a tenant that is cached takes the place of the one before. */
  lemma {:induction false} MadeMany(s: Pool, t: Tenant, n: nat) returns (run: seq<Event>)
    requires |s.tenants| == |s.clients| <= s.capacity && t in s.tenants && s.pending[t] >= n
    ensures Feasible(s, run) && Exec(s, run).tenants == s.tenants && |Exec(s, run).lost| == |s.lost| + n
    ensures Exec(s, run).evictions == s.evictions
    decreases n
  {
    if n == 0 {
      run := [];
    } else {
      var u := Step(s, Made(t));
      var rest := MadeMany(u, t, n - 1);
      run := [Made(t)] + rest;
      ExecFirst(s, Made(t), rest);
    }
  }

  lemma {:induction false} ExecAppend(s: Pool, run: seq<Event>, rest: seq<Event>)
    requires Feasible(s, run) && Feasible(Exec(s, run), rest)
    ensures Feasible(s, run + rest) && Exec(s, run + rest) == Exec(Exec(s, run), rest)
    decreases |run|
  {
    if run == [] {
      assert run + rest == rest;
    } else {
      assert (run + rest)[1..] == run[1..] + rest;
      ExecAppend(Step(s, run[0]), run[1..], rest);
    }
  }

  /** From a new pool of any capacity, any number of clients can be lost while only one is cached and none is
      evicted: by one more overlapping misses on one tenant. */
  lemma LossUnbounded(capacity: nat, closes: bool, t: Tenant, n: nat) returns (run: seq<Event>)
    requires capacity >= 1
    ensures var s := Empty(capacity, closes);
      && Feasible(s, run) && |Exec(s, run).lost| == n && Exec(s, run).tenants == [t] && Exec(s, run).evictions == 0
  {
    var s := Empty(capacity, closes);
    var misses := MissMany(s, t, n + 1);
    var u := Exec(s, misses);
    var v := Step(u, Made(t));
    assert v.tenants == [t];
    var rest := MadeMany(v, t, n);
    ExecFirst(u, Made(t), rest);
    ExecAppend(s, misses, [Made(t)] + rest);
    run := misses + ([Made(t)] + rest);
  }
}
