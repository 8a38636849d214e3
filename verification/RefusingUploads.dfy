/** The chunked upload against an engine that refuses an idempotency key reused with other content. */
module RefusingUploads {
  import opened Basics
  import opened PackUpload

  /** The server, and the request each key was first used with. */
  datatype Ledger = Ledger(server: Server, sent: map<Key, Rpc>)

  datatype Response = Refused | Answered(reply: Reply)

  function Submit(l: Ledger, key: Key, rpc: Rpc): (r: (Ledger, Response))
  {
    if key in l.sent && l.sent[key] != rpc then (l, Refused)
    else
      var (t, reply) := Deliver(l.server, key, rpc);
      (Ledger(t, l.sent[key := rpc]), Answered(reply))
  }

  /** The chunk loop; a refusal raises and ends it. */
  function SubmitFrom(l: Ledger, op: Key, cursor: nat, parts: seq<Bytes>, i: nat): (r: (Ledger, bool))
    requires i <= |parts|
    decreases |parts| - i
  {
    if i == |parts| then (l, true)
    else
      var (m, response) := Submit(l, ChunkKey(op, i), ChunkPut(cursor, parts[i]));
      if response.Refused? then (m, false) else SubmitFrom(m, op, cursor, parts, i + 1)
  }

  /** `upload_archive` against such an engine. */
  function RefusingClient(l: Ledger, u: Upload): (r: (Ledger, Response))
    requires u.Valid()
  {
    var (m, begun) := Submit(l, BeginKey(u.op, u.size), Begin(u.size));
    if begun.Refused? || !begun.reply.Cursor? then (m, begun)
    else
      var (n, ok) := SubmitFrom(m, u.op, begun.reply.id, u.Parts(), 0);
      if !ok then (n, Refused) else Submit(n, CommitKey(u.op), Commit(begun.reply.id))
  }

  /** No key of the upload was used for anything else. */
  ghost predicate Agrees(l: Ledger, u: Upload, cursor: nat)
    requires u.Valid()
  {
    && (forall k: nat :: k < |u.Parts()| && ChunkKey(u.op, k) in l.sent ==>
          l.sent[ChunkKey(u.op, k)] == ChunkPut(cursor, u.Parts()[k]))
    && (CommitKey(u.op) in l.sent ==> l.sent[CommitKey(u.op)] == Commit(cursor))
  }

  lemma AgreesNext(l: Ledger, u: Upload, cursor: nat, i: nat)
    requires u.Valid() && i < |u.Parts()| && Agrees(l, u, cursor)
    ensures var (m, response) := Submit(l, ChunkKey(u.op, i), ChunkPut(cursor, u.Parts()[i]));
      && response.Answered? && Agrees(m, u, cursor)
      && m.server == Deliver(l.server, ChunkKey(u.op, i), ChunkPut(cursor, u.Parts()[i])).0
  {
    KeysDistinct(u.op, i, 0);
    forall k: nat | k < |u.Parts()| ensures ChunkKey(u.op, k) == ChunkKey(u.op, i) <==> k == i {
      KeysDistinct(u.op, k, i);
    }
  }

  /** Where nothing disagrees, refusing changes nothing. */
  lemma {:induction false} SubmitFollows(l: Ledger, u: Upload, cursor: nat, i: nat)
    requires u.Valid() && i <= |u.Parts()| && Agrees(l, u, cursor)
    ensures var (m, ok) := SubmitFrom(l, u.op, cursor, u.Parts(), i);
      ok && Agrees(m, u, cursor) && m.server == PutFrom(l.server, u.op, cursor, u.Parts(), i)
    decreases |u.Parts()| - i
  {
    if i < |u.Parts()| {
      AgreesNext(l, u, cursor, i);
      SubmitFollows(Submit(l, ChunkKey(u.op, i), ChunkPut(cursor, u.Parts()[i])).0, u, cursor, i + 1);
    }
  }

  lemma BeginAgrees(l: Ledger, u: Upload, cursor: nat)
    requires u.Valid() && Agrees(l, u, cursor)
    ensures var t := Deliver(l.server, BeginKey(u.op, u.size), Begin(u.size)).0;
      Agrees(Ledger(t, l.sent[BeginKey(u.op, u.size) := Begin(u.size)]), u, cursor)
  {
    KeysDistinct(u.op, 0, u.size);
    forall k: nat ensures ChunkKey(u.op, k) != BeginKey(u.op, u.size) { KeysDistinct(u.op, k, u.size); }
  }

  lemma ClientFollows(l: Ledger, u: Upload, cursor: nat)
    requires u.Valid() && Agrees(l, u, cursor)
    requires BeginKey(u.op, u.size) in l.sent ==> l.sent[BeginKey(u.op, u.size)] == Begin(u.size)
    requires Deliver(l.server, BeginKey(u.op, u.size), Begin(u.size)).1 == Cursor(cursor)
    ensures var (m, response) := RefusingClient(l, u);
      response.Answered? && (m.server, response.reply) == Client(l.server, u)
  {
    BeginAgrees(l, u, cursor);
    var m := Submit(l, BeginKey(u.op, u.size), Begin(u.size)).0;
    SubmitFollows(m, u, cursor, 0);
  }

  /** The engine after an attempt that made `i` RPCs of a new operation. */
  ghost predicate Attempted(s0: Server, l: Ledger, u: Upload, i: nat)
    requires u.Valid() && i <= u.Length()
  {
    && NewOperation(s0, u.op) && Reached(s0, l.server, u, i) && l.sent.Keys == l.server.seen.Keys
    && forall j: nat :: j < i ==> u.KeyAt(j) in l.sent && l.sent[u.KeyAt(j)] == u.RpcAt(j, s0.next)
  }

  lemma SameSizeAgrees(s0: Server, l: Ledger, u: Upload, i: nat)
    requires u.Valid() && i <= u.Length() && Attempted(s0, l, u, i)
    ensures Agrees(l, u, s0.next)
    ensures BeginKey(u.op, u.size) in l.sent ==> l.sent[BeginKey(u.op, u.size)] == Begin(u.size)
    ensures Deliver(l.server, BeginKey(u.op, u.size), Begin(u.size)).1 == Cursor(s0.next)
  {
    SeenExactly(s0, l.server, u, i, u.size);
    if i >= 1 { assert u.KeyAt(0) in l.sent; }
    forall k: nat | k < |u.Parts()| && ChunkKey(u.op, k) in l.sent
      ensures l.sent[ChunkKey(u.op, k)] == ChunkPut(s0.next, u.Parts()[k])
    {
      SeenExactly(s0, l.server, u, i, k);
      assert u.KeyAt(k + 1) == ChunkKey(u.op, k);
    }
    if CommitKey(u.op) in l.sent { assert u.KeyAt(i - 1) == CommitKey(u.op); }
  }

  /** Another size: the first reused key carries another cursor. */
  lemma OtherSizeRefused(s0: Server, l: Ledger, u: Upload, i: nat, size: nat)
    requires u.Valid() && 2 <= i <= u.Length() && Attempted(s0, l, u, i) && size >= 1 && size != u.size
    ensures var (m, response) := RefusingClient(l, u.(size := size));
      response == Refused && m.server.blobs == l.server.blobs
  {
    var retry := u.(size := size);
    SeenExactly(s0, l.server, u, i, size);
    SeenExactly(s0, l.server, u, i, 0);
    KeysDistinct(u.op, 0, size);
    assert u.KeyAt(1) in l.sent;
    assert u.data == [] <==> u.Parts() == [];
    assert u.data == [] <==> retry.Parts() == [];
    var m := Submit(l, BeginKey(u.op, size), Begin(size)).0;
    assert m.server.blobs == l.server.blobs && m.sent[u.KeyAt(1)] == u.RpcAt(1, s0.next);
  }

  lemma FewAgree(s0: Server, l: Ledger, u: Upload, i: nat, size: nat, cursor: nat)
    requires u.Valid() && i <= 1 && Attempted(s0, l, u, i) && size >= 1
    ensures Agrees(l, u.(size := size), cursor)
  {
    forall k: nat ensures ChunkKey(u.op, k) !in l.sent { SeenExactly(s0, l.server, u, i, k); }
    SeenExactly(s0, l.server, u, i, 0);
  }

  lemma AttemptedRetryIff(s0: Server, l: Ledger, u: Upload, i: nat, size: nat)
    requires u.Valid() && i <= u.Length() && Attempted(s0, l, u, i) && size >= 1
    ensures var (m, response) := RefusingClient(l, u.(size := size));
      if size == u.size || i <= 1 then response == Answered(Blob(u.data)) && m.server.blobs == s0.blobs + [u.data]
      else response == Refused && m.server.blobs == l.server.blobs
  {
    if size == u.size {
      SameSizeAgrees(s0, l, u, i);
      ClientFollows(l, u, s0.next);
      ReachedRetryIff(s0, l.server, u, i, size);
    } else if i <= 1 {
      SeenExactly(s0, l.server, u, i, size);
      FewAgree(s0, l, u, i, size, l.server.next);
      ClientFollows(l, u.(size := size), l.server.next);
      ReachedRetryIff(s0, l.server, u, i, size);
    } else {
      OtherSizeRefused(s0, l, u, i, size);
    }
  }

  lemma AttemptStarts(s0: Server, l: Ledger, u: Upload)
    requires u.Valid() && NewOperation(s0, u.op) && l.server == s0 && l.sent.Keys == s0.seen.Keys
    ensures Attempted(s0, l, u, 0)
  {
  }

  lemma AttemptRepeats(s0: Server, l: Ledger, u: Upload, i: nat, j: nat)
    requires u.Valid() && j < i <= u.Length() && Attempted(s0, l, u, i)
    ensures Submit(l, u.KeyAt(j), u.RpcAt(j, s0.next)) == (l, Answered(l.server.seen[u.KeyAt(j)]))
  {
    NewIsUnused(s0, u);
    Repeat(s0, l.server, u, i, j);
    assert l.sent[u.KeyAt(j) := u.RpcAt(j, s0.next)] == l.sent;
  }

  lemma NextIsNew(s0: Server, l: Ledger, u: Upload, i: nat)
    requires u.Valid() && i < u.Length() && Attempted(s0, l, u, i)
    ensures u.KeyAt(i) !in l.sent
  {
    NewIsUnused(s0, u);
    KeysBeforeNext(u, i);
  }

  lemma SeenNext(s: Server, key: Key, rpc: Rpc)
    requires key !in s.seen
    ensures Deliver(s, key, rpc).0.seen.Keys == s.seen.Keys + {key}
  {
  }

  /** Any RPC made before may be made again, and the next one may be made: both are attempts. */
  lemma AttemptGoesOn(s0: Server, l: Ledger, u: Upload, i: nat)
    requires u.Valid() && i < u.Length() && Attempted(s0, l, u, i)
    ensures Attempted(s0, Submit(l, u.KeyAt(i), u.RpcAt(i, s0.next)).0, u, i + 1)
  {
    NewIsUnused(s0, u);
    NextIsNew(s0, l, u, i);
    Advance(s0, l.server, u, i);
    SeenNext(l.server, u.KeyAt(i), u.RpcAt(i, s0.next));
  }

  // ------------------------------------------------------------------------- whole runs

  /** No request of the operation has reached the engine. */
  ghost predicate Untried(l: Ledger, op: Key) { NewOperation(l.server, op) && l.sent.Keys == l.server.seen.Keys }

  function SubmitAll(l: Ledger, u: Upload, cursor: nat, schedule: seq<nat>): Ledger
    requires u.Valid() && forall i :: 0 <= i < |schedule| ==> schedule[i] < u.Length()
    decreases |schedule|
  {
    if schedule == [] then l
    else SubmitAll(Submit(l, u.KeyAt(schedule[0]), u.RpcAt(schedule[0], cursor)).0, u, cursor, schedule[1..])
  }

  /** One RPC of a schedule, first or repeated. */
  lemma AttemptStep(s0: Server, l: Ledger, u: Upload, i: nat, j: nat)
    requires u.Valid() && i <= u.Length() && Attempted(s0, l, u, i) && j <= i && j < u.Length()
    ensures Attempted(s0, Submit(l, u.KeyAt(j), u.RpcAt(j, s0.next)).0, u, if j == i then i + 1 else i)
  {
    if j == i { AttemptGoesOn(s0, l, u, i); } else { AttemptRepeats(s0, l, u, i, j); }
  }

  /** What every first or repeated RPC keeps holds after any schedule. */
  lemma {:induction false} ScheduleKeeps(P: (Ledger, nat) -> bool, l: Ledger, u: Upload, cursor: nat,
                                         schedule: seq<nat>, i: nat)
    requires u.Valid() && P(l, i)
    requires forall m, k: nat, j: nat :: P(m, k) && j <= k && j < u.Length() ==>
               P(Submit(m, u.KeyAt(j), u.RpcAt(j, cursor)).0, if j == k then k + 1 else k)
    requires InOrder(schedule, i, u.Length()) && forall j :: 0 <= j < |schedule| ==> schedule[j] < u.Length()
    ensures P(SubmitAll(l, u, cursor, schedule), ReachedBy(schedule, i))
    decreases |schedule|
  {
    if schedule != [] {
      var m := Submit(l, u.KeyAt(schedule[0]), u.RpcAt(schedule[0], cursor)).0;
      ScheduleKeeps(P, m, u, cursor, schedule[1..], if schedule[0] == i then i + 1 else i);
    }
  }

  /** Any schedule of first and repeated RPCs of one upload is an attempt, as far as it got. */
  lemma ScheduleAttempts(s0: Server, l: Ledger, u: Upload, schedule: seq<nat>)
    requires u.Valid() && Attempted(s0, l, u, 0)
    requires InOrder(schedule, 0, u.Length()) && forall j :: 0 <= j < |schedule| ==> schedule[j] < u.Length()
    ensures ReachedBy(schedule, 0) <= u.Length()
    ensures Attempted(s0, SubmitAll(l, u, s0.next, schedule), u, ReachedBy(schedule, 0))
  {
    ghost var P := (m: Ledger, k: nat) => k <= u.Length() && Attempted(s0, m, u, k);
    forall m, k: nat, j: nat | P(m, k) && j <= k && j < u.Length()
      ensures P(Submit(m, u.KeyAt(j), u.RpcAt(j, s0.next)).0, if j == k then k + 1 else k)
    {
      AttemptStep(s0, m, u, k, j);
    }
    ScheduleKeeps(P, l, u, s0.next, schedule, 0);
  }

  /** Against an engine that refuses reused keys, after any schedule of first and repeated RPCs of an upload, a
      retry commits the archive exactly when the size is the same or no chunk had arrived and nothing was
      committed; otherwise it is refused and nothing is stored.  It never commits anything else. */
  lemma RefusingRetryIff(l0: Ledger, u: Upload, schedule: seq<nat>, size: nat)
    requires u.Valid() && Untried(l0, u.op) && InOrder(schedule, 0, u.Length()) && size >= 1
    ensures forall i :: 0 <= i < |schedule| ==> schedule[i] < u.Length()
    ensures var i, l := ReachedBy(schedule, 0), SubmitAll(l0, u, l0.server.next, schedule);
      var (m, response) := RefusingClient(l, u.(size := size));
      if size == u.size || i <= 1 then
        response == Answered(Blob(u.data)) && m.server.blobs == l0.server.blobs + [u.data]
      else response == Refused && m.server.blobs == l.server.blobs
  {
    InOrderBounded(schedule, 0, u.Length());
    AttemptStarts(l0.server, l0, u);
    ScheduleAttempts(l0.server, l0, u, schedule);
    AttemptedRetryIff(l0.server, SubmitAll(l0, u, l0.server.next, schedule), u, ReachedBy(schedule, 0), size);
  }

  function SubmitRun(l: Ledger, ds: seq<Delivery>): Ledger
    decreases |ds|
  {
    if ds == [] then l else SubmitRun(Submit(l, ds[0].key, ds[0].rpc).0, ds[1..])
  }

  /** Submitting a schedule is submitting its requests one after another. */
  lemma {:induction false} ScheduleIsSubmitted(l: Ledger, u: Upload, cursor: nat, schedule: seq<nat>)
    requires u.Valid() && forall i :: 0 <= i < |schedule| ==> schedule[i] < u.Length()
    ensures SubmitAll(l, u, cursor, schedule) == SubmitRun(l, Deliveries(u, cursor, schedule))
    decreases |schedule|
  {
    if schedule != [] {
      DeliveriesFirst(u, cursor, schedule);
      var m := Submit(l, u.KeyAt(schedule[0]), u.RpcAt(schedule[0], cursor)).0;
      ScheduleIsSubmitted(m, u, cursor, schedule[1..]);
    }
  }

  lemma StaysUntried(l: Ledger, op: Key, key: Key, rpc: Rpc)
    requires Untried(l, op) && !OfOperation(key, op)
    ensures Untried(Submit(l, key, rpc).0, op)
  {
    StaysNew(l.server, op, key, rpc);
    if key !in l.server.seen { SeenNext(l.server, key, rpc); }
  }

  lemma {:induction false} RunStaysUntried(l: Ledger, op: Key, ds: seq<Delivery>)
    requires Untried(l, op) && forall d :: d in ds ==> !OfOperation(d.key, op)
    ensures Untried(SubmitRun(l, ds), op)
    decreases |ds|
  {
    if ds != [] {
      StaysUntried(l, op, ds[0].key, ds[0].rpc);
      RunStaysUntried(Submit(l, ds[0].key, ds[0].rpc).0, op, ds[1..]);
    }
  }

  /** After whatever other operations sent to a fresh engine, refused or not, this one is untried. */
  lemma OthersLeaveItUntried(op: Key, ds: seq<Delivery>)
    requires forall d :: d in ds ==> !OfOperation(d.key, op)
    ensures Untried(SubmitRun(Ledger(FRESH, map[]), ds), op)
  {
    RunStaysUntried(Ledger(FRESH, map[]), op, ds);
  }
}
