/** The chunked upload against an engine for which the content of a request is part of its idempotency key. */
module ContentKeyedUploads {
  import opened Basics
  import opened Sequences
  import opened PackUpload

  /** The engine's key for a request under a key: different for different requests. */
  type Fold = (Key, Rpc) -> Key

  ghost predicate TellsApart(fold: Fold)
  {
    forall k, r, k', r' :: fold(k, r) == fold(k', r') ==> k == k' && r == r'
  }

  function ContentDeliver(fold: Fold, s: Server, key: Key, rpc: Rpc): (r: (Server, Reply))
  {
    Deliver(s, fold(key, rpc), rpc)
  }

  function ContentPut(fold: Fold, s: Server, op: Key, cursor: nat, parts: seq<Bytes>, i: nat): Server
    requires i <= |parts|
    decreases |parts| - i
  {
    if i == |parts| then s
    else
      var t := ContentDeliver(fold, s, ChunkKey(op, i), ChunkPut(cursor, parts[i])).0;
      ContentPut(fold, t, op, cursor, parts, i + 1)
  }

  /** `upload_archive` against such an engine. */
  function ContentClient(fold: Fold, s: Server, u: Upload): (r: (Server, Reply))
    requires u.Valid()
  {
    var (t, begun) := ContentDeliver(fold, s, BeginKey(u.op, u.size), Begin(u.size));
    if !begun.Cursor? then (t, begun)
    else ContentDeliver(fold, ContentPut(fold, t, u.op, begun.id, u.Parts(), 0), CommitKey(u.op), Commit(begun.id))
  }

  predicate Names(rpc: Rpc, cursor: nat) { !rpc.Begin? && rpc.cursor == cursor }

  /** No request has named a cursor that was not handed out. */
  ghost predicate CursorsKnown(fold: Fold, s: Server)
  {
    forall key, rpc, c: nat :: Names(rpc, c) && c >= s.next ==> fold(key, rpc) !in s.seen
  }

  lemma DeliveryKeepsCursors(fold: Fold, s: Server, key: Key, rpc: Rpc)
    requires TellsApart(fold) && CursorsKnown(fold, s) && (rpc.Begin? || rpc.cursor < s.next)
    ensures CursorsKnown(fold, ContentDeliver(fold, s, key, rpc).0)
  {
    var t := ContentDeliver(fold, s, key, rpc).0;
    forall k, r, c: nat | Names(r, c) && c >= t.next ensures fold(k, r) !in t.seen {
      assert fold(k, r) != fold(key, rpc) || r == rpc;
    }
  }

  /** Nothing has been sent to the cursor from chunk `i` on. */
  ghost predicate Untouched(fold: Fold, s: Server, op: Key, cursor: nat, parts: seq<Bytes>, i: nat)
  {
    && (forall k: nat :: i <= k < |parts| ==> fold(ChunkKey(op, k), ChunkPut(cursor, parts[k])) !in s.seen)
    && fold(CommitKey(op), Commit(cursor)) !in s.seen
  }

  lemma UntouchedNext(fold: Fold, s: Server, op: Key, cursor: nat, parts: seq<Bytes>, i: nat)
    requires TellsApart(fold) && i < |parts| && Untouched(fold, s, op, cursor, parts, i)
    ensures var t := ContentDeliver(fold, s, ChunkKey(op, i), ChunkPut(cursor, parts[i])).0;
      Untouched(fold, t, op, cursor, parts, i + 1)
  {
    var used := fold(ChunkKey(op, i), ChunkPut(cursor, parts[i]));
    forall k: nat | i + 1 <= k < |parts| ensures fold(ChunkKey(op, k), ChunkPut(cursor, parts[k])) != used {
      KeysDistinct(op, k, i);
    }
    assert fold(CommitKey(op), Commit(cursor)) != used;
  }

  lemma {:induction false} ContentAppends(fold: Fold, s: Server, op: Key, cursor: nat, parts: seq<Bytes>, i: nat)
    requires TellsApart(fold) && i <= |parts| && cursor in s.open && Untouched(fold, s, op, cursor, parts, i)
    ensures var t := ContentPut(fold, s, op, cursor, parts, i);
      && cursor in t.open && t.open[cursor] == s.open[cursor] + Concat(parts[i..]) && t.blobs == s.blobs
      && fold(CommitKey(op), Commit(cursor)) !in t.seen
    decreases |parts| - i
  {
    if i == |parts| {
      assert parts[i..] == [] && s.open[cursor] + [] == s.open[cursor];
    } else {
      var t := ContentDeliver(fold, s, ChunkKey(op, i), ChunkPut(cursor, parts[i])).0;
      UntouchedNext(fold, s, op, cursor, parts, i);
      ContentAppends(fold, t, op, cursor, parts, i + 1);
      AppendRest(s.open[cursor], parts, i);
    }
  }

  lemma NewBeginStores(fold: Fold, s: Server, u: Upload)
    requires u.Valid() && TellsApart(fold) && CursorsKnown(fold, s)
    requires fold(BeginKey(u.op, u.size), Begin(u.size)) !in s.seen
    ensures var (t, reply) := ContentClient(fold, s, u);
      reply == Blob(u.data) && t.blobs == s.blobs + [u.data]
  {
    var t := ContentDeliver(fold, s, BeginKey(u.op, u.size), Begin(u.size)).0;
    var begun := fold(BeginKey(u.op, u.size), Begin(u.size));
    forall k: nat | k < |u.Parts()| ensures fold(ChunkKey(u.op, k), ChunkPut(s.next, u.Parts()[k])) !in t.seen {
      assert Names(ChunkPut(s.next, u.Parts()[k]), s.next);
      assert fold(ChunkKey(u.op, k), ChunkPut(s.next, u.Parts()[k])) != begun;
    }
    assert Names(Commit(s.next), s.next) && fold(CommitKey(u.op), Commit(s.next)) != begun;
    ContentAppends(fold, t, u.op, s.next, u.Parts(), 0);
    assert u.Parts()[0..] == u.Parts() && [] + Concat(u.Parts()) == Concat(u.Parts());
    ConcatChunks(u.data, u.size);
  }
  // ------------------------------------------------------------------------- whole runs

  function ContentRun(fold: Fold, s: Server, ds: seq<Delivery>): Server
    decreases |ds|
  {
    if ds == [] then s else ContentRun(fold, ContentDeliver(fold, s, ds[0].key, ds[0].rpc).0, ds[1..])
  }

  /** Every chunk and commit names a cursor that had been handed out by then: clients make none up. */
  predicate HandedOut(fold: Fold, s: Server, ds: seq<Delivery>)
    decreases |ds|
  {
    ds != [] ==>
      && (ds[0].rpc.Begin? || ds[0].rpc.cursor < s.next)
      && HandedOut(fold, ContentDeliver(fold, s, ds[0].key, ds[0].rpc).0, ds[1..])
  }

  lemma {:induction false} RunKnowsCursors(fold: Fold, s: Server, ds: seq<Delivery>)
    requires TellsApart(fold) && CursorsKnown(fold, s) && HandedOut(fold, s, ds)
    ensures CursorsKnown(fold, ContentRun(fold, s, ds))
    decreases |ds|
  {
    if ds != [] {
      DeliveryKeepsCursors(fold, s, ds[0].key, ds[0].rpc);
      RunKnowsCursors(fold, ContentDeliver(fold, s, ds[0].key, ds[0].rpc).0, ds[1..]);
    }
  }

  /** The engine has seen exactly the requests delivered to it. */
  lemma {:induction false} RunSeen(fold: Fold, s: Server, ds: seq<Delivery>, d: Delivery)
    requires TellsApart(fold)
    ensures fold(d.key, d.rpc) in ContentRun(fold, s, ds).seen <==> fold(d.key, d.rpc) in s.seen || d in ds
    decreases |ds|
  {
    if ds != [] {
      RunSeen(fold, ContentDeliver(fold, s, ds[0].key, ds[0].rpc).0, ds[1..], d);
      assert fold(d.key, d.rpc) == fold(ds[0].key, ds[0].rpc) <==> d == ds[0];
    }
  }

  function BeginOf(u: Upload): Delivery { Delivery(BeginKey(u.op, u.size), Begin(u.size)) }

  /** Against an engine that folds the content into the key, after any run in which clients only name cursors they
      were given, an upload whose begin is new, as with another chunk size, stores the archive anew whatever was
      sent before: once more if it had been committed. */
  lemma ContentKeyedStoresAnew(fold: Fold, ds: seq<Delivery>, u: Upload)
    requires u.Valid() && TellsApart(fold) && HandedOut(fold, FRESH, ds) && BeginOf(u) !in ds
    ensures var s := ContentRun(fold, FRESH, ds);
      var (t, reply) := ContentClient(fold, s, u);
      reply == Blob(u.data) && t.blobs == s.blobs + [u.data]
  {
    RunKnowsCursors(fold, FRESH, ds);
    RunSeen(fold, FRESH, ds, BeginOf(u));
    NewBeginStores(fold, ContentRun(fold, FRESH, ds), u);
  }

  // --------------------------------------- one upload, as the engine that replays sees it

  /** For the RPCs of one upload, the engine that folds the content in and the one that does not agree. */
  ghost predicate Alike(fold: Fold, s: Server, p: Server, u: Upload, cursor: nat)
    requires u.Valid()
  {
    && s.open == p.open && s.next == p.next && s.blobs == p.blobs
    && forall i: nat :: i < u.Length() ==>
         var folded := fold(u.KeyAt(i), u.RpcAt(i, cursor));
         (folded in s.seen <==> u.KeyAt(i) in p.seen) && (folded in s.seen ==> s.seen[folded] == p.seen[u.KeyAt(i)])
  }

  lemma AlikeStep(fold: Fold, s: Server, p: Server, u: Upload, cursor: nat, i: nat)
    requires u.Valid() && TellsApart(fold) && i < u.Length() && Alike(fold, s, p, u, cursor)
    ensures var (t, reply) := ContentDeliver(fold, s, u.KeyAt(i), u.RpcAt(i, cursor));
      var (q, reply') := Deliver(p, u.KeyAt(i), u.RpcAt(i, cursor));
      reply == reply' && Alike(fold, t, q, u, cursor)
  {
    forall j: nat | j < u.Length()
      ensures u.KeyAt(j) == u.KeyAt(i) <==> j == i
      ensures fold(u.KeyAt(j), u.RpcAt(j, cursor)) == fold(u.KeyAt(i), u.RpcAt(i, cursor)) <==> j == i
    {
      if u.KeyAt(j) == u.KeyAt(i) { KeyAtInjective(u, j, i); }
    }
  }

  lemma {:induction false} AlikePut(fold: Fold, s: Server, p: Server, u: Upload, cursor: nat, i: nat)
    requires u.Valid() && TellsApart(fold) && i <= |u.Parts()| && Alike(fold, s, p, u, cursor)
    ensures var t := ContentPut(fold, s, u.op, cursor, u.Parts(), i);
      Alike(fold, t, PutFrom(p, u.op, cursor, u.Parts(), i), u, cursor)
    decreases |u.Parts()| - i
  {
    if i < |u.Parts()| {
      assert u.KeyAt(i + 1) == ChunkKey(u.op, i) && u.RpcAt(i + 1, cursor) == ChunkPut(cursor, u.Parts()[i]);
      AlikeStep(fold, s, p, u, cursor, i + 1);
      AlikePut(fold, ContentDeliver(fold, s, u.KeyAt(i + 1), u.RpcAt(i + 1, cursor)).0,
               Deliver(p, u.KeyAt(i + 1), u.RpcAt(i + 1, cursor)).0, u, cursor, i + 1);
    }
  }

  /** The engine follows the replaying one through any schedule, and its client makes up no cursor. */
  lemma {:induction false} ScheduleAlike(fold: Fold, s: Server, p0: Server, p: Server, u: Upload, schedule: seq<nat>,
                                         i: nat)
    requires u.Valid() && TellsApart(fold) && Alike(fold, s, p, u, p0.next)
    requires Unused(p0, u) && i <= u.Length() && Reached(p0, p, u, i)
    requires InOrder(schedule, i, u.Length()) && forall j :: 0 <= j < |schedule| ==> schedule[j] < u.Length()
    ensures HandedOut(fold, s, Deliveries(u, p0.next, schedule))
    ensures var t := ContentRun(fold, s, Deliveries(u, p0.next, schedule));
      Alike(fold, t, DeliverAll(p, u, p0.next, schedule), u, p0.next)
    decreases |schedule|
  {
    if schedule != [] {
      var k := schedule[0];
      AlikeStep(fold, s, p, u, p0.next, k);
      if k == i { Advance(p0, p, u, i); } else { Repeat(p0, p, u, i, k); }
      assert Deliveries(u, p0.next, schedule)[1..] == Deliveries(u, p0.next, schedule[1..]);
      ScheduleAlike(fold, ContentDeliver(fold, s, u.KeyAt(k), u.RpcAt(k, p0.next)).0, p0,
                    Deliver(p, u.KeyAt(k), u.RpcAt(k, p0.next)).0, u, schedule[1..], if k == i then i + 1 else i);
    }
  }

  lemma ClientAlike(fold: Fold, s: Server, p: Server, u: Upload, cursor: nat)
    requires u.Valid() && TellsApart(fold) && Alike(fold, s, p, u, cursor)
    requires Deliver(p, BeginKey(u.op, u.size), Begin(u.size)).1 == Cursor(cursor)
    ensures ContentClient(fold, s, u).1 == Client(p, u).1 && ContentClient(fold, s, u).0.blobs == Client(p, u).0.blobs
  {
    AlikeStep(fold, s, p, u, cursor, 0);
    var t, q := ContentDeliver(fold, s, u.KeyAt(0), Begin(u.size)).0, Deliver(p, u.KeyAt(0), Begin(u.size)).0;
    AlikePut(fold, t, q, u, cursor, 0);
    AlikeStep(fold, ContentPut(fold, t, u.op, cursor, u.Parts(), 0), PutFrom(q, u.op, cursor, u.Parts(), 0), u, cursor,
              u.Length() - 1);
  }

  lemma {:induction false} RunAppend(fold: Fold, s: Server, a: seq<Delivery>, b: seq<Delivery>)
    ensures ContentRun(fold, s, a + b) == ContentRun(fold, ContentRun(fold, s, a), b)
    ensures HandedOut(fold, s, a + b) <==> HandedOut(fold, s, a) && HandedOut(fold, ContentRun(fold, s, a), b)
    decreases |a|
  {
    if a == [] {
      assert a + b == b;
    } else {
      assert (a + b)[1..] == a[1..] + b;
      RunAppend(fold, ContentDeliver(fold, s, a[0].key, a[0].rpc).0, a[1..], b);
    }
  }

  /** Cursors are numbered upwards. */
  ghost predicate OpenBelow(s: Server) { forall c :: c in s.open ==> c < s.next }

  lemma {:induction false} RunOpensBelow(fold: Fold, s: Server, ds: seq<Delivery>)
    requires OpenBelow(s)
    ensures OpenBelow(ContentRun(fold, s, ds))
    decreases |ds|
  {
    if ds != [] { RunOpensBelow(fold, ContentDeliver(fold, s, ds[0].key, ds[0].rpc).0, ds[1..]); }
  }

  /** What the replaying engine would know: nothing of the operation. */
  lemma StartsAlike(fold: Fold, ds: seq<Delivery>, u: Upload)
    requires u.Valid() && TellsApart(fold) && forall d :: d in ds ==> !OfOperation(d.key, u.op)
    ensures var s0 := ContentRun(fold, FRESH, ds);
      NewOperation(s0.(seen := map[]), u.op) && Alike(fold, s0, s0.(seen := map[]), u, s0.next)
  {
    var s0 := ContentRun(fold, FRESH, ds);
    RunOpensBelow(fold, FRESH, ds);
    forall i: nat | i < u.Length() ensures fold(u.KeyAt(i), u.RpcAt(i, s0.next)) !in s0.seen {
      assert OfOperation(u.KeyAt(i), u.op);
      RunSeen(fold, FRESH, ds, Delivery(u.KeyAt(i), u.RpcAt(i, s0.next)));
    }
  }

  /** Where an attempt at the upload leaves the engine, and what a retry with the same size does then. */
  lemma AttemptAlike(fold: Fold, ds: seq<Delivery>, u: Upload, schedule: seq<nat>)
    requires u.Valid() && TellsApart(fold) && (forall d :: d in ds ==> !OfOperation(d.key, u.op))
    requires InOrder(schedule, 0, u.Length()) && forall j :: 0 <= j < |schedule| ==> schedule[j] < u.Length()
    ensures var s0 := ContentRun(fold, FRESH, ds);
      var s := ContentRun(fold, s0, Deliveries(u, s0.next, schedule));
      && HandedOut(fold, s0, Deliveries(u, s0.next, schedule))
      && s.blobs == s0.blobs + (if ReachedBy(schedule, 0) == u.Length() then [u.data] else [])
      && ContentClient(fold, s, u).1 == Blob(u.data) && ContentClient(fold, s, u).0.blobs == s0.blobs + [u.data]
  {
    var s0 := ContentRun(fold, FRESH, ds);
    var p0 := s0.(seen := map[]);
    StartsAlike(fold, ds, u);
    NewIsUnused(p0, u);
    ScheduleAlike(fold, s0, p0, p0, u, schedule, 0);
    ScheduleReaches(p0, p0, u, schedule, 0);
    var p, i := DeliverAll(p0, u, p0.next, schedule), ReachedBy(schedule, 0);
    if i > 0 { Repeat(p0, p, u, i, 0); }
    ClientAlike(fold, ContentRun(fold, s0, Deliveries(u, s0.next, schedule)), p, u, p0.next);
    SameSizeCompletes(p0, p, u, i);
  }

  lemma OtherBegin(u: Upload, cursor: nat, schedule: seq<nat>, size: nat)
    requires u.Valid() && size != u.size && forall j :: 0 <= j < |schedule| ==> schedule[j] < u.Length()
    ensures BeginOf(u.(size := size)) !in Deliveries(u, cursor, schedule)
  {
    forall j | 0 <= j < |schedule| ensures u.RpcAt(schedule[j], cursor) != Begin(size) { }
  }

  /** After whatever other operations sent and any schedule of first and repeated RPCs of an upload, a retry always
      answers with the archive; it is stored once exactly when the size is the same or the first attempt had not
      committed, and otherwise twice. */
  lemma ContentRetryIff(fold: Fold, ds: seq<Delivery>, u: Upload, schedule: seq<nat>, size: nat)
    requires u.Valid() && TellsApart(fold) && HandedOut(fold, FRESH, ds)
    requires (forall d :: d in ds ==> !OfOperation(d.key, u.op)) && InOrder(schedule, 0, u.Length()) && size >= 1
    ensures forall j :: 0 <= j < |schedule| ==> schedule[j] < u.Length()
    ensures var s0 := ContentRun(fold, FRESH, ds);
      var (t, reply) := ContentClient(fold, ContentRun(fold, s0, Deliveries(u, s0.next, schedule)), u.(size := size));
      && reply == Blob(u.data)
      && t.blobs == s0.blobs +
           if size == u.size || ReachedBy(schedule, 0) < u.Length() then [u.data] else [u.data, u.data]
  {
    InOrderBounded(schedule, 0, u.Length());
    AttemptAlike(fold, ds, u, schedule);
    if size != u.size {
      var s0, retry := ContentRun(fold, FRESH, ds), u.(size := size);
      var own := Deliveries(u, s0.next, schedule);
      RunAppend(fold, FRESH, ds, own);
      OtherBegin(u, s0.next, schedule, size);
      assert OfOperation(BeginOf(retry).key, u.op);
      ContentKeyedStoresAnew(fold, ds + own, retry);
    }
  }
}
