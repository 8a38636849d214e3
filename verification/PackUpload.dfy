/** `ConnectorPackClient.upload_archive`: begin, numbered chunks and commit, each under its own
    idempotency key, against a blob server that applies every key once and afterwards repeats
    the recorded reply. */
module PackUpload {
  import opened Basics
  import opened Sequences
  import opened ByteStrings
  import opened FramedDigests
  import opened Numerals

  /** Text, as its UTF-8 bytes. */
  type Key = Bytes

  datatype Rpc = Begin(chunkSize: nat) | ChunkPut(cursor: nat, data: Bytes) | Commit(cursor: nat)
  datatype Reply = Cursor(id: nat) | Stored(total: nat) | Blob(bytes: Bytes) | NoSuchCursor

  /** Open uploads by cursor, the replies given so far by key, and the blobs committed. */
  datatype Server = Server(seen: map<Key, Reply>, open: map<nat, Bytes>, next: nat, blobs: seq<Bytes>)

  function Apply(s: Server, rpc: Rpc): (r: (Server, Reply))
  {
    match rpc
    case Begin(_) => (s.(open := s.open[s.next := []], next := s.next + 1), Cursor(s.next))
    case ChunkPut(c, data) =>
      if c !in s.open then (s, NoSuchCursor)
      else (s.(open := s.open[c := s.open[c] + data]), Stored(|s.open[c] + data|))
    case Commit(c) =>
      if c !in s.open then (s, NoSuchCursor)
      else (s.(open := s.open - {c}, blobs := s.blobs + [s.open[c]]), Blob(s.open[c]))
  }

  /** One delivery of an RPC, first or repeated. */
  function Deliver(s: Server, key: Key, rpc: Rpc): (r: (Server, Reply))
  {
    if key in s.seen then (s, s.seen[key])
    else
      var (t, reply) := Apply(s, rpc);
      (t.(seen := t.seen[key := reply]), reply)
  }

  /** A server that has served nothing. */
  const FRESH: Server := Server(map[], map[], 0, [])

  datatype Delivery = Delivery(key: Key, rpc: Rpc)

  function DeliverRun(s: Server, ds: seq<Delivery>): Server
    decreases |ds|
  {
    if ds == [] then s else DeliverRun(Deliver(s, ds[0].key, ds[0].rpc).0, ds[1..])
  }

  // ---------------------------------------------------------------- idempotency keys

  const BEGIN: Bytes := Ascii(":begin:")
  const CHUNK: Bytes := Ascii(":chunk:")
  const COMMIT: Bytes := Ascii(":commit")

  function BeginKey(op: Key, size: nat): Key { op + BEGIN + Decimal(size) }
  function ChunkKey(op: Key, i: nat): Key { op + CHUNK + Decimal(i) }
  function CommitKey(op: Key): Key { op + COMMIT }

  lemma DropPrefix(op: Key, a: Bytes, b: Bytes)
    requires op + a == op + b
    ensures a == b
  {
    assert a == (op + a)[|op|..] && b == (op + b)[|op|..];
  }

  /** No two RPCs of one operation share a key, except two begins of equal chunk size. */
  lemma KeysDistinct(op: Key, i: nat, j: nat)
    ensures ChunkKey(op, i) == ChunkKey(op, j) <==> i == j
    ensures BeginKey(op, i) == BeginKey(op, j) <==> i == j
    ensures ChunkKey(op, i) != BeginKey(op, j) && ChunkKey(op, i) != CommitKey(op) && BeginKey(op, j) != CommitKey(op)
  {
    var n := |op|;
    assert ChunkKey(op, i)[n + 1] == CHUNK[1] && ChunkKey(op, i)[n + 2] == CHUNK[2];
    assert BeginKey(op, j)[n + 1] == BEGIN[1];
    assert CommitKey(op)[n + 1] == COMMIT[1] && CommitKey(op)[n + 2] == COMMIT[2];
    if ChunkKey(op, i) == ChunkKey(op, j) {
      DropPrefix(op + CHUNK, Decimal(i), Decimal(j));
      DecimalInjective(i, j);
    }
    if BeginKey(op, i) == BeginKey(op, j) {
      DropPrefix(op + BEGIN, Decimal(i), Decimal(j));
      DecimalInjective(i, j);
    }
  }

  // --------------------------------------------------- one upload, delivered at will

  /** One upload: its operation key, the archive and the chunk size. */
  datatype Upload = Upload(op: Key, data: Bytes, size: nat)
  {
    predicate Valid() { size >= 1 }

    function Parts(): seq<Bytes>
      requires Valid()
    {
      Chunks(data, size)
    }

    /** The number of RPCs: begin, the chunks, commit. */
    function Length(): nat
      requires Valid()
    {
      |Parts()| + 2
    }

    function KeyAt(i: nat): Key
      requires Valid() && i < Length()
    {
      if i == 0 then BeginKey(op, size) else if i <= |Parts()| then ChunkKey(op, i - 1) else CommitKey(op)
    }

    function RpcAt(i: nat, cursor: nat): Rpc
      requires Valid() && i < Length()
    {
      if i == 0 then Begin(size) else if i <= |Parts()| then ChunkPut(cursor, Parts()[i - 1]) else Commit(cursor)
    }

    ghost function KeysBefore(i: nat): set<Key>
      requires Valid() && i <= Length()
    {
      set j | 0 <= j < i :: KeyAt(j)
    }
  }

  lemma KeyAtInjective(u: Upload, i: nat, j: nat)
    requires u.Valid() && i < u.Length() && j < u.Length() && u.KeyAt(i) == u.KeyAt(j)
    ensures i == j
  {
    KeysDistinct(u.op, if i == 0 then 0 else i - 1, if j == 0 then u.size else j - 1);
    KeysDistinct(u.op, if j == 0 then 0 else j - 1, if i == 0 then u.size else i - 1);
  }

  /** The server after the first `i` RPCs of `u`, each applied once, from a server that has
      seen none of them and whose next cursor is free. */
  ghost predicate Reached(s0: Server, s: Server, u: Upload, i: nat)
    requires u.Valid() && i <= u.Length()
  {
    && s.seen.Keys == s0.seen.Keys + u.KeysBefore(i)
    && (i == 0 ==> s == s0)
    && (i >= 1 ==> s.next == s0.next + 1 && s.seen[u.KeyAt(0)] == Cursor(s0.next))
    && (1 <= i < u.Length() ==>
        s.blobs == s0.blobs && s0.next in s.open && s.open[s0.next] == Concat(u.Parts()[..i - 1]))
    && (i == u.Length() ==> s.blobs == s0.blobs + [u.data] && s0.next !in s.open
                            && CommitKey(u.op) in s.seen && s.seen[CommitKey(u.op)] == Blob(u.data))
    && (forall c :: c in s0.open ==> c in s.open && s.open[c] == s0.open[c])
    && s.open.Keys <= s0.open.Keys + {s0.next}
  }

  ghost predicate Unused(s0: Server, u: Upload)
    requires u.Valid()
  {
    s0.next !in s0.open && forall i :: 0 <= i < u.Length() ==> u.KeyAt(i) !in s0.seen
  }

  /** A repeated RPC changes nothing. */
  lemma Repeat(s0: Server, s: Server, u: Upload, i: nat, j: nat)
    requires u.Valid() && Unused(s0, u) && i <= u.Length() && Reached(s0, s, u, i) && j < i
    ensures Deliver(s, u.KeyAt(j), u.RpcAt(j, s0.next)) == (s, s.seen[u.KeyAt(j)])
  {
    assert u.KeyAt(j) in u.KeysBefore(i);
  }

  lemma KeysBeforeNext(u: Upload, i: nat)
    requires u.Valid() && i < u.Length()
    ensures u.KeysBefore(i + 1) == u.KeysBefore(i) + {u.KeyAt(i)} && u.KeyAt(i) !in u.KeysBefore(i)
  {
    if u.KeyAt(i) in u.KeysBefore(i) {
      var j :| 0 <= j < i && u.KeyAt(j) == u.KeyAt(i);
      KeyAtInjective(u, i, j);
    }
  }

  /** The next RPC is applied once. */
  lemma Advance(s0: Server, s: Server, u: Upload, i: nat)
    requires u.Valid() && Unused(s0, u) && i < u.Length() && Reached(s0, s, u, i)
    ensures Reached(s0, Deliver(s, u.KeyAt(i), u.RpcAt(i, s0.next)).0, u, i + 1)
  {
    KeysBeforeNext(u, i);
    assert u.KeyAt(i) !in s.seen;
    var t := Deliver(s, u.KeyAt(i), u.RpcAt(i, s0.next)).0;
    assert t.seen.Keys == s.seen.Keys + {u.KeyAt(i)};
    if i == 0 {
      assert u.Parts()[..0] == [];
    } else if i <= |u.Parts()| {
      assert u.Parts()[..i][..i - 1] == u.Parts()[..i - 1];
      KeysDistinct(u.op, i - 1, u.size);
    } else {
      ConcatChunks(u.data, u.size);
      assert u.Parts()[..i - 1] == u.Parts();
      KeysDistinct(u.op, 0, u.size);
    }
  }

  /** The next RPC number not delivered yet, after delivering `schedule` from `reached` on. */
  function ReachedBy(schedule: seq<nat>, reached: nat): nat
  {
    if schedule == [] then reached
    else ReachedBy(schedule[1..], if schedule[0] == reached then reached + 1 else reached)
  }

  /** Any schedule a client and its retries can produce: an RPC may be repeated at any time
      but is first sent only after its predecessor. */
  predicate InOrder(schedule: seq<nat>, reached: nat, total: nat)
  {
    schedule != [] ==>
      && schedule[0] <= reached && schedule[0] < total
      && InOrder(schedule[1..], if schedule[0] == reached then reached + 1 else reached, total)
  }

  function DeliverAll(s: Server, u: Upload, cursor: nat, schedule: seq<nat>): Server
    requires u.Valid() && forall i :: 0 <= i < |schedule| ==> schedule[i] < u.Length()
    decreases |schedule|
  {
    if schedule == [] then s
    else DeliverAll(Deliver(s, u.KeyAt(schedule[0]), u.RpcAt(schedule[0], cursor)).0, u, cursor, schedule[1..])
  }

  /** The requests of a schedule. */
  function Deliveries(u: Upload, cursor: nat, schedule: seq<nat>): (ds: seq<Delivery>)
    requires u.Valid() && forall i :: 0 <= i < |schedule| ==> schedule[i] < u.Length()
    ensures |ds| == |schedule|
  {
    seq(|schedule|, i requires 0 <= i < |schedule| => Delivery(u.KeyAt(schedule[i]), u.RpcAt(schedule[i], cursor)))
  }
  lemma DeliveriesFirst(u: Upload, cursor: nat, schedule: seq<nat>)
    requires u.Valid() && schedule != [] && forall i :: 0 <= i < |schedule| ==> schedule[i] < u.Length()
    ensures var ds := Deliveries(u, cursor, schedule);
      && ds[0] == Delivery(u.KeyAt(schedule[0]), u.RpcAt(schedule[0], cursor))
      && ds[1..] == Deliveries(u, cursor, schedule[1..])
  {
  }

  /** Delivering a schedule is delivering its requests one after another. */
  lemma {:induction false} ScheduleIsRun(s: Server, u: Upload, cursor: nat, schedule: seq<nat>)
    requires u.Valid() && forall i :: 0 <= i < |schedule| ==> schedule[i] < u.Length()
    ensures DeliverAll(s, u, cursor, schedule) == DeliverRun(s, Deliveries(u, cursor, schedule))
    decreases |schedule|
  {
    if schedule != [] {
      DeliveriesFirst(u, cursor, schedule);
      ScheduleIsRun(Deliver(s, u.KeyAt(schedule[0]), u.RpcAt(schedule[0], cursor)).0, u, cursor, schedule[1..]);
    }
  }

  lemma {:induction false} InOrderBounded(schedule: seq<nat>, reached: nat, total: nat)
    requires InOrder(schedule, reached, total) && reached <= total
    ensures forall i :: 0 <= i < |schedule| ==> schedule[i] < total
    ensures reached <= ReachedBy(schedule, reached) <= total
  {
    if schedule != [] {
      InOrderBounded(schedule[1..], if schedule[0] == reached then reached + 1 else reached, total);
    }
  }

  /** Repetition is invisible: only how far the upload got matters. */
  lemma {:induction false} ScheduleReaches(s0: Server, s: Server, u: Upload, schedule: seq<nat>, reached: nat)
    requires u.Valid() && Unused(s0, u) && reached <= u.Length() && Reached(s0, s, u, reached)
    requires InOrder(schedule, reached, u.Length()) && forall i :: 0 <= i < |schedule| ==> schedule[i] < u.Length()
    ensures ReachedBy(schedule, reached) <= u.Length()
    ensures Reached(s0, DeliverAll(s, u, s0.next, schedule), u, ReachedBy(schedule, reached))
    decreases |schedule|
  {
    if schedule != [] {
      if schedule[0] == reached {
        Advance(s0, s, u, reached);
        ScheduleReaches(s0, Deliver(s, u.KeyAt(reached), u.RpcAt(reached, s0.next)).0, u, schedule[1..], reached + 1);
      } else {
        Repeat(s0, s, u, reached, schedule[0]);
        ScheduleReaches(s0, s, u, schedule[1..], reached);
      }
    }
  }

  /** Exactly once: every schedule that gets to the commit stores exactly the archive bytes,
      one time, and every repetition of the commit answers with them. */
  lemma UploadExactlyOnce(s0: Server, u: Upload, schedule: seq<nat>)
    requires u.Valid() && Unused(s0, u) && InOrder(schedule, 0, u.Length())
    requires ReachedBy(schedule, 0) == u.Length()
    ensures forall i :: 0 <= i < |schedule| ==> schedule[i] < u.Length()
    ensures var s := DeliverAll(s0, u, s0.next, schedule);
      s.blobs == s0.blobs + [u.data] && Deliver(s, CommitKey(u.op), Commit(s0.next)) == (s, Blob(u.data))
  {
    InOrderBounded(schedule, 0, u.Length());
    ScheduleReaches(s0, s0, u, schedule, 0);
  }

  // ------------------------------------------- the client, and a retry with another size

  /** The chunk loop of `upload_archive`, from chunk `i` on. */
  function PutFrom(s: Server, op: Key, cursor: nat, parts: seq<Bytes>, i: nat): Server
    requires i <= |parts|
    decreases |parts| - i
  {
    if i == |parts| then s
    else PutFrom(Deliver(s, ChunkKey(op, i), ChunkPut(cursor, parts[i])).0, op, cursor, parts, i + 1)
  }

  /** What a client without lost replies does to the server, and the reply it ends with. */
  function Client(s: Server, u: Upload): (r: (Server, Reply))
    requires u.Valid()
  {
    var (t, begun) := Deliver(s, BeginKey(u.op, u.size), Begin(u.size));
    if !begun.Cursor? then (t, begun)
    else Deliver(PutFrom(t, u.op, begun.id, u.Parts(), 0), CommitKey(u.op), Commit(begun.id))
  }

  class Engine {
    var state: Server

    method Send(key: Key, rpc: Rpc) returns (reply: Reply)
      modifies this
      ensures (state, reply) == Deliver(old(state), key, rpc)
    {
      var r := Deliver(state, key, rpc);
      state := r.0;
      return r.1;
    }
  }

  datatype UploadResult = Uploaded(reply: Reply) | EmptyOperationKey | ChunkSizeOutOfRange

  /** `upload_archive` */
  method UploadArchive(engine: Engine, u: Upload) returns (res: UploadResult)
    modifies engine
    ensures u.op == [] ==> res == EmptyOperationKey && engine.state == old(engine.state)
    ensures u.op != [] && !(1 <= u.size <= 0x7fff_ffff) ==>
              res == ChunkSizeOutOfRange && engine.state == old(engine.state)
    ensures u.op != [] && 1 <= u.size <= 0x7fff_ffff ==>
              res.Uploaded? && (engine.state, res.reply) == Client(old(engine.state), u)
  {
    if u.op == [] {
      return EmptyOperationKey;
    }
    if !(1 <= u.size <= 0x7fff_ffff) {
      return ChunkSizeOutOfRange;
    }
    var begun := engine.Send(BeginKey(u.op, u.size), Begin(u.size));
    if !begun.Cursor? {
      return Uploaded(begun);
    }
    ghost var t := engine.state;
    var parts := u.Parts();
    for ordinal := 0 to |parts|
      invariant PutFrom(t, u.op, begun.id, parts, 0) == PutFrom(engine.state, u.op, begun.id, parts, ordinal)
    {
      var _ := engine.Send(ChunkKey(u.op, ordinal), ChunkPut(begun.id, parts[ordinal]));
    }
    var reply := engine.Send(CommitKey(u.op), Commit(begun.id));
    return Uploaded(reply);
  }

  /** Chunks already delivered under their keys are not delivered again. */
  lemma {:induction false} PutSkips(s: Server, op: Key, cursor: nat, parts: seq<Bytes>, i: nat, j: nat)
    requires i <= j <= |parts| && forall k :: i <= k < j ==> ChunkKey(op, k) in s.seen
    ensures PutFrom(s, op, cursor, parts, i) == PutFrom(s, op, cursor, parts, j)
    decreases j - i
  {
    if i < j { PutSkips(s, op, cursor, parts, i + 1, j); }
  }

  /** Chunks not delivered before are appended to the cursor in order. */
  lemma {:induction false} PutAppends(s: Server, op: Key, cursor: nat, parts: seq<Bytes>, i: nat)
    requires i <= |parts| && cursor in s.open && forall k: nat :: i <= k < |parts| ==> ChunkKey(op, k) !in s.seen
    ensures var t := PutFrom(s, op, cursor, parts, i);
      && cursor in t.open && t.open[cursor] == s.open[cursor] + Concat(parts[i..]) && t.blobs == s.blobs
      && (CommitKey(op) in t.seen <==> CommitKey(op) in s.seen)
      && (CommitKey(op) in s.seen ==> t.seen[CommitKey(op)] == s.seen[CommitKey(op)])
    decreases |parts| - i
  {
    if i == |parts| {
      assert parts[i..] == [] && s.open[cursor] + [] == s.open[cursor];
    } else {
      var t := Deliver(s, ChunkKey(op, i), ChunkPut(cursor, parts[i])).0;
      KeysDistinct(op, i, 0);
      forall k: nat | i + 1 <= k < |parts| ensures ChunkKey(op, k) !in t.seen { KeysDistinct(op, k, i); }
      PutAppends(t, op, cursor, parts, i + 1);
      AppendRest(s.open[cursor], parts, i);
    }
  }

  /** The rest of the chunk loop, from wherever an attempt got to. */
  lemma {:induction false} PutReaches(s0: Server, s: Server, u: Upload, i: nat)
    requires u.Valid() && Unused(s0, u) && 1 <= i <= |u.Parts()| + 1 && Reached(s0, s, u, i)
    ensures Reached(s0, PutFrom(s, u.op, s0.next, u.Parts(), i - 1), u, |u.Parts()| + 1)
    decreases |u.Parts()| - i
  {
    if i <= |u.Parts()| {
      Advance(s0, s, u, i);
      PutReaches(s0, Deliver(s, u.KeyAt(i), u.RpcAt(i, s0.next)).0, u, i + 1);
    }
  }

  /** Which keys of the operation an attempt that made `i` RPCs has used. */
  lemma SeenExactly(s0: Server, s: Server, u: Upload, i: nat, k: nat)
    requires u.Valid() && NewOperation(s0, u.op) && i <= u.Length() && Reached(s0, s, u, i)
    ensures ChunkKey(u.op, k) in s.seen <==> k + 1 < i && k < |u.Parts()|
    ensures CommitKey(u.op) in s.seen <==> i == u.Length()
    ensures BeginKey(u.op, k) in s.seen <==> i >= 1 && k == u.size
  {
    forall j: nat | j < i
      ensures u.KeyAt(j) == ChunkKey(u.op, k) <==> j == k + 1 && k < |u.Parts()|
      ensures u.KeyAt(j) == CommitKey(u.op) <==> j == u.Length() - 1
      ensures u.KeyAt(j) == BeginKey(u.op, k) <==> j == 0 && k == u.size
    {
      KeysDistinct(u.op, if j == 0 then k else j - 1, k);
      KeysDistinct(u.op, k, u.size);
    }
    if i >= 1 { assert u.KeyAt(0) in u.KeysBefore(i); }
    if k + 1 < i && k < |u.Parts()| { assert u.KeyAt(k + 1) in u.KeysBefore(i); }
    if i == u.Length() { assert u.KeyAt(i - 1) in u.KeysBefore(i); }
  }

  /** The server has never heard of the operation, and cursors are numbered upwards. */
  ghost predicate NewOperation(s: Server, op: Key)
  {
    && CommitKey(op) !in s.seen
    && (forall k: nat :: BeginKey(op, k) !in s.seen)
    && (forall k: nat :: ChunkKey(op, k) !in s.seen)
    && (forall c :: c in s.open ==> c < s.next)
  }

  /** A client that finishes commits exactly the archive, whatever an earlier attempt of the same
      operation and chunk size had already delivered. */
  lemma SameSizeCompletes(s0: Server, s: Server, u: Upload, i: nat)
    requires u.Valid() && Unused(s0, u) && i <= u.Length() && Reached(s0, s, u, i)
    ensures var (t, reply) := Client(s, u); reply == Blob(u.data) && t.blobs == s0.blobs + [u.data]
    decreases u.Length() - i
  {
    if i == 0 {
      Advance(s0, s, u, 0);
      SameSizeCompletes(s0, Deliver(s, u.KeyAt(0), Begin(u.size)).0, u, 1);
      Repeat(s0, Deliver(s, u.KeyAt(0), Begin(u.size)).0, u, 1, 0);
    } else {
      Repeat(s0, s, u, i, 0);
      ResumedChunks(s0, s, u, i);
      if i < u.Length() { Advance(s0, PutFrom(s, u.op, s0.next, u.Parts(), 0), u, |u.Parts()| + 1); }
    }
  }

  lemma DeliveredChunk(s0: Server, s: Server, u: Upload, i: nat, k: nat)
    requires u.Valid() && i <= u.Length() && Reached(s0, s, u, i) && k + 1 < i && k < |u.Parts()|
    ensures ChunkKey(u.op, k) in s.seen
  {
    assert u.KeyAt(k + 1) in u.KeysBefore(i);
  }

  /** The chunk loop of a retry: what had arrived is skipped, the rest is sent. */
  lemma ResumedChunks(s0: Server, s: Server, u: Upload, i: nat)
    requires u.Valid() && Unused(s0, u) && 1 <= i <= u.Length() && Reached(s0, s, u, i)
    ensures i < u.Length() ==> Reached(s0, PutFrom(s, u.op, s0.next, u.Parts(), 0), u, |u.Parts()| + 1)
    ensures i == u.Length() ==> PutFrom(s, u.op, s0.next, u.Parts(), 0) == s
  {
    var j := if i < u.Length() then i - 1 else |u.Parts()|;
    forall k | 0 <= k < j ensures ChunkKey(u.op, k) in s.seen { DeliveredChunk(s0, s, u, i, k); }
    PutSkips(s, u.op, s0.next, u.Parts(), 0, j);
    if i < u.Length() { PutReaches(s0, s, u, i); }
  }

  /** A later attempt with another chunk size appends, to a cursor of its own, only the chunks whose
      numbers the first attempt had not used. */
  lemma OtherSizeAppends(s0: Server, s: Server, u: Upload, i: nat, size: nat)
    requires u.Valid() && NewOperation(s0, u.op) && 1 <= i <= u.Length() && Reached(s0, s, u, i)
    requires size >= 1 && size != u.size
    ensures var j := if i <= |u.Parts()| + 1 then i - 1 else |u.Parts()|;
      var retry := u.(size := size);
      var (t, reply) := Client(s, retry);
      if i == u.Length() then reply == Blob(u.data) && t.blobs == s.blobs
      else
        var sent := Concat(retry.Parts()[if j <= |retry.Parts()| then j else |retry.Parts()|..]);
        reply == Blob(sent) && t.blobs == s.blobs + [sent]
  {
    var retry := u.(size := size);
    var parts := retry.Parts();
    var j := if i <= |u.Parts()| + 1 then i - 1 else |u.Parts()|;
    var m := if j <= |parts| then j else |parts|;
    SeenExactly(s0, s, u, i, size);
    var t := Deliver(s, BeginKey(u.op, size), Begin(size)).0;
    var cursor := s.next;
    forall k: nat ensures ChunkKey(u.op, k) in t.seen <==> k < j {
      SeenExactly(s0, s, u, i, k);
      KeysDistinct(u.op, k, size);
    }
    KeysDistinct(u.op, 0, size);
    PutSkips(t, u.op, cursor, parts, 0, m);
    PutAppends(t, u.op, cursor, parts, m);
    assert [] + Concat(parts[m..]) == Concat(parts[m..]);
  }

  lemma LostPrefix(data: Bytes, size: nat, m: nat)
    requires size >= 1 && 1 <= m <= |Chunks(data, size)|
    ensures |Concat(Chunks(data, size)[m..])| < |data|
  {
    ChunksFrom(data, size, m);
    assert m * size >= 1;
  }

  lemma ReachedRetryIff(s0: Server, s: Server, u: Upload, i: nat, size: nat)
    requires u.Valid() && NewOperation(s0, u.op) && i <= u.Length() && Reached(s0, s, u, i) && size >= 1
    ensures var (t, reply) := Client(s, u.(size := size));
      (reply == Blob(u.data) && t.blobs == s0.blobs + [u.data]) <==> size == u.size || i <= 1 || i == u.Length()
  {
    var retry := u.(size := size);
    NewIsUnused(s0, u);
    if size == u.size {
      SameSizeCompletes(s0, s, u, i);
    } else if i == 0 {
      NewIsUnused(s0, retry);
      SameSizeCompletes(s0, s0, retry, 0);
    } else {
      OtherSizeAppends(s0, s, u, i, size);
      if i == 1 {
        ConcatChunks(u.data, size);
        assert retry.Parts()[0..] == retry.Parts();
      } else if i < u.Length() {
        var m := if i - 1 <= |retry.Parts()| then i - 1 else |retry.Parts()|;
        LostPrefix(u.data, size, m);
      }
    }
  }

  lemma NewIsUnused(s0: Server, u: Upload)
    requires u.Valid() && NewOperation(s0, u.op)
    ensures Unused(s0, u)
  {
  }

  /** Retrying an interrupted upload of the same operation with a possibly different chunk size
      commits the archive exactly when the size is the same, or no chunk had been delivered, or the
      first attempt had already committed, however its RPCs were repeated. */
  lemma RetryCommitsIff(s0: Server, u: Upload, schedule: seq<nat>, size: nat)
    requires u.Valid() && NewOperation(s0, u.op) && InOrder(schedule, 0, u.Length()) && size >= 1
    ensures forall i :: 0 <= i < |schedule| ==> schedule[i] < u.Length()
    ensures var i := ReachedBy(schedule, 0);
      var (t, reply) := Client(DeliverAll(s0, u, s0.next, schedule), u.(size := size));
      (reply == Blob(u.data) && t.blobs == s0.blobs + [u.data]) <==> size == u.size || i <= 1 || i == u.Length()
  {
    NewIsUnused(s0, u);
    InOrderBounded(schedule, 0, u.Length());
    ScheduleReaches(s0, s0, u, schedule, 0);
    ReachedRetryIff(s0, DeliverAll(s0, u, s0.next, schedule), u, ReachedBy(schedule, 0), size);
  }

  // ------------------------------------------------------------------ other operations

  ghost predicate OfOperation(key: Key, op: Key)
  {
    || key == CommitKey(op)
    || (exists k: nat :: key == BeginKey(op, k))
    || (exists k: nat :: key == ChunkKey(op, k))
  }

  lemma StaysNew(s: Server, op: Key, key: Key, rpc: Rpc)
    requires NewOperation(s, op) && !OfOperation(key, op)
    ensures NewOperation(Deliver(s, key, rpc).0, op)
  {
  }

  lemma {:induction false} RunStaysNew(s: Server, op: Key, ds: seq<Delivery>)
    requires NewOperation(s, op) && forall d :: d in ds ==> !OfOperation(d.key, op)
    ensures NewOperation(DeliverRun(s, ds), op)
    decreases |ds|
  {
    if ds != [] {
      StaysNew(s, op, ds[0].key, ds[0].rpc);
      RunStaysNew(Deliver(s, ds[0].key, ds[0].rpc).0, op, ds[1..]);
    }
  }

  /** After whatever other operations sent to a fresh server, this one is new to it. */
  lemma OthersLeaveItNew(op: Key, ds: seq<Delivery>)
    requires forall d :: d in ds ==> !OfOperation(d.key, op)
    ensures NewOperation(DeliverRun(FRESH, ds), op)
  {
    RunStaysNew(FRESH, op, ds);
  }

  /** Whatever other operations sent to a fresh server, and however the RPCs of an upload are repeated after that, one
      that reaches its commit stores exactly the archive, once. */
  lemma OnceAmongOthers(ds: seq<Delivery>, u: Upload, schedule: seq<nat>)
    requires u.Valid() && (forall d :: d in ds ==> !OfOperation(d.key, u.op))
    requires InOrder(schedule, 0, u.Length()) && ReachedBy(schedule, 0) == u.Length()
    ensures forall i :: 0 <= i < |schedule| ==> schedule[i] < u.Length()
    ensures var s0 := DeliverRun(FRESH, ds);
      DeliverRun(s0, Deliveries(u, s0.next, schedule)).blobs == s0.blobs + [u.data]
  {
    var s0 := DeliverRun(FRESH, ds);
    OthersLeaveItNew(u.op, ds);
    NewIsUnused(s0, u);
    UploadExactlyOnce(s0, u, schedule);
    ScheduleIsRun(s0, u, s0.next, schedule);
  }
}
