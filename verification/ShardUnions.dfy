/** `list_by_label_union` and `neighbors_union`: every shard deduplicates its own slice, the
    router deduplicates again across shards. */
module ShardUnions {
  import opened Sequences
  import opened ShardRouting

  /** The answers of `graphs` in turn, duplicates included. */
  function Answers<T>(graphs: seq<Graph>, answer: Graph -> seq<T>): (r: seq<T>)
  {
    if graphs == [] then [] else Answers(graphs[..|graphs| - 1], answer) + answer(graphs[|graphs| - 1])
  }

  /** The shard-local union: one shard's answers, first found by id. */
  function ShardUnion<T>(graphs: seq<Graph>, answer: Graph -> seq<T>, id: T -> NodeId): (r: seq<T>)
  {
    DedupOn(Answers(graphs, answer), id)
  }

  lemma {:induction false} AnswersAppend<T>(s: seq<Graph>, t: seq<Graph>, answer: Graph -> seq<T>)
    ensures Answers(s + t, answer) == Answers(s, answer) + Answers(t, answer)
  {
    if t == [] {
      assert s + t == s;
    } else {
      assert (s + t)[..|s + t| - 1] == s + t[..|t| - 1];
      AnswersAppend(s, t[..|t| - 1], answer);
    }
  }

  /** The answers of the groups, one after another, are the answers in scan order. */
  lemma {:induction false} ScanAnswers<T>(r: Router, graphs: seq<Graph>, es: seq<Endpoint>, parts: seq<seq<T>>,
                                          answer: Graph -> seq<T>)
    requires |parts| == |es| && forall i :: 0 <= i < |es| ==> parts[i] == Answers(r.Members(graphs, es[i]), answer)
    ensures Concat(parts) == Answers(Scan(r, graphs, es), answer)
  {
    if es != [] {
      var n := |es| - 1;
      ScanAnswers(r, graphs, es[..n], parts[..n], answer);
      AnswersAppend(Scan(r, graphs, es[..n]), r.Members(graphs, es[n]), answer);
    }
  }

  /** The merged answer: one global deduplication in scan order. */
  function Merged<T>(r: Router, graphs: seq<Graph>, answer: Graph -> seq<T>, id: T -> NodeId): (m: seq<T>)
  {
    DedupOn(Answers(Scan(r, graphs, r.Shards(graphs)), answer), id)
  }

  ghost predicate PerShard<T>(r: Router, graphs: seq<Graph>, es: seq<Endpoint>, parts: seq<seq<T>>,
                              answer: Graph -> seq<T>, id: T -> NodeId)
  {
    |parts| == |es| && forall i :: 0 <= i < |es| ==> parts[i] == ShardUnion(r.Members(graphs, es[i]), answer, id)
  }

  /** Per-shard, then cross-shard deduplication is one global deduplication. */
  lemma ShardThenGlobal<T>(r: Router, graphs: seq<Graph>, perShard: seq<seq<T>>, answer: Graph -> seq<T>,
                           id: T -> NodeId)
    requires PerShard(r, graphs, r.Shards(graphs), perShard, answer, id)
    ensures DedupOn(Concat(perShard), id) == Merged(r, graphs, answer, id)
  {
    var es := r.Shards(graphs);
    var parts := seq(|es|, i requires 0 <= i < |es| => Answers(r.Members(graphs, es[i]), answer));
    DedupTwice(parts, perShard, id);
    ScanAnswers(r, graphs, es, parts, answer);
  }

  /** The limit is compared after each append: zero never stops, a negative limit stops at the first. */
  function Cut<T>(s: seq<T>, limit: int): (r: seq<T>)
  {
    var n := if limit < 0 then 1 else limit;
    if limit == 0 || |s| <= n then s else s[..n]
  }

  /** `_shard_union` on every shard in dictionary order; `asyncio.gather` raises if any does. */
  method CallShards<T>(r: Router, graphs: seq<Graph>, groups: Groups, answer: Graph -> seq<T>, id: T -> NodeId,
                       fails: Endpoint -> bool)
    returns (res: Result<seq<seq<T>>>)
    requires Grouping(r, graphs, groups)
    ensures res.Ok? <==> NoneFail(groups.order, fails)
    ensures res.Ok? ==> PerShard(r, graphs, groups.order, res.value, answer, id)
  {
    var es := groups.order;
    var perShard: seq<seq<T>> := [];
    for i := 0 to |es|
      invariant PerShard(r, graphs, es[..i], perShard, answer, id) && NoneFail(es[..i], fails)
    {
      if fails(es[i]) {
        return Err(ShardFailed);
      }
      perShard := perShard + [ShardUnion(groups.members[es[i]], answer, id)];
    }
    assert es[..|es|] == es;
    return Ok(perShard);
  }

  lemma CutEarly<T>(done: seq<T>, rest: seq<T>, id: T -> NodeId, limit: int)
    requires limit != 0 && |DedupOn(done, id)| == (if limit < 0 then 1 else limit)
    ensures DedupOn(done, id) == Cut(DedupOn(done + rest, id), limit)
  {
    DedupAppend(done, rest, id);
  }

  predicate HasRoom<T>(merged: seq<T>, limit: int) { limit == 0 || merged == [] || |merged| < limit }

  lemma MergeEntry<T>(before: seq<T>, rows: seq<T>, j: nat, id: T -> NodeId)
    requires j < |rows|
    ensures var merged := DedupOn(before + rows[..j], id);
      && (id(rows[j]) in Keys(merged, id) ==> DedupOn(before + rows[..j + 1], id) == merged)
      && (id(rows[j]) !in Keys(merged, id) ==> DedupOn(before + rows[..j + 1], id) == merged + [rows[j]])
      && Keys(merged + [rows[j]], id) == Keys(merged, id) + {id(rows[j])}
  {
    assert before + rows[..j + 1] == (before + rows[..j]) + [rows[j]];
    DedupSnoc(before + rows[..j], rows[j], id);
    DedupKeys(before + rows[..j], id);
    var merged := DedupOn(before + rows[..j], id);
    assert (merged + [rows[j]])[..|merged|] == merged;
  }

  /** The inner merge loop: one shard's rows, after `before` has been merged. */
  method MergeRows<T>(rows: seq<T>, id: T -> NodeId, limit: int, merged0: seq<T>, seen0: set<NodeId>,
                      ghost before: seq<T>)
    returns (merged: seq<T>, seen: set<NodeId>, stop: bool, ghost taken: nat)
    requires merged0 == DedupOn(before, id) && seen0 == Keys(merged0, id) && HasRoom(merged0, limit)
    ensures taken <= |rows| && merged == DedupOn(before + rows[..taken], id)
    ensures !stop ==> taken == |rows| && seen == Keys(merged, id) && HasRoom(merged, limit)
    ensures stop ==> limit != 0 && |merged| == if limit < 0 then 1 else limit
  {
    merged, seen, taken := merged0, seen0, 0;
    assert before + rows[..0] == before;
    for j := 0 to |rows|
      invariant merged == DedupOn(before + rows[..j], id) && seen == Keys(merged, id) && HasRoom(merged, limit)
    {
      var entry := rows[j];
      MergeEntry(before, rows, j, id);
      if id(entry) !in seen {
        seen := seen + {id(entry)};
        merged := merged + [entry];
        if limit != 0 && |merged| >= limit {
          return merged, seen, true, j + 1;
        }
      }
    }
    return merged, seen, false, |rows|;
  }

  /** The merge of both unions; `neighbors_union` never stops early (`limit` 0). */
  method MergeShards<T>(perShard: seq<seq<T>>, id: T -> NodeId, limit: int) returns (merged: seq<T>)
    ensures merged == Cut(DedupOn(Concat(perShard), id), limit)
  {
    var seen: set<NodeId> := {};
    merged := [];
    for i := 0 to |perShard|
      invariant merged == DedupOn(Concat(perShard[..i]), id) && seen == Keys(merged, id) && HasRoom(merged, limit)
    {
      ghost var before, rows := Concat(perShard[..i]), perShard[i];
      var stop;
      ghost var taken;
      merged, seen, stop, taken := MergeRows(perShard[i], id, limit, merged, seen, before);
      if stop {
        ghost var rest := Remaining(perShard, i, taken);
        CutEarly(before + rows[..taken], rest, id, limit);
        return;
      }
      assert rows[..|rows|] == rows && perShard[..i + 1][..i] == perShard[..i];
    }
    assert perShard[..|perShard|] == perShard;
  }

  /** What is left to merge when the merge stops inside shard `i`. */
  lemma Remaining<T>(perShard: seq<seq<T>>, i: nat, taken: nat) returns (rest: seq<T>)
    requires i < |perShard| && taken <= |perShard[i]|
    ensures Concat(perShard) == (Concat(perShard[..i]) + perShard[i][..taken]) + rest
  {
    ConcatSplit(perShard, i);
    rest := Reassociate(Concat(perShard[..i]), perShard[i], Concat(perShard[i + 1..]), taken);
  }

  lemma Reassociate<T>(before: seq<T>, rows: seq<T>, after: seq<T>, taken: nat) returns (rest: seq<T>)
    requires taken <= |rows|
    ensures before + rows + after == (before + rows[..taken]) + rest
  {
    rest := rows[taken..] + after;
  }

  lemma ConcatSplit<T>(ss: seq<seq<T>>, i: nat)
    requires i < |ss|
    ensures Concat(ss) == Concat(ss[..i]) + ss[i] + Concat(ss[i + 1..])
  {
    assert ss == ss[..i + 1] + ss[i + 1..] && ss[..i + 1][..i] == ss[..i];
    ConcatAppend(ss[..i + 1], ss[i + 1..]);
  }

  type Row = (NodeId, Props)
  function RowId(row: Row): NodeId { row.0 }
  function SelfId(id: NodeId): NodeId { id }

  /** `list_by_label_union` */
  method ListByLabelUnion(r: Router, graphs: seq<Graph>, rows: Graph -> seq<Row>, limit: int, fails: Endpoint -> bool)
    returns (res: Result<seq<Row>>)
    ensures res.Ok? <==> AllRoutable(r, graphs) && AllUp(r, graphs, fails)
    ensures res.Ok? ==> res.value == Cut(Merged(r, graphs, rows, RowId), limit)
  {
    var grouped := GroupByShard(r, graphs);
    if grouped.Err? {
      return Err(grouped.error);
    }
    var perShard := CallShards(r, graphs, grouped.value, rows, RowId, fails);
    GatheredShards(r, graphs, grouped.value.order, fails);
    if perShard.Err? {
      return Err(perShard.error);
    }
    var merged := MergeShards(perShard.value, RowId, limit);
    ShardThenGlobal(r, graphs, perShard.value, rows, RowId);
    return Ok(merged);
  }

  /** `neighbors_union` */
  method NeighborsUnion(r: Router, graphs: seq<Graph>, neighbors: Graph -> seq<NodeId>, fails: Endpoint -> bool)
    returns (res: Result<seq<NodeId>>)
    ensures res.Ok? <==> AllRoutable(r, graphs) && AllUp(r, graphs, fails)
    ensures res.Ok? ==> res.value == Merged(r, graphs, neighbors, SelfId)
  {
    var grouped := GroupByShard(r, graphs);
    if grouped.Err? {
      return Err(grouped.error);
    }
    var perShard := CallShards(r, graphs, grouped.value, neighbors, SelfId, fails);
    GatheredShards(r, graphs, grouped.value.order, fails);
    if perShard.Err? {
      return Err(perShard.error);
    }
    var merged := MergeShards(perShard.value, SelfId, 0);
    ShardThenGlobal(r, graphs, perShard.value, neighbors, SelfId);
    return Ok(merged);
  }

  // ----------------------------------------------------- independence of placement

  lemma {:induction false} AnswerIds<T>(graphs: seq<Graph>, answer: Graph -> seq<T>, id: T -> NodeId, k: NodeId)
    ensures k in Keys(Answers(graphs, answer), id) <==> exists g :: g in graphs && k in Keys(answer(g), id)
  {
    if graphs != [] {
      var init, last := graphs[..|graphs| - 1], graphs[|graphs| - 1];
      AnswerIds(init, answer, id, k);
      KeysAppend(Answers(init, answer), answer(last), id);
      assert graphs == init + [last];
    }
  }

  /** The merged ids are exactly the ids some listed graph answers with, each once. */
  lemma MergedIds<T>(r: Router, graphs: seq<Graph>, answer: Graph -> seq<T>, id: T -> NodeId)
    ensures forall k :: k in Keys(Merged(r, graphs, answer, id), id) <==>
              exists g :: g in graphs && k in Keys(answer(g), id)
    ensures Distinct(Map(Merged(r, graphs, answer, id), id))
  {
    var scan := Scan(r, graphs, r.Shards(graphs));
    DedupKeys(Answers(scan, answer), id);
    DedupDistinct(Answers(scan, answer), id);
    ShardsAre(r, graphs);
    forall g ensures g in scan <==> g in graphs { ScanMember(r, graphs, r.Shards(graphs), g); }
    forall k ensures k in Keys(Answers(scan, answer), id) <==> exists g :: g in graphs && k in Keys(answer(g), id) {
      AnswerIds(scan, answer, id, k);
    }
  }

  /** Moving graphs between shards never changes which ids a union returns, nor how many. */
  lemma PlacementIndependent<T>(r: Router, r': Router, graphs: seq<Graph>, answer: Graph -> seq<T>, id: T -> NodeId)
    ensures Keys(Merged(r, graphs, answer, id), id) == Keys(Merged(r', graphs, answer, id), id)
    ensures |Merged(r, graphs, answer, id)| == |Merged(r', graphs, answer, id)|
  {
    MergedIds(r, graphs, answer, id);
    MergedIds(r', graphs, answer, id);
    DedupKeys(Answers(Scan(r, graphs, r.Shards(graphs)), answer), id);
    DedupKeys(Answers(Scan(r', graphs, r'.Shards(graphs)), answer), id);
  }

  /** With a positive limit the answer is cut to the smaller of the limit and the distinct ids. */
  lemma LimitedLength<T>(r: Router, graphs: seq<Graph>, answer: Graph -> seq<T>, id: T -> NodeId, limit: int)
    requires limit > 0
    ensures var all := Keys(Answers(graphs, answer), id);
      |Cut(Merged(r, graphs, answer, id), limit)| == if |all| < limit then |all| else limit
    ensures Cut(Merged(r, graphs, answer, id), limit) <= Merged(r, graphs, answer, id)
  {
    MergedIds(r, graphs, answer, id);
    DedupKeys(Answers(Scan(r, graphs, r.Shards(graphs)), answer), id);
    forall k ensures k in Keys(Answers(graphs, answer), id) <==> k in Keys(Merged(r, graphs, answer, id), id) {
      AnswerIds(graphs, answer, id, k);
    }
    assert Keys(Answers(graphs, answer), id) == Keys(Merged(r, graphs, answer, id), id);
  }
}
