/** When a sharded union returns exactly what the unsharded union returns: the same rows, values included, in the
    same order. */
module UnionOrder {
  import opened Sequences
  import opened ShardRouting
  import opened ShardUnions

  /** The answers of all listed graphs in the caller's order, first found by id: the union on one shard. */
  function Unsharded<T>(graphs: seq<Graph>, answer: Graph -> seq<T>, id: T -> NodeId): (r: seq<T>)
  {
    DedupOn(Answers(graphs, answer), id)
  }

  /** The graphs of a list, each where it is listed first. */
  function Firsts(s: seq<Graph>): seq<Graph> { DedupOn(s, SelfId) }

  // ------------------------------------------------------ only first listings matter

  lemma {:induction false} UnseenNone<T>(s: seq<T>, id: T -> NodeId, seen: set<NodeId>)
    requires Keys(s, id) <= seen
    ensures Unseen(s, id, seen) == []
  {
    if s != [] { UnseenNone(s[..|s| - 1], id, seen); }
  }

  lemma {:induction false} SelfKeys(s: seq<Graph>, g: Graph)
    ensures g in Keys(s, SelfId) <==> g in s
  {
    if s != [] {
      SelfKeys(s[..|s| - 1], g);
      assert s == s[..|s| - 1] + [s[|s| - 1]];
    }
  }

  lemma {:induction false} AnswerKeys<T>(s: seq<Graph>, answer: Graph -> seq<T>, id: T -> NodeId, g: Graph)
    requires g in s
    ensures Keys(answer(g), id) <= Keys(Answers(s, answer), id)
  {
    var init, last := s[..|s| - 1], s[|s| - 1];
    KeysAppend(Answers(init, answer), answer(last), id);
    if g != last { AnswerKeys(init, answer, id, g); }
  }

  lemma {:induction false} RepeatsAddNothing<T>(s: seq<Graph>, answer: Graph -> seq<T>, id: T -> NodeId)
    ensures Unsharded(s, answer, id) == Unsharded(Firsts(s), answer, id)
  {
    if s != [] {
      var init, g := s[..|s| - 1], s[|s| - 1];
      var a, b := Answers(init, answer), Answers(Firsts(init), answer);
      RepeatsAddNothing(init, answer, id);
      DedupAppend(a, answer(g), id);
      SelfKeys(init, g);
      DedupKeys(init, SelfId);
      DedupKeys(a, id);
      DedupKeys(b, id);
      if g in init {
        AnswerKeys(init, answer, id, g);
        DedupKeys(answer(g), id);
        UnseenNone(DedupOn(answer(g), id), id, Keys(a, id));
      } else {
        DedupAppend(b, answer(g), id);
        assert (Firsts(init) + [g])[..|Firsts(init)|] == Firsts(init);
      }
    }
  }

  // -------------------------------------------------------- order of first listings

  lemma FirstsMember(s: seq<Graph>, g: Graph)
    ensures g in Firsts(s) <==> g in s
  {
    DedupKeys(s, SelfId);
    SelfKeys(s, g);
    SelfKeys(Firsts(s), g);
  }

  lemma FirstsSnoc(s: seq<Graph>, g: Graph)
    ensures Firsts(s + [g]) == if g in s then Firsts(s) else Firsts(s) + [g]
  {
    assert (s + [g])[..|s|] == s;
    DedupKeys(s, SelfId);
    SelfKeys(s, g);
  }

  /** Where an element is listed first, before and after one more listing, in a list and in its first listings. */
  lemma FirstsIndexSnoc(s: seq<Graph>, g: Graph, a: Graph)
    requires a in s + [g]
    ensures FirstIndex(s + [g], a) == if a in s then FirstIndex(s, a) else |s|
    ensures FirstIndex(Firsts(s + [g]), a) == if a in s then FirstIndex(Firsts(s), a) else |Firsts(s)|
  {
    FirstsSnoc(s, g);
    FirstsMember(s, a);
    FirstIndexConcat(s, [g], a);
    FirstIndexConcat(Firsts(s), [g], a);
  }

  lemma {:induction false} FirstsOrder(s: seq<Graph>, a: Graph, b: Graph)
    requires a in s && b in s
    ensures a in Firsts(s) && b in Firsts(s)
    ensures FirstIndex(s, a) < FirstIndex(s, b) <==> FirstIndex(Firsts(s), a) < FirstIndex(Firsts(s), b)
  {
    var init, g := s[..|s| - 1], s[|s| - 1];
    assert s == init + [g];
    FirstsIndexSnoc(init, g, a);
    FirstsIndexSnoc(init, g, b);
    FirstsMember(s, a);
    FirstsMember(s, b);
    FirstsMember(init, a);
    FirstsMember(init, b);
    if a in init && b in init { FirstsOrder(init, a, b); }
  }

  lemma {:induction false} MapSelf(s: seq<Graph>)
    ensures Map(s, SelfId) == s
  {
    if s != [] { MapSelf(s[..|s| - 1]); }
  }

  lemma FirstsDistinct(s: seq<Graph>)
    ensures Distinct(Firsts(s))
  {
    DedupDistinct(s, SelfId);
    MapSelf(Firsts(s));
  }

  /** Duplicate-free lists that order their elements alike are equal. */
  lemma {:induction false} SameOrderEqual(s: seq<Graph>, t: seq<Graph>)
    requires Distinct(s) && Distinct(t) && SameOrder(s, t)
    ensures s == t
  {
    SameLength(s, t);
    forall i | 0 <= i < |s| ensures s[i] == t[i] { PositionSame(s, t, i); }
  }

  lemma {:induction false} PositionSame(s: seq<Graph>, t: seq<Graph>, i: nat)
    requires Distinct(s) && Distinct(t) && SameOrder(s, t) && |s| == |t| && i < |s|
    ensures s[i] == t[i]
  {
    forall j | 0 <= j < i ensures s[j] == t[j] { PositionSame(s, t, j); }
    var p, q := FirstIndex(t, s[i]), FirstIndex(s, t[i]);
    assert s[i] in t && t[i] in s;
    DistinctIndex(s, i);
    DistinctIndex(t, i);
    assert p >= i && q >= i;
    assert FirstIndex(t, t[i]) < p <==> q < FirstIndex(s, s[i]);
  }

  lemma SameOrderFirsts(s: seq<Graph>, t: seq<Graph>)
    ensures SameOrder(s, t) <==> Firsts(s) == Firsts(t)
  {
    forall g
      ensures (g in Firsts(s) <==> g in s) && (g in Firsts(t) <==> g in t)
    {
      FirstsMember(s, g);
      FirstsMember(t, g);
    }
    if SameOrder(s, t) {
      forall a, b | a in Firsts(s) && b in Firsts(s)
        ensures FirstIndex(Firsts(s), a) < FirstIndex(Firsts(s), b) <==>
                  FirstIndex(Firsts(t), a) < FirstIndex(Firsts(t), b)
      {
        FirstsOrder(s, a, b);
        FirstsOrder(t, a, b);
      }
      FirstsDistinct(s);
      FirstsDistinct(t);
      SameOrderEqual(Firsts(s), Firsts(t));
    }
    if Firsts(s) == Firsts(t) {
      forall a, b | a in s && b in s
        ensures FirstIndex(s, a) < FirstIndex(s, b) <==> FirstIndex(t, a) < FirstIndex(t, b)
      {
        FirstsOrder(s, a, b);
        FirstsOrder(t, a, b);
      }
    }
  }

  // ------------------------------------------------------------- the router's order

  /** The shard of each listed graph. */
  function ShardList(r: Router, graphs: seq<Graph>): (es: seq<Endpoint>)
    ensures |es| == |graphs| && forall i :: 0 <= i < |graphs| ==> es[i] == r.Shard(graphs[i])
  {
    if graphs == [] then [] else ShardList(r, graphs[..|graphs| - 1]) + [r.Shard(graphs[|graphs| - 1])]
  }

  lemma {:induction false} ShardsAreFirsts(r: Router, graphs: seq<Graph>)
    ensures r.Shards(graphs) == Firsts(ShardList(r, graphs))
  {
    if graphs != [] {
      var init, e := graphs[..|graphs| - 1], r.Shard(graphs[|graphs| - 1]);
      ShardsAreFirsts(r, init);
      assert ShardList(r, graphs)[..|init|] == ShardList(r, init);
      SelfKeys(Firsts(ShardList(r, init)), e);
    }
  }

  /** The first listed graph on the shard of `g`. */
  lemma Leader(r: Router, graphs: seq<Graph>, g: Graph) returns (h: Graph)
    requires g in graphs
    ensures r.Shard(g) in ShardList(r, graphs)
    ensures h in graphs && r.Shard(h) == r.Shard(g)
    ensures FirstIndex(graphs, h) == FirstIndex(ShardList(r, graphs), r.Shard(g))
    ensures FirstIndex(graphs, h) <= FirstIndex(graphs, g)
  {
    var es, k := ShardList(r, graphs), FirstIndex(graphs, g);
    assert es[k] == r.Shard(g);
    var lead := FirstIndex(es, r.Shard(g));
    h := graphs[lead];
    assert forall j :: 0 <= j < lead ==> es[j] != r.Shard(g);
    FirstIndexIs(graphs, h, lead);
  }

  /** One graph is scanned before another when its shard is named first, or it comes first within the shard. */
  lemma UnionBefore(r: Router, graphs: seq<Graph>, a: Graph, b: Graph)
    requires a in graphs && b in graphs
    ensures var scan, es := Scan(r, graphs, r.Shards(graphs)), ShardList(r, graphs);
      FirstIndex(scan, a) < FirstIndex(scan, b) <==>
      || FirstIndex(es, r.Shard(a)) < FirstIndex(es, r.Shard(b))
      || (r.Shard(a) == r.Shard(b) && FirstIndex(graphs, a) < FirstIndex(graphs, b))
  {
    var _ := Leader(r, graphs, a);
    var _ := Leader(r, graphs, b);
    ShardsAreFirsts(r, graphs);
    ShardsAre(r, graphs);
    FirstsOrder(ShardList(r, graphs), r.Shard(a), r.Shard(b));
    ScanBefore(r, graphs, r.Shards(graphs), a, b);
  }

  /** By first listings, no graph stands between two graphs of another shard. */
  ghost predicate FirstContiguous(r: Router, graphs: seq<Graph>)
  {
    forall a, b, c :: !Splits(r, graphs, a, b, c)
  }

  predicate Splits(r: Router, graphs: seq<Graph>, a: Graph, b: Graph, c: Graph)
  {
    && a in graphs && b in graphs && c in graphs && r.Shard(a) == r.Shard(c) != r.Shard(b)
    && FirstIndex(graphs, a) < FirstIndex(graphs, b) < FirstIndex(graphs, c)
  }

  lemma LeadersInOrder(r: Router, graphs: seq<Graph>, a: Graph, b: Graph)
    requires FirstContiguous(r, graphs) && a in graphs && b in graphs && FirstIndex(graphs, a) < FirstIndex(graphs, b)
    requires r.Shard(a) != r.Shard(b)
    ensures FirstIndex(ShardList(r, graphs), r.Shard(a)) < FirstIndex(ShardList(r, graphs), r.Shard(b))
  {
    var a0 := Leader(r, graphs, a);
    var b0 := Leader(r, graphs, b);
    assert !Splits(r, graphs, b0, a, b);
  }

  lemma ContiguousBefore(r: Router, graphs: seq<Graph>, a: Graph, b: Graph)
    requires FirstContiguous(r, graphs) && a in graphs && b in graphs && FirstIndex(graphs, a) < FirstIndex(graphs, b)
    ensures FirstIndex(Scan(r, graphs, r.Shards(graphs)), a) < FirstIndex(Scan(r, graphs, r.Shards(graphs)), b)
  {
    if r.Shard(a) != r.Shard(b) { LeadersInOrder(r, graphs, a, b); }
    UnionBefore(r, graphs, a, b);
  }

  lemma {:induction false} ScanHas(r: Router, graphs: seq<Graph>, g: Graph)
    ensures g in Scan(r, graphs, r.Shards(graphs)) <==> g in graphs
  {
    ShardsAre(r, graphs);
    ScanMember(r, graphs, r.Shards(graphs), g);
  }

  lemma ScanSameOrderIff(r: Router, graphs: seq<Graph>)
    ensures SameOrder(Scan(r, graphs, r.Shards(graphs)), graphs) <==> FirstContiguous(r, graphs)
  {
    var scan := Scan(r, graphs, r.Shards(graphs));
    forall g ensures g in scan <==> g in graphs { ScanHas(r, graphs, g); }
    if FirstContiguous(r, graphs) {
      forall a, b | a in scan && b in scan
        ensures FirstIndex(scan, a) < FirstIndex(scan, b) <==> FirstIndex(graphs, a) < FirstIndex(graphs, b)
      {
        if FirstIndex(graphs, a) < FirstIndex(graphs, b) {
          ContiguousBefore(r, graphs, a, b);
        } else if a != b {
          assert FirstIndex(graphs, a) != FirstIndex(graphs, b);
          ContiguousBefore(r, graphs, b, a);
        }
      }
    }
    if SameOrder(scan, graphs) {
      forall a, b, c ensures !Splits(r, graphs, a, b, c) {
        if a in graphs && b in graphs && c in graphs {
          UnionBefore(r, graphs, a, b);
          UnionBefore(r, graphs, b, c);
        }
      }
    }
  }

  // ----------------------------------------------------------------- the two unions

  /** Lists with the same first listings have the same union, whatever the graphs answer. */
  lemma SameFirstsSameUnion<T>(s: seq<Graph>, t: seq<Graph>, answer: Graph -> seq<T>, id: T -> NodeId)
    requires Firsts(s) == Firsts(t)
    ensures Unsharded(s, answer, id) == Unsharded(t, answer, id)
  {
    RepeatsAddNothing(s, answer, id);
    RepeatsAddNothing(t, answer, id);
  }

  /** Every graph answers with a node of its own name. */
  function OwnName(g: Graph): seq<NodeId> { [g] }

  lemma {:induction false} OwnNames(s: seq<Graph>)
    ensures Answers(s, OwnName) == s
  {
    if s != [] {
      OwnNames(s[..|s| - 1]);
      assert s == s[..|s| - 1] + [s[|s| - 1]];
    }
  }

  /** Only `a` and `b` answer, each with a row of its own name. */
  function PairRows(a: Graph, b: Graph): Graph -> seq<Row>
  {
    g => if g == a || g == b then [(g, "")] else []
  }

  lemma {:induction false} NoPairRows(s: seq<Graph>, a: Graph, b: Graph)
    requires a !in s && b !in s
    ensures Answers(s, PairRows(a, b)) == []
  {
    if s != [] { NoPairRows(s[..|s| - 1], a, b); }
  }

  lemma {:induction false} DedupHead<T>(s: seq<T>, id: T -> NodeId)
    requires s != []
    ensures DedupOn(s, id) != [] && DedupOn(s, id)[0] == s[0]
  {
    if |s| > 1 { DedupHead(s[..|s| - 1], id); }
  }

  /** Of two graphs that answer, the one listed first gives the first row. */
  lemma {:induction false} PairAnswers(s: seq<Graph>, a: Graph, b: Graph)
    requires a in s && b in s && FirstIndex(s, a) < FirstIndex(s, b)
    ensures Answers(s, PairRows(a, b)) != [] && Answers(s, PairRows(a, b))[0] == (a, "")
  {
    var init, g := s[..|s| - 1], s[|s| - 1];
    assert s == init + [g];
    FirstIndexConcat(init, [g], a);
    FirstIndexConcat(init, [g], b);
    if b in init {
      PairAnswers(init, a, b);
    } else {
      OneAnswers(init, a, b);
    }
  }

  lemma {:induction false} OneAnswers(s: seq<Graph>, a: Graph, b: Graph)
    requires a in s && b !in s
    ensures Answers(s, PairRows(a, b)) != [] && Answers(s, PairRows(a, b))[0] == (a, "")
  {
    var init := s[..|s| - 1];
    if a in init { OneAnswers(init, a, b); } else { NoPairRows(init, a, b); }
  }

  lemma {:induction false} SwapPair(s: seq<Graph>, a: Graph, b: Graph)
    ensures Answers(s, PairRows(a, b)) == Answers(s, PairRows(b, a))
  {
    if s != [] { SwapPair(s[..|s| - 1], a, b); }
  }

  /** Lists that meet two graphs in different orders begin their unions differently, so every limit shows it. */
  lemma InvertedPair(s: seq<Graph>, t: seq<Graph>, a: Graph, b: Graph, limit: int)
    requires a in s && b in s && a in t && b in t
    requires FirstIndex(s, a) < FirstIndex(s, b) && FirstIndex(t, b) < FirstIndex(t, a)
    ensures Cut(Unsharded(s, PairRows(a, b), RowId), limit) != Cut(Unsharded(t, PairRows(a, b), RowId), limit)
  {
    SwapPair(t, a, b);
    PairAnswers(s, a, b);
    PairAnswers(t, b, a);
    DedupHead(Answers(s, PairRows(a, b)), RowId);
    DedupHead(Answers(t, PairRows(a, b)), RowId);
  }

  /** Lists of the same graphs that are not in the same order meet two of them in opposite orders. */
  lemma Inversion(s: seq<Graph>, t: seq<Graph>) returns (a: Graph, b: Graph)
    requires !SameOrder(s, t) && forall g :: g in s <==> g in t
    ensures a in s && b in s && FirstIndex(s, a) < FirstIndex(s, b) && FirstIndex(t, b) < FirstIndex(t, a)
  {
    a, b :| a in s && b in s && !(FirstIndex(s, a) < FirstIndex(s, b) <==> FirstIndex(t, a) < FirstIndex(t, b));
    assert a != b;
    assert FirstIndex(s, a) != FirstIndex(s, b) && FirstIndex(t, a) != FirstIndex(t, b);
    if FirstIndex(t, a) < FirstIndex(t, b) { a, b := b, a; }
  }

  /** With any limit, the label union equals the unsharded one for all contents, rows and order included, exactly
      when by first listings each shard's graphs are contiguous. */
  lemma LabelUnionFaithfulIff(r: Router, graphs: seq<Graph>, limit: int)
    ensures (forall rows: Graph -> seq<Row> ::
               Cut(Merged(r, graphs, rows, RowId), limit) == Cut(Unsharded(graphs, rows, RowId), limit))
       <==> FirstContiguous(r, graphs)
  {
    var scan := Scan(r, graphs, r.Shards(graphs));
    ScanSameOrderIff(r, graphs);
    SameOrderFirsts(scan, graphs);
    if FirstContiguous(r, graphs) {
      forall rows: Graph -> seq<Row> ensures Merged(r, graphs, rows, RowId) == Unsharded(graphs, rows, RowId) {
        SameFirstsSameUnion(scan, graphs, rows, RowId);
      }
    } else {
      forall g ensures g in scan <==> g in graphs { ScanHas(r, graphs, g); }
      var a, b := Inversion(scan, graphs);
      InvertedPair(scan, graphs, a, b, limit);
      assert Merged(r, graphs, PairRows(a, b), RowId) == Unsharded(scan, PairRows(a, b), RowId);
    }
  }

  /** The same for the neighbour union. */
  lemma NeighborsUnionFaithfulIff(r: Router, graphs: seq<Graph>)
    ensures (forall neighbors: Graph -> seq<NodeId> ::
               Merged(r, graphs, neighbors, SelfId) == Unsharded(graphs, neighbors, SelfId))
       <==> FirstContiguous(r, graphs)
  {
    var scan := Scan(r, graphs, r.Shards(graphs));
    ScanSameOrderIff(r, graphs);
    SameOrderFirsts(scan, graphs);
    if FirstContiguous(r, graphs) {
      forall neighbors: Graph -> seq<NodeId>
        ensures Merged(r, graphs, neighbors, SelfId) == Unsharded(graphs, neighbors, SelfId)
      {
        SameFirstsSameUnion(scan, graphs, neighbors, SelfId);
      }
    } else {
      OwnNames(scan);
      OwnNames(graphs);
      assert Merged(r, graphs, OwnName, SelfId) != Unsharded(graphs, OwnName, SelfId);
    }
  }
}
