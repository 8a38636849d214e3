/** Scatter-gather unions of `ShardRouter` (`medulla/pool.py`): graphs are grouped by the
    endpoint the placement authority names, each shard answers for its group, and the
    router merges the answers. */
module ShardRouting {
  import opened Basics
  import opened Sequences

  type Graph = string
  type Endpoint = string
  type NodeId = string
  type Props = string

  datatype Error = UnconfiguredEndpoint | ShardFailed
  datatype Result<+T> = Ok(value: T) | Err(error: Error)

  /** `resolve` is the placement authority; it is not consulted when there is one endpoint. */
  datatype Router = Router(endpoints: seq<Endpoint>, resolve: Graph -> Endpoint)
  {
    function Shard(g: Graph): Endpoint
    {
      if |endpoints| == 1 then endpoints[0] else resolve(g)
    }

    predicate Routable(g: Graph) { Shard(g) in endpoints }

    /** The graphs of the list that live on `e`, in list order. */
    function Members(graphs: seq<Graph>, e: Endpoint): seq<Graph>
    {
      Filter(graphs, g => Shard(g) == e)
    }

    /** The shards of the list in order of first appearance. */
    function Shards(graphs: seq<Graph>): seq<Endpoint>
    {
      if graphs == [] then []
      else
        var es, e := Shards(graphs[..|graphs| - 1]), Shard(graphs[|graphs| - 1]);
        if e in es then es else es + [e]
    }
  }

  /** A Python dictionary from shard to group: insertion order plus lookup. */
  datatype Groups = Groups(order: seq<Endpoint>, members: map<Endpoint, seq<Graph>>)

  ghost predicate Grouping(r: Router, graphs: seq<Graph>, g: Groups)
  {
    && g.order == r.Shards(graphs)
    && (forall e :: e in g.members <==> e in g.order)
    && (forall e :: e in g.members ==> g.members[e] == r.Members(graphs, e))
  }

  lemma {:induction false} MembersSnoc(r: Router, graphs: seq<Graph>, x: Graph, e: Endpoint)
    ensures r.Members(graphs + [x], e) == if r.Shard(x) == e then r.Members(graphs, e) + [x] else r.Members(graphs, e)
  {
    assert (graphs + [x])[..|graphs|] == graphs;
  }

  lemma {:induction false} ShardsAre(r: Router, graphs: seq<Graph>)
    ensures Distinct(r.Shards(graphs))
    ensures forall e :: e in r.Shards(graphs) <==> exists i :: 0 <= i < |graphs| && r.Shard(graphs[i]) == e
  {
    if graphs != [] {
      ShardsAre(r, graphs[..|graphs| - 1]);
    }
  }

  lemma {:induction false} NoMembers(r: Router, graphs: seq<Graph>, e: Endpoint)
    requires e !in r.Shards(graphs)
    ensures r.Members(graphs, e) == []
  {
    if graphs != [] { NoMembers(r, graphs[..|graphs| - 1], e); }
  }

  /** `groups.setdefault(ep, []).append(name)` */
  function Append(g: Groups, ep: Endpoint, name: Graph): (h: Groups)
    requires forall e :: e in g.members <==> e in g.order
  {
    if ep in g.members then g.(members := g.members[ep := g.members[ep] + [name]])
    else Groups(g.order + [ep], g.members[ep := [name]])
  }

  lemma AppendGroups(r: Router, graphs: seq<Graph>, name: Graph, g: Groups)
    requires Grouping(r, graphs, g)
    ensures Grouping(r, graphs + [name], Append(g, r.Shard(name), name))
  {
    assert (graphs + [name])[..|graphs|] == graphs;
    forall e ensures r.Members(graphs + [name], e) ==
                     if r.Shard(name) == e then r.Members(graphs, e) + [name] else r.Members(graphs, e)
    {
      MembersSnoc(r, graphs, name, e);
    }
    if r.Shard(name) !in g.members { NoMembers(r, graphs, r.Shard(name)); }
  }

  lemma {:induction false} FilterAll<T>(s: seq<T>, p: T -> bool)
    requires forall x :: x in s ==> p(x)
    ensures Filter(s, p) == s
  {
    if s != [] {
      FilterAll(s[..|s| - 1], p);
      assert s == s[..|s| - 1] + [s[|s| - 1]];
    }
  }

  lemma {:induction false} FilterSame<T>(s: seq<T>, p: T -> bool, q: T -> bool)
    requires forall x :: x in s ==> p(x) == q(x)
    ensures Filter(s, p) == Filter(s, q)
  {
    if s != [] { FilterSame(s[..|s| - 1], p, q); }
  }

  /** With one endpoint all graphs are its own; with several, each shard has those the authority sends there. */
  lemma ResolvedMembers(r: Router, graphs: seq<Graph>, e: Endpoint)
    ensures |r.endpoints| == 1 && e == r.endpoints[0] ==> r.Members(graphs, e) == graphs
    ensures |r.endpoints| != 1 ==> r.Members(graphs, e) == Filter(graphs, g => r.resolve(g) == e)
  {
    if |r.endpoints| == 1 {
      if e == r.endpoints[0] { FilterAll(graphs, g => r.Shard(g) == e); }
    } else {
      FilterSame(graphs, g => r.Shard(g) == e, g => r.resolve(g) == e);
    }
  }

  /** `group_by_shard`. */
  method GroupByShard(r: Router, graphs: seq<Graph>) returns (res: Result<Groups>)
    ensures res.Ok? <==> AllRoutable(r, graphs)
    ensures res.Ok? <==> |r.endpoints| == 1 || forall i :: 0 <= i < |graphs| ==> r.resolve(graphs[i]) in r.endpoints
    ensures res.Ok? ==> Grouping(r, graphs, res.value)
    ensures res.Ok? ==> forall e :: e in res.value.members ==>
              res.value.members[e] == if |r.endpoints| == 1 then graphs else Filter(graphs, g => r.resolve(g) == e)
    ensures res.Err? ==> res.error == UnconfiguredEndpoint
  {
    var groups := Groups([], map[]);
    for i := 0 to |graphs|
      invariant forall j :: 0 <= j < i ==> r.Routable(graphs[j])
      invariant Grouping(r, graphs[..i], groups)
    {
      var ep := r.Shard(graphs[i]);
      if ep !in r.endpoints {
        return Err(UnconfiguredEndpoint);
      }
      assert graphs[..i + 1] == graphs[..i] + [graphs[i]];
      AppendGroups(r, graphs[..i], graphs[i], groups);
      groups := Append(groups, ep, graphs[i]);
    }
    assert graphs[..|graphs|] == graphs;
    ShardsAre(r, graphs);
    forall e | e in groups.members
      ensures groups.members[e] == if |r.endpoints| == 1 then graphs else Filter(graphs, g => r.resolve(g) == e)
    {
      ResolvedMembers(r, graphs, e);
    }
    return Ok(groups);
  }

  // ------------------------------------------------------------- properties_union

  /** What one graph holds for the node under query; a missing graph holds nothing. */
  type Hits = Graph -> Option<Props>

  /** First non-null hit: the union of one shard over its group, and the unsharded answer. */
  function First(graphs: seq<Graph>, hits: Hits): (p: Option<Props>)
  {
    if graphs == [] then None
    else if hits(graphs[0]).Some? then hits(graphs[0])
    else First(graphs[1..], hits)
  }

  /** The position `order` gives a name: the last one, when it is listed more than once. */
  function LastIndex(graphs: seq<Graph>, g: Graph): (i: nat)
    requires g in graphs
    ensures i < |graphs| && graphs[i] == g
    ensures forall j :: i < j < |graphs| ==> graphs[j] != g
  {
    if graphs[|graphs| - 1] == g then |graphs| - 1 else LastIndex(graphs[..|graphs| - 1], g)
  }

  /** `min(order[g] for g in group)` */
  function MinLast(graphs: seq<Graph>, group: seq<Graph>): (k: nat)
    requires group != [] && forall g :: g in group ==> g in graphs
    ensures exists g :: g in group && LastIndex(graphs, g) == k
    ensures forall g :: g in group ==> k <= LastIndex(graphs, g)
  {
    var k := LastIndex(graphs, group[0]);
    if |group| == 1 then k
    else
      var m := MinLast(graphs, group[1..]);
      if k < m then k else m
  }

  /** The sort key of a shard: the smallest last index among its graphs. */
  function Key(r: Router, graphs: seq<Graph>, e: Endpoint): (k: nat)
  {
    var group := r.Members(graphs, e);
    if group == [] then |graphs|
    else
      assert forall g :: g in group ==> g in graphs by {
        forall g | g in group ensures g in graphs { FilterMember(graphs, x => r.Shard(x) == e, g); }
      }
      MinLast(graphs, group)
  }

  function ByKey(r: Router, graphs: seq<Graph>): (le: (Endpoint, Endpoint) -> bool)
  {
    (a, b) => Key(r, graphs, a) <= Key(r, graphs, b)
  }

  /** `sorted(groups.items(), key=...)`, on the keys of the dictionary. */
  function SortShards(r: Router, graphs: seq<Graph>, es: seq<Endpoint>): (out: seq<Endpoint>)
  {
    SortBy(es, ByKey(r, graphs))
  }

  /** The order in which the router meets the graphs when it asks the shards `es` in turn. */
  function Scan(r: Router, graphs: seq<Graph>, es: seq<Endpoint>): (out: seq<Graph>)
  {
    if es == [] then [] else Scan(r, graphs, es[..|es| - 1]) + r.Members(graphs, es[|es| - 1])
  }

  function ScanOrder(r: Router, graphs: seq<Graph>): (out: seq<Graph>)
  {
    Scan(r, graphs, SortShards(r, graphs, r.Shards(graphs)))
  }

  lemma {:induction false} FirstAppend(s: seq<Graph>, t: seq<Graph>, hits: Hits)
    ensures First(s + t, hits) == if First(s, hits).Some? then First(s, hits) else First(t, hits)
  {
    if s == [] {
      assert s + t == t;
    } else {
      assert (s + t)[1..] == s[1..] + t;
      FirstAppend(s[1..], t, hits);
    }
  }

  /** The first non-null result, as the router picks it. */
  method PickFirst(results: seq<Option<Props>>) returns (p: Option<Props>)
    ensures p.None? <==> forall i :: 0 <= i < |results| ==> results[i].None?
    ensures p.Some? ==> exists i :: 0 <= i < |results| && results[i] == p && forall j :: 0 <= j < i ==> results[j].None?
  {
    for i := 0 to |results|
      invariant forall j :: 0 <= j < i ==> results[j].None?
    {
      if results[i].Some? {
        return results[i];
      }
    }
    return None;
  }

  /** Asking the shards in turn and taking the first answer is asking all graphs in scan order. */
  lemma {:induction false} ScanFirst(r: Router, graphs: seq<Graph>, es: seq<Endpoint>, hits: Hits, i: nat)
    requires i <= |es| && forall j :: 0 <= j < i ==> First(r.Members(graphs, es[j]), hits).None?
    requires i < |es| ==> First(r.Members(graphs, es[i]), hits).Some?
    ensures First(Scan(r, graphs, es), hits) == if i < |es| then First(r.Members(graphs, es[i]), hits) else None
    decreases |es|
  {
    if es != [] {
      var init := es[..|es| - 1];
      FirstAppend(Scan(r, graphs, init), r.Members(graphs, es[|es| - 1]), hits);
      ScanFirst(r, graphs, init, hits, if i < |init| then i else |init|);
    }
  }

  ghost predicate NoneFail(es: seq<Endpoint>, fails: Endpoint -> bool)
  {
    forall i :: 0 <= i < |es| ==> !fails(es[i])
  }

  ghost predicate AllUp(r: Router, graphs: seq<Graph>, fails: Endpoint -> bool)
  {
    forall i :: 0 <= i < |graphs| ==> !fails(r.Shard(graphs[i]))
  }

  ghost predicate AllRoutable(r: Router, graphs: seq<Graph>)
  {
    forall i :: 0 <= i < |graphs| ==> r.Routable(graphs[i])
  }

  /** `_shard_union` over the ordered groups; `asyncio.gather` raises if any shard does. */
  method Gather(r: Router, graphs: seq<Graph>, groups: Groups, es: seq<Endpoint>, hits: Hits, fails: Endpoint -> bool)
    returns (res: Result<Option<Props>>)
    requires Grouping(r, graphs, groups) && forall i :: 0 <= i < |es| ==> es[i] in groups.members
    ensures res.Ok? <==> NoneFail(es, fails)
    ensures res.Ok? ==> res.value == First(Scan(r, graphs, es), hits)
  {
    var results: seq<Option<Props>> := [];
    for i := 0 to |es|
      invariant |results| == i
      invariant forall j :: 0 <= j < i ==> !fails(es[j]) && results[j] == First(r.Members(graphs, es[j]), hits)
    {
      if fails(es[i]) {
        return Err(ShardFailed);
      }
      results := results + [First(groups.members[es[i]], hits)];
    }
    var p := PickFirst(results);
    if p.Some? {
      ghost var i :| 0 <= i < |results| && results[i] == p && forall j :: 0 <= j < i ==> results[j].None?;
      ScanFirst(r, graphs, es, hits, i);
    } else {
      ScanFirst(r, graphs, es, hits, |es|);
    }
    return Ok(p);
  }

  lemma SortSingle(r: Router, graphs: seq<Graph>, es: seq<Endpoint>)
    requires |es| == 1
    ensures SortShards(r, graphs, es) == es
  {
    assert SortBy(es[..0], ByKey(r, graphs)) == [];
  }

  lemma GatheredShards(r: Router, graphs: seq<Graph>, es: seq<Endpoint>, fails: Endpoint -> bool)
    requires es == r.Shards(graphs)
    ensures forall i :: 0 <= i < |SortShards(r, graphs, es)| ==> SortShards(r, graphs, es)[i] in es
    ensures NoneFail(es, fails) <==> AllUp(r, graphs, fails)
    ensures NoneFail(SortShards(r, graphs, es), fails) <==> NoneFail(es, fails)
  {
    ShardsAre(r, graphs);
    forall e ensures e in SortShards(r, graphs, es) <==> e in es {
      SortByMember(es, ByKey(r, graphs), e);
    }
    assert forall i :: 0 <= i < |graphs| ==> r.Shard(graphs[i]) in es;
    assert forall i :: 0 <= i < |es| ==> es[i] in SortShards(r, graphs, es);
  }

  /** The one endpoint is up, or every listed graph is resolved to a configured endpoint that is up. */
  ghost predicate Answerable(r: Router, graphs: seq<Graph>, fails: Endpoint -> bool)
  {
    if |r.endpoints| == 1 then graphs == [] || !fails(r.endpoints[0])
    else forall i :: 0 <= i < |graphs| ==> r.resolve(graphs[i]) in r.endpoints && !fails(r.resolve(graphs[i]))
  }

  lemma AnswerableIff(r: Router, graphs: seq<Graph>, fails: Endpoint -> bool)
    ensures Answerable(r, graphs, fails) <==> AllRoutable(r, graphs) && AllUp(r, graphs, fails)
  {
    if |r.endpoints| == 1 && graphs != [] { assert r.Shard(graphs[0]) == r.endpoints[0]; }
  }

  /** `properties_union`: a single group is asked directly; otherwise every shard answers for
      its group and the first non-null answer in key order is returned. */
  method PropertiesUnion(r: Router, graphs: seq<Graph>, hits: Hits, fails: Endpoint -> bool)
    returns (res: Result<Option<Props>>)
    ensures res.Ok? <==> AllRoutable(r, graphs) && AllUp(r, graphs, fails)
    ensures res.Ok? <==> Answerable(r, graphs, fails)
    ensures res.Ok? ==> res.value == First(ScanOrder(r, graphs), hits)
  {
    AnswerableIff(r, graphs, fails);
    var grouped := GroupByShard(r, graphs);
    if grouped.Err? {
      return Err(grouped.error);
    }
    var groups := grouped.value;
    GatheredShards(r, graphs, groups.order, fails);
    if |groups.order| == 1 {
      SortSingle(r, graphs, groups.order);
      res := Gather(r, graphs, groups, groups.order, hits, fails);
    } else {
      res := Gather(r, graphs, groups, SortShards(r, graphs, groups.order), hits, fails);
    }
  }

  // --------------------------------------- when sharding does not change the answer

  lemma {:induction false} FirstNone(graphs: seq<Graph>, hits: Hits)
    ensures First(graphs, hits).None? <==> forall g :: g in graphs ==> hits(g).None?
  {
    if graphs != [] { FirstNone(graphs[1..], hits); }
  }

  /** `First` is decided by the hit whose first occurrence comes first. */
  lemma {:induction false} FirstHit(graphs: seq<Graph>, hits: Hits) returns (g: Graph)
    requires First(graphs, hits).Some?
    ensures g in graphs && First(graphs, hits) == hits(g)
    ensures forall h :: h in graphs && hits(h).Some? ==> FirstIndex(graphs, g) <= FirstIndex(graphs, h)
  {
    if hits(graphs[0]).Some? {
      g := graphs[0];
    } else {
      g := FirstHit(graphs[1..], hits);
    }
  }

  lemma FirstFrom(graphs: seq<Graph>, hits: Hits, g: Graph)
    requires g in graphs && hits(g).Some?
    requires forall h :: h in graphs && hits(h).Some? ==> FirstIndex(graphs, g) <= FirstIndex(graphs, h)
    ensures First(graphs, hits) == hits(g)
  {
    FirstNone(graphs, hits);
    var f := FirstHit(graphs, hits);
  }

  ghost predicate SameOrder(s: seq<Graph>, t: seq<Graph>)
  {
    && (forall g :: g in s <==> g in t)
    && (forall a, b :: a in s && b in s ==>
          (FirstIndex(s, a) < FirstIndex(s, b) <==> FirstIndex(t, a) < FirstIndex(t, b)))
  }

  lemma SameOrderAnswers(s: seq<Graph>, t: seq<Graph>, hits: Hits)
    requires SameOrder(s, t)
    ensures First(s, hits) == First(t, hits)
  {
    FirstNone(s, hits);
    FirstNone(t, hits);
    if First(s, hits).Some? {
      var g := FirstHit(s, hits);
      FirstFrom(t, hits, g);
    }
  }

  lemma OrderMatters(s: seq<Graph>, t: seq<Graph>, a: Graph, b: Graph) returns (hits: Hits)
    requires a in s && b in s && a in t && b in t
    requires FirstIndex(s, a) < FirstIndex(s, b) && FirstIndex(t, b) < FirstIndex(t, a)
    ensures First(s, hits) != First(t, hits)
  {
    hits := g => if g == a then Some("a") else if g == b then Some("b") else None;
    FirstFrom(s, hits, a);
    FirstFrom(t, hits, b);
  }

  /** Two lists of the same graphs answer every query alike exactly when they meet the
      graphs in the same order. */
  lemma SameAnswersIff(s: seq<Graph>, t: seq<Graph>)
    requires forall g :: g in s <==> g in t
    ensures (forall hits: Hits :: First(s, hits) == First(t, hits)) <==> SameOrder(s, t)
  {
    if SameOrder(s, t) {
      forall hits: Hits ensures First(s, hits) == First(t, hits) { SameOrderAnswers(s, t, hits); }
    } else {
      var a, b :| a in s && b in s && !(FirstIndex(s, a) < FirstIndex(s, b) <==> FirstIndex(t, a) < FirstIndex(t, b));
      if FirstIndex(s, a) < FirstIndex(s, b) {
        var hits := OrderMatters(s, t, a, b);
      } else {
        var hits := OrderMatters(t, s, a, b);
      }
    }
  }

  lemma MembersAre(r: Router, graphs: seq<Graph>, e: Endpoint, g: Graph)
    ensures g in r.Members(graphs, e) <==> g in graphs && r.Shard(g) == e
  {
    FilterMember(graphs, x => r.Shard(x) == e, g);
  }

  lemma {:induction false} ScanMember(r: Router, graphs: seq<Graph>, es: seq<Endpoint>, g: Graph)
    ensures g in Scan(r, graphs, es) <==> g in graphs && r.Shard(g) in es
  {
    if es != [] {
      ScanMember(r, graphs, es[..|es| - 1], g);
      MembersAre(r, graphs, es[|es| - 1], g);
      assert es == es[..|es| - 1] + [es[|es| - 1]];
    }
  }

  /** Where a graph stands in the scan of one more shard. */
  lemma ScanIndex(r: Router, graphs: seq<Graph>, es: seq<Endpoint>, a: Graph)
    requires es != [] && a in graphs && r.Shard(a) in es && Distinct(es)
    ensures var init, e := es[..|es| - 1], es[|es| - 1];
      FirstIndex(Scan(r, graphs, es), a) ==
      if r.Shard(a) == e then |Scan(r, graphs, init)| + FirstIndex(r.Members(graphs, e), a)
      else FirstIndex(Scan(r, graphs, init), a)
    ensures r.Shard(a) != es[|es| - 1] ==> r.Shard(a) in es[..|es| - 1] && a in Scan(r, graphs, es[..|es| - 1])
  {
    var init, e := es[..|es| - 1], es[|es| - 1];
    assert es == init + [e];
    ScanMember(r, graphs, init, a);
    MembersAre(r, graphs, e, a);
    FirstIndexConcat(Scan(r, graphs, init), r.Members(graphs, e), a);
  }

  lemma LastOfDistinct(es: seq<Endpoint>, x: Endpoint)
    requires es != [] && Distinct(es) && x in es
    ensures FirstIndex(es, x) == if x == es[|es| - 1] then |es| - 1 else FirstIndex(es[..|es| - 1], x)
    ensures x != es[|es| - 1] ==> FirstIndex(es[..|es| - 1], x) < |es| - 1
  {
    var init, e := es[..|es| - 1], es[|es| - 1];
    assert es == init + [e];
    FirstIndexConcat(init, [e], x);
  }

  /** The scan meets shards in turn and, inside a shard, graphs in caller order. */
  lemma {:induction false} ScanBefore(r: Router, graphs: seq<Graph>, es: seq<Endpoint>, a: Graph, b: Graph)
    requires Distinct(es) && a in graphs && b in graphs && r.Shard(a) in es && r.Shard(b) in es
    ensures FirstIndex(Scan(r, graphs, es), a) < FirstIndex(Scan(r, graphs, es), b) <==>
            || FirstIndex(es, r.Shard(a)) < FirstIndex(es, r.Shard(b))
            || (r.Shard(a) == r.Shard(b) && FirstIndex(graphs, a) < FirstIndex(graphs, b))
  {
    ScanIndex(r, graphs, es, a);
    ScanIndex(r, graphs, es, b);
    LastOfDistinct(es, r.Shard(a));
    LastOfDistinct(es, r.Shard(b));
    var init, e := es[..|es| - 1], es[|es| - 1];
    if r.Shard(a) != e && r.Shard(b) != e {
      ScanBefore(r, graphs, init, a, b);
    } else if r.Shard(a) == e && r.Shard(b) == e {
      FilterOrder(graphs, g => r.Shard(g) == e, a, b);
    }
  }

  /** A shard's key is the last index of one of its own graphs, and bounds all the others. */
  lemma KeyIs(r: Router, graphs: seq<Graph>, g: Graph) returns (h: Graph)
    requires g in graphs
    ensures h in graphs && r.Shard(h) == r.Shard(g) && LastIndex(graphs, h) == Key(r, graphs, r.Shard(g))
    ensures Key(r, graphs, r.Shard(g)) <= LastIndex(graphs, g)
  {
    var group := r.Members(graphs, r.Shard(g));
    forall x ensures x in group <==> x in graphs && r.Shard(x) == r.Shard(g) { MembersAre(r, graphs, r.Shard(g), x); }
    h :| h in group && LastIndex(graphs, h) == Key(r, graphs, r.Shard(g));
  }

  lemma KeyInjective(r: Router, graphs: seq<Graph>, a: Graph, b: Graph)
    requires a in graphs && b in graphs && Key(r, graphs, r.Shard(a)) == Key(r, graphs, r.Shard(b))
    ensures r.Shard(a) == r.Shard(b)
  {
    var x := KeyIs(r, graphs, a);
    var y := KeyIs(r, graphs, b);
  }

  /** The router meets graphs in order of shard key, then of first occurrence. */
  lemma ScanOrderBefore(r: Router, graphs: seq<Graph>, a: Graph, b: Graph)
    requires a in graphs && b in graphs
    ensures a in ScanOrder(r, graphs)
    ensures FirstIndex(ScanOrder(r, graphs), a) < FirstIndex(ScanOrder(r, graphs), b) <==>
            || Key(r, graphs, r.Shard(a)) < Key(r, graphs, r.Shard(b))
            || (r.Shard(a) == r.Shard(b) && FirstIndex(graphs, a) < FirstIndex(graphs, b))
  {
    var shards := r.Shards(graphs);
    var es := SortBy(shards, ByKey(r, graphs));
    ShardsAre(r, graphs);
    assert r.Shard(a) in shards && r.Shard(b) in shards;
    SortByIs(shards, ByKey(r, graphs));
    SortByMember(shards, ByKey(r, graphs), r.Shard(a));
    SortByMember(shards, ByKey(r, graphs), r.Shard(b));
    DistinctSort(shards, es);
    ScanMember(r, graphs, es, a);
    ScanBefore(r, graphs, es, a, b);
    var i, j := FirstIndex(es, r.Shard(a)), FirstIndex(es, r.Shard(b));
    if r.Shard(a) != r.Shard(b) {
      if Key(r, graphs, r.Shard(a)) == Key(r, graphs, r.Shard(b)) { KeyInjective(r, graphs, a, b); }
      assert i < j ==> ByKey(r, graphs)(es[i], es[j]);
      assert j < i ==> ByKey(r, graphs)(es[j], es[i]);
    }
  }

  /** What a caller can check: no graph is listed before a graph whose shard has a smaller key. */
  ghost predicate InKeyOrder(r: Router, graphs: seq<Graph>)
  {
    forall a, b :: a in graphs && b in graphs && FirstIndex(graphs, a) < FirstIndex(graphs, b) ==>
      Key(r, graphs, r.Shard(a)) <= Key(r, graphs, r.Shard(b))
  }

  lemma ScanOrderMember(r: Router, graphs: seq<Graph>, g: Graph)
    ensures g in ScanOrder(r, graphs) <==> g in graphs
  {
    if g in graphs {
      ScanOrderBefore(r, graphs, g, g);
    } else {
      ScanMember(r, graphs, SortShards(r, graphs, r.Shards(graphs)), g);
    }
  }

  /** `properties_union` finds nothing exactly when no listed graph has the node. */
  lemma PropertiesUnionNone(r: Router, graphs: seq<Graph>, hits: Hits)
    ensures First(ScanOrder(r, graphs), hits).None? <==> forall g :: g in graphs ==> hits(g).None?
  {
    FirstNone(ScanOrder(r, graphs), hits);
    forall g ensures g in ScanOrder(r, graphs) <==> g in graphs { ScanOrderMember(r, graphs, g); }
  }

  lemma InKeyOrderScan(r: Router, graphs: seq<Graph>, a: Graph, b: Graph)
    requires InKeyOrder(r, graphs) && a in graphs && b in graphs && FirstIndex(graphs, a) < FirstIndex(graphs, b)
    ensures FirstIndex(ScanOrder(r, graphs), a) < FirstIndex(ScanOrder(r, graphs), b)
  {
    if Key(r, graphs, r.Shard(a)) == Key(r, graphs, r.Shard(b)) { KeyInjective(r, graphs, a, b); }
    ScanOrderBefore(r, graphs, a, b);
  }

  /** The sharded answer is the unsharded first-found answer, whatever the graphs hold,
      exactly when the list is in key order. */
  lemma PropertiesUnionFaithfulIff(r: Router, graphs: seq<Graph>)
    ensures (forall hits: Hits :: First(ScanOrder(r, graphs), hits) == First(graphs, hits)) <==> InKeyOrder(r, graphs)
  {
    var scan := ScanOrder(r, graphs);
    forall g ensures g in scan <==> g in graphs { ScanOrderMember(r, graphs, g); }
    SameAnswersIff(scan, graphs);
    if InKeyOrder(r, graphs) {
      forall a, b | a in scan && b in scan
        ensures FirstIndex(scan, a) < FirstIndex(scan, b) <==> FirstIndex(graphs, a) < FirstIndex(graphs, b)
      {
        if FirstIndex(graphs, a) < FirstIndex(graphs, b) {
          InKeyOrderScan(r, graphs, a, b);
        } else if a != b {
          assert FirstIndex(graphs, a) != FirstIndex(graphs, b);
          InKeyOrderScan(r, graphs, b, a);
        }
      }
    }
    if SameOrder(scan, graphs) {
      forall a, b | a in graphs && b in graphs && FirstIndex(graphs, a) < FirstIndex(graphs, b)
        ensures Key(r, graphs, r.Shard(a)) <= Key(r, graphs, r.Shard(b))
      {
        ScanOrderBefore(r, graphs, a, b);
      }
    }
  }

  /** Every shard's graphs are listed next to each other. */
  ghost predicate Contiguous(r: Router, graphs: seq<Graph>)
  {
    forall i, j, k :: 0 <= i < j < k < |graphs| && r.Shard(graphs[i]) == r.Shard(graphs[k]) ==>
      r.Shard(graphs[j]) == r.Shard(graphs[i])
  }

  lemma DistinctLastIndex(graphs: seq<Graph>, i: nat)
    requires Distinct(graphs) && i < |graphs|
    ensures FirstIndex(graphs, graphs[i]) == i == LastIndex(graphs, graphs[i])
  {
    DistinctIndex(graphs, i);
  }

  /** For distinct names, key order is contiguity. */
  lemma DistinctKeyOrderIff(r: Router, graphs: seq<Graph>)
    requires Distinct(graphs)
    ensures InKeyOrder(r, graphs) <==> Contiguous(r, graphs)
  {
    if InKeyOrder(r, graphs) {
      forall i, j, k | 0 <= i < j < k < |graphs| && r.Shard(graphs[i]) == r.Shard(graphs[k])
        ensures r.Shard(graphs[j]) == r.Shard(graphs[i])
      {
        DistinctLastIndex(graphs, i);
        DistinctLastIndex(graphs, j);
        DistinctLastIndex(graphs, k);
        KeyInjective(r, graphs, graphs[i], graphs[j]);
      }
    }
    if Contiguous(r, graphs) {
      forall a, b | a in graphs && b in graphs && FirstIndex(graphs, a) < FirstIndex(graphs, b)
        ensures Key(r, graphs, r.Shard(a)) <= Key(r, graphs, r.Shard(b))
      {
        var i, j := FirstIndex(graphs, a), FirstIndex(graphs, b);
        DistinctLastIndex(graphs, i);
        var h := KeyIs(r, graphs, b);
        var m := LastIndex(graphs, h);
        var _ := KeyIs(r, graphs, a);
        if m < i { assert r.Shard(graphs[m]) == r.Shard(graphs[j]); }
      }
    }
  }

  /** A graph listed between two graphs of another shard is asked too late. */
  lemma InterleavedShards(r: Router, a: Graph, b: Graph, c: Graph)
    requires a != b && b != c && a != c && r.Shard(a) == r.Shard(c) != r.Shard(b)
    ensures exists hits: Hits :: First(ScanOrder(r, [a, b, c]), hits) != First([a, b, c], hits)
  {
    var graphs := [a, b, c];
    assert r.Shard(graphs[0]) == r.Shard(graphs[2]) != r.Shard(graphs[1]);
    DistinctKeyOrderIff(r, graphs);
    PropertiesUnionFaithfulIff(r, graphs);
  }

  /** A repeated name moves its shard back, because `order` keeps the last index. */
  lemma RepeatedName(r: Router, a: Graph, b: Graph)
    requires r.Shard(a) != r.Shard(b)
    ensures exists hits: Hits :: First(ScanOrder(r, [a, b, a]), hits) != First([a, b, a], hits)
  {
    var graphs := [a, b, a];
    assert graphs[0] == graphs[2] != graphs[1];
    FirstIndexIs(graphs, a, 0);
    FirstIndexIs(graphs, b, 1);
    var x := KeyIs(r, graphs, a);
    var y := KeyIs(r, graphs, b);
    PropertiesUnionFaithfulIff(r, graphs);
  }
}
