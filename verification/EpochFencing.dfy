/** `PlacementDirectory.refresh` and `route`: any number of calls interleaving at their fetches. */
module EpochFencing {
  import opened Basics

  datatype Kind = Refresh | Route

  /** Waiting for the first or the second fetch, or ended. */
  datatype Phase = First | Second | Accepted(epoch: int) | Raised

  /** One call, the epoch it last asked for, its fetches and the stale rejects it counted. */
  datatype Call = Call(kind: Kind, phase: Phase, asked: int, fetches: nat, rejects: nat)

  /** What a fetch comes back with: a view of some epoch, an answer marked stale, or any other error. */
  datatype Answer = View(epoch: int) | MarkedStale | Failed

  datatype Directory = Directory(
    routingEpoch: int, staleRejects: nat, snapshots: nat, routes: nat, snapshot: Phase,
    calls: seq<Call>, accepted: seq<int>)

  const EMPTY := Directory(0, 0, 0, 0, Raised, [], [])

  datatype Event = Begin(kind: Kind) | Reply(id: nat, answer: Answer)

  predicate Enabled(d: Directory, e: Event)
  {
    e.Reply? ==> e.id < |d.calls| && (d.calls[e.id].phase.First? || d.calls[e.id].phase.Second?)
  }

  /** The test of `_fetch_snapshot` and `_fetch_route`, made when the answer arrives. */
  predicate Stale(d: Directory, a: Answer) { a.MarkedStale? || (a.View? && a.epoch < d.routingEpoch) }

  function Later(a: int, b: int): int { if a < b then b else a }

  function Accept(d: Directory, id: nat, epoch: int): Directory
    requires id < |d.calls|
  {
    var c := d.calls[id];
    d.(routingEpoch := Later(d.routingEpoch, epoch), accepted := d.accepted + [epoch],
       calls := d.calls[id := c.(phase := Accepted(epoch))],
       snapshots := if c.kind.Refresh? then d.snapshots + 1 else d.snapshots,
       routes := if c.kind.Route? then d.routes + 1 else d.routes,
       snapshot := if c.kind.Refresh? then Accepted(epoch) else d.snapshot)
  }

  function Step(d: Directory, e: Event): Directory
    requires Enabled(d, e)
  {
    match e
    case Begin(kind) => d.(calls := d.calls + [Call(kind, First, d.routingEpoch, 1, 0)])
    case Reply(id, a) =>
      var c := d.calls[id];
      if !Stale(d, a) && a.View? then Accept(d, id, a.epoch)
      else if Stale(d, a) && c.phase.First? then
        d.(staleRejects := d.staleRejects + 1,
           calls := d.calls[id := Call(c.kind, Second, d.routingEpoch, c.fetches + 1, c.rejects + 1)])
      else d.(calls := d.calls[id := c.(phase := Raised)])
  }

  predicate Feasible(d: Directory, run: seq<Event>)
    decreases |run|
  {
    run != [] ==> Enabled(d, run[0]) && Feasible(Step(d, run[0]), run[1..])
  }

  function Exec(d: Directory, run: seq<Event>): Directory
    requires Feasible(d, run)
    decreases |run|
  {
    if run == [] then d else Exec(Step(d, run[0]), run[1..])
  }

  ghost predicate Reachable(d: Directory) { exists run :: Feasible(EMPTY, run) && Exec(EMPTY, run) == d }

  lemma {:induction false} ExecSnoc(d: Directory, run: seq<Event>, e: Event)
    requires Feasible(d, run) && Enabled(Exec(d, run), e)
    ensures Feasible(d, run + [e]) && Exec(d, run + [e]) == Step(Exec(d, run), e)
    decreases |run|
  {
    var all := run + [e];
    if run == [] {
      assert all[0] == e && all[1..] == [];
    } else {
      ExecSnoc(Step(d, run[0]), run[1..], e);
      assert all[0] == run[0] && all[1..] == run[1..] + [e];
    }
  }

  lemma Reaches(d: Directory, e: Event, t: Directory)
    requires Reachable(d) && Enabled(d, e) && t == Step(d, e)
    ensures Reachable(t)
  {
    var run :| Feasible(EMPTY, run) && Exec(EMPTY, run) == d;
    ExecSnoc(EMPTY, run, e);
  }

  lemma ReachEmpty()
    ensures Reachable(EMPTY)
  {
    assert Feasible(EMPTY, []) && Exec(EMPTY, []) == EMPTY;
  }

  // ------------------------------------------------------------------- every interleaving

  function Rejects(calls: seq<Call>): nat
  {
    if calls == [] then 0 else Rejects(calls[..|calls| - 1]) + calls[|calls| - 1].rejects
  }

  function Count(calls: seq<Call>, kind: Kind): nat
  {
    if calls == [] then 0
    else
      var last := calls[|calls| - 1];
      Count(calls[..|calls| - 1], kind) + if last.kind == kind && last.phase.Accepted? then 1 else 0
  }

  lemma {:induction false} Replace(calls: seq<Call>, id: nat, c: Call)
    requires id < |calls|
    ensures Rejects(calls[id := c]) == Rejects(calls) - calls[id].rejects + c.rejects
    ensures c.kind == calls[id].kind && !calls[id].phase.Accepted? ==> forall k ::
      Count(calls[id := c], k) == Count(calls, k) + if c.kind == k && c.phase.Accepted? then 1 else 0
  {
    var n := |calls| - 1;
    if id < n {
      Replace(calls[..n], id, c);
      assert calls[id := c][..n] == calls[..n][id := c];
    } else {
      assert calls[id := c][..n] == calls[..n];
    }
  }

  /** At most two fetches, and a stale reject exactly when there was a second one. */
  predicate CallInv(c: Call, epoch: int)
  {
    && 0 <= c.asked <= epoch
    && c.fetches == 1 + c.rejects
    && c.rejects <= 1
    && (c.phase.First? ==> c.rejects == 0)
    && (c.phase.Second? ==> c.rejects == 1)
    && (c.phase.Accepted? ==> c.asked <= c.phase.epoch <= epoch)
  }

  ghost predicate Ascending(s: seq<int>) { forall i, j :: 0 <= i < j < |s| ==> s[i] <= s[j] }

  function LastOr(s: seq<int>, default: int): int { if s == [] then default else s[|s| - 1] }

  ghost predicate CallsInv(d: Directory)
  {
    forall i :: 0 <= i < |d.calls| ==> CallInv(d.calls[i], d.routingEpoch)
  }

  ghost predicate Inv(d: Directory)
  {
    && CallsInv(d)
    && d.staleRejects == Rejects(d.calls)
    && d.snapshots == Count(d.calls, Refresh) && d.routes == Count(d.calls, Route)
    && |d.accepted| == d.snapshots + d.routes
    && d.routingEpoch == LastOr(d.accepted, 0)
    && Ascending(d.accepted) && (d.accepted != [] ==> 0 <= d.accepted[0])
    && (d.snapshot.Accepted? <==> d.snapshots > 0)
    && (d.snapshot.Accepted? ==> d.snapshot.epoch <= d.routingEpoch)
  }

  lemma BeginInv(d: Directory, kind: Kind)
    requires Inv(d)
    ensures Inv(Step(d, Begin(kind)))
  {
    var u := Step(d, Begin(kind));
    assert u.calls[..|d.calls|] == d.calls;
  }

  lemma AcceptInv(d: Directory, id: nat, epoch: int)
    requires Inv(d) && Enabled(d, Reply(id, View(epoch))) && epoch >= d.routingEpoch
    ensures Inv(Accept(d, id, epoch))
  {
    Replace(d.calls, id, d.calls[id].(phase := Accepted(epoch)));
    assert d.accepted != [] ==> (d.accepted + [epoch])[0] == d.accepted[0];
  }

  lemma OtherInv(d: Directory, id: nat, a: Answer)
    requires Inv(d) && Enabled(d, Reply(id, a)) && (Stale(d, a) || a.Failed?)
    ensures Inv(Step(d, Reply(id, a)))
  {
    Replace(d.calls, id, Step(d, Reply(id, a)).calls[id]);
  }

  lemma ReplyInv(d: Directory, id: nat, a: Answer)
    requires Inv(d) && Enabled(d, Reply(id, a))
    ensures Inv(Step(d, Reply(id, a)))
    ensures d.routingEpoch <= Step(d, Reply(id, a)).routingEpoch && d.accepted <= Step(d, Reply(id, a)).accepted
  {
    if !Stale(d, a) && a.View? { AcceptInv(d, id, a.epoch); } else { OtherInv(d, id, a); }
  }

  lemma {:induction false} ExecInv(d: Directory, run: seq<Event>)
    requires Inv(d) && Feasible(d, run)
    ensures Inv(Exec(d, run)) && d.accepted <= Exec(d, run).accepted
    decreases |run|
  {
    if run != [] {
      match run[0]
      case Begin(kind) =>
        BeginInv(d, kind);
        ExecInv(Step(d, run[0]), run[1..]);
      case Reply(id, a) =>
        ReplyInv(d, id, a);
        ExecInv(Step(d, run[0]), run[1..]);
    }
  }

  ghost predicate Fenced(d: Directory)
  {
    && Ascending(d.accepted) && d.routingEpoch == LastOr(d.accepted, 0)
    && |d.accepted| == d.snapshots + d.routes
    && d.snapshots == Count(d.calls, Refresh) && d.routes == Count(d.calls, Route)
    && d.staleRejects == Rejects(d.calls)
    && (forall i :: 0 <= i < |d.calls| ==> d.calls[i].fetches == 1 + d.calls[i].rejects <= 2)
    && (forall i :: 0 <= i < |d.calls| && d.calls[i].phase.Accepted? ==>
          d.calls[i].asked <= d.calls[i].phase.epoch <= d.routingEpoch)
  }

  lemma InvFences(d: Directory)
    requires Inv(d)
    ensures Fenced(d)
  {
  }

  /** Over every interleaving: accepted epochs never decrease, the routing epoch is the latest accepted one,
      each call makes at most two fetches, the second only after a stale first, and every such call is counted
      once. */
  lemma EpochsNeverDecrease(run: seq<Event>)
    requires Feasible(EMPTY, run)
    ensures Fenced(Exec(EMPTY, run))
  {
    EmptyInv();
    ExecInv(EMPTY, run);
    InvFences(Exec(EMPTY, run));
  }

  lemma EmptyInv()
    ensures Inv(EMPTY)
  {
  }

  // ------------------------------------------------------------------------ the class

  class PlacementDirectory {
    var routingEpoch: int
    var staleRejects: nat
    var snapshotsAccepted: nat
    var routesAccepted: nat
    var snapshot: Phase
    var calls: seq<Call>
    ghost var accepted: seq<int>

    ghost function State(): Directory
      reads this
    {
      Directory(routingEpoch, staleRejects, snapshotsAccepted, routesAccepted, snapshot, calls, accepted)
    }

    ghost predicate Valid()
      reads this
    {
      Reachable(State())
    }

    /** What holds over every run, of any directory between any two segments of its calls. */
    lemma Fencing()
      requires Valid()
      ensures Fenced(State())
    {
      var run :| Feasible(EMPTY, run) && Exec(EMPTY, run) == State();
      EpochsNeverDecrease(run);
    }

    constructor ()
      ensures Valid() && State() == EMPTY
    {
      routingEpoch, staleRejects, snapshotsAccepted, routesAccepted := 0, 0, 0, 0;
      snapshot, calls, accepted := Raised, [], [];
      new;
      ReachEmpty();
    }

    /** A call of `refresh` or `route`, up to its first fetch. */
    method BeginCall(kind: Kind) returns (id: nat)
      requires Valid()
      modifies this
      ensures Valid() && State() == Step(old(State()), Begin(kind)) && id == |old(calls)|
    {
      ghost var d := State();
      id := |calls|;
      calls := calls + [Call(kind, First, routingEpoch, 1, 0)];
      Reaches(d, Begin(kind), State());
    }

    /** The call goes on with the answer to its outstanding fetch, up to its next fetch or its end.  The routing
        epoch never falls. */
    method Resume(id: nat, answer: Answer)
      requires Valid() && Enabled(State(), Reply(id, answer))
      modifies this
      ensures Valid() && State() == Step(old(State()), Reply(id, answer))
      ensures old(routingEpoch) <= routingEpoch && old(accepted) <= accepted
    {
      ghost var d := State();
      var c := calls[id];
      if answer.Failed? || (c.phase.Second? && (answer.MarkedStale? || answer.epoch < routingEpoch)) {
        calls := calls[id := c.(phase := Raised)];
      } else if answer.MarkedStale? || answer.epoch < routingEpoch {
        staleRejects := staleRejects + 1;
        calls := calls[id := Call(c.kind, Second, routingEpoch, c.fetches + 1, c.rejects + 1)];
      } else {
        if c.kind.Refresh? {
          snapshot := Accepted(answer.epoch);
          snapshotsAccepted := snapshotsAccepted + 1;
        } else {
          routesAccepted := routesAccepted + 1;
        }
        routingEpoch := Later(routingEpoch, answer.epoch);
        calls := calls[id := c.(phase := Accepted(answer.epoch))];
        accepted := accepted + [answer.epoch];
      }
      Reaches(d, Reply(id, answer), State());
    }

    /** A whole `refresh` or `route` that no other call interrupts: it returns the first answer that is not stale,
        of at most two, and the second only after a stale first, which it counts. */
    method CallAlone(kind: Kind, first: Answer, second: Answer) returns (epoch: Option<int>)
      requires Valid()
      modifies this
      ensures Valid()
      ensures epoch == if Good(first, old(routingEpoch)) then Some(first.epoch)
                       else if !first.Failed? && Good(second, old(routingEpoch)) then Some(second.epoch) else None
      ensures routingEpoch == if epoch.Some? then epoch.value else old(routingEpoch)
      ensures staleRejects == old(staleRejects) + if first.Failed? || Good(first, old(routingEpoch)) then 0 else 1
      ensures snapshotsAccepted + routesAccepted ==
                old(snapshotsAccepted + routesAccepted) + if epoch.Some? then 1 else 0
    {
      var id := BeginCall(kind);
      Resume(id, first);
      if calls[id].phase.Second? {
        Resume(id, second);
      }
      return if calls[id].phase.Accepted? then Some(calls[id].phase.epoch) else None;
    }
  }

  /** A view of an epoch not below the routing epoch. */
  predicate Good(a: Answer, routingEpoch: int) { a.View? && a.epoch >= routingEpoch }
}
