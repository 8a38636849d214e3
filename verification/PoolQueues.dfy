/** The order in which the pool's clients go through its queue, and what `close_all` leaves there. */
module PoolQueues {
  import opened ConnectionPools

  /** The client an event puts into the queue, if any. */
  function Put(s: State, e: Event): seq<Client>
  {
    match e
    case InitConnect(ok) => if ok then [s.minted] else []
    case Release(c) => if s.maxSize > 0 && |s.queue| >= s.maxSize then [] else [c]
    case _ => []
  }

  /** The clients an event hands out of the queue: to a health check, to a caller, or to be closed. */
  function HandedOut(s: State, e: Event): multiset<Client>
    requires Enabled(s, e)
  {
    var t := Step(s, e);
    match e
    case Acquire => t.pinging - s.pinging
    case TakeQueued => t.holding - s.holding
    case EnterClose => if t.lock.Closing? then multiset{t.lock.client} else multiset{}
    case Close(ok) => if t.lock.Closing? then multiset{t.lock.client} else multiset{}
    case _ => multiset{}
  }

  lemma Front(q: seq<Client>)
    ensures q + [] == q && [] + q == q
    ensures q != [] ==> q == [q[0]] + q[1..]
  {
  }

  lemma Gained(m: multiset<Client>, c: Client)
    ensures m + multiset{c} - m == multiset{c} && m - m == multiset{}
  {
  }

  /** Clients leave at the front and enter at the back. */
  lemma QueueStep(s: State, e: Event) returns (out: seq<Client>)
    requires Enabled(s, e)
    ensures s.queue + Put(s, e) == out + Step(s, e).queue && multiset(out) == HandedOut(s, e)
  {
    Front(s.queue);
    out := [];
    match e
    case InitConnect(ok) => Front(Step(s, e).queue);
    case Release(c) => Front(Step(s, e).queue);
    case Acquire =>
      Gained(s.pinging, if s.queue == [] then 0 else s.queue[0]);
      if s.queue != [] { out := [s.queue[0]]; }
    case TakeQueued =>
      Gained(s.holding, s.queue[0]);
      out := [s.queue[0]];
    case EnterClose => if s.queue != [] { out := [s.queue[0]]; }
    case Close(ok) => if ok && s.queue != [] { out := [s.queue[0]]; }
    case _ =>
  }

  function Puts(s: State, run: seq<Event>): seq<Client>
    requires Feasible(s, run)
    decreases |run|
  {
    if run == [] then [] else Put(s, run[0]) + Puts(Step(s, run[0]), run[1..])
  }

  function AllHandedOut(s: State, run: seq<Event>): multiset<Client>
    requires Feasible(s, run)
    decreases |run|
  {
    if run == [] then multiset{} else HandedOut(s, run[0]) + AllHandedOut(Step(s, run[0]), run[1..])
  }

  lemma Chain<T>(q: seq<T>, put: seq<T>, puts: seq<T>, first: seq<T>, next: seq<T>, rest: seq<T>, end: seq<T>)
    requires q + put == first + next && next + puts == rest + end
    ensures q + (put + puts) == first + rest + end
  {
    assert q + (put + puts) == (q + put) + puts;
    assert (first + next) + puts == first + (next + puts);
  }

  /** Over every run the queue is first in, first out: what has been put in is what has been handed out, in that
      order, followed by what is still there. */
  lemma {:induction false} FirstInFirstOut(s: State, run: seq<Event>) returns (out: seq<Client>)
    requires Feasible(s, run)
    ensures s.queue + Puts(s, run) == out + Exec(s, run).queue && multiset(out) == AllHandedOut(s, run)
    decreases |run|
  {
    if run == [] {
      out := [];
      Front(s.queue);
    } else {
      var next := Step(s, run[0]);
      var first := QueueStep(s, run[0]);
      var rest := FirstInFirstOut(next, run[1..]);
      out := first + rest;
      Chain(s.queue, Put(s, run[0]), Puts(next, run[1..]), first, next.queue, rest, Exec(next, run[1..]).queue);
    }
  }

  /** In every run: when `close_all` gives the lock back and its close did not fail, no client is left in the queue;
      until then it closes the next one. */
  lemma LockBackMeansEmpty(s: State, run: seq<Event>, e: Event)
    requires Feasible(s, run) && Enabled(Exec(s, run), e) && (e.EnterClose? || e == Close(true))
    ensures var u, t := Exec(s, run), Step(Exec(s, run), e);
      if u.queue == [] then t.lock.Free? && t.queue == []
      else t.lock == Closing(u.queue[0]) && t.queue == u.queue[1..]
  {
  }
}
