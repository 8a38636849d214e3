/** `simulate_order_matching` of `medulla/quant.py`: a marketable limit order walks one side
    of a level-2 book, best price first.  Prices and volumes are exact reals. */
module OrderMatching {
  import opened Basics
  import opened Sequences

  datatype Level = Level(price: real, volume: real)

  datatype Order = Order(limit: real, volume: real, isBuy: bool)
  {
    /** Prices as the order sees them: a sell prefers high prices, so it negates them. */
    function Cost(price: real): real { if isBuy then price else -price }

    predicate Crosses(price: real)
    {
      if isBuy then price <= limit else price >= limit
    }

    /** `sorted(levels, key=price, reverse=not is_buy)`; Python keeps ties in order either way. */
    function Best(): (Level, Level) -> bool
    {
      (a: Level, b: Level) => Cost(a.price) <= Cost(b.price)
    }

    function Sorted(levels: seq<Level>): seq<Level> { SortBy(levels, Best()) }

    /** How much each level of `levels` gives up when the order meets them in this order. */
    function Takes(levels: seq<Level>): (t: seq<real>)
      ensures |t| == |levels|
    {
      if levels == [] then []
      else
        var before, last := Takes(levels[..|levels| - 1]), levels[|levels| - 1];
        var remaining := volume - Sum(before);
        before + [if remaining <= 0.0 || !Crosses(last.price) then 0.0 else Min(remaining, last.volume)]
    }

    /** The volume the order could reach at all. */
    function Reach(levels: seq<Level>): real
    {
      if levels == [] then 0.0
      else
        var last := levels[|levels| - 1];
        Reach(levels[..|levels| - 1]) + if Crosses(last.price) then last.volume else 0.0
    }
  }

  function Sum(a: seq<real>): real
  {
    if a == [] then 0.0 else Sum(a[..|a| - 1]) + a[|a| - 1]
  }

  /** What the allocation `a` of `levels` pays, in prices. */
  function Notional(levels: seq<Level>, a: seq<real>): real
    requires |a| == |levels|
  {
    if a == [] then 0.0
    else Notional(levels[..|a| - 1], a[..|a| - 1]) + levels[|a| - 1].price * a[|a| - 1]
  }

  /** The part of the allocation taken at price `p`. */
  function TakenAt(levels: seq<Level>, a: seq<real>, p: real): real
    requires |a| == |levels|
  {
    if a == [] then 0.0
    else TakenAt(levels[..|a| - 1], a[..|a| - 1], p) + if levels[|a| - 1].price == p then a[|a| - 1] else 0.0
  }

  function VolumeAt(levels: seq<Level>, p: real): real
  {
    if levels == [] then 0.0
    else
      var last := levels[|levels| - 1];
      VolumeAt(levels[..|levels| - 1], p) + if last.price == p then last.volume else 0.0
  }

  function TotalVolume(levels: seq<Level>): real
  {
    if levels == [] then 0.0 else TotalVolume(levels[..|levels| - 1]) + levels[|levels| - 1].volume
  }

  function TotalPaid(trades: seq<Level>): real
  {
    if trades == [] then 0.0
    else TotalPaid(trades[..|trades| - 1]) + trades[|trades| - 1].price * trades[|trades| - 1].volume
  }

  lemma SnocAllocation(levels: seq<Level>, x: Level, t: seq<real>, y: real)
    requires |t| == |levels|
    ensures Sum(t + [y]) == Sum(t) + y
    ensures Notional(levels + [x], t + [y]) == Notional(levels, t) + x.price * y
    ensures forall p :: TakenAt(levels + [x], t + [y], p) == TakenAt(levels, t, p) + if x.price == p then y else 0.0
  {
    assert (levels + [x])[..|levels|] == levels && (t + [y])[..|t|] == t;
  }

  lemma SnocVolume(levels: seq<Level>, x: Level)
    ensures forall p :: VolumeAt(levels + [x], p) == VolumeAt(levels, p) + if x.price == p then x.volume else 0.0
    ensures TotalVolume(levels + [x]) == TotalVolume(levels) + x.volume
    ensures TotalPaid(levels + [x]) == TotalPaid(levels) + x.price * x.volume
  {
    assert (levels + [x])[..|levels|] == levels;
  }

  /** The trades carry exactly the allocation `t` of `levels`, price by price. */
  ghost predicate Trades(levels: seq<Level>, t: seq<real>, trades: seq<Level>)
    requires |t| == |levels|
  {
    && TotalVolume(trades) == Sum(t)
    && TotalPaid(trades) == Notional(levels, t)
    && forall p :: VolumeAt(trades, p) == TakenAt(levels, t, p)
  }

  /** The rest of the book is what the allocation did not take. */
  ghost predicate Leaves(levels: seq<Level>, t: seq<real>, left: seq<Level>)
    requires |t| == |levels|
  {
    forall p :: VolumeAt(left, p) == VolumeAt(levels, p) - TakenAt(levels, t, p)
  }

  /** What is left is still in order, and crosses only if the order is filled. */
  ghost predicate Rests(o: Order, levels: seq<Level>, left: seq<Level>, remaining: real)
  {
    && SortedBy(left, o.Best())
    && (left != [] ==> levels != [] && o.Best()(left[|left| - 1], levels[|levels| - 1]))
    && (remaining > 0.0 ==> forall i :: 0 <= i < |left| ==> !o.Crosses(left[i].price))
  }

  lemma TakesSnoc(o: Order, levels: seq<Level>, x: Level)
    ensures var remaining := o.volume - Sum(o.Takes(levels));
      o.Takes(levels + [x]) ==
      o.Takes(levels) + [if remaining <= 0.0 || !o.Crosses(x.price) then 0.0 else Min(remaining, x.volume)]
  {
    assert (levels + [x])[..|levels|] == levels;
  }

  lemma Taken(levels: seq<Level>, x: Level, t: seq<real>, y: real, trades: seq<Level>)
    requires |t| == |levels| && Trades(levels, t, trades)
    ensures Trades(levels + [x], t + [y], trades + [Level(x.price, y)])
    ensures y == 0.0 ==> Trades(levels + [x], t + [y], trades)
  {
    SnocAllocation(levels, x, t, y);
    SnocVolume(trades, Level(x.price, y));
  }

  lemma LeftOver(levels: seq<Level>, x: Level, t: seq<real>, y: real, left: seq<Level>)
    requires |t| == |levels| && Leaves(levels, t, left)
    ensures Leaves(levels + [x], t + [y], left + [Level(x.price, x.volume - y)])
    ensures x.volume == y ==> Leaves(levels + [x], t + [y], left)
  {
    SnocAllocation(levels, x, t, y);
    SnocVolume(levels, x);
    SnocVolume(left, Level(x.price, x.volume - y));
  }

  lemma RestsSnoc(o: Order, levels: seq<Level>, x: Level, left: seq<Level>, kept: Level, remaining: real)
    requires SortedBy(levels + [x], o.Best()) && Rests(o, levels, left, remaining) && kept.price == x.price
    ensures Rests(o, levels + [x], left, remaining)
    ensures remaining <= 0.0 || !o.Crosses(x.price) ==> Rests(o, levels + [x], left + [kept], remaining)
  {
    var all := levels + [x];
    assert all[|levels|] == x;
    if left != [] { assert all[|levels| - 1] == levels[|levels| - 1]; }
  }

  ghost predicate Settles(o: Order, levels: seq<Level>, trades: seq<Level>, left: seq<Level>, remaining: real)
  {
    && Trades(levels, o.Takes(levels), trades) && Leaves(levels, o.Takes(levels), left)
    && Rests(o, levels, left, remaining) && remaining == o.volume - Sum(o.Takes(levels))
    && Rests(o, levels, trades, 0.0) && forall i :: 0 <= i < |trades| ==> o.Crosses(trades[i].price)
  }

  lemma SkipLevel(o: Order, levels: seq<Level>, x: Level, trades: seq<Level>, left: seq<Level>, remaining: real)
    requires SortedBy(levels + [x], o.Best()) && Settles(o, levels, trades, left, remaining)
    requires remaining <= 0.0 || !o.Crosses(x.price)
    ensures Settles(o, levels + [x], trades, left + [x], remaining)
  {
    var t := o.Takes(levels);
    TakesSnoc(o, levels, x);
    Taken(levels, x, t, 0.0, trades);
    LeftOver(levels, x, t, 0.0, left);
    SnocAllocation(levels, x, t, 0.0);
    RestsSnoc(o, levels, x, left, x, remaining);
    RestsSnoc(o, levels, x, trades, x, 0.0);
  }

  lemma TakeRests(o: Order, levels: seq<Level>, x: Level, left: seq<Level>, remaining: real, take: real)
    requires SortedBy(levels + [x], o.Best()) && Rests(o, levels, left, remaining) && remaining > 0.0
    requires take == Min(remaining, x.volume)
    ensures var kept := x.volume - take;
      Rests(o, levels + [x], if kept > 0.0 then left + [Level(x.price, kept)] else left, remaining - take)
  {
    RestsWeaken(o, levels, left, remaining, remaining - take);
    RestsSnoc(o, levels, x, left, Level(x.price, x.volume - take), remaining - take);
  }

  lemma TakeLevel(o: Order, levels: seq<Level>, x: Level, trades: seq<Level>, left: seq<Level>, remaining: real)
    requires SortedBy(levels + [x], o.Best()) && Settles(o, levels, trades, left, remaining)
    requires remaining > 0.0 && o.Crosses(x.price)
    ensures var take := Min(remaining, x.volume);
      Settles(o, levels + [x], trades + [Level(x.price, take)],
              if x.volume - take > 0.0 then left + [Level(x.price, x.volume - take)] else left, remaining - take)
  {
    var take := Min(remaining, x.volume);
    TakesSnoc(o, levels, x);
    TakeTrades(levels, x, o.Takes(levels), take, trades, left);
    TakeRests(o, levels, x, left, remaining, take);
    RestsSnoc(o, levels, x, trades, Level(x.price, take), 0.0);
  }

  lemma TakeTrades(levels: seq<Level>, x: Level, t: seq<real>, take: real, trades: seq<Level>, left: seq<Level>)
    requires |t| == |levels| && Trades(levels, t, trades) && Leaves(levels, t, left) && take <= x.volume
    ensures Trades(levels + [x], t + [take], trades + [Level(x.price, take)])
    ensures Leaves(levels + [x], t + [take],
                   if x.volume - take > 0.0 then left + [Level(x.price, x.volume - take)] else left)
    ensures Sum(t + [take]) == Sum(t) + take
  {
    Taken(levels, x, t, take, trades);
    LeftOver(levels, x, t, take, left);
    TakenSum(t, take);
  }

  lemma TakenSum(t: seq<real>, y: real)
    ensures Sum(t + [y]) == Sum(t) + y
  {
    assert (t + [y])[..|t|] == t;
  }

  lemma RestsWeaken(o: Order, levels: seq<Level>, left: seq<Level>, before: real, after: real)
    requires Rests(o, levels, left, before) && before > 0.0
    ensures Rests(o, levels, left, after)
  {
  }

  lemma SettlesNothing(o: Order)
    ensures Settles(o, [], [], [], o.volume)
  {
  }

  lemma SettledVolume(o: Order, levels: seq<Level>, trades: seq<Level>, left: seq<Level>, remaining: real)
    requires Settles(o, levels, trades, left, remaining)
    ensures remaining == o.volume - TotalVolume(trades)
  {
  }

  lemma SortedPrefix(s: seq<Level>, le: (Level, Level) -> bool, n: nat)
    requires SortedBy(s, le) && n < |s|
    ensures s[..n + 1] == s[..n] + [s[n]] && SortedBy(s[..n] + [s[n]], le)
  {
    assert s[..n] + [s[n]] == s[..n + 1];
  }

  /** One level of the loop, after the levels `done`. */
  method Visit(o: Order, ghost done: seq<Level>, level: Level, trades0: seq<Level>, left0: seq<Level>, remaining0: real)
    returns (trades: seq<Level>, left: seq<Level>, remaining: real)
    requires SortedBy(done + [level], o.Best()) && Settles(o, done, trades0, left0, remaining0)
    ensures Settles(o, done + [level], trades, left, remaining)
  {
    if remaining0 <= 0.0 || !o.Crosses(level.price) {
      SkipLevel(o, done, level, trades0, left0, remaining0);
      return trades0, left0 + [level], remaining0;
    }
    var take := Min(remaining0, level.volume);
    var leftover := level.volume - take;
    trades, remaining := trades0 + [Level(level.price, take)], remaining0 - take;
    left := if leftover > 0.0 then left0 + [Level(level.price, leftover)] else left0;
    TakeLevel(o, done, level, trades0, left0, remaining0);
  }

  /** The matching loop over one sorted side of the book. */
  method Walk(o: Order, ordered: seq<Level>) returns (trades: seq<Level>, left: seq<Level>)
    requires SortedBy(ordered, o.Best())
    ensures Settles(o, ordered, trades, left, o.volume - TotalVolume(trades))
  {
    trades, left := [], [];
    var remaining := o.volume;
    SettlesNothing(o);
    for i := 0 to |ordered|
      invariant Settles(o, ordered[..i], trades, left, remaining)
    {
      SortedPrefix(ordered, o.Best(), i);
      trades, left, remaining := Visit(o, ordered[..i], ordered[i], trades, left, remaining);
    }
    assert ordered[..|ordered|] == ordered;
    SettledVolume(o, ordered, trades, left, remaining);
  }

  predicate Ascending(levels: seq<Level>)
  {
    forall i, j :: 0 <= i < j < |levels| ==> levels[i].price <= levels[j].price
  }

  predicate Descending(levels: seq<Level>)
  {
    forall i, j :: 0 <= i < j < |levels| ==> levels[i].price >= levels[j].price
  }

  /** A buy trades at or below its limit, cheapest first, and while it is open nothing at or below the limit is left;
      a sell the other way round. */
  predicate Crossed(o: Order, trades: seq<Level>, rest: seq<Level>)
  {
    if o.isBuy then
      && Ascending(trades) && Ascending(rest) && (forall i :: 0 <= i < |trades| ==> trades[i].price <= o.limit)
      && (TotalVolume(trades) < o.volume ==> forall i :: 0 <= i < |rest| ==> rest[i].price > o.limit)
    else
      && Descending(trades) && Descending(rest) && (forall i :: 0 <= i < |trades| ==> trades[i].price >= o.limit)
      && (TotalVolume(trades) < o.volume ==> forall i :: 0 <= i < |rest| ==> rest[i].price < o.limit)
  }

  lemma BestIs(o: Order, levels: seq<Level>)
    ensures SortedBy(levels, o.Best()) <==> if o.isBuy then Ascending(levels) else Descending(levels)
  {
    forall i, j | 0 <= i < j < |levels|
      ensures o.Best()(levels[i], levels[j]) <==>
              if o.isBuy then levels[i].price <= levels[j].price else levels[i].price >= levels[j].price
    {
    }
  }

  lemma SettledIsCrossed(o: Order, levels: seq<Level>, trades: seq<Level>, rest: seq<Level>)
    requires Settles(o, levels, trades, rest, o.volume - TotalVolume(trades))
    ensures Crossed(o, trades, rest)
  {
    BestIs(o, trades);
    BestIs(o, rest);
  }

  /** `simulate_order_matching` */
  method Match(bids: seq<Level>, asks: seq<Level>, o: Order)
    returns (remainingBids: seq<Level>, remainingAsks: seq<Level>, trades: seq<Level>)
    ensures var book, rest := if o.isBuy then asks else bids, if o.isBuy then remainingAsks else remainingBids;
      && Settles(o, o.Sorted(book), trades, rest, o.volume - TotalVolume(trades))
      && (forall p :: VolumeAt(trades, p) + VolumeAt(rest, p) == VolumeAt(book, p))
      && (NonNegative(book) ==> BestFill(o, book, trades)) && Crossed(o, trades, rest)
    ensures Descending(remainingBids) && Ascending(remainingAsks)
    ensures if o.isBuy then multiset(remainingBids) == multiset(bids) else multiset(remainingAsks) == multiset(asks)
  {
    var book := if o.isBuy then asks else bids;
    SortByIs(book, o.Best());
    VolumeSorted(book, o.Best());
    var left;
    trades, left := Walk(o, o.Sorted(book));
    SettledIsBest(o, book, trades, left);
    SettledIsCrossed(o, o.Sorted(book), trades, left);
    var otherSide := Order(0.0, 0.0, !o.isBuy);
    SortByIs(if o.isBuy then bids else asks, otherSide.Best());
    BestIs(otherSide, otherSide.Sorted(if o.isBuy then bids else asks));
    if o.isBuy {
      remainingBids, remainingAsks := otherSide.Sorted(bids), left;
    } else {
      remainingBids, remainingAsks := left, otherSide.Sorted(asks);
    }
  }

  lemma {:induction false} VolumeInsert(s: seq<Level>, x: Level, le: (Level, Level) -> bool, p: real)
    ensures VolumeAt(InsertBy(s, x, le), p) == VolumeAt(s, p) + if x.price == p then x.volume else 0.0
  {
    if s == [] || le(s[|s| - 1], x) {
      SnocVolume(s, x);
    } else {
      VolumeInsert(s[..|s| - 1], x, le, p);
      SnocVolume(InsertBy(s[..|s| - 1], x, le), s[|s| - 1]);
    }
  }

  /** Sorting a side of the book does not change the volume at any price. */
  lemma {:induction false} VolumeSorted(s: seq<Level>, le: (Level, Level) -> bool)
    ensures forall p :: VolumeAt(SortBy(s, le), p) == VolumeAt(s, p)
  {
    if s != [] {
      VolumeSorted(s[..|s| - 1], le);
      forall p ensures VolumeAt(SortBy(s, le), p) == VolumeAt(s, p) {
        VolumeInsert(SortBy(s[..|s| - 1], le), s[|s| - 1], le, p);
      }
    }
  }

  // ------------------------------------------------------- how much, at what price

  ghost predicate NonNegative(levels: seq<Level>)
  {
    forall i :: 0 <= i < |levels| ==> levels[i].volume >= 0.0
  }

  /** The order is filled up to the smaller of its volume and what it can reach. */
  lemma {:induction false} FillIsExact(o: Order, levels: seq<Level>)
    requires NonNegative(levels)
    ensures Sum(o.Takes(levels)) == Max(0.0, Min(o.volume, o.Reach(levels)))
    ensures o.Reach(levels) >= 0.0
  {
    if levels != [] {
      var init := levels[..|levels| - 1];
      FillIsExact(o, init);
      var t := o.Takes(levels);
      assert t[..|t| - 1] == o.Takes(init);
    }
  }

  /** Any way of giving the order volume from the levels it crosses. */
  ghost predicate Feasible(o: Order, levels: seq<Level>, a: seq<real>)
  {
    && |a| == |levels|
    && (forall i :: 0 <= i < |a| ==> 0.0 <= a[i] <= levels[i].volume)
    && (forall i :: 0 <= i < |a| ==> !o.Crosses(levels[i].price) ==> a[i] == 0.0)
  }

  lemma {:induction false} TakesFeasible(o: Order, levels: seq<Level>)
    requires NonNegative(levels)
    ensures Feasible(o, levels, o.Takes(levels))
  {
    if levels != [] {
      TakesFeasible(o, levels[..|levels| - 1]);
    }
  }

  /** A price the greedy allocation fills below and leaves alone above. */
  ghost predicate Pivot(o: Order, levels: seq<Level>, t: seq<real>, c: real)
    requires |t| == |levels|
  {
    forall i :: 0 <= i < |t| ==>
      && (t[i] == levels[i].volume || !o.Crosses(levels[i].price) || o.Cost(levels[i].price) >= c)
      && (t[i] == 0.0 || o.Cost(levels[i].price) <= c)
  }

  ghost predicate Exhausted(o: Order, levels: seq<Level>, t: seq<real>)
    requires |t| == |levels|
  {
    forall i :: 0 <= i < |t| ==> t[i] == levels[i].volume || !o.Crosses(levels[i].price)
  }

  lemma {:induction false} FindPivot(o: Order, levels: seq<Level>) returns (c: real)
    requires SortedBy(levels, o.Best()) && levels != []
    ensures Pivot(o, levels, o.Takes(levels), c) && c <= o.Cost(levels[|levels| - 1].price)
    ensures o.volume - Sum(o.Takes(levels)) > 0.0 ==> Exhausted(o, levels, o.Takes(levels))
  {
    var init, last := levels[..|levels| - 1], levels[|levels| - 1];
    var t := o.Takes(levels);
    assert t[..|t| - 1] == o.Takes(init);
    c := o.Cost(last.price);
    if init != [] {
      var d := FindPivot(o, init);
      assert o.Best()(levels[|levels| - 2], levels[|levels| - 1]);
      if o.volume - Sum(o.Takes(init)) <= 0.0 {
        c := d;
      } else {
        forall i | 0 <= i < |init| ensures o.Cost(levels[i].price) <= c { assert o.Best()(levels[i], last); }
      }
    }
  }

  /** What an allocation costs the order: its notional, negated for a sell. */
  function Paid(o: Order, levels: seq<Level>, a: seq<real>): real
    requires |a| == |levels|
  {
    if a == [] then 0.0
    else Paid(o, levels[..|a| - 1], a[..|a| - 1]) + o.Cost(levels[|a| - 1].price) * a[|a| - 1]
  }

  lemma {:induction false} PaidIsNotional(o: Order, levels: seq<Level>, a: seq<real>)
    requires |a| == |levels|
    ensures Paid(o, levels, a) == o.Cost(Notional(levels, a))
  {
    if a != [] {
      var n := |a| - 1;
      PaidIsNotional(o, levels[..n], a[..n]);
      assert (-levels[n].price) * a[n] == -(levels[n].price * a[n]);
    }
  }

  lemma NonNegativeProduct(x: real, y: real)
    requires (x >= 0.0 && y >= 0.0) || (x <= 0.0 && y <= 0.0)
    ensures x * y >= 0.0
  {
  }

  predicate Apart(k: real, c: real, x: real, y: real) { (k >= c && x >= y) || (k <= c && x <= y) || x == y }

  /** Level by level, `a` differs from `t` only away from the price `c`. */
  ghost predicate Bracketed(o: Order, levels: seq<Level>, t: seq<real>, a: seq<real>, c: real)
    requires |t| == |levels| == |a|
  {
    t != [] ==>
      var n := |t| - 1;
      Bracketed(o, levels[..n], t[..n], a[..n], c) && Apart(o.Cost(levels[n].price), c, a[n], t[n])
  }

  lemma {:induction false} PivotBrackets(o: Order, levels: seq<Level>, t: seq<real>, a: seq<real>, c: real)
    requires |t| == |levels| && Feasible(o, levels, a) && Feasible(o, levels, t) && Pivot(o, levels, t, c)
    ensures Bracketed(o, levels, t, a, c)
  {
    if t != [] {
      var n := |t| - 1;
      PivotBrackets(o, levels[..n], t[..n], a[..n], c);
    }
  }

  /** The cost of the same volume at the flat price `c`. */
  function Flat(c: real, a: seq<real>): real
  {
    if a == [] then 0.0 else Flat(c, a[..|a| - 1]) + c * a[|a| - 1]
  }

  lemma {:induction false} FlatIs(c: real, a: seq<real>)
    ensures Flat(c, a) == c * Sum(a)
  {
    if a != [] {
      FlatIs(c, a[..|a| - 1]);
      assert c * (Sum(a[..|a| - 1]) + a[|a| - 1]) == c * Sum(a[..|a| - 1]) + c * a[|a| - 1];
    }
  }

  lemma MoveVolume(k: real, c: real, x: real, y: real)
    requires Apart(k, c, x, y)
    ensures k * x - c * x >= k * y - c * y
  {
    if x != y { NonNegativeProduct(k - c, x - y); }
    assert (k - c) * (x - y) == (k * x - c * x) - (k * y - c * y);
  }

  /** Moving volume away from a pivot can only cost more than its flat price. */
  lemma {:induction false} PivotCost(o: Order, levels: seq<Level>, t: seq<real>, a: seq<real>, c: real)
    requires |t| == |levels| == |a| && Bracketed(o, levels, t, a, c)
    ensures Paid(o, levels, a) - Flat(c, a) >= Paid(o, levels, t) - Flat(c, t)
  {
    if t != [] {
      var n := |t| - 1;
      var k := o.Cost(levels[n].price);
      PivotCost(o, levels[..n], t[..n], a[..n], c);
      MoveVolume(k, c, a[n], t[n]);
      AddCosts(Paid(o, levels[..n], a[..n]), Flat(c, a[..n]), Paid(o, levels[..n], t[..n]), Flat(c, t[..n]),
               k * a[n], c * a[n], k * t[n], c * t[n]);
    }
  }

  lemma AddCosts(a: real, fa: real, t: real, ft: real, ka: real, ca: real, kt: real, ct: real)
    requires a - fa >= t - ft && ka - ca >= kt - ct
    ensures (a + ka) - (fa + ca) >= (t + kt) - (ft + ct)
  {
  }

  lemma PivotIsCheapest(o: Order, levels: seq<Level>, t: seq<real>, a: seq<real>, c: real)
    requires |t| == |levels| == |a| && Bracketed(o, levels, t, a, c) && Sum(a) == Sum(t)
    ensures Paid(o, levels, t) <= Paid(o, levels, a)
  {
    PivotCost(o, levels, t, a, c);
    FlatIs(c, a);
    FlatIs(c, t);
  }

  lemma GreedyIsCheapest(o: Order, levels: seq<Level>, a: seq<real>)
    requires SortedBy(levels, o.Best()) && NonNegative(levels)
    requires Feasible(o, levels, a) && Sum(a) == Sum(o.Takes(levels))
    ensures Paid(o, levels, o.Takes(levels)) <= Paid(o, levels, a)
  {
    if levels != [] {
      var c := FindPivot(o, levels);
      TakesFeasible(o, levels);
      PivotBrackets(o, levels, o.Takes(levels), a, c);
      PivotIsCheapest(o, levels, o.Takes(levels), a, c);
    }
  }

  /** Greedy matching has the best total price of all ways to fill the same volume. */
  lemma GreedyIsOptimal(o: Order, levels: seq<Level>, a: seq<real>)
    requires SortedBy(levels, o.Best()) && NonNegative(levels)
    requires Feasible(o, levels, a) && Sum(a) == Sum(o.Takes(levels))
    ensures o.isBuy ==> Notional(levels, o.Takes(levels)) <= Notional(levels, a)
    ensures !o.isBuy ==> Notional(levels, o.Takes(levels)) >= Notional(levels, a)
  {
    GreedyIsCheapest(o, levels, a);
    PaidIsNotional(o, levels, o.Takes(levels));
    PaidIsNotional(o, levels, a);
  }

  // -------------------------------------------------------- back to the caller's book

  lemma {:induction false} ReachInsert(o: Order, s: seq<Level>, x: Level)
    ensures o.Reach(InsertBy(s, x, o.Best())) == o.Reach(s) + if o.Crosses(x.price) then x.volume else 0.0
  {
    if s == [] || o.Best()(s[|s| - 1], x) {
      assert (s + [x])[..|s|] == s;
    } else {
      var init, last := s[..|s| - 1], s[|s| - 1];
      ReachInsert(o, init, x);
      var r := InsertBy(init, x, o.Best());
      assert (r + [last])[..|r|] == r;
    }
  }

  lemma {:induction false} ReachSorted(o: Order, s: seq<Level>)
    ensures o.Reach(o.Sorted(s)) == o.Reach(s)
  {
    if s != [] {
      ReachSorted(o, s[..|s| - 1]);
      ReachInsert(o, o.Sorted(s[..|s| - 1]), s[|s| - 1]);
    }
  }

  /** What one level gives, and for how much. */
  datatype Fill = Fill(volume: real, paid: real)

  predicate Gives(o: Order, x: Level, f: Fill)
  {
    0.0 <= f.volume <= x.volume && (!o.Crosses(x.price) ==> f.volume == 0.0) && f.paid == x.price * f.volume
  }

  /** The fills of `s`, level by level, come to `volume` and `paid`. */
  ghost predicate Fills(o: Order, s: seq<Level>, fs: seq<Fill>, volume: real, paid: real)
  {
    |fs| == |s| &&
    if s == [] then volume == paid == 0.0
    else
      var n := |s| - 1;
      Gives(o, s[n], fs[n]) && Fills(o, s[..n], fs[..n], volume - fs[n].volume, paid - fs[n].paid)
  }

  lemma FillLast(o: Order, s: seq<Level>, fs: seq<Fill>, x: Level, f: Fill, volume: real, paid: real)
    requires Fills(o, s, fs, volume, paid) && Gives(o, x, f)
    ensures Fills(o, s + [x], fs + [f], volume + f.volume, paid + f.paid)
  {
    assert (s + [x])[..|s|] == s && (fs + [f])[..|fs|] == fs;
  }

  /** Fills follow their levels to where sorting puts them. */
  lemma {:induction false} InsertFill(o: Order, s: seq<Level>, fs: seq<Fill>, x: Level, f: Fill, volume: real,
                                      paid: real)
    returns (gs: seq<Fill>)
    requires Fills(o, s, fs, volume, paid) && Gives(o, x, f)
    ensures Fills(o, InsertBy(s, x, o.Best()), gs, volume + f.volume, paid + f.paid)
  {
    if s == [] || o.Best()(s[|s| - 1], x) {
      gs := fs + [f];
      FillLast(o, s, fs, x, f, volume, paid);
    } else {
      var n := |s| - 1;
      var last := fs[n];
      var hs := InsertFill(o, s[..n], fs[..n], x, f, volume - last.volume, paid - last.paid);
      gs := hs + [last];
      FillLast(o, InsertBy(s[..n], x, o.Best()), hs, s[n], last,
               volume - last.volume + f.volume, paid - last.paid + f.paid);
    }
  }

  lemma {:induction false} SortFills(o: Order, s: seq<Level>, fs: seq<Fill>, volume: real, paid: real)
    returns (gs: seq<Fill>)
    requires Fills(o, s, fs, volume, paid)
    ensures Fills(o, o.Sorted(s), gs, volume, paid)
  {
    if s == [] {
      gs := [];
    } else {
      var n := |s| - 1;
      var hs := SortFills(o, s[..n], fs[..n], volume - fs[n].volume, paid - fs[n].paid);
      gs := InsertFill(o, o.Sorted(s[..n]), hs, s[n], fs[n], volume - fs[n].volume, paid - fs[n].paid);
    }
  }

  lemma LastFeasible(o: Order, s: seq<Level>, a: seq<real>) returns (f: Fill)
    requires s != [] && Feasible(o, s, a)
    ensures var n := |s| - 1;
      && f.volume == a[n] && Gives(o, s[n], f) && Feasible(o, s[..n], a[..n])
      && Sum(a) == Sum(a[..n]) + f.volume && Notional(s, a) == Notional(s[..n], a[..n]) + f.paid
  {
    f := Fill(a[|s| - 1], s[|s| - 1].price * a[|s| - 1]);
  }

  lemma {:induction false} FillsOf(o: Order, s: seq<Level>, a: seq<real>, volume: real, paid: real)
    returns (fs: seq<Fill>)
    requires Feasible(o, s, a) && volume == Sum(a) && paid == Notional(s, a)
    ensures Fills(o, s, fs, volume, paid)
  {
    if s == [] {
      fs := [];
    } else {
      var n := |s| - 1;
      var f := LastFeasible(o, s, a);
      var gs := FillsOf(o, s[..n], a[..n], volume - f.volume, paid - f.paid);
      fs := gs + [f];
      FillLast(o, s[..n], gs, s[n], f, volume - f.volume, paid - f.paid);
      assert s[..n] + [s[n]] == s;
    }
  }

  lemma FeasibleLast(o: Order, s: seq<Level>, b: seq<real>, x: Level, f: Fill)
    requires Feasible(o, s, b) && Gives(o, x, f)
    ensures Feasible(o, s + [x], b + [f.volume])
    ensures Sum(b + [f.volume]) == Sum(b) + f.volume && Notional(s + [x], b + [f.volume]) == Notional(s, b) + f.paid
  {
    SnocAllocation(s, x, b, f.volume);
  }

  lemma {:induction false} AllocationOf(o: Order, s: seq<Level>, fs: seq<Fill>, volume: real, paid: real)
    returns (a: seq<real>)
    requires Fills(o, s, fs, volume, paid)
    ensures Feasible(o, s, a) && Sum(a) == volume && Notional(s, a) == paid
  {
    if s == [] {
      a := [];
    } else {
      var n := |s| - 1;
      var b := AllocationOf(o, s[..n], fs[..n], volume - fs[n].volume, paid - fs[n].paid);
      a := b + [fs[n].volume];
      FeasibleLast(o, s[..n], b, s[n], fs[n]);
      assert s[..n] + [s[n]] == s;
    }
  }

  /** The same volume for the same price, from the book as the caller holds it and from its sorted side. */
  lemma SortAllocation(o: Order, s: seq<Level>, a: seq<real>) returns (b: seq<real>)
    requires Feasible(o, s, a)
    ensures Feasible(o, o.Sorted(s), b) && Sum(b) == Sum(a) && Notional(o.Sorted(s), b) == Notional(s, a)
  {
    var fs := FillsOf(o, s, a, Sum(a), Notional(s, a));
    var gs := SortFills(o, s, fs, Sum(a), Notional(s, a));
    b := AllocationOf(o, o.Sorted(s), gs, Sum(a), Notional(s, a));
  }

  lemma NonNegativeSorted(o: Order, book: seq<Level>)
    requires NonNegative(book)
    ensures NonNegative(o.Sorted(book))
  {
    BestOrder(o);
    forall i | 0 <= i < |o.Sorted(book)| ensures o.Sorted(book)[i].volume >= 0.0 {
      SortByMember(book, o.Best(), o.Sorted(book)[i]);
    }
  }

  lemma BestOrder(o: Order)
    ensures TotalPreorder(o.Best())
  {
  }

  /** The trades fill the smaller of the order's volume and the book's crossing volume. */
  lemma MatchFills(o: Order, book: seq<Level>, trades: seq<Level>)
    requires NonNegative(book) && Trades(o.Sorted(book), o.Takes(o.Sorted(book)), trades)
    ensures TotalVolume(trades) == Max(0.0, Min(o.volume, o.Reach(book)))
  {
    NonNegativeSorted(o, book);
    FillIsExact(o, o.Sorted(book));
    ReachSorted(o, book);
  }

  /** No way of giving the order the same volume from the book as the caller holds it has a better total price. */
  lemma MatchIsOptimal(o: Order, book: seq<Level>, trades: seq<Level>, a: seq<real>)
    requires NonNegative(book) && Trades(o.Sorted(book), o.Takes(o.Sorted(book)), trades)
    requires Feasible(o, book, a) && Sum(a) == TotalVolume(trades)
    ensures o.Cost(TotalPaid(trades)) <= o.Cost(Notional(book, a))
  {
    NonNegativeSorted(o, book);
    BestOrder(o);
    SortByIs(book, o.Best());
    var b := SortAllocation(o, book, a);
    GreedyIsOptimal(o, o.Sorted(book), b);
  }

  /** All that can be filled is filled, at the best total price. */
  ghost predicate BestFill(o: Order, book: seq<Level>, trades: seq<Level>)
  {
    && TotalVolume(trades) == Max(0.0, Min(o.volume, o.Reach(book)))
    && forall a :: Feasible(o, book, a) && Sum(a) == TotalVolume(trades) ==>
        if o.isBuy then TotalPaid(trades) <= Notional(book, a) else TotalPaid(trades) >= Notional(book, a)
  }

  lemma SettledIsBest(o: Order, book: seq<Level>, trades: seq<Level>, left: seq<Level>)
    requires Settles(o, o.Sorted(book), trades, left, o.volume - TotalVolume(trades))
    ensures NonNegative(book) ==> BestFill(o, book, trades)
  {
    if NonNegative(book) {
      MatchFills(o, book, trades);
      forall a | Feasible(o, book, a) && Sum(a) == TotalVolume(trades)
        ensures if o.isBuy then TotalPaid(trades) <= Notional(book, a) else TotalPaid(trades) >= Notional(book, a)
      {
        MatchIsOptimal(o, book, trades, a);
      }
    }
  }
}
