/** One taker against one side of the book.

    `Match` is what both matching loops compute. The lemmas below say what that
    is worth: a prefix of the book is consumed, greedily, at the best cost any
    allocation could reach.
 */
module Matching {
  import opened Tolerance

  datatype Side = Buy | Sell
  datatype OrderType = Limit | Market
  datatype OrderStatus = Open | Partial | Filled | Cancelled

  /** Order ids are the counter behind "ord-00000001", so later orders have larger ids. */
  datatype Order = Order(
    id: nat, side: Side, orderType: OrderType, price: real, size: real, filled: real,
    address: string, timestamp: nat, status: OrderStatus)
  {
    function Remaining(): real { size - filled }
  }

  datatype Trade = Trade(price: real, size: real, side: Side, maker: nat, taker: nat)

  type Orders = map<nat, Order>

  function Min(a: real, b: real): real { if a <= b then a else b }

  /** The price check of a limit taker against a resting order. */
  predicate Crosses(taker: Order, price: real) {
    match taker.side
    case Buy => price <= taker.price
    case Sell => price >= taker.price
  }

  predicate Eligible(taker: Order, maker: Order) {
    taker.orderType == Limit ==> Crosses(taker, maker.price)
  }

  function AsFilled(all: Orders, id: nat): Orders {
    if id in all then all[id := all[id].(filled := all[id].size, status := Filled)] else all
  }

  function AsPartial(all: Orders, id: nat, filled: real): Orders {
    if id in all then all[id := all[id].(filled := filled, status := Partial)] else all
  }

  datatype Outcome = Outcome(taker: Order, book: seq<Order>, fills: seq<Trade>, all: Orders)

  function Fill(o: Order, q: real): Order { o.(filled := o.filled + q) }

  function TradeOf(taker: Order, maker: Order): Trade {
    Trade(maker.price, Min(taker.Remaining(), maker.Remaining()), taker.side, maker.id, taker.id)
  }

  /** The taker eats the book from its head until it is full, or nothing eligible is left. */
  function Match(taker: Order, book: seq<Order>, all: Orders): Outcome
    decreases |book|
  {
    if book == [] || taker.Remaining() <= DUST || !Eligible(taker, book[0]) then Outcome(taker, book, [], all)
    else
      var trade := TradeOf(taker, book[0]);
      var taker', maker' := Fill(taker, trade.size), Fill(book[0], trade.size);
      if maker'.Remaining() <= DUST then
        var rest := Match(taker', book[1..], AsFilled(all, maker'.id));
        rest.(fills := [trade] + rest.fills)
      else Outcome(taker', [maker'] + book[1..], [trade], AsPartial(all, maker'.id, maker'.filled))
  }

  /** The status a matching loop leaves on its taker. */
  function Settled(taker: Order): Order {
    if taker.Remaining() <= DUST then taker.(status := Filled) else taker
  }

  // ---- Quantities ----

  function Volume(fills: seq<Trade>): real {
    if fills == [] then 0.0 else fills[0].size + Volume(fills[1..])
  }

  /** Everything the taker could be filled with, walking from the best price. */
  function Available(taker: Order, book: seq<Order>): real {
    if book == [] then 0.0
    else (if Eligible(taker, book[0]) then book[0].Remaining() else 0.0) + Available(taker, book[1..])
  }

  ghost predicate AllOffer(book: seq<Order>) {
    forall i :: 0 <= i < |book| ==> book[i].Remaining() > DUST
  }

  /** Best price first, as the taker of that side sees it. */
  ghost predicate BestFirst(side: Side, book: seq<Order>) {
    forall i, j :: 0 <= i < j < |book| ==>
      if side == Buy then book[i].price <= book[j].price else book[i].price >= book[j].price
  }

  /** The taker keeps everything but its filled quantity. */
  lemma {:induction false} MatchMovesTaker(taker: Order, book: seq<Order>, all: Orders)
    ensures var m := Match(taker, book, all);
      m.taker == Fill(taker, Volume(m.fills))
    decreases |book|
  {
    if book == [] || taker.Remaining() <= DUST || !Eligible(taker, book[0]) {
    } else {
      var trade := TradeOf(taker, book[0]);
      var taker' := Fill(taker, trade.size);
      var rest := Match(taker', book[1..], AsFilled(all, book[0].id));
      MatchMovesTaker(taker', book[1..], AsFilled(all, book[0].id));
      assert ([trade] + rest.fills)[1..] == rest.fills;
      assert [trade][1..] == [];
      assert Volume([]) == 0.0;
    }
  }

  lemma {:induction false} NothingEligible(taker: Order, book: seq<Order>)
    requires BestFirst(taker.side, book)
    requires book != [] ==> !Eligible(taker, book[0])
    ensures Available(taker, book) == 0.0
  {
    if book == [] {
    } else {
      NothingEligible(taker, book[1..]);
    }
  }

  lemma {:induction false} AvailableIsPositive(taker: Order, book: seq<Order>)
    requires AllOffer(book)
    ensures Available(taker, book) >= 0.0
  {
    if book == [] {
    } else {
      AvailableIsPositive(taker, book[1..]);
    }
  }

  lemma {:induction false} AvailableIgnoresFills(taker: Order, taker': Order, book: seq<Order>)
    requires taker'.side == taker.side && taker'.orderType == taker.orderType && taker'.price == taker.price
    ensures Available(taker', book) == Available(taker, book)
  {
    if book == [] {
    } else {
      AvailableIgnoresFills(taker, taker', book[1..]);
    }
  }

  /** A taker gets exactly the smaller of its size and the eligible quantity; it can
      only fall short of that by stopping within dust of its own size. */
  lemma {:induction false} FillsWhatIsThere(taker: Order, book: seq<Order>, all: Orders)
    requires AllOffer(book) && BestFirst(taker.side, book) && taker.Remaining() >= 0.0
    ensures var v := Volume(Match(taker, book, all).fills);
      var most := Min(taker.Remaining(), Available(taker, book));
      && 0.0 <= v <= most
      && (v < most ==> 0.0 < taker.Remaining() - v <= DUST)
    decreases |book|
  {
    AvailableIsPositive(taker, book);
    if book == [] || taker.Remaining() <= DUST {
    } else if !Eligible(taker, book[0]) {
      NothingEligible(taker, book);
    } else {
      var trade := TradeOf(taker, book[0]);
      var taker' := Fill(taker, trade.size);
      var rest := Match(taker', book[1..], AsFilled(all, book[0].id));
      FillsWhatIsThere(taker', book[1..], AsFilled(all, book[0].id));
      AvailableIgnoresFills(taker, taker', book[1..]);
      AvailableIsPositive(taker, book[1..]);
      assert ([trade] + rest.fills)[1..] == rest.fills;
      assert [trade][1..] == [] && Volume([]) == 0.0;
    }
  }

  // ---- Price-time priority ----

  /** The makers are consumed as a prefix of the book: each fill is for the order in
      its place, all but the last are exhausted, and only the last may stay, reduced. */
  ghost predicate ConsumesPrefix(taker: Order, book: seq<Order>, m: Outcome) {
    var n := |m.fills|;
    && n <= |book|
    && (forall k :: 0 <= k < n ==>
          && Eligible(taker, book[k])
          && m.fills[k] == Trade(book[k].price, m.fills[k].size, taker.side, book[k].id, taker.id)
          && 0.0 < m.fills[k].size <= book[k].Remaining()
          && (k < n - 1 ==> m.fills[k].size == book[k].Remaining()))
    && (m.book == book[n..]
        || (n > 0 && m.book == [Fill(book[n - 1], m.fills[n - 1].size)] + book[n..] && m.book[0].Remaining() > DUST))
    && (m.taker.Remaining() > DUST ==>
          m.book == book[n..] && (m.book != [] ==> !Eligible(taker, m.book[0])))
  }

  lemma {:induction false} MatchConsumesPrefix(taker: Order, book: seq<Order>, all: Orders)
    requires AllOffer(book)
    ensures ConsumesPrefix(taker, book, Match(taker, book, all))
    decreases |book|
  {
    if book == [] || taker.Remaining() <= DUST || !Eligible(taker, book[0]) {
    } else {
      var trade := TradeOf(taker, book[0]);
      var taker', maker' := Fill(taker, trade.size), Fill(book[0], trade.size);
      if maker'.Remaining() <= DUST {
        var rest := Match(taker', book[1..], AsFilled(all, maker'.id));
        MatchConsumesPrefix(taker', book[1..], AsFilled(all, maker'.id));
        PrefixCons(taker, book, trade, rest);
        assert Match(taker, book, all) == rest.(fills := [trade] + rest.fills);
      }
    }
  }

  lemma PrefixCons(taker: Order, book: seq<Order>, trade: Trade, rest: Outcome)
    requires book != [] && Eligible(taker, book[0]) && trade == TradeOf(taker, book[0])
    requires taker.Remaining() > DUST && book[0].Remaining() > DUST
    requires Fill(book[0], trade.size).Remaining() <= DUST
    requires ConsumesPrefix(Fill(taker, trade.size), book[1..], rest)
    requires Fill(taker, trade.size).Remaining() <= DUST ==> rest.fills == []
    ensures ConsumesPrefix(taker, book, rest.(fills := [trade] + rest.fills))
  {
    var n := |rest.fills|;
    var fills := [trade] + rest.fills;
    assert forall k :: 0 < k < n + 1 ==> fills[k] == rest.fills[k - 1] && book[k] == book[1..][k - 1];
    assert book[1..][n..] == book[n + 1..];
  }

  // ---- Best execution ----

  /** What `q` at this price costs the taker; a seller counts proceeds as negative cost. */
  function Worth(side: Side, price: real, q: real): real {
    if side == Buy then price * q else -(price * q)
  }

  predicate NoBetter(side: Side, worse: real, better: real) {
    if side == Buy then better <= worse else better >= worse
  }

  lemma WorthAdds(side: Side, price: real, q: real, d: real)
    ensures Worth(side, price, q + d) == Worth(side, price, q) + Worth(side, price, d)
    ensures Worth(side, price, 0.0) == 0.0
  {
    assert price * (q + d) == price * q + price * d;
  }

  lemma WorthMonotone(side: Side, worse: real, better: real, q: real)
    requires NoBetter(side, worse, better) && q >= 0.0
    ensures Worth(side, better, q) <= Worth(side, worse, q)
  {
    if side == Buy {
      assert (worse - better) * q >= 0.0;
    } else {
      assert (better - worse) * q >= 0.0;
    }
  }

  /** Any way to spread a quantity over the orders of the book. */
  ghost predicate Allocation(taker: Order, book: seq<Order>, alloc: seq<real>) {
    && |alloc| == |book|
    && forall i :: 0 <= i < |book| ==>
         && 0.0 <= alloc[i] <= book[i].Remaining()
         && (alloc[i] > 0.0 ==> Eligible(taker, book[i]))
  }

  function Total(alloc: seq<real>): real {
    if alloc == [] then 0.0 else alloc[0] + Total(alloc[1..])
  }

  function AllocationCost(side: Side, alloc: seq<real>, book: seq<Order>): real
    requires |alloc| == |book|
  {
    if alloc == [] then 0.0 else Worth(side, book[0].price, alloc[0]) + AllocationCost(side, alloc[1..], book[1..])
  }

  function Cost(side: Side, fills: seq<Trade>): real {
    if fills == [] then 0.0 else Worth(side, fills[0].price, fills[0].size) + Cost(side, fills[1..])
  }

  /** The cost of filling `q` greedily from the head of the book. */
  function Greedy(side: Side, book: seq<Order>, q: real): real {
    if book == [] then 0.0
    else
      var g := Min(q, book[0].Remaining());
      Worth(side, book[0].price, g) + Greedy(side, book[1..], q - g)
  }

  function Supply(book: seq<Order>): real {
    if book == [] then 0.0 else book[0].Remaining() + Supply(book[1..])
  }

  lemma {:induction false} GreedyNothing(side: Side, book: seq<Order>)
    requires AllOffer(book)
    ensures Greedy(side, book, 0.0) == 0.0
  {
    if book == [] {
    } else {
      GreedyNothing(side, book[1..]);
      WorthAdds(side, book[0].price, 0.0, 0.0);
    }
  }

  /** Filling stops inside the head order. */
  lemma GreedyInside(side: Side, book: seq<Order>, q: real)
    requires book != [] && AllOffer(book) && q <= book[0].Remaining()
    ensures Greedy(side, book, q) == Worth(side, book[0].price, q)
  {
    GreedyNothing(side, book[1..]);
  }

  /** Filling goes past the head order, by `left`. */
  lemma GreedyPast(side: Side, book: seq<Order>, left: real)
    requires book != [] && left >= 0.0
    ensures Greedy(side, book, book[0].Remaining() + left)
         == Worth(side, book[0].price, book[0].Remaining()) + Greedy(side, book[1..], left)
  {
    var r := book[0].Remaining();
    assert Min(r + left, r) == r && r + left - r == left;
  }

  lemma GreedyGrowsInside(side: Side, book: seq<Order>, q: real, d: real, best: real)
    requires AllOffer(book) && book != [] && q >= 0.0 && d >= 0.0 && q + d <= book[0].Remaining()
    requires NoBetter(side, book[0].price, best)
    ensures Greedy(side, book, q + d) >= Greedy(side, book, q) + Worth(side, best, d)
  {
    GreedyInside(side, book, q);
    GreedyInside(side, book, q + d);
    WorthAdds(side, book[0].price, q, d);
    WorthMonotone(side, book[0].price, best, d);
  }

  /** The head order is used up already. */
  lemma GreedyGrowsBehind(side: Side, book: seq<Order>, q: real, d: real, best: real)
    requires book != [] && d >= 0.0 && q >= book[0].Remaining()
    requires var left := q - book[0].Remaining();
      Greedy(side, book[1..], left + d) >= Greedy(side, book[1..], left) + Worth(side, best, d)
    ensures Greedy(side, book, q + d) >= Greedy(side, book, q) + Worth(side, best, d)
  {
    var r := book[0].Remaining();
    GreedyPast(side, book, q - r);
    GreedyPast(side, book, (q - r) + d);
    assert r + (q - r) == q && r + ((q - r) + d) == q + d;
  }

  /** The extra quantity uses the head order up and goes on behind it, by `e`. */
  lemma GreedyGrowsAcross(side: Side, book: seq<Order>, q: real, e: real, best: real)
    requires AllOffer(book) && book != [] && 0.0 <= q < book[0].Remaining() && e >= 0.0
    requires NoBetter(side, book[0].price, best)
    requires Greedy(side, book[1..], e) >= Worth(side, best, e)
    ensures Greedy(side, book, book[0].Remaining() + e)
         >= Greedy(side, book, q) + Worth(side, best, book[0].Remaining() - q + e)
  {
    var p, r := book[0].price, book[0].Remaining();
    GreedyInside(side, book, q);
    GreedyPast(side, book, e);
    WorthAdds(side, p, q, r - q);
    WorthMonotone(side, p, best, r - q);
    WorthAdds(side, best, r - q, e);
    assert q + (r - q) == r;
  }

  /** More quantity costs at least the best price per extra unit. */
  lemma {:induction false} GreedyGrows(side: Side, book: seq<Order>, q: real, d: real, best: real)
    requires AllOffer(book) && q >= 0.0 && d >= 0.0 && q + d <= Supply(book)
    requires forall i :: 0 <= i < |book| ==> NoBetter(side, book[i].price, best)
    ensures Greedy(side, book, q + d) >= Greedy(side, book, q) + Worth(side, best, d)
  {
    if book == [] {
      WorthAdds(side, best, d, d);
    } else {
      var r := book[0].Remaining();
      if q + d <= r {
        GreedyGrowsInside(side, book, q, d, best);
      } else if q >= r {
        GreedyGrows(side, book[1..], q - r, d, best);
        GreedyGrowsBehind(side, book, q, d, best);
      } else {
        var e := q + d - r;
        GreedyGrows(side, book[1..], 0.0, e, best);
        GreedyNothing(side, book[1..]);
        assert 0.0 + e == e;
        GreedyGrowsAcross(side, book, q, e, best);
        assert r + e == q + d && r - q + e == d;
      }
    }
  }

  lemma {:induction false} AllocationWithinSupply(taker: Order, book: seq<Order>, alloc: seq<real>)
    requires Allocation(taker, book, alloc)
    ensures 0.0 <= Total(alloc) <= Supply(book)
  {
    if book == [] {
    } else {
      AllocationWithinSupply(taker, book[1..], alloc[1..]);
    }
  }

  /** Greedy from the head is the cheapest allocation. */
  lemma {:induction false} GreedyIsCheapest(taker: Order, book: seq<Order>, alloc: seq<real>)
    requires AllOffer(book) && BestFirst(taker.side, book) && Allocation(taker, book, alloc)
    ensures Greedy(taker.side, book, Total(alloc)) <= AllocationCost(taker.side, alloc, book)
  {
    if book == [] {
    } else {
      var side, a, rest := taker.side, alloc[0], alloc[1..];
      GreedyIsCheapest(taker, book[1..], rest);
      AllocationWithinSupply(taker, book[1..], rest);
      HeadFirst(side, book, a, Total(rest));
    }
  }

  /** Taking `a` from the head order and `q` from the rest is no cheaper than greedy. */
  lemma HeadFirst(side: Side, book: seq<Order>, a: real, q: real)
    requires AllOffer(book) && BestFirst(side, book) && book != []
    requires 0.0 <= a <= book[0].Remaining() && 0.0 <= q <= Supply(book[1..])
    ensures Greedy(side, book, a + q) <= Worth(side, book[0].price, a) + Greedy(side, book[1..], q)
  {
    assert forall i :: 0 <= i < |book[1..]| ==> NoBetter(side, book[1..][i].price, book[0].price);
    if a + q <= book[0].Remaining() {
      HeadHoldsAll(side, book, a, q);
    } else {
      HeadFillsUp(side, book, a, q);
    }
  }

  lemma HeadHoldsAll(side: Side, book: seq<Order>, a: real, q: real)
    requires AllOffer(book) && book != [] && a + q <= book[0].Remaining()
    requires 0.0 <= q <= Supply(book[1..])
    requires forall i :: 0 <= i < |book[1..]| ==> NoBetter(side, book[1..][i].price, book[0].price)
    ensures Greedy(side, book, a + q) <= Worth(side, book[0].price, a) + Greedy(side, book[1..], q)
  {
    GreedyInside(side, book, a + q);
    GreedyGrows(side, book[1..], 0.0, q, book[0].price);
    GreedyNothing(side, book[1..]);
    WorthAdds(side, book[0].price, a, q);
    assert 0.0 + q == q;
  }

  lemma HeadFillsUp(side: Side, book: seq<Order>, a: real, q: real)
    requires AllOffer(book) && book != [] && 0.0 <= a <= book[0].Remaining() < a + q
    requires 0.0 <= q <= Supply(book[1..])
    requires forall i :: 0 <= i < |book[1..]| ==> NoBetter(side, book[1..][i].price, book[0].price)
    ensures Greedy(side, book, a + q) <= Worth(side, book[0].price, a) + Greedy(side, book[1..], q)
  {
    var d := book[0].Remaining() - a;
    var left := q - d;
    GreedyPast(side, book, left);
    assert book[0].Remaining() + left == a + q;
    GreedyGrows(side, book[1..], left, d, book[0].price);
    assert left + d == q;
    WorthAdds(side, book[0].price, a, d);
    assert a + d == book[0].Remaining();
  }

  lemma CostCons(side: Side, trade: Trade, fills: seq<Trade>)
    ensures Volume([trade] + fills) == trade.size + Volume(fills)
    ensures Cost(side, [trade] + fills) == Worth(side, trade.price, trade.size) + Cost(side, fills)
  {
    assert ([trade] + fills)[1..] == fills;
  }

  lemma {:induction false} VolumeIsPositive(fills: seq<Trade>)
    requires forall k :: 0 <= k < |fills| ==> fills[k].size > 0.0
    ensures Volume(fills) >= 0.0
  {
    if fills == [] {
    } else {
      VolumeIsPositive(fills[1..]);
    }
  }

  lemma {:induction false} OneFillIsGreedy(side: Side, book: seq<Order>, trade: Trade)
    requires AllOffer(book) && book != [] && trade.price == book[0].price
    requires 0.0 <= trade.size <= book[0].Remaining()
    ensures Cost(side, [trade]) == Greedy(side, book, Volume([trade]))
  {
    GreedyInside(side, book, trade.size);
    CostCons(side, trade, []);
    assert [trade] + [] == [trade];
  }

  lemma {:induction false} FillsGoOn(side: Side, book: seq<Order>, trade: Trade, fills: seq<Trade>)
    requires AllOffer(book) && book != [] && trade.price == book[0].price
    requires trade.size == book[0].Remaining() && Volume(fills) >= 0.0
    requires Cost(side, fills) == Greedy(side, book[1..], Volume(fills))
    ensures Cost(side, [trade] + fills) == Greedy(side, book, Volume([trade] + fills))
  {
    var left := Volume(fills);
    CostCons(side, trade, fills);
    GreedyPast(side, book, left);
    assert Volume([trade] + fills) == book[0].Remaining() + left;
  }

  /** The fills of a match cost exactly the greedy price of their volume. */
  lemma {:induction false} MatchIsGreedy(taker: Order, book: seq<Order>, all: Orders)
    requires AllOffer(book)
    ensures var m := Match(taker, book, all);
      Cost(taker.side, m.fills) == Greedy(taker.side, book, Volume(m.fills))
    decreases |book|
  {
    if book == [] || taker.Remaining() <= DUST || !Eligible(taker, book[0]) {
      GreedyNothing(taker.side, book);
    } else {
      var trade := TradeOf(taker, book[0]);
      var taker', maker' := Fill(taker, trade.size), Fill(book[0], trade.size);
      if maker'.Remaining() <= DUST && trade.size == book[0].Remaining() {
        var rest := Match(taker', book[1..], AsFilled(all, maker'.id));
        MatchIsGreedy(taker', book[1..], AsFilled(all, maker'.id));
        MatchConsumesPrefix(taker', book[1..], AsFilled(all, maker'.id));
        VolumeIsPositive(rest.fills);
        FillsGoOn(taker.side, book, trade, rest.fills);
      } else {
        assert [trade] + [] == [trade];
        OneFillIsGreedy(taker.side, book, trade);
      }
    }
  }

  /** Best execution: no other way to take the same quantity from the eligible orders
      costs a buyer less, or pays a seller more. */
  lemma BestExecution(taker: Order, book: seq<Order>, all: Orders, alloc: seq<real>)
    requires AllOffer(book) && BestFirst(taker.side, book)
    requires Allocation(taker, book, alloc)
    requires Total(alloc) == Volume(Match(taker, book, all).fills)
    ensures Cost(taker.side, Match(taker, book, all).fills) <= AllocationCost(taker.side, alloc, book)
  {
    MatchIsGreedy(taker, book, all);
    GreedyIsCheapest(taker, book, alloc);
  }

  // ---- A market order is a limit order without a limit ----

  lemma {:induction false} MarketIsUnboundedLimit(taker: Order, limit: Order, book: seq<Order>, all: Orders)
    requires taker.orderType == Market && limit == taker.(orderType := Limit, price := limit.price)
    requires forall i :: 0 <= i < |book| ==> Crosses(limit, book[i].price)
    ensures var m, l := Match(taker, book, all), Match(limit, book, all);
      m.fills == l.fills && m.book == l.book && m.all == l.all && m.taker.filled == l.taker.filled
    decreases |book|
  {
    if book != [] && taker.Remaining() > DUST {
      var q := TradeOf(taker, book[0]).size;
      if Fill(book[0], q).Remaining() <= DUST {
        MarketIsUnboundedLimit(Fill(taker, q), Fill(limit, q), book[1..], AsFilled(all, book[0].id));
      }
    }
  }
}
