/** What the exchange promises a client, in the fields of orders and trades: the laws of the other
    modules, with nothing left to look up.
 */
module OrderBookClient {
  import opened Matching
  import opened OrderBook
  import opened OrderBookRuns
  import opened Tolerance

  /** After any run each side is in price-time priority: better prices first, at one price the
      earlier order, in one second the one placed first. */
  lemma PriceTimePriority(ops: seq<Op>, minOrder: real, i: nat, j: nat)
    requires minOrder >= 0.0 && i < j
    ensures var bids := Run(ops, minOrder).bids;
      j < |bids| ==>
        || bids[i].price > bids[j].price
        || (bids[i].price == bids[j].price && bids[i].timestamp < bids[j].timestamp)
        || (bids[i].price == bids[j].price && bids[i].timestamp == bids[j].timestamp && bids[i].id < bids[j].id)
    ensures var asks := Run(ops, minOrder).asks;
      j < |asks| ==>
        || asks[i].price < asks[j].price
        || (asks[i].price == asks[j].price && asks[i].timestamp < asks[j].timestamp)
        || (asks[i].price == asks[j].price && asks[i].timestamp == asks[j].timestamp && asks[i].id < asks[j].id)
  {
    EveryRunKeepsInv(ops, minOrder);
    var s := Run(ops, minOrder);
    if j < |s.bids| {
      assert Before(Buy, s.bids[i], s.bids[j]);
    }
    if j < |s.asks| {
      assert Before(Sell, s.asks[i], s.asks[j]);
    }
  }

  /** What rests on a side is what its record says: a limit order of that side with more than
      1e-12 left, partial as soon as it traded. */
  lemma RestingIsOnRecord(ops: seq<Op>, minOrder: real, i: nat)
    requires minOrder >= 0.0
    ensures var s := Run(ops, minOrder);
      i < |s.bids| ==>
        var o := s.bids[i];
        && o.side == Buy && o.orderType == Limit && o.filled >= 0.0 && o.size - o.filled > 0.000000000001
        && o.id in s.all && s.all[o.id] == o.(status := if o.filled > 0.0 then Partial else Open)
    ensures var s := Run(ops, minOrder);
      i < |s.asks| ==>
        var o := s.asks[i];
        && o.side == Sell && o.orderType == Limit && o.filled >= 0.0 && o.size - o.filled > 0.000000000001
        && o.id in s.all && s.all[o.id] == o.(status := if o.filled > 0.0 then Partial else Open)
  {
    EveryRunKeepsInv(ops, minOrder);
    var s := Run(ops, minOrder);
    if i < |s.bids| {
      assert Mirrored(Buy, s.bids[i], s.all);
    }
    if i < |s.asks| {
      assert Mirrored(Sell, s.asks[i], s.all);
    }
  }

  /** Every record against the trade log, to 1e-12, and its status. */
  lemma RecordsAreRight(ops: seq<Op>, minOrder: real, id: nat)
    requires minOrder >= 0.0 && id in Run(ops, minOrder).all
    ensures var s := Run(ops, minOrder);
      var o, traded := s.all[id], Traded(s.trades, id);
      && o.id == id && 0.0 <= traded <= o.filled <= o.size && o.filled - traded <= 0.000000000001
      && (o.status == Filled <==> o.size - o.filled <= 0.000000000001)
      && (o.status == Partial ==> o.orderType == Limit && o.filled > 0.0)
      && (o.status == Open ==> o.orderType == Market || o.filled == 0.0)
  {
    EveryRunKeepsInv(ops, minOrder);
    var s := Run(ops, minOrder);
    assert RecordInv(s.all[id], Traded(s.trades, id));
  }

  /** Every trade of the log: at the maker's price, within both limits, between opposite sides. */
  lemma TradesAreFair(ops: seq<Op>, minOrder: real, k: nat)
    requires minOrder >= 0.0 && k < |Run(ops, minOrder).trades|
    ensures var s := Run(ops, minOrder);
      var t := s.trades[k];
      && t.maker in s.all && t.taker in s.all && t.maker != t.taker && t.size > 0.0
      && var maker, taker := s.all[t.maker], s.all[t.taker];
         && t.price == maker.price && taker.side == t.side && maker.side != t.side
         && (taker.orderType == Limit ==> if t.side == Buy then t.price <= taker.price else t.price >= taker.price)
  {
    EveryRunKeepsInv(ops, minOrder);
    var s := Run(ops, minOrder);
    assert TradeInv(s.trades[k], s.all);
  }

  /** When an order is taken, and what is recorded of it. */
  lemma PlacedIsRecorded(ops: seq<Op>, minOrder: real, op: Op)
    requires minOrder >= 0.0 && op.Place?
    ensures var s, s' := Run(ops, minOrder), Run(ops + [op], minOrder);
      if op.size < minOrder
         || (op.address != "" && op.orderType == Limit
             && op.available < if op.side == Buy then op.price * op.size else op.size)
      then s' == s
      else
        var id := s.counter + 1;
        && s'.counter == id && id !in s.all && id in s'.all
        && var o := s'.all[id];
           && o.side == op.side && o.orderType == op.orderType && o.price == op.price && o.size == op.size
           && o.address == op.address && o.timestamp == op.now
  {
    RunOneMore(ops, minOrder, op);
    EveryRunKeepsInv(ops, minOrder);
    var s := Run(ops, minOrder);
    if Accepted(op, minOrder) {
      CountedKeepsInv(s);
      PlacedRecord(Counted(s), NewOrder(s.counter + 1, op));
    }
  }

  lemma RunOneMore(ops: seq<Op>, minOrder: real, op: Op)
    ensures Run(ops + [op], minOrder) == Do(Run(ops, minOrder), op, minOrder)
  {
    assert (ops + [op])[..|ops + [op]| - 1] == ops;
  }

  lemma PlacedRecord(s: State, order: Order)
    requires Inv(s) && FreshOrder(s, order)
    ensures var s', m := Add(s, order), OutcomeOf(s, order);
      && s'.counter == s.counter && order.id in s'.all && s'.trades == s.trades + m.fills
      && SideOf(s', Opposite(order.side)) == m.book
      && s'.all[order.id] == m.taker.(status := s'.all[order.id].status)
      && m.taker == order.(filled := m.taker.filled)
  {
    MatchKeepsMidOf(s, order);
    if OutcomeOf(s, order).taker.Remaining() > DUST && order.orderType == Limit {
      AddRests(s, order);
    } else {
      AddIsDone(s, order);
    }
  }

  /** An order `id` of this side trades with the other side from its head, order by order: all but
      the last maker are used up, and only the last may stay. */
  ghost predicate Served(id: nat, side: Side, before: seq<Order>, fills: seq<Trade>, after: seq<Order>) {
    var n := |fills|;
    && n <= |before|
    && (forall k :: 0 <= k < n ==>
          && fills[k].maker == before[k].id && fills[k].taker == id && fills[k].side == side
          && fills[k].price == before[k].price
          && 0.0 < fills[k].size <= before[k].size - before[k].filled
          && (k < n - 1 ==> fills[k].size == before[k].size - before[k].filled))
    && (after == before[n..]
        || (n > 0 && after == [before[n - 1].(filled := before[n - 1].filled + fills[n - 1].size)] + before[n..]))
  }

  lemma PrefixIsServed(taker: Order, book: seq<Order>, m: Outcome)
    requires ConsumesPrefix(taker, book, m)
    ensures Served(taker.id, taker.side, book, m.fills, m.book)
  {
  }

  /** An order that could trade on has nothing left to trade with. */
  ghost predicate NothingLeft(o: Order, after: seq<Order>) {
    o.size - o.filled > 0.000000000001 ==>
      after == []
      || (o.orderType == Limit && if o.side == Buy then after[0].price > o.price else after[0].price < o.price)
  }

  lemma PrefixLeavesNothing(taker: Order, book: seq<Order>, m: Outcome)
    requires ConsumesPrefix(taker, book, m) && m.taker == taker.(filled := m.taker.filled)
    ensures NothingLeft(m.taker, m.book)
  {
  }

  lemma AddServes(s: State, order: Order)
    requires Inv(s) && FreshOrder(s, order)
    ensures var s', m := Add(s, order), OutcomeOf(s, order);
      && s'.trades == s.trades + m.fills && order.id in s'.all
      && Served(order.id, order.side, SideOf(s, Opposite(order.side)), m.fills, SideOf(s', Opposite(order.side)))
      && NothingLeft(s'.all[order.id], SideOf(s', Opposite(order.side)))
  {
    var book, m := SideOf(s, Opposite(order.side)), OutcomeOf(s, order);
    PlacedRecord(s, order);
    SideIsReady(s, order);
    MatchConsumesPrefix(order, book, s.all);
    PrefixIsServed(order, book, m);
    PrefixLeavesNothing(order, book, m);
  }

  /** What an accepted order trades, in any state a run can reach, and that it trades all it can. */
  lemma PlacedIsServed(s: State, op: Op)
    requires Inv(s) && op.Place? && op.size >= 0.0
    ensures var s', id := Placed(s, op), s.counter + 1;
      && s'.trades == s.trades + FillsOf(s, op) && id in s'.all
      && Served(id, op.side, if op.side == Buy then s.asks else s.bids, FillsOf(s, op),
                if op.side == Buy then s'.asks else s'.bids)
      && NothingLeft(s'.all[id], if op.side == Buy then s'.asks else s'.bids)
  {
    CountedKeepsInv(s);
    AddServes(Counted(s), NewOrder(s.counter + 1, op));
  }

  /** When a cancellation is granted, and what it does. */
  lemma CancelledIsOffBook(ops: seq<Op>, minOrder: real, id: nat, owner: string)
    requires minOrder >= 0.0
    ensures var s, s' := Run(ops, minOrder), Run(ops + [CancelOp(id, owner)], minOrder);
      if id in s.all && s.all[id].status != Filled && s.all[id].status != Cancelled
         && (owner == "" || s.all[id].address == owner)
      then
        && s'.all == s.all[id := s.all[id].(status := Cancelled)] && s'.trades == s.trades
        && (forall o :: o in s'.bids <==> o in s.bids && o.id != id)
        && (forall o :: o in s'.asks <==> o in s.asks && o.id != id)
      else s' == s
  {
    RunOneMore(ops, minOrder, CancelOp(id, owner));
    WithoutSkips(Run(ops, minOrder).bids, id);
    WithoutSkips(Run(ops, minOrder).asks, id);
  }
}
