/** The order book of one trading pair, over whole runs of orders and cancellations.

    `Book` is the engine: two sorted sides, the table of all orders ever placed and
    the trade log, updated in place. `State` is its value, `Add` and `Cancel` what
    its operations do to it, and `Inv` what every run keeps.
 */
module OrderBook {
  import opened Matching
  import opened StableSort
  import opened Tolerance

  datatype State = State(bids: seq<Order>, asks: seq<Order>, trades: seq<Trade>, all: Orders, counter: nat)

  const EMPTY: State := State([], [], [], map[], 0)

  predicate BidLeq(a: Order, b: Order) {
    a.price > b.price || (a.price == b.price && a.timestamp <= b.timestamp)
  }

  predicate AskLeq(a: Order, b: Order) {
    a.price < b.price || (a.price == b.price && a.timestamp <= b.timestamp)
  }

  function Opposite(side: Side): Side { if side == Buy then Sell else Buy }

  function SideOf(s: State, side: Side): seq<Order> {
    if side == Buy then s.bids else s.asks
  }

  function WithSide(s: State, side: Side, book: seq<Order>): State {
    if side == Buy then s.(bids := book) else s.(asks := book)
  }

  function SortSide(side: Side, book: seq<Order>): seq<Order> {
    if side == Buy then Sort(book, BidLeq) else Sort(book, AskLeq)
  }

  // ---- The operations on the value of the book ----

  lemma SidesArePreorders()
    ensures TotalPreorder(BidLeq) && TotalPreorder(AskLeq)
  {
  }

  /** There is one stable sort of a side. */
  lemma OneSortOfSide(side: Side, sorted: seq<Order>, book: seq<Order>)
    requires side == Buy ==> IsStableSortOf(sorted, book, BidLeq)
    requires side == Sell ==> IsStableSortOf(sorted, book, AskLeq)
    ensures sorted == SortSide(side, book)
  {
    SidesArePreorders();
    if side == Buy {
      SortIsStable(book, BidLeq);
      StableSortIsUnique(sorted, Sort(book, BidLeq), book, BidLeq);
    } else {
      SortIsStable(book, AskLeq);
      StableSortIsUnique(sorted, Sort(book, AskLeq), book, AskLeq);
    }
  }

  /** The state when the matching loop is done with the taker. */
  function Matched(s: State, m: Outcome, side: Side): State {
    WithSide(s, Opposite(side), m.book).(trades := s.trades + m.fills, all := m.all)
  }

  /** What is left of a limit order rests on its own side, behind its equals. */
  function Rested(s: State, taker: Order): (State, Order) {
    if taker.Remaining() > DUST && taker.orderType == Limit then
      var o := if taker.filled > 0.0 then taker.(status := Partial) else taker;
      (WithSide(s, o.side, SortSide(o.side, SideOf(s, o.side) + [o])), o)
    else (s, taker)
  }

  function Recorded(s: State, o: Order): State {
    s.(all := s.all[o.id := o])
  }

  function OutcomeOf(s: State, order: Order): Outcome {
    Match(order, SideOf(s, Opposite(order.side)), s.all)
  }

  function Add(s: State, order: Order): State {
    var m := OutcomeOf(s, order);
    var (s', o) := Rested(Matched(s, m, order.side), Settled(m.taker));
    Recorded(s', o)
  }

  function Without(book: seq<Order>, id: nat): seq<Order> {
    if book == [] then []
    else (if book[0].id != id then [book[0]] else []) + Without(book[1..], id)
  }

  predicate Cancellable(s: State, id: nat, owner: string) {
    && id in s.all
    && s.all[id].status != Filled && s.all[id].status != Cancelled
    && (owner == "" || s.all[id].address == owner)
  }

  function Cancel(s: State, id: nat, owner: string): State {
    if Cancellable(s, id, owner)
    then s.(bids := Without(s.bids, id), asks := Without(s.asks, id),
            all := s.all[id := s.all[id].(status := Cancelled)])
    else s
  }

  // ---- The engine ----

  class Book {
    var bids: seq<Order>
    var asks: seq<Order>
    var trades: seq<Trade>
    var allOrders: Orders
    var orderCounter: nat
    const minOrder: real

    ghost function Value(): State
      reads this
    {
      State(bids, asks, trades, allOrders, orderCounter)
    }

    constructor (minOrder: real)
      ensures Value() == EMPTY && this.minOrder == minOrder
    {
      bids, asks, trades, allOrders, orderCounter := [], [], [], map[], 0;
      this.minOrder := minOrder;
    }

    method NextOrderId() returns (id: nat)
      modifies this`orderCounter
      ensures id == orderCounter == old(orderCounter) + 1
    {
      orderCounter := orderCounter + 1;
      id := orderCounter;
    }

    method SortBids()
      modifies this`bids
      ensures IsStableSortOf(bids, old(bids), BidLeq)
    {
      SidesArePreorders();
      SortIsStable(bids, BidLeq);
      bids := Sort(bids, BidLeq);
    }

    method SortAsks()
      modifies this`asks
      ensures IsStableSortOf(asks, old(asks), AskLeq)
    {
      SidesArePreorders();
      SortIsStable(asks, AskLeq);
      asks := Sort(asks, AskLeq);
    }

    /** Mirrors a maker's new fill in the table of all orders. */
    method UpdateStored(maker: Order, gone: bool)
      modifies this`allOrders
      ensures allOrders == if gone then AsFilled(old(allOrders), maker.id)
                           else AsPartial(old(allOrders), maker.id, maker.filled)
    {
      if maker.id in allOrders {
        var stored := allOrders[maker.id];
        if gone {
          allOrders := allOrders[maker.id := stored.(filled := stored.size, status := Filled)];
        } else {
          allOrders := allOrders[maker.id := stored.(filled := maker.filled, status := Partial)];
        }
      }
    }

    /** The body of both matching loops: one fill against the maker at `i`. */
    method FillAt(order: Order, ghost m: Outcome, i: nat, taker: Order, book: seq<Order>, fills: seq<Trade>)
      returns (taker': Order, book': seq<Order>, fills': seq<Trade>, i': nat)
      requires i == 0 && book != [] && taker.Remaining() > DUST && Eligible(taker, book[0])
      requires Midway(order, taker, book, fills, allOrders, m, i)
      modifies this`trades, this`allOrders
      ensures Midway(order, taker', book', fills', allOrders, m, i')
      ensures fills' == fills + [TradeOf(taker, book[0])] && trades == old(trades) + [TradeOf(taker, book[0])]
      ensures |book'| - i' == |book| - i - 1
    {
      var maker := book[i];
      MidwayStep(order, taker, book, fills, allOrders, m);
      var fillSize := Min(taker.Remaining(), maker.Remaining());
      taker' := taker.(filled := taker.filled + fillSize);
      maker := maker.(filled := maker.filled + fillSize);
      var trade := Trade(maker.price, fillSize, taker.side, maker.id, taker.id);
      fills' := fills + [trade];
      trades := trades + [trade];
      if maker.Remaining() <= DUST {
        book' := book[..i] + book[i + 1..];
        UpdateStored(maker, true);
        i' := i;
      } else {
        book' := book[i := maker];
        UpdateStored(maker, false);
        i' := i + 1;
      }
    }

    /** The limit loop: walk the opposite side while prices cross. */
    method MatchLimit(order: Order) returns (taker: Order, fills: seq<Trade>)
      requires order.orderType == Limit
      modifies this
      ensures var m := old(OutcomeOf(Value(), order));
        && fills == m.fills && taker == Settled(m.taker)
        && Value() == Matched(old(Value()), m, order.side)
    {
      taker, fills := order, [];
      var book := if taker.side == Buy then asks else bids;
      ghost var m := Match(order, book, allOrders);
      var i: nat := 0;
      while i < |book| && taker.Remaining() > DUST
        invariant Midway(order, taker, book, fills, allOrders, m, i)
        invariant trades == old(trades) + fills
        invariant bids == old(bids) && asks == old(asks) && orderCounter == old(orderCounter)
        decreases |book| - i
      {
        if taker.side == Buy && book[i].price > taker.price { break; }
        if taker.side == Sell && book[i].price < taker.price { break; }
        taker, book, fills, i := FillAt(order, m, i, taker, book, fills);
      }
      assert m == Outcome(taker, book, fills, allOrders);
      if taker.side == Buy { asks := book; } else { bids := book; }
      if taker.Remaining() <= DUST {
        taker := taker.(status := Filled);
      }
    }

    /** The market loop: always the head of the opposite side, at any price. */
    method MatchMarket(order: Order) returns (taker: Order, fills: seq<Trade>)
      requires order.orderType == Market
      modifies this
      ensures var m := old(OutcomeOf(Value(), order));
        && fills == m.fills && taker == Settled(m.taker)
        && Value() == Matched(old(Value()), m, order.side)
    {
      taker, fills := order, [];
      var book := if taker.side == Buy then asks else bids;
      ghost var m := Match(order, book, allOrders);
      ghost var i: nat := 0;
      while book != [] && taker.Remaining() > DUST
        invariant Midway(order, taker, book, fills, allOrders, m, i)
        invariant trades == old(trades) + fills
        invariant bids == old(bids) && asks == old(asks) && orderCounter == old(orderCounter)
        decreases |book| - i
      {
        taker, book, fills, i := FillAt(order, m, 0, taker, book, fills);
      }
      assert m == Outcome(taker, book, fills, allOrders);
      if taker.side == Buy { asks := book; } else { bids := book; }
      if taker.Remaining() <= DUST {
        taker := taker.(status := Filled);
      }
    }

    /** Pushes an order onto its side and sorts the side. */
    method Rest(order: Order)
      modifies this`bids, this`asks
      ensures bids == if order.side == Buy then SortSide(Buy, old(bids) + [order]) else old(bids)
      ensures asks == if order.side == Buy then old(asks) else SortSide(Sell, old(asks) + [order])
    {
      if order.side == Buy {
        ghost var pushed := bids + [order];
        bids := bids + [order];
        SortBids();
        OneSortOfSide(Buy, bids, pushed);
      } else {
        ghost var pushed := asks + [order];
        asks := asks + [order];
        SortAsks();
        OneSortOfSide(Sell, asks, pushed);
      }
    }

    method AddOrder(order: Order) returns (fills: seq<Trade>)
      modifies this
      ensures Value() == Add(old(Value()), order)
      ensures fills == old(OutcomeOf(Value(), order)).fills
    {
      var taker: Order;
      match order.orderType {
        case Market => taker, fills := MatchMarket(order);
        case Limit => taker, fills := MatchLimit(order);
      }
      MatchKeepsTerms(order, if order.side == Buy then old(asks) else old(bids), old(allOrders));
      if taker.Remaining() > DUST && taker.orderType == Limit {
        if taker.filled > 0.0 {
          taker := taker.(status := Partial);
        }
        Rest(taker);
      }
      allOrders := allOrders[taker.id := taker];
    }

    method CancelOrder(id: nat, owner: string) returns (ok: bool)
      modifies this
      ensures ok <==>
        && id in old(allOrders)
        && old(allOrders)[id].status != Filled && old(allOrders)[id].status != Cancelled
        && (owner == "" || old(allOrders)[id].address == owner)
      ensures Value() == Cancel(old(Value()), id, owner)
    {
      if id !in allOrders {
        return false;
      }
      var order := allOrders[id];
      if order.status == Filled || order.status == Cancelled {
        return false;
      }
      if owner != "" && order.address != owner {
        return false;
      }
      bids := Without(bids, id);
      asks := Without(asks, id);
      allOrders := allOrders[id := order.(status := Cancelled)];
      return true;
    }
  }

  function Prepend(fills: seq<Trade>, m: Outcome): Outcome {
    m.(fills := fills + m.fills)
  }

  /** Where a matching loop stands: `i` counts makers that were reduced but stay. */
  ghost predicate Midway(
    order: Order, taker: Order, book: seq<Order>, fills: seq<Trade>, all: Orders, m: Outcome, i: nat)
  {
    && taker == order.(filled := taker.filled)
    && i <= 1 && i <= |book|
    && (i == 0 ==> m == Prepend(fills, Match(taker, book, all)))
    && (i == 1 ==> taker.Remaining() <= DUST && m == Outcome(taker, book, fills, all))
  }

  /** One turn of either loop is one unfolding of `Match`; a maker that stays ends it. */
  lemma MidwayStep(order: Order, taker: Order, book: seq<Order>, fills: seq<Trade>, all: Orders, m: Outcome)
    requires Midway(order, taker, book, fills, all, m, 0)
    requires book != [] && taker.Remaining() > DUST && Eligible(taker, book[0])
    ensures var trade := TradeOf(taker, book[0]);
      var taker', maker' := Fill(taker, trade.size), Fill(book[0], trade.size);
      if maker'.Remaining() <= DUST
      then Midway(order, taker', book[..0] + book[0 + 1..], fills + [trade], AsFilled(all, maker'.id), m, 0)
           && book[..0] + book[0 + 1..] == book[1..]
      else Midway(order, taker', book[0 := maker'], fills + [trade], AsPartial(all, maker'.id, maker'.filled), m, 1)
  {
    var trade := TradeOf(taker, book[0]);
    var taker', maker' := Fill(taker, trade.size), Fill(book[0], trade.size);
    assert book[..0] + book[0 + 1..] == book[1..];
    assert book[0 := maker'] == [maker'] + book[1..];
    var rest := Match(taker', book[1..], AsFilled(all, maker'.id));
    assert fills + ([trade] + rest.fills) == (fills + [trade]) + rest.fills;
  }

  lemma MatchKeepsTerms(taker: Order, book: seq<Order>, all: Orders)
    ensures var t := Match(taker, book, all).taker;
      t == taker.(filled := t.filled)
  {
    MatchMovesTaker(taker, book, all);
  }
}
