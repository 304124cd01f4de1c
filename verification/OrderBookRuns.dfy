/** What every run of placed and cancelled orders keeps true of the book. */
module OrderBookRuns {
  import opened Matching
  import opened StableSort
  import opened OrderBook
  import opened Tolerance

  /** The quantity the trade log holds for an order, as maker or as taker. */
  function Traded(trades: seq<Trade>, id: nat): real {
    if trades == [] then 0.0
    else
      var t := trades[|trades| - 1];
      Traded(trades[..|trades| - 1], id) + (if t.maker == id || t.taker == id then t.size else 0.0)
  }

  predicate Leq(side: Side, a: Order, b: Order) {
    if side == Buy then BidLeq(a, b) else AskLeq(a, b)
  }

  /** Strict price-time priority: better price, then earlier timestamp, then earlier arrival. */
  predicate Before(side: Side, a: Order, b: Order) {
    Leq(side, a, b) && (Leq(side, b, a) ==> a.id < b.id)
  }

  ghost predicate InPriority(side: Side, book: seq<Order>) {
    forall i, j :: 0 <= i < j < |book| ==> Before(side, book[i], book[j])
  }

  function RestingStatus(filled: real): OrderStatus {
    if filled > 0.0 then Partial else Open
  }

  /** A resting order, with its up-to-date copy in the table. */
  predicate Mirrored(side: Side, o: Order, all: Orders) {
    && o.side == side && o.orderType == Limit && o.filled >= 0.0
    && o.Remaining() > DUST
    && o.id in all
    && all[o.id] == o.(status := RestingStatus(o.filled))
  }

  ghost predicate SideInv(side: Side, book: seq<Order>, all: Orders) {
    && InPriority(side, book)
    && forall i :: 0 <= i < |book| ==> Mirrored(side, book[i], all)
  }

  ghost predicate Uncrossed(bids: seq<Order>, asks: seq<Order>) {
    forall i, j :: 0 <= i < |bids| && 0 <= j < |asks| ==> bids[i].price < asks[j].price
  }

  ghost predicate Apart(side: Side, own: seq<Order>, opposite: seq<Order>) {
    if side == Buy then Uncrossed(own, opposite) else Uncrossed(opposite, own)
  }

  /** One record of the table against its total in the trade log: the log never falls
      short by more than dust, and only for an order that is done. */
  predicate RecordInv(o: Order, traded: real) {
    && 0.0 <= traded <= o.filled <= o.size
    && o.filled - traded <= DUST
    && (o.status != Filled ==> o.filled == traded)
    && (o.status == Filled <==> o.Remaining() <= DUST)
    && (o.status == Open || o.status == Partial ==>
          o.status == if o.orderType == Limit then RestingStatus(o.filled) else Open)
  }

  ghost predicate Listed(book: seq<Order>, id: nat) {
    exists i :: 0 <= i < |book| && book[i].id == id
  }

  /** The table: right under every key, and an unfinished limit order is on the book. */
  ghost predicate TableInv(all: Orders, trades: seq<Trade>, side: Side, own: seq<Order>, opposite: seq<Order>) {
    forall id :: id in all ==>
      && all[id].id == id
      && RecordInv(all[id], Traded(trades, id))
      && (Unfinished(all[id]) ==> Listed(if all[id].side == side then own else opposite, id))
  }

  predicate Unfinished(o: Order) {
    o.orderType == Limit && (o.status == Open || o.status == Partial)
  }

  /** A logged trade joins two recorded orders of opposite sides at the maker's price,
      which a limit taker accepts. */
  predicate TradeInv(t: Trade, all: Orders) {
    && t.maker in all && t.taker in all && t.maker != t.taker
    && t.size > 0.0
    && t.price == all[t.maker].price
    && all[t.taker].side == t.side
    && all[t.maker].side == Opposite(t.side)
    && Eligible(all[t.taker], all[t.maker])
  }

  ghost predicate Inv(s: State) {
    && SideInv(Buy, s.bids, s.all)
    && SideInv(Sell, s.asks, s.all)
    && Uncrossed(s.bids, s.asks)
    && TableInv(s.all, s.trades, Buy, s.bids, s.asks)
    && (forall i :: 0 <= i < |s.trades| ==> TradeInv(s.trades[i], s.all))
    && (forall id :: id in s.all ==> id <= s.counter)
  }

  /** The invariant but for the counter, told from one side. */
  ghost predicate Parts(side: Side, own: seq<Order>, opposite: seq<Order>, trades: seq<Trade>, all: Orders) {
    && SideInv(side, own, all)
    && SideInv(Opposite(side), opposite, all)
    && Apart(side, own, opposite)
    && TableInv(all, trades, side, own, opposite)
    && forall i :: 0 <= i < |trades| ==> TradeInv(trades[i], all)
  }

  // ---- One fill ----

  /** The invariant in the middle of a match, with the taker still outside the table. */
  ghost predicate Mid(taker: Order, book: seq<Order>, own: seq<Order>, trades: seq<Trade>, all: Orders) {
    && taker.id !in all
    && 0.0 <= taker.filled <= taker.size
    && taker.filled == Traded(trades, taker.id)
    && SideInv(Opposite(taker.side), book, all)
    && SideInv(taker.side, own, all)
    && Apart(taker.side, own, book)
    && TableInv(all, trades, taker.side, own, book)
    && (forall i :: 0 <= i < |trades| ==> TradeInv(trades[i], all[taker.id := taker]))
  }

  lemma TradedSnoc(trades: seq<Trade>, t: Trade, id: nat)
    ensures Traded(trades + [t], id)
         == Traded(trades, id) + (if t.maker == id || t.taker == id then t.size else 0.0)
  {
    assert (trades + [t])[..|trades + [t]| - 1] == trades;
  }

  /** No id stands twice on a side. */
  lemma SideIdsDiffer(side: Side, book: seq<Order>, all: Orders, i: nat, j: nat)
    requires SideInv(side, book, all) && i < j < |book|
    ensures book[i].id != book[j].id
  {
    assert Before(side, book[i], book[j]);
    assert Mirrored(side, book[i], all) && Mirrored(side, book[j], all);
  }

  /** The tables agree except on one order. */
  ghost predicate SameBut(all: Orders, all': Orders, id: nat) {
    && all'.Keys == all.Keys
    && forall k :: k in all && k != id ==> all'[k] == all[k]
  }

  lemma SideInvElsewhere(side: Side, book: seq<Order>, all: Orders, all': Orders, id: nat)
    requires SideInv(side, book, all) && SameBut(all, all', id)
    requires forall i :: 0 <= i < |book| ==> book[i].id != id
    ensures SideInv(side, book, all')
  {
    forall i | 0 <= i < |book| ensures Mirrored(side, book[i], all') {
      assert Mirrored(side, book[i], all);
    }
  }

  lemma SideInvTail(side: Side, book: seq<Order>, all: Orders)
    requires SideInv(side, book, all) && book != []
    ensures SideInv(side, book[1..], all)
    ensures forall i :: 0 <= i < |book[1..]| ==> book[1..][i].id != book[0].id
  {
    forall i | 0 <= i < |book[1..]| ensures book[1..][i].id != book[0].id {
      SideIdsDiffer(side, book, all, 0, i + 1);
    }
  }

  /** What the fill leaves of the maker's record, and of its side. */
  function Stored(all: Orders, maker': Order): Orders {
    if maker'.Remaining() <= DUST then AsFilled(all, maker'.id)
    else AsPartial(all, maker'.id, maker'.filled)
  }

  function Left(maker': Order, book: seq<Order>): seq<Order>
    requires book != []
  {
    if maker'.Remaining() <= DUST then book[1..] else [maker'] + book[1..]
  }

  lemma FillKeepsOwnSide(taker: Order, book: seq<Order>, own: seq<Order>, trades: seq<Trade>, all: Orders, q: real)
    requires Mid(taker, book, own, trades, all) && book != []
    ensures SameBut(all, Stored(all, Fill(book[0], q)), book[0].id)
    ensures SideInv(taker.side, own, Stored(all, Fill(book[0], q)))
  {
    var all' := Stored(all, Fill(book[0], q));
    assert Mirrored(Opposite(taker.side), book[0], all);
    forall i | 0 <= i < |own| ensures own[i].id != book[0].id {
      assert Mirrored(taker.side, own[i], all);
    }
    SideInvElsewhere(taker.side, own, all, all', book[0].id);
  }

  /** The maker is filled and leaves, or is reduced and stays at the head. */
  lemma FillKeepsBookSide(side: Side, book: seq<Order>, all: Orders, q: real)
    requires SideInv(side, book, all) && book != [] && 0.0 < q <= book[0].Remaining()
    ensures SideInv(side, Left(Fill(book[0], q), book), Stored(all, Fill(book[0], q)))
  {
    var maker' := Fill(book[0], q);
    assert Mirrored(side, book[0], all);
    SideInvTail(side, book, all);
    SideInvElsewhere(side, book[1..], all, Stored(all, maker'), maker'.id);
    if maker'.Remaining() > DUST {
      HeadReduced(side, book, maker', Stored(all, maker'));
    }
  }

  lemma HeadReduced(side: Side, book: seq<Order>, maker': Order, all': Orders)
    requires book != [] && InPriority(side, book)
    requires SideInv(side, book[1..], all') && Mirrored(side, maker', all')
    requires maker' == book[0].(filled := maker'.filled)
    ensures SideInv(side, [maker'] + book[1..], all')
  {
    var book' := [maker'] + book[1..];
    assert forall i :: 0 < i < |book'| ==> book'[i] == book[1..][i - 1] && book'[i] == book[i];
    forall i, j | 0 <= i < j < |book'| ensures Before(side, book'[i], book'[j]) {
      assert Before(side, book[i], book[j]);
    }
  }

  lemma FillKeepsRecord(taker: Order, book: seq<Order>, own: seq<Order>, trades: seq<Trade>, all: Orders, id: nat)
    requires Mid(taker, book, own, trades, all) && id in all
    requires book != [] && taker.Remaining() > DUST
    ensures var trade := TradeOf(taker, book[0]);
      var all' := Stored(all, Fill(book[0], trade.size));
      id in all' && all'[id].id == id && RecordInv(all'[id], Traded(trades + [trade], id))
  {
    var trade := TradeOf(taker, book[0]);
    assert Mirrored(Opposite(taker.side), book[0], all);
    TradedSnoc(trades, trade, id);
  }

  lemma FillKeepsListed(side: Side, book: seq<Order>, all: Orders, q: real, id: nat)
    requires SideInv(side, book, all) && book != [] && id in all && Listed(book, id)
    requires Unfinished(Stored(all, Fill(book[0], q))[id])
    ensures Listed(Left(Fill(book[0], q), book), id)
  {
    var book' := Left(Fill(book[0], q), book);
    assert Mirrored(side, book[0], all);
    var i :| 0 <= i < |book| && book[i].id == id;
    if i == 0 {
      assert book'[0].id == id;
    } else if Fill(book[0], q).Remaining() <= DUST {
      assert book'[i - 1].id == id;
    } else {
      assert book'[i].id == id;
    }
  }

  lemma FillKeepsTable(taker: Order, book: seq<Order>, own: seq<Order>, trades: seq<Trade>, all: Orders)
    requires Mid(taker, book, own, trades, all)
    requires book != [] && taker.Remaining() > DUST
    ensures var trade := TradeOf(taker, book[0]);
      var maker' := Fill(book[0], trade.size);
      TableInv(Stored(all, maker'), trades + [trade], taker.side, own, Left(maker', book))
  {
    var trade := TradeOf(taker, book[0]);
    var maker' := Fill(book[0], trade.size);
    var all' := Stored(all, maker');
    assert Mirrored(Opposite(taker.side), book[0], all);
    forall id | id in all'
      ensures all'[id].id == id && RecordInv(all'[id], Traded(trades + [trade], id))
      ensures Unfinished(all'[id]) ==>
        Listed(if all'[id].side == taker.side then own else Left(maker', book), id)
    {
      FillKeepsRecord(taker, book, own, trades, all, id);
      if Unfinished(all'[id]) && all'[id].side != taker.side {
        FillKeepsListed(Opposite(taker.side), book, all, trade.size, id);
      }
    }
  }

  /** The terms of an order are not what a fill changes. */
  predicate SameTerms(a: Order, b: Order) {
    a.side == b.side && a.price == b.price && a.orderType == b.orderType
  }

  lemma FillKeepsTrade(t: Trade, all: Orders, all': Orders)
    requires TradeInv(t, all)
    requires t.maker in all' && SameTerms(all'[t.maker], all[t.maker])
    requires t.taker in all' && SameTerms(all'[t.taker], all[t.taker])
    ensures TradeInv(t, all')
  {
  }

  lemma FillKeepsTrades(taker: Order, maker: Order, trades: seq<Trade>, all: Orders)
    requires taker.id !in all && Mirrored(Opposite(taker.side), maker, all)
    requires forall i :: 0 <= i < |trades| ==> TradeInv(trades[i], all[taker.id := taker])
    requires taker.Remaining() > DUST && Eligible(taker, maker)
    ensures var trade := TradeOf(taker, maker);
      var taker', maker' := Fill(taker, trade.size), Fill(maker, trade.size);
      forall i :: 0 <= i < |trades + [trade]| ==>
        TradeInv((trades + [trade])[i], Stored(all, maker')[taker.id := taker'])
  {
    var trade := TradeOf(taker, maker);
    var taker', maker' := Fill(taker, trade.size), Fill(maker, trade.size);
    var all' := Stored(all, maker')[taker.id := taker'];
    assert TradeInv(trade, all');
    forall i | 0 <= i < |trades| ensures TradeInv(trades[i], all') {
      FillKeepsTrade(trades[i], all[taker.id := taker], all');
    }
  }

  lemma FillKeepsApart(side: Side, own: seq<Order>, book: seq<Order>, q: real)
    requires Apart(side, own, book) && book != []
    ensures Apart(side, own, Left(Fill(book[0], q), book))
  {
    var book' := Left(Fill(book[0], q), book);
    assert forall i :: 0 <= i < |book'| ==> book'[i].price == book[i + |book| - |book'|].price;
  }

  lemma FillKeepsMid(taker: Order, book: seq<Order>, own: seq<Order>, trades: seq<Trade>, all: Orders)
    requires Mid(taker, book, own, trades, all)
    requires book != [] && taker.Remaining() > DUST && Eligible(taker, book[0])
    ensures var trade := TradeOf(taker, book[0]);
      var taker', maker' := Fill(taker, trade.size), Fill(book[0], trade.size);
      Mid(taker', Left(maker', book), own, trades + [trade], Stored(all, maker'))
  {
    var trade := TradeOf(taker, book[0]);
    assert Mirrored(Opposite(taker.side), book[0], all);
    FillKeepsOwnSide(taker, book, own, trades, all, trade.size);
    FillKeepsBookSide(Opposite(taker.side), book, all, trade.size);
    FillKeepsTable(taker, book, own, trades, all);
    FillKeepsApart(taker.side, own, book, trade.size);
    FillKeepsTrades(taker, book[0], trades, all);
    TradedSnoc(trades, trade, taker.id);
  }

  lemma ConcatAssociates<T>(a: seq<T>, b: seq<T>, c: seq<T>)
    ensures (a + b) + c == a + (b + c)
  {
  }

  lemma {:induction false} MatchKeepsMid(
    taker: Order, book: seq<Order>, own: seq<Order>, trades: seq<Trade>, all: Orders)
    requires Mid(taker, book, own, trades, all)
    ensures var m := Match(taker, book, all);
      Mid(m.taker, m.book, own, trades + m.fills, m.all)
    decreases |book|
  {
    if book == [] || taker.Remaining() <= DUST || !Eligible(taker, book[0]) {
      assert trades + [] == trades;
    } else {
      var trade := TradeOf(taker, book[0]);
      var taker', maker' := Fill(taker, trade.size), Fill(book[0], trade.size);
      FillKeepsMid(taker, book, own, trades, all);
      if maker'.Remaining() <= DUST {
        var rest := Match(taker', book[1..], AsFilled(all, maker'.id));
        MatchKeepsMid(taker', book[1..], own, trades + [trade], AsFilled(all, maker'.id));
        ConcatAssociates(trades, [trade], rest.fills);
      }
    }
  }

  // ---- Resting ----

  ghost predicate OrdersSide(side: Side, leq: (Order, Order) -> bool) {
    forall a, b :: leq(a, b) == Leq(side, a, b)
  }

  lemma PriorityIsSorted(side: Side, book: seq<Order>, leq: (Order, Order) -> bool)
    requires OrdersSide(side, leq) && InPriority(side, book)
    ensures Sorted(book, leq)
  {
    forall i, j | 0 <= i < j < |book| ensures leq(book[i], book[j]) {
      assert Before(side, book[i], book[j]);
    }
  }

  lemma PriorityCons(side: Side, x: Order, book: seq<Order>)
    requires InPriority(side, book)
    requires forall o :: o in book ==> Before(side, x, o)
    ensures InPriority(side, [x] + book)
  {
    var r := [x] + book;
    forall i, j | 0 <= i < j < |r| ensures Before(side, r[i], r[j]) {
      assert r[j] == book[j - 1] && r[j] in book;
      if i > 0 {
        assert r[i] == book[i - 1];
      }
    }
  }

  /** A newcomer goes behind everything that is not strictly worse. */
  lemma {:induction false} InsertInPriority(side: Side, book: seq<Order>, x: Order, leq: (Order, Order) -> bool)
    requires OrdersSide(side, leq) && InPriority(side, book)
    requires forall i :: 0 <= i < |book| ==> book[i].id < x.id
    ensures InPriority(side, Insert(book, x, leq))
    ensures forall o :: o in Insert(book, x, leq) <==> o in book || o == x
  {
    if book == [] {
    } else if leq(book[0], x) {
      var rest := Insert(book[1..], x, leq);
      InsertInPriority(side, book[1..], x, leq);
      assert forall o :: o in book <==> o == book[0] || o in book[1..];
      forall o | o in rest ensures Before(side, book[0], o) {
        if o != x {
          var i :| 0 <= i < |book[1..]| && book[1..][i] == o;
          assert Before(side, book[0], book[i + 1]);
        }
      }
      PriorityCons(side, book[0], rest);
    } else {
      forall o | o in book ensures Before(side, x, o) {
        var i :| 0 <= i < |book| && book[i] == o;
        assert i > 0 ==> Before(side, book[0], book[i]);
      }
      PriorityCons(side, x, book);
    }
  }

  /** Push and sort is a stable insert. */
  lemma SortSideInserts(side: Side, book: seq<Order>, x: Order)
    requires InPriority(side, book)
    requires forall i :: 0 <= i < |book| ==> book[i].id < x.id
    ensures InPriority(side, SortSide(side, book + [x]))
    ensures forall o :: o in SortSide(side, book + [x]) <==> o in book || o == x
  {
    SidesArePreorders();
    var leq := if side == Buy then BidLeq else AskLeq;
    PriorityIsSorted(side, book, leq);
    SortOfSorted(book, leq);
    assert (book + [x])[..|book + [x]| - 1] == book;
    assert Sort(book + [x], leq) == Insert(book, x, leq);
    InsertInPriority(side, book, x, leq);
  }

  lemma {:induction false} TradedOutside(trades: seq<Trade>, all: Orders, id: nat)
    requires forall i :: 0 <= i < |trades| ==> TradeInv(trades[i], all)
    requires id !in all
    ensures Traded(trades, id) == 0.0
  {
    if trades == [] {
    } else {
      assert TradeInv(trades[|trades| - 1], all);
      TradedOutside(trades[..|trades| - 1], all, id);
    }
  }

  lemma {:induction false} MatchKeepsKeys(taker: Order, book: seq<Order>, all: Orders)
    ensures Match(taker, book, all).all.Keys == all.Keys
    decreases |book|
  {
    if book == [] || taker.Remaining() <= DUST || !Eligible(taker, book[0]) {
    } else {
      var q := TradeOf(taker, book[0]).size;
      if Fill(book[0], q).Remaining() <= DUST {
        MatchKeepsKeys(Fill(taker, q), book[1..], AsFilled(all, book[0].id));
      }
    }
  }

  /** An order as `place_order` makes it. */
  predicate FreshOrder(s: State, order: Order) {
    && order.id !in s.all
    && order.id == s.counter
    && order.filled == 0.0 && order.size >= 0.0
    && order.status == Open
  }

  lemma FreshIsMid(s: State, order: Order)
    requires Inv(s) && FreshOrder(s, order)
    ensures Mid(order, SideOf(s, Opposite(order.side)), SideOf(s, order.side), s.trades, s.all)
  {
    TradedOutside(s.trades, s.all, order.id);
    forall i | 0 <= i < |s.trades| ensures TradeInv(s.trades[i], s.all[order.id := order]) {
      assert TradeInv(s.trades[i], s.all);
    }
  }

  /** After the match nothing on the other side crosses what is left of a limit order. */
  lemma NothingLeftCrosses(taker: Order, book: seq<Order>, all: Orders)
    requires taker.orderType == Limit && SideInv(Opposite(taker.side), book, all)
    ensures var m := Match(taker, book, all);
      m.taker.Remaining() > DUST ==> forall i :: 0 <= i < |m.book| ==> !Crosses(taker, m.book[i].price)
  {
    var m := Match(taker, book, all);
    forall i | 0 <= i < |book| ensures book[i].Remaining() > DUST {
      assert Mirrored(Opposite(taker.side), book[i], all);
    }
    MatchConsumesPrefix(taker, book, all);
    if m.taker.Remaining() > DUST {
      var n := |m.fills|;
      forall i | 0 <= i < |m.book| ensures !Crosses(taker, m.book[i].price) {
        if i > 0 {
          assert Before(Opposite(taker.side), book[n], book[n + i]);
        }
      }
    }
  }

  /** The last step of `Add`, on the parts the match left behind. */
  lemma RecordingKeepsInv(taker: Order, book: seq<Order>, own: seq<Order>, trades: seq<Trade>, all: Orders, o: Order)
    requires Mid(taker, book, own, trades, all)
    requires o == taker.(status := o.status) && RecordInv(o, taker.filled) && !Unfinished(o)
    ensures Parts(taker.side, own, book, trades, all[o.id := o])
  {
    NewRecordKeepsSides(Opposite(taker.side), book, all, o);
    NewRecordKeepsSides(taker.side, own, all, o);
    NewRecordKeepsTrades(taker, trades, all, o);
  }

  lemma NewRecordKeepsSides(side: Side, book: seq<Order>, all: Orders, o: Order)
    requires SideInv(side, book, all) && o.id !in all
    ensures SideInv(side, book, all[o.id := o])
    ensures forall i :: 0 <= i < |book| ==> book[i].id != o.id
  {
    forall i | 0 <= i < |book| ensures Mirrored(side, book[i], all[o.id := o]) && book[i].id != o.id {
      assert Mirrored(side, book[i], all);
    }
  }

  lemma NewRecordKeepsTrades(taker: Order, trades: seq<Trade>, all: Orders, o: Order)
    requires o == taker.(status := o.status)
    requires forall i :: 0 <= i < |trades| ==> TradeInv(trades[i], all[taker.id := taker])
    ensures forall i :: 0 <= i < |trades| ==> TradeInv(trades[i], all[o.id := o])
  {
    forall i | 0 <= i < |trades| ensures TradeInv(trades[i], all[o.id := o]) {
      assert TradeInv(trades[i], all[taker.id := taker]);
    }
  }

  lemma RestingKeepsInv(taker: Order, book: seq<Order>, own: seq<Order>, trades: seq<Trade>, all: Orders, o: Order)
    requires Mid(taker, book, own, trades, all)
    requires o == taker.(status := RestingStatus(taker.filled))
    requires o.orderType == Limit && o.Remaining() > DUST
    requires forall i :: 0 <= i < |own| ==> own[i].id < o.id
    requires forall i :: 0 <= i < |book| ==> !Crosses(o, book[i].price)
    ensures Parts(o.side, SortSide(o.side, own + [o]), book, trades, all[o.id := o])
  {
    var own', all' := SortSide(o.side, own + [o]), all[o.id := o];
    NewRecordKeepsSides(Opposite(o.side), book, all, o);
    NewRecordKeepsSides(o.side, own, all, o);
    NewRecordKeepsTrades(taker, trades, all, o);
    SortSideInserts(o.side, own, o);
    RestingIsListed(o, own, own', all, trades, book);
    RestingKeepsApart(o, own, own', book);
    forall i | 0 <= i < |own'| ensures Mirrored(o.side, own'[i], all') {
      assert own'[i] in own';
      if own'[i] != o {
        var j :| 0 <= j < |own| && own[j] == own'[i];
        assert Mirrored(o.side, own[j], all');
      }
    }
  }

  lemma RestingKeepsApart(o: Order, own: seq<Order>, own': seq<Order>, book: seq<Order>)
    requires Apart(o.side, own, book)
    requires forall x :: x in own' <==> x in own || x == o
    requires forall i :: 0 <= i < |book| ==> !Crosses(o, book[i].price)
    ensures Apart(o.side, own', book)
  {
    forall i, j | 0 <= i < |own'| && 0 <= j < |book|
      ensures o.side == Buy ==> own'[i].price < book[j].price
      ensures o.side == Sell ==> book[j].price < own'[i].price
    {
      assert own'[i] in own';
      if own'[i] != o {
        var k :| 0 <= k < |own| && own[k] == own'[i];
      }
    }
  }

  lemma RestingIsListed(
    o: Order, own: seq<Order>, own': seq<Order>, all: Orders, trades: seq<Trade>, book: seq<Order>)
    requires TableInv(all, trades, o.side, own, book) && o.id !in all
    requires RecordInv(o, Traded(trades, o.id))
    requires forall x :: x in own' <==> x in own || x == o
    ensures TableInv(all[o.id := o], trades, o.side, own', book)
  {
    var all' := all[o.id := o];
    assert o in own';
    forall id | id in all'
      ensures all'[id].id == id && RecordInv(all'[id], Traded(trades, id))
      ensures Unfinished(all'[id]) ==> Listed(if all'[id].side == o.side then own' else book, id)
    {
      if id != o.id && Unfinished(all[id]) && all[id].side == o.side {
        var i :| 0 <= i < |own| && own[i].id == id;
        assert own[i] in own';
      }
    }
  }

  ghost predicate StateParts(s: State, side: Side) {
    Parts(side, SideOf(s, side), SideOf(s, Opposite(side)), s.trades, s.all)
  }

  /** The invariant, told from the side of the last taker. */
  lemma AssembleInv(s: State, side: Side)
    requires StateParts(s, side)
    requires forall id :: id in s.all ==> id <= s.counter
    ensures Inv(s)
  {
  }

  /** The state `Add` leaves when the rest of the order goes on the book. */
  lemma AddRests(s: State, order: Order)
    requires FreshOrder(s, order)
    requires OutcomeOf(s, order).taker.Remaining() > DUST && order.orderType == Limit
    ensures var m := OutcomeOf(s, order);
      var o := m.taker.(status := RestingStatus(m.taker.filled));
      var s' := Add(s, order);
      && SideOf(s', order.side) == SortSide(order.side, SideOf(s, order.side) + [o])
      && SideOf(s', Opposite(order.side)) == m.book
      && s'.trades == s.trades + m.fills && s'.all == m.all[order.id := o] && s'.counter == s.counter
  {
    MatchKeepsTerms(order, SideOf(s, Opposite(order.side)), s.all);
  }

  /** The state `Add` leaves otherwise. */
  lemma AddIsDone(s: State, order: Order)
    requires OutcomeOf(s, order).taker.Remaining() <= DUST || order.orderType == Market
    ensures var m := OutcomeOf(s, order);
      var s' := Add(s, order);
      && SideOf(s', order.side) == SideOf(s, order.side)
      && SideOf(s', Opposite(order.side)) == m.book
      && s'.trades == s.trades + m.fills && s'.all == m.all[order.id := Settled(m.taker)] && s'.counter == s.counter
  {
    MatchKeepsTerms(order, SideOf(s, Opposite(order.side)), s.all);
  }

  lemma MatchKeepsMidOf(s: State, order: Order)
    requires Inv(s) && FreshOrder(s, order)
    ensures var m := OutcomeOf(s, order);
      && Mid(m.taker, m.book, SideOf(s, order.side), s.trades + m.fills, m.all)
      && m.taker == order.(filled := m.taker.filled)
      && m.all.Keys == s.all.Keys
  {
    var own, opposite := SideOf(s, order.side), SideOf(s, Opposite(order.side));
    FreshIsMid(s, order);
    MatchKeepsMid(order, opposite, own, s.trades, s.all);
    MatchKeepsTerms(order, opposite, s.all);
    MatchKeepsKeys(order, opposite, s.all);
  }

  lemma RestedParts(s: State, order: Order)
    requires Inv(s) && FreshOrder(s, order)
    requires OutcomeOf(s, order).taker.Remaining() > DUST && order.orderType == Limit
    ensures var m := OutcomeOf(s, order);
      var o := m.taker.(status := RestingStatus(m.taker.filled));
      Parts(order.side, SortSide(order.side, SideOf(s, order.side) + [o]), m.book, s.trades + m.fills,
            m.all[order.id := o])
  {
    var own := SideOf(s, order.side);
    var m := OutcomeOf(s, order);
    MatchKeepsMidOf(s, order);
    NothingLeftCrosses(order, SideOf(s, Opposite(order.side)), s.all);
    forall i | 0 <= i < |own| ensures own[i].id < order.id {
      assert Mirrored(order.side, own[i], s.all);
    }
    RestingKeepsInv(m.taker, m.book, own, s.trades + m.fills, m.all,
                    m.taker.(status := RestingStatus(m.taker.filled)));
  }

  lemma DoneParts(s: State, order: Order)
    requires Inv(s) && FreshOrder(s, order)
    requires OutcomeOf(s, order).taker.Remaining() <= DUST || order.orderType == Market
    ensures var m := OutcomeOf(s, order);
      Parts(order.side, SideOf(s, order.side), m.book, s.trades + m.fills, m.all[order.id := Settled(m.taker)])
  {
    var m := OutcomeOf(s, order);
    MatchKeepsMidOf(s, order);
    RecordingKeepsInv(m.taker, m.book, SideOf(s, order.side), s.trades + m.fills, m.all, Settled(m.taker));
  }

  lemma RestedState(s: State, order: Order)
    requires Inv(s) && FreshOrder(s, order)
    requires OutcomeOf(s, order).taker.Remaining() > DUST && order.orderType == Limit
    ensures StateParts(Add(s, order), order.side)
  {
    RestedParts(s, order);
    AddRests(s, order);
  }

  lemma DoneState(s: State, order: Order)
    requires Inv(s) && FreshOrder(s, order)
    requires OutcomeOf(s, order).taker.Remaining() <= DUST || order.orderType == Market
    ensures StateParts(Add(s, order), order.side)
  {
    DoneParts(s, order);
    AddIsDone(s, order);
  }

  lemma AddKeepsIds(s: State, order: Order)
    requires FreshOrder(s, order) && forall id :: id in s.all ==> id <= s.counter
    ensures forall id :: id in Add(s, order).all ==> id <= Add(s, order).counter
  {
    MatchKeepsKeys(order, SideOf(s, Opposite(order.side)), s.all);
    if OutcomeOf(s, order).taker.Remaining() > DUST && order.orderType == Limit {
      AddRests(s, order);
    } else {
      AddIsDone(s, order);
    }
  }

  /** One more order keeps the book in order. */
  lemma AddKeepsInv(s: State, order: Order)
    requires Inv(s) && FreshOrder(s, order)
    ensures Inv(Add(s, order))
  {
    if OutcomeOf(s, order).taker.Remaining() > DUST && order.orderType == Limit {
      RestedState(s, order);
    } else {
      DoneState(s, order);
    }
    AddKeepsIds(s, order);
    AssembleInv(Add(s, order), order.side);
  }

  // ---- Cancelling ----

  lemma {:induction false} WithoutSkips(book: seq<Order>, id: nat)
    ensures forall o :: o in Without(book, id) <==> o in book && o.id != id
  {
    if book == [] {
    } else {
      WithoutSkips(book[1..], id);
      assert forall o :: o in book <==> o == book[0] || o in book[1..];
    }
  }

  lemma {:induction false} WithoutInPriority(side: Side, book: seq<Order>, id: nat)
    requires InPriority(side, book)
    ensures InPriority(side, Without(book, id))
  {
    if book == [] {
    } else {
      WithoutInPriority(side, book[1..], id);
      if book[0].id != id {
        WithoutSkips(book[1..], id);
        forall o | o in Without(book[1..], id) ensures Before(side, book[0], o) {
          var i :| 0 <= i < |book[1..]| && book[1..][i] == o;
          assert Before(side, book[0], book[i + 1]);
        }
        PriorityCons(side, book[0], Without(book[1..], id));
      }
    }
  }

  lemma WithoutKeepsSide(side: Side, book: seq<Order>, all: Orders, all': Orders, id: nat)
    requires SideInv(side, book, all) && SameBut(all, all', id)
    ensures SideInv(side, Without(book, id), all')
  {
    var book' := Without(book, id);
    WithoutInPriority(side, book, id);
    WithoutSkips(book, id);
    forall i | 0 <= i < |book'| ensures Mirrored(side, book'[i], all') {
      assert book'[i] in book';
      var j :| 0 <= j < |book| && book[j] == book'[i];
      assert Mirrored(side, book[j], all);
    }
  }

  lemma WithoutKeepsListed(book: seq<Order>, id: nat, other: nat)
    requires Listed(book, other) && other != id
    ensures Listed(Without(book, id), other)
  {
    WithoutSkips(book, id);
    var i :| 0 <= i < |book| && book[i].id == other;
    assert book[i] in Without(book, id);
  }

  lemma CancelKeepsTable(s: State, id: nat, owner: string)
    requires Inv(s) && Cancellable(s, id, owner)
    ensures var s' := Cancel(s, id, owner);
      TableInv(s'.all, s'.trades, Buy, s'.bids, s'.asks)
  {
    var s' := Cancel(s, id, owner);
    forall k | k in s'.all
      ensures s'.all[k].id == k && RecordInv(s'.all[k], Traded(s'.trades, k))
      ensures Unfinished(s'.all[k]) ==> Listed(if s'.all[k].side == Buy then s'.bids else s'.asks, k)
    {
      if k != id && Unfinished(s.all[k]) {
        WithoutKeepsListed(if s.all[k].side == Buy then s.bids else s.asks, id, k);
      }
    }
  }

  lemma WithoutUncrossed(bids: seq<Order>, asks: seq<Order>, id: nat)
    requires Uncrossed(bids, asks)
    ensures Uncrossed(Without(bids, id), Without(asks, id))
  {
    var b, a := Without(bids, id), Without(asks, id);
    WithoutSkips(bids, id);
    WithoutSkips(asks, id);
    forall i, j | 0 <= i < |b| && 0 <= j < |a| ensures b[i].price < a[j].price {
      assert b[i] in b && a[j] in a;
    }
  }

  lemma CancelKeepsInv(s: State, id: nat, owner: string)
    requires Inv(s)
    ensures Inv(Cancel(s, id, owner))
  {
    if Cancellable(s, id, owner) {
      var s' := Cancel(s, id, owner);
      WithoutKeepsSide(Buy, s.bids, s.all, s'.all, id);
      WithoutKeepsSide(Sell, s.asks, s.all, s'.all, id);
      CancelKeepsTable(s, id, owner);
      WithoutUncrossed(s.bids, s.asks, id);
      forall i | 0 <= i < |s'.trades| ensures TradeInv(s'.trades[i], s'.all) {
        assert TradeInv(s.trades[i], s.all);
      }
    }
  }

  // ---- Whole runs ----

  /** What a client asks for; clock readings and balances come from outside. */
  datatype Op =
    | Place(side: Side, orderType: OrderType, price: real, size: real, address: string,
            now: nat, available: real)
    | CancelOp(id: nat, owner: string)

  /** The two checks of `place_order`: the minimum size, and funds behind a limit order. */
  predicate Accepted(op: Op, minOrder: real)
    requires op.Place?
  {
    && op.size >= minOrder
    && (op.address != "" && op.orderType == Limit ==>
          op.available >= if op.side == Buy then op.price * op.size else op.size)
  }

  function NewOrder(id: nat, op: Op): Order
    requires op.Place?
  {
    Order(id, op.side, op.orderType, op.price, op.size, 0.0, op.address, op.now, Open)
  }

  function Counted(s: State): State {
    s.(counter := s.counter + 1)
  }

  function Placed(s: State, op: Op): State
    requires op.Place?
  {
    Add(Counted(s), NewOrder(s.counter + 1, op))
  }

  function Do(s: State, op: Op, minOrder: real): State {
    match op
    case Place(_, _, _, _, _, _, _) => if Accepted(op, minOrder) then Placed(s, op) else s
    case CancelOp(id, owner) => Cancel(s, id, owner)
  }

  function Run(ops: seq<Op>, minOrder: real): State {
    if ops == [] then EMPTY else Do(Run(ops[..|ops| - 1], minOrder), ops[|ops| - 1], minOrder)
  }

  /** The trades of an accepted order: what is new in the trade log. */
  ghost function FillsOf(s: State, op: Op): (fills: seq<Trade>)
    requires op.Place?
    ensures Placed(s, op).trades == s.trades + fills
  {
    OutcomeOf(Counted(s), NewOrder(s.counter + 1, op)).fills
  }

  /** The engine carries out `Place` as the two steps of `place_order`. */
  method PlaceOrder(book: Book, op: Op) returns (success: bool, fills: seq<Trade>)
    requires op.Place?
    modifies book
    ensures success == Accepted(op, book.minOrder)
    ensures book.Value() == Do(old(book.Value()), op, book.minOrder)
    ensures fills == if success then FillsOf(old(book.Value()), op) else []
  {
    if op.size < book.minOrder {
      return false, [];
    }
    if op.address != "" && op.orderType == Limit {
      var required := if op.side == Buy then op.price * op.size else op.size;
      if op.available < required {
        return false, [];
      }
    }
    var id := book.NextOrderId();
    fills := book.AddOrder(NewOrder(id, op));
    success := true;
  }

  lemma CountedKeepsInv(s: State)
    requires Inv(s)
    ensures Inv(Counted(s)) && s.counter + 1 !in s.all
  {
  }

  lemma DoKeepsInv(s: State, op: Op, minOrder: real)
    requires Inv(s) && minOrder >= 0.0
    ensures Inv(Do(s, op, minOrder))
  {
    match op
    case Place(_, _, _, _, _, _, _) =>
      if Accepted(op, minOrder) {
        CountedKeepsInv(s);
        AddKeepsInv(Counted(s), NewOrder(s.counter + 1, op));
      }
    case CancelOp(id, owner) => CancelKeepsInv(s, id, owner);
  }

  /** After any run of orders and cancellations: both sides in price-time priority, not
      crossed, every resting order mirrored in the table, every unfinished limit order on
      the book, every record in step with the trade log up to dust. */
  lemma {:induction false} EveryRunKeepsInv(ops: seq<Op>, minOrder: real)
    requires minOrder >= 0.0
    ensures Inv(Run(ops, minOrder))
  {
    if ops == [] {
    } else {
      EveryRunKeepsInv(ops[..|ops| - 1], minOrder);
      DoKeepsInv(Run(ops[..|ops| - 1], minOrder), ops[|ops| - 1], minOrder);
    }
  }

  // ---- What that means for a client ----

  /** An order is resting on its side of the book exactly if it is an unfinished limit order. */
  lemma OnBookExactlyUnfinished(ops: seq<Op>, minOrder: real, id: nat)
    requires minOrder >= 0.0 && id in Run(ops, minOrder).all
    ensures var s := Run(ops, minOrder);
      && (Unfinished(s.all[id]) <==> Listed(SideOf(s, s.all[id].side), id))
      && !Listed(SideOf(s, Opposite(s.all[id].side)), id)
  {
    EveryRunKeepsInv(ops, minOrder);
    var s := Run(ops, minOrder);
    var side := s.all[id].side;
    if Listed(SideOf(s, side), id) {
      var i :| 0 <= i < |SideOf(s, side)| && SideOf(s, side)[i].id == id;
      assert Mirrored(side, SideOf(s, side)[i], s.all);
    }
    var other := SideOf(s, Opposite(side));
    forall i | 0 <= i < |other| ensures other[i].id != id {
      assert Mirrored(Opposite(side), other[i], s.all);
    }
  }

  /** A market order never rests: what it could not fill stays behind as an open record. */
  lemma MarketRemainderIsNotOnBook(ops: seq<Op>, minOrder: real, id: nat)
    requires minOrder >= 0.0 && id in Run(ops, minOrder).all
    requires Run(ops, minOrder).all[id].orderType == Market
    ensures var s := Run(ops, minOrder);
      && !Listed(s.bids, id) && !Listed(s.asks, id)
      && (s.all[id].Remaining() > DUST ==> s.all[id].status == Open || s.all[id].status == Cancelled)
  {
    EveryRunKeepsInv(ops, minOrder);
    OnBookExactlyUnfinished(ops, minOrder, id);
    var s := Run(ops, minOrder);
    assert RecordInv(s.all[id], Traded(s.trades, id));
    if s.all[id].side == Sell {
      assert SideOf(s, Sell) == s.asks && SideOf(s, Buy) == s.bids;
    }
  }

  /** A record that looks open, and is not on the book. */
  ghost predicate OpenOffBook(s: State, id: nat) {
    && id in s.all && s.all[id].orderType == Market
    && s.all[id].status == Open && s.all[id].Remaining() > DUST
    && !Listed(s.bids, id) && !Listed(s.asks, id)
  }

  /** A market order on an empty book leaves one. */
  lemma MarketOrderStaysOpen(minOrder: real, size: real, side: Side, price: real, address: string, now: nat,
                             available: real)
    requires minOrder >= 0.0 && size >= minOrder && size > DUST
    ensures OpenOffBook(Run([Place(side, Market, price, size, address, now, available)], minOrder), 1)
  {
    var op := Place(side, Market, price, size, address, now, available);
    assert [op][..0] == [];
    MarketRemainderIsNotOnBook([op], minOrder, 1);
  }

  /** The sides of a reachable book are what the matching laws ask for. */
  lemma SideIsReady(s: State, taker: Order)
    requires Inv(s)
    ensures AllOffer(SideOf(s, Opposite(taker.side)))
    ensures BestFirst(taker.side, SideOf(s, Opposite(taker.side)))
  {
    var side := Opposite(taker.side);
    var book := SideOf(s, side);
    forall i | 0 <= i < |book| ensures book[i].Remaining() > DUST {
      assert Mirrored(side, book[i], s.all);
    }
    forall i, j | 0 <= i < j < |book|
      ensures if taker.side == Buy then book[i].price <= book[j].price else book[i].price >= book[j].price
    {
      assert Before(side, book[i], book[j]);
    }
  }

  /** Whatever happened before, a new order consumes a prefix of the other side, gets all
      it can up to dust, and gets it as cheaply as any allocation over the eligible orders. */
  lemma EveryTakerIsServedBest(ops: seq<Op>, minOrder: real, taker: Order, alloc: seq<real>)
    requires minOrder >= 0.0 && taker.Remaining() >= 0.0
    ensures var s := Run(ops, minOrder);
      var book, m := SideOf(s, Opposite(taker.side)), OutcomeOf(s, taker);
      var most := Min(taker.Remaining(), Available(taker, book));
      && ConsumesPrefix(taker, book, m)
      && Volume(m.fills) <= most
      && (Volume(m.fills) < most ==> taker.Remaining() - Volume(m.fills) <= DUST)
      && (Allocation(taker, book, alloc) && Total(alloc) == Volume(m.fills) ==>
            Cost(taker.side, m.fills) <= AllocationCost(taker.side, alloc, book))
  {
    EveryRunKeepsInv(ops, minOrder);
    var s := Run(ops, minOrder);
    var book := SideOf(s, Opposite(taker.side));
    SideIsReady(s, taker);
    MatchConsumesPrefix(taker, book, s.all);
    FillsWhatIsThere(taker, book, s.all);
    if Allocation(taker, book, alloc) && Total(alloc) == Volume(OutcomeOf(s, taker).fills) {
      BestExecution(taker, book, s.all, alloc);
    }
  }
}
