/** The depth snapshot: price levels aggregated from the head of each side. */
module DepthSnapshot {
  import opened Matching
  import opened Sequences
  import opened StableSort
  import opened OrderBook
  import opened OrderBookRuns

  /** The key of the level table. */
  datatype OrderedFloat = OrderedFloat(inner: real)

  datatype Level = Level(price: real, size: real)

  datatype Snapshot = Snapshot(bids: seq<Level>, asks: seq<Level>, bestBid: real, bestAsk: real,
                               spread: real, midPrice: real)

  /** The open quantity at one price. */
  function QuantityAt(book: seq<Order>, price: real): real {
    if book == [] then 0.0
    else
      QuantityAt(book[..|book| - 1], price)
      + (if book[|book| - 1].price == price then book[|book| - 1].Remaining() else 0.0)
  }

  predicate BetterPrice(side: Side, a: real, b: real) {
    if side == Buy then a > b else a < b
  }

  predicate LevelLeq(side: Side, a: Level, b: Level) { !BetterPrice(side, b.price, a.price) }
  predicate BidLevelLeq(a: Level, b: Level) { LevelLeq(Buy, a, b) }
  predicate AskLevelLeq(a: Level, b: Level) { LevelLeq(Sell, a, b) }

  /** Strictly ordered levels, best first, whose sizes are the quantities of `scan`,
      for its best `depth` prices. */
  ghost predicate LevelsOf(side: Side, levels: seq<Level>, scan: seq<Order>, depth: nat) {
    && |levels| <= depth
    && (forall i, j :: 0 <= i < j < |levels| ==> BetterPrice(side, levels[i].price, levels[j].price))
    && (forall l :: l in levels ==> l.size == QuantityAt(scan, l.price) && exists o :: o in scan && o.price == l.price)
    && (forall o :: o in scan ==>
          (exists l :: l in levels && l.price == o.price)
          || (|levels| == depth && forall l :: l in levels ==> BetterPrice(side, l.price, o.price)))
  }

  /** The scanned quantity at every scanned price. */
  ghost predicate SumsOf(sizes: map<OrderedFloat, real>, scan: seq<Order>) {
    && (forall p :: p in sizes ==>
          sizes[p] == QuantityAt(scan, p.inner) && exists o :: o in scan && o.price == p.inner)
    && (forall o :: o in scan ==> OrderedFloat(o.price) in sizes)
  }

  method SumByPrice(scan: seq<Order>) returns (sizes: map<OrderedFloat, real>)
    ensures SumsOf(sizes, scan)
  {
    sizes := map[];
    for i := 0 to |scan|
      invariant SumsOf(sizes, scan[..i])
    {
      QuantitySnoc(scan, i);
      var p := OrderedFloat(scan[i].price);
      if p !in sizes {
        NewPrice(scan[..i], p.inner);
      }
      sizes := sizes[p := (if p in sizes then sizes[p] else 0.0) + scan[i].Remaining()];
      assert scan[i] in scan[..i + 1];
    }
    assert scan[..|scan|] == scan;
  }

  /** Sums the scanned orders by price, then sorts and cuts the levels. */
  method Aggregate(side: Side, book: seq<Order>, depth: nat) returns (levels: seq<Level>)
    ensures LevelsOf(side, levels, Take(book, depth * 5), depth)
  {
    var scan := Take(book, depth * 5);
    var sizes := SumByPrice(scan);
    var entries := Entries(sizes);
    var sorted := if side == Buy then Sort(entries, BidLevelLeq) else Sort(entries, AskLevelLeq);
    SortLevels(side, entries, sorted);
    levels := Take(sorted, depth);
    CutLevels(side, sorted, levels, sizes, scan, depth);
  }

  lemma QuantitySnoc(scan: seq<Order>, i: nat)
    requires i < |scan|
    ensures forall p :: QuantityAt(scan[..i + 1], p)
                     == QuantityAt(scan[..i], p) + (if scan[i].price == p then scan[i].Remaining() else 0.0)
    ensures forall o :: o in scan[..i + 1] <==> o in scan[..i] || o == scan[i]
  {
    assert scan[..i + 1][..i] == scan[..i];
  }

  /** One more order adds its size less what it was filled, at its own price. */
  lemma QuantityMeans(book: seq<Order>, o: Order, price: real)
    ensures QuantityAt([], price) == 0.0
    ensures QuantityAt(book + [o], price) ==
      QuantityAt(book, price) + if o.price == price then o.size - o.filled else 0.0
  {
    assert (book + [o])[..|book + [o]| - 1] == book;
  }

  lemma {:induction false} NewPrice(scan: seq<Order>, p: real)
    requires forall o :: o in scan ==> o.price != p
    ensures QuantityAt(scan, p) == 0.0
  {
    if scan == [] {
    } else {
      NewPrice(scan[..|scan| - 1], p);
    }
  }

  /** The entries of the table, in whatever order it yields them. */
  method Entries(sizes: map<OrderedFloat, real>) returns (levels: seq<Level>)
    ensures forall l :: l in levels <==> OrderedFloat(l.price) in sizes && l.size == sizes[OrderedFloat(l.price)]
    ensures forall i, j :: 0 <= i < j < |levels| ==> levels[i].price != levels[j].price
  {
    levels := [];
    var rest := sizes.Keys;
    while rest != {}
      invariant rest <= sizes.Keys
      invariant forall l :: l in levels <==>
        OrderedFloat(l.price) in sizes.Keys - rest && l.size == sizes[OrderedFloat(l.price)]
      invariant forall i, j :: 0 <= i < j < |levels| ==> levels[i].price != levels[j].price
      decreases |rest|
    {
      var p :| p in rest;
      assert forall i :: 0 <= i < |levels| ==> levels[i] in levels;
      rest := rest - {p};
      levels := levels + [Level(p.inner, sizes[p])];
    }
  }

  lemma LevelOrders()
    ensures TotalPreorder(BidLevelLeq) && TotalPreorder(AskLevelLeq)
  {
  }

  /** Levels of different prices come out of the sort strictly ordered. */
  lemma SortLevels(side: Side, levels: seq<Level>, sorted: seq<Level>)
    requires forall i, j :: 0 <= i < j < |levels| ==> levels[i].price != levels[j].price
    requires sorted == if side == Buy then Sort(levels, BidLevelLeq) else Sort(levels, AskLevelLeq)
    ensures forall l :: l in sorted <==> l in levels
    ensures forall i, j :: 0 <= i < j < |sorted| ==> BetterPrice(side, sorted[i].price, sorted[j].price)
  {
    LevelOrders();
    if side == Buy {
      SortIsStable(levels, BidLevelLeq);
      SortPermutes(levels, BidLevelLeq);
      StrictlyOrdered(side, levels, sorted, BidLevelLeq);
    } else {
      SortIsStable(levels, AskLevelLeq);
      SortPermutes(levels, AskLevelLeq);
      StrictlyOrdered(side, levels, sorted, AskLevelLeq);
    }
    SameMembers(levels, sorted);
  }

  lemma StrictlyOrdered(side: Side, levels: seq<Level>, sorted: seq<Level>, leq: (Level, Level) -> bool)
    requires forall i, j :: 0 <= i < j < |levels| ==> levels[i].price != levels[j].price
    requires multiset(sorted) == multiset(levels) && Sorted(sorted, leq)
    requires forall a, b :: leq(a, b) ==> LevelLeq(side, a, b)
    ensures forall i, j :: 0 <= i < j < |sorted| ==> BetterPrice(side, sorted[i].price, sorted[j].price)
  {
    forall i, j | 0 <= i < j < |sorted| ensures BetterPrice(side, sorted[i].price, sorted[j].price) {
      assert leq(sorted[i], sorted[j]);
      DistinctAfterPermuting(levels, sorted, i, j);
    }
  }

  lemma SameMembers(levels: seq<Level>, sorted: seq<Level>)
    requires multiset(sorted) == multiset(levels)
    ensures forall l :: l in sorted <==> l in levels
  {
    assert forall l :: l in sorted <==> l in multiset(sorted);
    assert forall l :: l in levels <==> l in multiset(levels);
  }

  lemma DistinctAfterPermuting(levels: seq<Level>, sorted: seq<Level>, i: nat, j: nat)
    requires forall i, j :: 0 <= i < j < |levels| ==> levels[i].price != levels[j].price
    requires multiset(sorted) == multiset(levels) && i < j < |sorted|
    ensures sorted[i].price != sorted[j].price
  {
    if sorted[i].price == sorted[j].price {
      assert sorted[i] in multiset(levels) && sorted[j] in multiset(levels);
      PermutedDistinct(levels, sorted);
    }
  }

  lemma CutLevels(
    side: Side, sorted: seq<Level>, levels: seq<Level>, sizes: map<OrderedFloat, real>, scan: seq<Order>, depth: nat)
    requires levels == Take(sorted, depth) && SumsOf(sizes, scan)
    requires forall i, j :: 0 <= i < j < |sorted| ==> BetterPrice(side, sorted[i].price, sorted[j].price)
    requires forall l :: l in sorted <==> OrderedFloat(l.price) in sizes && l.size == sizes[OrderedFloat(l.price)]
    ensures LevelsOf(side, levels, scan, depth)
  {
    assert forall l :: l in levels ==> l in sorted;
    forall o | o in scan
      ensures (exists l :: l in levels && l.price == o.price)
           || (|levels| == depth && forall l :: l in levels ==> BetterPrice(side, l.price, o.price))
    {
      var l := Level(o.price, sizes[OrderedFloat(o.price)]);
      assert l in sorted;
      var i :| 0 <= i < |sorted| && sorted[i] == l;
      if i < |levels| {
        assert levels[i] == l;
      } else {
        forall l' | l' in levels ensures BetterPrice(side, l'.price, o.price) {
          var j :| 0 <= j < |levels| && levels[j] == l';
          assert sorted[j] == l' && j < i;
        }
      }
    }
  }

  // ---- The snapshot ----

  method GetOrderbook(book: Book, depth: nat) returns (snap: Snapshot)
    requires Inv(book.Value())
    ensures LevelsOf(Buy, snap.bids, Take(book.bids, depth * 5), depth)
    ensures LevelsOf(Sell, snap.asks, Take(book.asks, depth * 5), depth)
    ensures forall i, j :: 0 <= i < j < |snap.bids| ==> snap.bids[i].price > snap.bids[j].price
    ensures forall i, j :: 0 <= i < j < |snap.asks| ==> snap.asks[i].price < snap.asks[j].price
    ensures CompleteLevels(book.bids, snap.bids, depth * 5) && CompleteLevels(book.asks, snap.asks, depth * 5)
    ensures snap.bestBid == (if depth > 0 && book.bids != [] then book.bids[0].price else 0.0)
    ensures snap.bestAsk == (if depth > 0 && book.asks != [] then book.asks[0].price else 0.0)
    ensures snap.bestBid > 0.0 && snap.bestAsk > 0.0 ==>
      snap.spread == snap.bestAsk - snap.bestBid > 0.0
      && snap.bestBid < snap.midPrice == (snap.bestBid + snap.bestAsk) / 2.0 < snap.bestAsk
    ensures !(snap.bestBid > 0.0 && snap.bestAsk > 0.0) ==> snap.spread == 0.0 && snap.midPrice == 0.0
  {
    var bids := Aggregate(Buy, book.bids, depth);
    var asks := Aggregate(Sell, book.asks, depth);
    OrdersOffer(Buy, book.bids, book.allOrders);
    OrdersOffer(Sell, book.asks, book.allOrders);
    BestLevelIsHead(Buy, book.bids, Take(book.bids, depth * 5), bids, depth);
    BestLevelIsHead(Sell, book.asks, Take(book.asks, depth * 5), asks, depth);
    LevelsAreComplete(Buy, book.bids, Take(book.bids, depth * 5), bids, depth);
    LevelsAreComplete(Sell, book.asks, Take(book.asks, depth * 5), asks, depth);
    var bestBid := if bids != [] then bids[0].price else 0.0;
    var bestAsk := if asks != [] then asks[0].price else 0.0;
    var both := bestBid > 0.0 && bestAsk > 0.0;
    snap := Snapshot(bids, asks, bestBid, bestAsk,
                     if both then bestAsk - bestBid else 0.0,
                     if both then (bestBid + bestAsk) / 2.0 else 0.0);
  }

  /** A level carries the whole book's quantity at its price exactly when the first order that
      was not scanned has another price: only the last scanned price can be cut short. */
  ghost predicate CompleteLevels(book: seq<Order>, levels: seq<Level>, n: nat) {
    forall l :: l in levels ==> (l.size == QuantityAt(book, l.price) <==> |book| <= n || book[n].price != l.price)
  }

  ghost predicate OccursFrom(book: seq<Order>, n: nat, price: real) {
    exists k :: n <= k < |book| && book[k].price == price
  }

  /** The first n orders carry less than the book exactly when a later one has the price. */
  lemma {:induction false} QuantityCut(book: seq<Order>, n: nat, price: real)
    requires n <= |book| && AllOffer(book)
    ensures QuantityAt(book[..n], price) <= QuantityAt(book, price)
    ensures QuantityAt(book[..n], price) < QuantityAt(book, price) <==> OccursFrom(book, n, price)
  {
    if n == |book| {
      assert book[..n] == book;
    } else {
      var init, last := book[..|book| - 1], |book| - 1;
      assert init[..n] == book[..n];
      QuantityCut(init, n, price);
      if OccursFrom(init, n, price) {
        var k :| n <= k < |init| && init[k].price == price;
        assert book[k].price == price;
      }
      if book[last].price == price {
        assert OccursFrom(book, n, price);
      } else if OccursFrom(book, n, price) {
        var k :| n <= k < |book| && book[k].price == price;
        assert init[k].price == price;
      }
    }
  }

  /** In a sorted side a scanned price goes on exactly if the next order has it. */
  lemma PriceGoesOn(side: Side, book: seq<Order>, n: nat, o: Order)
    requires InPriority(side, book) && n < |book| && o in book[..n]
    ensures OccursFrom(book, n, o.price) <==> book[n].price == o.price
  {
    var i :| 0 <= i < n && book[i] == o;
    assert Before(side, book[i], book[n]);
    if OccursFrom(book, n, o.price) {
      var k :| n <= k < |book| && book[k].price == o.price;
      assert k > n ==> Before(side, book[n], book[k]);
    }
  }

  /** What one level of a scanned price leaves out. */
  lemma LevelIsComplete(side: Side, book: seq<Order>, n: nat, o: Order)
    requires InPriority(side, book) && AllOffer(book) && n < |book| && o in book[..n]
    ensures QuantityAt(book[..n], o.price) == QuantityAt(book, o.price) <==> book[n].price != o.price
  {
    PriceGoesOn(side, book, n, o);
    QuantityCut(book, n, o.price);
  }

  /** Every level is the quantity of a scanned price. */
  ghost predicate ScannedLevels(levels: seq<Level>, scan: seq<Order>) {
    forall l :: l in levels ==> l.size == QuantityAt(scan, l.price) && exists o :: o in scan && o.price == l.price
  }

  lemma ScannedAreComplete(side: Side, book: seq<Order>, levels: seq<Level>, n: nat)
    requires InPriority(side, book) && AllOffer(book) && ScannedLevels(levels, Take(book, n))
    ensures CompleteLevels(book, levels, n)
  {
    forall l | l in levels
      ensures l.size == QuantityAt(book, l.price) <==> |book| <= n || book[n].price != l.price
    {
      if n < |book| {
        var o :| o in book[..n] && o.price == l.price;
        LevelIsComplete(side, book, n, o);
      }
    }
  }

  lemma LevelsAreComplete(side: Side, book: seq<Order>, scan: seq<Order>, levels: seq<Level>, depth: nat)
    requires InPriority(side, book) && AllOffer(book)
    requires scan == Take(book, depth * 5) && LevelsOf(side, levels, scan, depth)
    ensures CompleteLevels(book, levels, depth * 5)
  {
    assert ScannedLevels(levels, scan);
    ScannedAreComplete(side, book, levels, depth * 5);
  }

  /** The best level is the head of the side. */
  lemma BestLevelIsHead(side: Side, book: seq<Order>, scan: seq<Order>, levels: seq<Level>, depth: nat)
    requires InPriority(side, book)
    requires scan == Take(book, depth * 5) && LevelsOf(side, levels, scan, depth)
    ensures levels != [] <==> depth > 0 && book != []
    ensures levels != [] ==> levels[0].price == book[0].price
  {
    SomeScanned(side, levels, scan, depth);
    if levels != [] {
      FirstLevelIsHead(side, scan, levels, depth);
    } else if scan != [] {
      assert scan[0] in scan;
    }
  }

  lemma OrdersOffer(side: Side, book: seq<Order>, all: Orders)
    requires SideInv(side, book, all)
    ensures InPriority(side, book) && AllOffer(book)
  {
    assert forall i :: 0 <= i < |book| ==> Mirrored(side, book[i], all);
  }

  lemma SomeScanned(side: Side, levels: seq<Level>, scan: seq<Order>, depth: nat)
    ensures LevelsOf(side, levels, scan, depth) && levels != [] ==> scan != []
  {
    if LevelsOf(side, levels, scan, depth) && levels != [] {
      assert levels[0] in levels;
    }
  }

  lemma FirstLevelIsHead(side: Side, scan: seq<Order>, levels: seq<Level>, depth: nat)
    requires InPriority(side, scan) && LevelsOf(side, levels, scan, depth) && levels != [] && scan != []
    ensures levels[0].price == scan[0].price
  {
    assert levels[0] in levels && scan[0] in scan;
    var o :| o in scan && o.price == levels[0].price;
    HeadIsBest(side, scan, o);
    if l :| l in levels && l.price == scan[0].price {
      var i :| 0 <= i < |levels| && levels[i] == l;
    }
  }

  lemma HeadIsBest(side: Side, book: seq<Order>, o: Order)
    requires InPriority(side, book) && o in book
    ensures !BetterPrice(side, o.price, book[0].price)
  {
    var k :| 0 <= k < |book| && book[k] == o;
    assert k > 0 ==> Before(side, book[0], book[k]);
  }

  /** A level strictly better than the last scanned price carries the whole book's
      quantity at its price; only the last scanned price may be cut short. */
  lemma {:induction false} BetterLevelsAreComplete(side: Side, book: seq<Order>, n: nat, price: real)
    requires InPriority(side, book) && n <= |book|
    requires n < |book| ==> n > 0 && BetterPrice(side, price, book[n - 1].price)
    ensures QuantityAt(book[..n], price) == QuantityAt(book, price)
  {
    if n < |book| {
      var init := book[..|book| - 1];
      assert Before(side, book[n - 1], book[|book| - 1]);
      assert init[..n] == book[..n];
      BetterLevelsAreComplete(side, init, n, price);
    } else {
      assert book[..n] == book;
    }
  }
}
