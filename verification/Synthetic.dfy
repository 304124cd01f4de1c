/** Synthetic assets: positions opened by minting against collateral, closed by burning, and
    removed by liquidation, with the per-symbol totals kept beside them.
 */
module Synthetic {
  import opened MapSums
  import opened Tolerance

  const MIN_RATIO := 1.5
  const LIQUIDATION_RATIO := 1.1
  const FEE_RATE := 0.003

  datatype Result<T> = Ok(value: T) | Err(error: Error)

  datatype Error = UnknownSynthetic | NoOraclePrice | AmountNotPositive | TooSmall | NoPosition | Insufficient

  datatype Position = Position(amount: real, collateral: real)

  datatype PosKey = PosKey(owner: string, symbol: string)

  /** Lowest and highest mint price since the position was opened. */
  datatype Range = Range(low: real, high: real)

  datatype Minted = Minted(amount: real, collateral: real, fee: real)

  datatype Burned = Burned(returned: real, fee: real)

  datatype Liquidation = Liquidation(key: PosKey, amount: real)

  // ---- Arithmetic of one position ----

  function MintFee(qusd: real): real {
    qusd / MIN_RATIO * FEE_RATE
  }

  function MintAmount(qusd: real, price: real): real
    requires price > 0.0
  {
    (qusd / MIN_RATIO - MintFee(qusd)) / price
  }

  function After(p: Position, amount: real, qusd: real): Position {
    Position(p.amount + amount, p.collateral + qusd)
  }

  /** The collateral a burn releases: the burned share of it. */
  function Share(p: Position, amount: real): real
    requires p.amount > 0.0
  {
    p.collateral * (amount / p.amount)
  }

  /** None where the program answers the largest float. */
  datatype Ratio = Unbounded | Exactly(value: real)

  function CollateralRatio(p: Position, price: real): Ratio {
    if p.amount <= 0.0 || price <= 0.0 then Unbounded
    else Exactly(p.collateral / Worth(p.amount, price))
  }

  function Worth(amount: real, price: real): (w: real)
    ensures amount > 0.0 && price > 0.0 ==> w > 0.0
  {
    amount * price
  }

  predicate UnderThreshold(p: Position, price: real) {
    var r := CollateralRatio(p, price);
    r.Exactly? && r.value < LIQUIDATION_RATIO
  }

  /** The mediant zone: collateral, net of the fee rate, over 1.5 times the amount lies between
      the lowest and the highest mint price. */
  ghost predicate InZone(p: Position, r: Range) {
    && p.amount > 0.0 && 0.0 < r.low <= r.high
    && 1.5 * Worth(p.amount, r.low) <= 0.997 * p.collateral <= 1.5 * Worth(p.amount, r.high)
  }

  function Widen(r: Range, price: real): Range {
    Range(if price < r.low then price else r.low, if price > r.high then price else r.high)
  }

  lemma WorthOfSum(a: real, b: real, price: real)
    ensures Worth(a + b, price) == Worth(a, price) + Worth(b, price)
  {
  }

  lemma WorthGrows(amount: real, p: real, q: real)
    requires amount >= 0.0 && p <= q
    ensures Worth(amount, p) <= Worth(amount, q)
  {
  }

  /** What a mint adds is worth, at 1.5 times, exactly the collateral net of the fee rate. */
  lemma MintIsExact(qusd: real, price: real)
    requires price > 0.0 && qusd > 0.0
    ensures MintAmount(qusd, price) > 0.0
    ensures 1.5 * Worth(MintAmount(qusd, price), price) == 0.997 * qusd
  {
    var net := qusd / MIN_RATIO - MintFee(qusd);
    assert net == qusd / 1.5 * 0.997;
    assert Worth(net / price, price) == net;
  }

  lemma OpenInZone(qusd: real, price: real)
    requires price > 0.0 && qusd > 0.0
    ensures InZone(Position(MintAmount(qusd, price), qusd), Range(price, price))
  {
    MintIsExact(qusd, price);
  }

  lemma MintKeepsZone(p: Position, r: Range, qusd: real, price: real)
    requires InZone(p, r) && price > 0.0 && qusd > 0.0
    ensures InZone(After(p, MintAmount(qusd, price), qusd), Widen(r, price))
  {
    var m, w := MintAmount(qusd, price), Widen(r, price);
    MintIsExact(qusd, price);
    WorthOfSum(p.amount, m, w.low);
    WorthOfSum(p.amount, m, w.high);
    WorthGrows(p.amount, w.low, r.low);
    WorthGrows(p.amount, r.high, w.high);
    WorthGrows(m, w.low, price);
    WorthGrows(m, price, w.high);
  }

  lemma WorthScales(amount: real, price: real, rest: real)
    ensures Worth(amount * rest, price) == Worth(amount, price) * rest
  {
  }

  lemma ScaleOrder(a: real, b: real, rest: real)
    requires a <= b && rest >= 0.0
    ensures a * rest <= b * rest
  {
  }

  lemma ShareIsPositive(p: Position, r: Range, amount: real)
    requires InZone(p, r) && amount > 0.0
    ensures Share(p, amount) > 0.0
  {
    assert Worth(p.amount, r.low) > 0.0;
    assert amount / p.amount > 0.0;
  }

  /** A burn that leaves something shrinks amount and collateral by the same factor. */
  lemma BurnKeepsZone(p: Position, r: Range, amount: real)
    requires InZone(p, r) && 0.0 < amount < p.amount
    ensures InZone(Position(p.amount - amount, p.collateral - Share(p, amount)), r)
  {
    var rest := 1.0 - amount / p.amount;
    assert rest > 0.0;
    assert p.amount - amount == p.amount * rest;
    assert p.collateral - Share(p, amount) == p.collateral * rest;
    WorthScales(p.amount, r.low, rest);
    WorthScales(p.amount, r.high, rest);
    ScaleOrder(1.5 * Worth(p.amount, r.low), 0.997 * p.collateral, rest);
    ScaleOrder(0.997 * p.collateral, 1.5 * Worth(p.amount, r.high), rest);
  }

  lemma RatioTest(p: Position, price: real)
    requires p.amount > 0.0 && price > 0.0
    ensures UnderThreshold(p, price) <==> p.collateral < 1.1 * Worth(p.amount, price)
  {
    var w := Worth(p.amount, price);
    assert p.collateral / w < 1.1 <==> p.collateral < 1.1 * w;
  }

  /** The safe zone and its upper counterpart: up to 1.5/(0.997*1.1) times the lowest mint price
      a position is never liquidated, beyond that multiple of the highest it always is. */
  lemma SafeZone(p: Position, r: Range, price: real)
    requires InZone(p, r) && price > 0.0
    ensures price <= r.low * 1.5 / (0.997 * 1.1) ==> !UnderThreshold(p, price)
    ensures price > r.high * 1.5 / (0.997 * 1.1) ==> UnderThreshold(p, price)
  {
    RatioTest(p, price);
    var k := 1.5 / (0.997 * 1.1);
    if price <= r.low * 1.5 / (0.997 * 1.1) {
      WorthGrows(p.amount, price, r.low * k);
      WorthTimes(p.amount, r.low, k);
    }
    if price > r.high * 1.5 / (0.997 * 1.1) {
      WorthTimes(p.amount, r.high, k);
      WorthStrict(p.amount, r.high * k, price);
    }
  }

  lemma WorthTimes(amount: real, price: real, k: real)
    ensures Worth(amount, price * k) == Worth(amount, price) * k
  {
  }

  lemma WorthStrict(amount: real, p: real, q: real)
    requires amount > 0.0 && p < q
    ensures Worth(amount, p) < Worth(amount, q)
  {
  }

  // ---- Totals per symbol ----

  datatype Part = Amount | Collateral

  function Measure(p: Position, part: Part): real {
    if part.Amount? then p.amount else p.collateral
  }

  function PartAt(positions: map<PosKey, Position>, k: PosKey, part: Part): real {
    if k in positions then Measure(positions[k], part) else 0.0
  }

  ghost function PartsOf(positions: map<PosKey, Position>, symbol: string, part: Part): map<PosKey, real> {
    map k | k in positions && k.symbol == symbol :: Measure(positions[k], part)
  }

  ghost function TotalOf(positions: map<PosKey, Position>, symbol: string, part: Part): real {
    Sum(PartsOf(positions, symbol, part))
  }

  lemma TotalAfterPut(positions: map<PosKey, Position>, k: PosKey, p: Position, symbol: string, part: Part)
    ensures TotalOf(positions[k := p], symbol, part) == TotalOf(positions, symbol, part)
      + if k.symbol == symbol then Measure(p, part) - PartAt(positions, k, part) else 0.0
  {
    var m, m' := PartsOf(positions, symbol, part), PartsOf(positions[k := p], symbol, part);
    if k.symbol == symbol {
      assert m' == m[k := Measure(p, part)];
      SumUpdate(m, k, Measure(p, part));
    } else {
      assert m' == m;
    }
  }

  lemma TotalAfterRemove(positions: map<PosKey, Position>, k: PosKey, symbol: string, part: Part)
    ensures TotalOf(positions - {k}, symbol, part) == TotalOf(positions, symbol, part)
      - if k.symbol == symbol then PartAt(positions, k, part) else 0.0
  {
    var m, m' := PartsOf(positions, symbol, part), PartsOf(positions - {k}, symbol, part);
    if k.symbol == symbol {
      assert m' == m - {k};
      SumRemove(m, k);
    } else {
      assert m' == m;
    }
  }

  ghost function Outstanding(positions: map<PosKey, Position>, symbol: string): real {
    TotalOf(positions, symbol, Amount)
  }

  ghost function Locked(positions: map<PosKey, Position>, symbol: string): real {
    TotalOf(positions, symbol, Collateral)
  }

  function Count(closings: map<string, nat>, symbol: string): nat {
    if symbol in closings then closings[symbol] else 0
  }

  function Allowance(closings: map<string, nat>, symbol: string): real {
    Count(closings, symbol) as real * DUST
  }

  lemma OneMoreClosing(n: nat)
    ensures (n + 1) as real * DUST == n as real * DUST + DUST
  {
  }

  // ---- The books ----

  /** The last four fields are history, kept for the statements: the mint prices of each open
      position, the burns that closed one, and what liquidations took off the books. */
  datatype Books = Books(
    positions: map<PosKey, Position>,
    supply: map<string, real>,
    collateral: map<string, real>,
    ranges: map<PosKey, Range>,
    closings: map<string, nat>,
    seized: real,
    writtenOff: map<string, real>)

  const EMPTY := Books(map[], map[], map[], map[], map[], 0.0, map[])

  function PositionAt(b: Books, k: PosKey): Position {
    if k in b.positions then b.positions[k] else Position(0.0, 0.0)
  }

  function Grow(b: Books, k: PosKey, amount: real, qusd: real, price: real): Books {
    b.(positions := b.positions[k := After(PositionAt(b, k), amount, qusd)],
       supply := AddTo(b.supply, k.symbol, amount),
       collateral := AddTo(b.collateral, k.symbol, qusd),
       ranges := b.ranges[k := if k in b.ranges then Widen(b.ranges[k], price) else Range(price, price)])
  }

  function Mint(b: Books, k: PosKey, qusd: real, price: real): Books
    requires price > 0.0
  {
    Grow(b, k, MintAmount(qusd, price), qusd, price)
  }

  function Shrink(b: Books, k: PosKey, amount: real, share: real): Books
    requires k in b.positions
  {
    var p := b.positions[k];
    b.(positions := b.positions[k := Position(p.amount - amount, p.collateral - share)],
       supply := AddTo(b.supply, k.symbol, -amount),
       collateral := AddTo(b.collateral, k.symbol, -share))
  }

  function Close(b: Books, k: PosKey, amount: real, share: real): Books {
    b.(positions := b.positions - {k},
       ranges := b.ranges - {k},
       closings := b.closings[k.symbol := Count(b.closings, k.symbol) + 1],
       supply := AddTo(b.supply, k.symbol, -amount),
       collateral := AddTo(b.collateral, k.symbol, -share))
  }

  /** Releases a share of the collateral; a position left with less than the dust is closed,
      whatever is left in it. */
  function Release(b: Books, k: PosKey, amount: real, share: real): Books
    requires k in b.positions
  {
    if b.positions[k].amount - amount < DUST then Close(b, k, amount, share) else Shrink(b, k, amount, share)
  }

  function Burn(b: Books, k: PosKey, amount: real): Books
    requires k in b.positions && b.positions[k].amount > 0.0
  {
    Release(b, k, amount, Share(b.positions[k], amount))
  }

  function Liquidate(b: Books, k: PosKey): Books
    requires k in b.positions
  {
    var p := b.positions[k];
    b.(positions := b.positions - {k},
       ranges := b.ranges - {k},
       supply := AddTo(b.supply, k.symbol, -p.amount),
       collateral := AddTo(b.collateral, k.symbol, -p.collateral),
       seized := b.seized + p.collateral,
       writtenOff := AddTo(b.writtenOff, k.symbol, p.amount))
  }

  // ---- What every run keeps ----

  ghost predicate ZonesOk(b: Books) {
    && (forall k :: k in b.positions <==> k in b.ranges)
    && (forall k :: k in b.positions ==> InZone(b.positions[k], b.ranges[k]))
  }

  /** The recorded supply is off the outstanding amounts by at most the dust of the burns that
      closed a position of the symbol. */
  ghost predicate SupplyOk(b: Books, symbol: string) {
    var drift := At(b.supply, symbol) - Outstanding(b.positions, symbol);
    -Allowance(b.closings, symbol) <= drift <= Allowance(b.closings, symbol)
  }

  ghost predicate Inv(b: Books) {
    ZonesOk(b) && forall symbol :: SupplyOk(b, symbol)
  }

  lemma EmptyInv()
    ensures Inv(EMPTY)
  {
    forall symbol ensures SupplyOk(EMPTY, symbol) {
      assert PartsOf(map[], symbol, Amount) == map[];
    }
  }

  lemma PutSupply(b: Books, b': Books, k: PosKey, p: Position, symbol: string)
    requires b'.positions == b.positions[k := p] && b'.closings == b.closings
    requires b'.supply == AddTo(b.supply, k.symbol, p.amount - PartAt(b.positions, k, Amount))
    requires SupplyOk(b, symbol)
    ensures SupplyOk(b', symbol)
  {
    TotalAfterPut(b.positions, k, p, symbol, Amount);
  }

  lemma GrowSupply(b: Books, k: PosKey, amount: real, qusd: real, price: real, symbol: string)
    requires SupplyOk(b, symbol)
    ensures SupplyOk(Grow(b, k, amount, qusd, price), symbol)
  {
    PutSupply(b, Grow(b, k, amount, qusd, price), k, After(PositionAt(b, k), amount, qusd), symbol);
  }

  lemma MintSupply(b: Books, k: PosKey, qusd: real, price: real, symbol: string)
    requires SupplyOk(b, symbol) && price > 0.0
    ensures SupplyOk(Mint(b, k, qusd, price), symbol)
  {
    GrowSupply(b, k, MintAmount(qusd, price), qusd, price, symbol);
  }

  lemma MintZones(b: Books, k: PosKey, qusd: real, price: real)
    requires ZonesOk(b) && price > 0.0 && qusd > 0.0
    ensures ZonesOk(Mint(b, k, qusd, price))
  {
    if k in b.positions {
      MintKeepsZone(b.positions[k], b.ranges[k], qusd, price);
    } else {
      OpenInZone(qusd, price);
    }
  }

  lemma MintKeepsInv(b: Books, k: PosKey, qusd: real, price: real)
    requires Inv(b) && price > 0.0 && qusd > 0.0
    ensures Inv(Mint(b, k, qusd, price))
  {
    MintZones(b, k, qusd, price);
    forall symbol ensures SupplyOk(Mint(b, k, qusd, price), symbol) {
      MintSupply(b, k, qusd, price, symbol);
    }
  }

  /** The guard of a burn: it may overshoot the position by at most one dust. */
  predicate Covers(p: Position, amount: real) {
    amount > 0.0 && p.amount >= amount - DUST
  }

  lemma ShrinkSupply(b: Books, k: PosKey, amount: real, share: real, symbol: string)
    requires SupplyOk(b, symbol) && k in b.positions
    ensures SupplyOk(Shrink(b, k, amount, share), symbol)
  {
    PutSupply(b, Shrink(b, k, amount, share), k, Shrink(b, k, amount, share).positions[k], symbol);
  }

  lemma CloseSupply(b: Books, k: PosKey, amount: real, share: real, symbol: string)
    requires SupplyOk(b, symbol) && k in b.positions && -DUST <= b.positions[k].amount - amount < DUST
    ensures SupplyOk(Close(b, k, amount, share), symbol)
  {
    TotalAfterRemove(b.positions, k, symbol, Amount);
    OneMoreClosing(Count(b.closings, symbol));
  }

  lemma ReleaseSupply(b: Books, k: PosKey, amount: real, share: real, symbol: string)
    requires SupplyOk(b, symbol) && k in b.positions && -DUST <= b.positions[k].amount - amount
    ensures SupplyOk(Release(b, k, amount, share), symbol)
  {
    if b.positions[k].amount - amount < DUST {
      CloseSupply(b, k, amount, share, symbol);
    } else {
      ShrinkSupply(b, k, amount, share, symbol);
    }
  }

  lemma BurnZones(b: Books, k: PosKey, amount: real)
    requires ZonesOk(b) && k in b.positions && Covers(b.positions[k], amount)
    ensures ZonesOk(Burn(b, k, amount))
  {
    if b.positions[k].amount - amount >= DUST {
      BurnKeepsZone(b.positions[k], b.ranges[k], amount);
    }
  }

  lemma BurnKeepsInv(b: Books, k: PosKey, amount: real)
    requires Inv(b) && k in b.positions && Covers(b.positions[k], amount)
    ensures Inv(Burn(b, k, amount))
  {
    BurnZones(b, k, amount);
    forall symbol ensures SupplyOk(Burn(b, k, amount), symbol) {
      ReleaseSupply(b, k, amount, Share(b.positions[k], amount), symbol);
    }
  }

  lemma LiquidateSupply(b: Books, k: PosKey, symbol: string)
    requires SupplyOk(b, symbol) && k in b.positions
    ensures SupplyOk(Liquidate(b, k), symbol)
  {
    TotalAfterRemove(b.positions, k, symbol, Amount);
  }

  lemma LiquidateKeepsInv(b: Books, k: PosKey)
    requires Inv(b) && k in b.positions
    ensures Inv(Liquidate(b, k))
  {
    forall symbol ensures SupplyOk(Liquidate(b, k), symbol) {
      LiquidateSupply(b, k, symbol);
    }
  }

  // ---- Liquidation ----

  /** A position is judged only at a known, positive price of a known asset. */
  predicate Judged(assets: map<string, string>, prices: map<string, real>, k: PosKey) {
    k.symbol in assets && assets[k.symbol] in prices && prices[assets[k.symbol]] > 0.0
  }

  predicate Doomed(assets: map<string, string>, prices: map<string, real>, k: PosKey, p: Position) {
    Judged(assets, prices, k) && UnderThreshold(p, prices[assets[k.symbol]])
  }

  function SweepOne(b: Books, assets: map<string, string>, prices: map<string, real>, k: PosKey): Books {
    if k in b.positions && Doomed(assets, prices, k, b.positions[k]) then Liquidate(b, k) else b
  }

  /** The sweep over the positions in some order. */
  function Sweep(b: Books, assets: map<string, string>, prices: map<string, real>, keys: seq<PosKey>): Books {
    if keys == [] then b
    else SweepOne(Sweep(b, assets, prices, keys[..|keys| - 1]), assets, prices, keys[|keys| - 1])
  }

  /** The positions a sweep takes, in its order, with their amounts. */
  function Taken(b: Books, assets: map<string, string>, prices: map<string, real>, keys: seq<PosKey>)
    : seq<Liquidation>
  {
    if keys == [] then []
    else
      var swept, k := Sweep(b, assets, prices, keys[..|keys| - 1]), keys[|keys| - 1];
      Taken(b, assets, prices, keys[..|keys| - 1]) + TakenOne(swept, assets, prices, k)
  }

  function TakenOne(b: Books, assets: map<string, string>, prices: map<string, real>, k: PosKey): seq<Liquidation> {
    if k in b.positions && Doomed(assets, prices, k, b.positions[k])
    then [Liquidation(k, b.positions[k].amount)]
    else []
  }

  /** The list reports exactly the doomed positions, each with its amount, and each once. */
  lemma {:induction false} TakenIsDoomed(b: Books, assets: map<string, string>, prices: map<string, real>,
                                         keys: seq<PosKey>, l: Liquidation)
    ensures multiset(Taken(b, assets, prices, keys))[l] ==
      if l.key in keys && l.key in b.positions && Doomed(assets, prices, l.key, b.positions[l.key])
         && l.amount == b.positions[l.key].amount then 1 else 0
  {
    if keys == [] {
    } else {
      var init, k := keys[..|keys| - 1], keys[|keys| - 1];
      TakenIsDoomed(b, assets, prices, init, l);
      SweepRemovesDoomed(b, assets, prices, init, l.key);
      assert l.key in keys <==> l.key in init || l.key == k;
    }
  }

  /** A sweep removes exactly the doomed positions among its keys, and touches no other. */
  lemma {:induction false} SweepRemovesDoomed(b: Books, assets: map<string, string>, prices: map<string, real>,
                                              keys: seq<PosKey>, k: PosKey)
    ensures var swept := Sweep(b, assets, prices, keys).positions;
      && (k in swept <==> k in b.positions && !(k in keys && Doomed(assets, prices, k, b.positions[k])))
      && (k in swept ==> swept[k] == b.positions[k])
  {
    if keys == [] {
    } else {
      SweepRemovesDoomed(b, assets, prices, keys[..|keys| - 1], k);
      assert k in keys <==> k in keys[..|keys| - 1] || k == keys[|keys| - 1];
    }
  }

  lemma {:induction false} SweepKeepsInv(b: Books, assets: map<string, string>, prices: map<string, real>,
                                         keys: seq<PosKey>)
    requires Inv(b)
    ensures Inv(Sweep(b, assets, prices, keys))
  {
    if keys == [] {
    } else {
      var swept, k := Sweep(b, assets, prices, keys[..|keys| - 1]), keys[|keys| - 1];
      SweepKeepsInv(b, assets, prices, keys[..|keys| - 1]);
      if k in swept.positions {
        LiquidateKeepsInv(swept, k);
      }
    }
  }

  // ---- Runs ----

  datatype Op =
    | MintOp(key: PosKey, qusd: real, price: real)
    | BurnOp(key: PosKey, amount: real, price: real)
    | SweepOp(prices: map<string, real>, keys: seq<PosKey>)

  predicate MintOk(assets: map<string, string>, k: PosKey, qusd: real, price: real) {
    k.symbol in assets && price > 0.0 && qusd > 0.0
  }

  predicate BurnOk(assets: map<string, string>, b: Books, k: PosKey, amount: real, price: real) {
    k.symbol in assets && price > 0.0 && k in b.positions && Covers(b.positions[k], amount)
  }

  // ---- Each operation in its fields ----

  /** A granted mint: 1.5 times the worth of the new tokens is the collateral less 0.3 %. */
  lemma MintMeans(b: Books, k: PosKey, qusd: real, price: real)
    requires price > 0.0 && qusd > 0.0
    ensures var b', minted := Mint(b, k, qusd, price), MintAmount(qusd, price);
      var amount, collateral :=
        (if k in b.positions then b.positions[k].amount else 0.0),
        (if k in b.positions then b.positions[k].collateral else 0.0);
      && 1.5 * (minted * price) == 0.997 * qusd
      && b'.positions == b.positions[k := Position(amount + minted, collateral + qusd)]
      && b'.supply == b.supply[k.symbol := At(b.supply, k.symbol) + minted]
      && b'.collateral == b.collateral[k.symbol := At(b.collateral, k.symbol) + qusd]
  {
    MintIsExact(qusd, price);
  }

  /** A granted burn: the burned share of the collateral is released, and a position left with
      less than a dust is gone. */
  lemma BurnMeans(b: Books, k: PosKey, amount: real)
    requires k in b.positions && b.positions[k].amount > 0.0
    ensures var b', p, share := Burn(b, k, amount), b.positions[k], Share(b.positions[k], amount);
      && share * p.amount == p.collateral * amount
      && b'.positions == (if p.amount - amount < 0.000000000001 then b.positions - {k}
                          else b.positions[k := Position(p.amount - amount, p.collateral - share)])
      && b'.supply == b.supply[k.symbol := At(b.supply, k.symbol) - amount]
      && b'.collateral == b.collateral[k.symbol := At(b.collateral, k.symbol) - share]
  {
    ShareMeans(b.positions[k], amount);
  }

  lemma ShareMeans(p: Position, amount: real)
    requires p.amount > 0.0
    ensures Share(p, amount) * p.amount == p.collateral * amount
  {
    var proportion := amount / p.amount;
    assert proportion * p.amount == amount;
    calc {
      Share(p, amount) * p.amount;
      (p.collateral * proportion) * p.amount;
      p.collateral * (proportion * p.amount);
      p.collateral * amount;
    }
  }

  /** A sweep takes the positions whose collateral is under 1.1 times their worth at a known,
      positive price. */
  lemma SweepMeans(b: Books, assets: map<string, string>, prices: map<string, real>, keys: seq<PosKey>, k: PosKey)
    requires k in b.positions && b.positions[k].amount > 0.0
    ensures k in Sweep(b, assets, prices, keys).positions <==>
      !(k in keys && k.symbol in assets && assets[k.symbol] in prices && prices[assets[k.symbol]] > 0.0
        && b.positions[k].collateral < 1.1 * (b.positions[k].amount * prices[assets[k.symbol]]))
    ensures k in Sweep(b, assets, prices, keys).positions ==>
      Sweep(b, assets, prices, keys).positions[k] == b.positions[k]
  {
    SweepRemovesDoomed(b, assets, prices, keys, k);
    if Judged(assets, prices, k) {
      RatioTest(b.positions[k], prices[assets[k.symbol]]);
    }
  }

  /** What one liquidation takes off the totals. */
  lemma LiquidateMeans(b: Books, assets: map<string, string>, prices: map<string, real>, k: PosKey)
    requires k in b.positions
    ensures var b', p := SweepOne(b, assets, prices, k), b.positions[k];
      if k in b'.positions then b' == b
      else
        && b'.positions == b.positions - {k}
        && b'.supply == b.supply[k.symbol := At(b.supply, k.symbol) - p.amount]
        && b'.collateral == b.collateral[k.symbol := At(b.collateral, k.symbol) - p.collateral]
  {
  }

  /** Refused requests change nothing. */
  ghost function Do(assets: map<string, string>, b: Books, op: Op): Books
    requires Inv(b)
  {
    match op
    case MintOp(k, qusd, price) => if MintOk(assets, k, qusd, price) then Mint(b, k, qusd, price) else b
    case BurnOp(k, amount, price) => if BurnOk(assets, b, k, amount, price) then Burn(b, k, amount) else b
    case SweepOp(prices, keys) => Sweep(b, assets, prices, keys)
  }

  lemma DoKeepsInv(assets: map<string, string>, b: Books, op: Op)
    requires Inv(b)
    ensures Inv(Do(assets, b, op))
  {
    match op {
      case MintOp(k, qusd, price) =>
        if MintOk(assets, k, qusd, price) {
          MintKeepsInv(b, k, qusd, price);
        }
      case BurnOp(k, amount, price) =>
        if BurnOk(assets, b, k, amount, price) {
          BurnKeepsInv(b, k, amount);
        }
      case SweepOp(prices, keys) =>
        SweepKeepsInv(b, assets, prices, keys);
    }
  }

  ghost function Run(assets: map<string, string>, ops: seq<Op>): (b: Books)
    ensures Inv(b)
  {
    if ops == [] then
      EmptyInv();
      EMPTY
    else
      var b := Run(assets, ops[..|ops| - 1]);
      DoKeepsInv(assets, b, ops[|ops| - 1]);
      Do(assets, b, ops[|ops| - 1])
  }

  /** The mint prices of a position since it was last opened. */
  ghost function MintPrices(assets: map<string, string>, ops: seq<Op>, k: PosKey): seq<real> {
    if ops == [] || k !in Run(assets, ops).positions then []
    else
      var before, op := MintPrices(assets, ops[..|ops| - 1], k), ops[|ops| - 1];
      if op.MintOp? && op.key == k && MintOk(assets, k, op.qusd, op.price) then before + [op.price] else before
  }

  /** `low` and `high` are the extremes of a list of prices. */
  ghost predicate Spans(r: Range, prices: seq<real>) {
    r.low in prices && r.high in prices && forall p :: p in prices ==> r.low <= p <= r.high
  }

  lemma SpansOne(price: real)
    ensures Spans(Range(price, price), [price])
  {
  }

  lemma SpansMore(r: Range, prices: seq<real>, price: real)
    requires Spans(r, prices)
    ensures Spans(Widen(r, price), prices + [price])
  {
  }

  lemma SweepRanges(b: Books, assets: map<string, string>, prices: map<string, real>, keys: seq<PosKey>, k: PosKey)
    ensures var swept := Sweep(b, assets, prices, keys);
      k in swept.ranges ==> k in b.ranges && swept.ranges[k] == b.ranges[k]
    decreases |keys|
  {
    if keys != [] {
      SweepRanges(b, assets, prices, keys[..|keys| - 1], k);
    }
  }

  /** A step other than a mint of the position leaves its range alone while it lives. */
  lemma RangeStays(assets: map<string, string>, b: Books, op: Op, k: PosKey)
    requires Inv(b) && k in Do(assets, b, op).positions
    requires !(op.MintOp? && op.key == k && MintOk(assets, k, op.qusd, op.price))
    ensures k in b.positions && k in Do(assets, b, op).ranges && Do(assets, b, op).ranges[k] == b.ranges[k]
  {
    DoKeepsInv(assets, b, op);
    if op.SweepOp? {
      SweepRanges(b, assets, op.prices, op.keys, k);
      SweepRemovesDoomed(b, assets, op.prices, op.keys, k);
    }
  }

  /** The recorded range is the lowest and the highest of those prices. */
  lemma {:induction false} RangeIsMintPrices(assets: map<string, string>, ops: seq<Op>, k: PosKey)
    requires k in Run(assets, ops).positions
    ensures Spans(Run(assets, ops).ranges[k], MintPrices(assets, ops, k))
  {
    if ops == [] {
    } else {
      var init, op := ops[..|ops| - 1], ops[|ops| - 1];
      var b := Run(assets, init);
      if op.MintOp? && op.key == k && MintOk(assets, k, op.qusd, op.price) {
        if k in b.positions {
          RangeIsMintPrices(assets, init, k);
          SpansMore(b.ranges[k], MintPrices(assets, init, k), op.price);
        } else {
          SpansOne(op.price);
        }
      } else {
        RangeStays(assets, b, op, k);
        RangeIsMintPrices(assets, init, k);
      }
    }
  }

  /** After any run of mints, burns and sweeps: a position survives a sweep whose price is at
      most 1.5/(0.997*1.1) times every mint price since it opened, and does not survive one whose
      price is above that multiple of all of them. */
  lemma SafeZoneOverRuns(assets: map<string, string>, ops: seq<Op>, k: PosKey, prices: map<string, real>,
                         keys: seq<PosKey>)
    requires k in Run(assets, ops).positions && k in keys && Judged(assets, prices, k)
    ensures var b, price := Run(assets, ops), prices[assets[k.symbol]];
      var swept := Sweep(b, assets, prices, keys).positions;
      && ((forall p :: p in MintPrices(assets, ops, k) ==> price <= p * 1.5 / (0.997 * 1.1)) ==>
            k in swept && swept[k] == b.positions[k])
      && ((forall p :: p in MintPrices(assets, ops, k) ==> price > p * 1.5 / (0.997 * 1.1)) ==> k !in swept)
  {
    var b := Run(assets, ops);
    RangeIsMintPrices(assets, ops, k);
    SafeZone(b.positions[k], b.ranges[k], prices[assets[k.symbol]]);
    SweepRemovesDoomed(b, assets, prices, keys, k);
  }

  // ---- Collateral on the books, seized collateral included ----

  ghost function Backing(b: Books): real {
    Sum(b.collateral) + b.seized
  }

  lemma BackingShifts(b: Books, b': Books, k: string, delta: real)
    requires b'.collateral == AddTo(b.collateral, k, delta)
    ensures Backing(b') == Backing(b) + delta + b'.seized - b.seized
  {
    SumAddTo(b.collateral, k, delta);
  }

  lemma GrowBacking(b: Books, k: PosKey, amount: real, qusd: real, price: real)
    ensures Backing(Grow(b, k, amount, qusd, price)) == Backing(b) + qusd
  {
    BackingShifts(b, Grow(b, k, amount, qusd, price), k.symbol, qusd);
  }

  lemma CloseBacking(b: Books, k: PosKey, amount: real, share: real)
    ensures Backing(Close(b, k, amount, share)) == Backing(b) - share
  {
    var b' := Close(b, k, amount, share);
    assert b'.collateral == AddTo(b.collateral, k.symbol, -share) && b'.seized == b.seized;
    BackingShifts(b, b', k.symbol, -share);
    assert Backing(b') == Backing(b) - share;
  }

  lemma ShrinkBacking(b: Books, k: PosKey, amount: real, share: real)
    requires k in b.positions
    ensures Backing(Shrink(b, k, amount, share)) == Backing(b) - share
  {
    var b' := Shrink(b, k, amount, share);
    assert b'.collateral == AddTo(b.collateral, k.symbol, -share) && b'.seized == b.seized;
    BackingShifts(b, b', k.symbol, -share);
    assert Backing(b') == Backing(b) - share;
  }

  lemma ReleaseBacking(b: Books, k: PosKey, amount: real, share: real)
    requires k in b.positions
    ensures Backing(Release(b, k, amount, share)) == Backing(b) - share
  {
    if b.positions[k].amount - amount < DUST {
      CloseBacking(b, k, amount, share);
    } else {
      ShrinkBacking(b, k, amount, share);
    }
  }

  lemma SweepOneBacking(b: Books, assets: map<string, string>, prices: map<string, real>, k: PosKey)
    ensures Backing(SweepOne(b, assets, prices, k)) == Backing(b)
  {
    if k in b.positions {
      var b', taken := Liquidate(b, k), b.positions[k].collateral;
      assert b'.collateral == AddTo(b.collateral, k.symbol, -taken) && b'.seized == b.seized + taken;
      BackingShifts(b, b', k.symbol, -taken);
      assert Backing(b') == Backing(b);
    }
  }

  lemma {:induction false} SweepBacking(b: Books, assets: map<string, string>, prices: map<string, real>,
                                        keys: seq<PosKey>)
    ensures Backing(Sweep(b, assets, prices, keys)) == Backing(b)
  {
    if keys == [] {
    } else {
      SweepBacking(b, assets, prices, keys[..|keys| - 1]);
      SweepOneBacking(Sweep(b, assets, prices, keys[..|keys| - 1]), assets, prices, keys[|keys| - 1]);
    }
  }

  /** Tokens of a symbol minted and not burned: the recorded supply, and what liquidations
      took off it while the tokens stayed with their holders. */
  function Issued(b: Books, symbol: string): real {
    At(b.supply, symbol) + At(b.writtenOff, symbol)
  }

  lemma {:induction false} SweepIssued(b: Books, assets: map<string, string>, prices: map<string, real>,
                                       keys: seq<PosKey>, symbol: string)
    ensures Issued(Sweep(b, assets, prices, keys), symbol) == Issued(b, symbol)
  {
    if keys == [] {
    } else {
      SweepIssued(b, assets, prices, keys[..|keys| - 1], symbol);
    }
  }

  // ---- The manager ----

  class SyntheticManager {
    /** symbol -> price feed id */
    const assets: map<string, string>
    var positions: map<PosKey, Position>
    var totalSupply: map<string, real>
    var totalCollateral: map<string, real>
    ghost var ranges: map<PosKey, Range>
    ghost var closings: map<string, nat>
    ghost var seized: real
    ghost var writtenOff: map<string, real>

    ghost function Value(): Books
      reads this
    {
      Books(positions, totalSupply, totalCollateral, ranges, closings, seized, writtenOff)
    }

    constructor (assets: map<string, string>)
      ensures Value() == EMPTY && Inv(Value()) && this.assets == assets
    {
      this.assets := assets;
      positions, totalSupply, totalCollateral := map[], map[], map[];
      ranges, closings, seized, writtenOff := map[], map[], 0.0, map[];
      new;
      EmptyInv();
    }

    method MintTokens(k: PosKey, qusd: real, price: real) returns (r: Result<Minted>)
      requires Inv(Value())
      modifies this
      ensures r.Ok? <==> k.symbol in assets && price > 0.0 && qusd > 0.0
      ensures r.Err? ==> r.error == if k.symbol !in assets then UnknownSynthetic
                                    else if price <= 0.0 then NoOraclePrice else AmountNotPositive
      ensures r.Ok? ==> r.value == Minted(MintAmount(qusd, price), qusd, MintFee(qusd))
      ensures Value() == if MintOk(assets, k, qusd, price) then Mint(old(Value()), k, qusd, price) else old(Value())
    {
      if k.symbol !in assets {
        return Err(UnknownSynthetic);
      }
      if price <= 0.0 {
        return Err(NoOraclePrice);
      }
      if qusd <= 0.0 {
        return Err(AmountNotPositive);
      }
      var effectiveValue := qusd / MIN_RATIO;
      var fee := effectiveValue * FEE_RATE;
      var minted := (effectiveValue - fee) / price;
      MintIsExact(qusd, price);
      if minted <= 0.0 {
        return Err(TooSmall);
      }
      var pos := if k in positions then positions[k] else Position(0.0, 0.0);
      positions := positions[k := After(pos, minted, qusd)];
      totalSupply := AddTo(totalSupply, k.symbol, minted);
      totalCollateral := AddTo(totalCollateral, k.symbol, qusd);
      ranges := ranges[k := if k in ranges then Widen(ranges[k], price) else Range(price, price)];
      r := Ok(Minted(minted, qusd, fee));
    }

    /** Cleans up a position that is left with less than the dust. */
    method ReleaseFrom(k: PosKey, amount: real, share: real)
      requires k in positions
      modifies this
      ensures Value() == Release(old(Value()), k, amount, share)
    {
      var left := Position(positions[k].amount - amount, positions[k].collateral - share);
      positions := positions[k := left];
      if left.amount < DUST {
        assert positions - {k} == old(positions) - {k};
        positions := positions - {k};
        ranges := ranges - {k};
        closings := closings[k.symbol := Count(closings, k.symbol) + 1];
      }
      totalSupply := AddTo(totalSupply, k.symbol, -amount);
      totalCollateral := AddTo(totalCollateral, k.symbol, -share);
    }

    method BurnTokens(k: PosKey, amount: real, price: real) returns (r: Result<Burned>)
      requires Inv(Value())
      modifies this
      ensures r.Ok? <==> k.symbol in assets && price > 0.0 && amount > 0.0
                         && k in old(positions) && old(positions)[k].amount >= amount - 0.000000000001
      ensures r.Err? ==> r.error == if k.symbol !in assets then UnknownSynthetic
                                    else if price <= 0.0 then NoOraclePrice
                                    else if amount <= 0.0 then AmountNotPositive
                                    else if k !in old(positions) then NoPosition else Insufficient
      ensures r.Ok? ==>
        var share := Share(old(positions)[k], amount);
        r.value == Burned(share - share * FEE_RATE, share * FEE_RATE)
      ensures Value() ==
        if BurnOk(assets, old(Value()), k, amount, price) then Burn(old(Value()), k, amount) else old(Value())
    {
      if k.symbol !in assets {
        return Err(UnknownSynthetic);
      }
      if price <= 0.0 {
        return Err(NoOraclePrice);
      }
      if amount <= 0.0 {
        return Err(AmountNotPositive);
      }
      if k !in positions {
        return Err(NoPosition);
      }
      var pos := positions[k];
      if pos.amount < amount - DUST {
        return Err(Insufficient);
      }
      assert InZone(pos, ranges[k]);
      var collateralToReturn := Share(pos, amount);
      var fee := collateralToReturn * FEE_RATE;
      ReleaseFrom(k, amount, collateralToReturn);
      r := Ok(Burned(collateralToReturn - fee, fee));
    }

    /** Takes a position and its totals off the books. */
    method TakeOff(k: PosKey)
      requires k in positions
      modifies this
      ensures Value() == Liquidate(old(Value()), k)
    {
      var pos := positions[k];
      totalSupply := AddTo(totalSupply, k.symbol, -pos.amount);
      totalCollateral := AddTo(totalCollateral, k.symbol, -pos.collateral);
      positions := positions - {k};
      ranges, seized := ranges - {k}, seized + pos.collateral;
      writtenOff := AddTo(writtenOff, k.symbol, pos.amount);
    }

    method LiquidateIfDoomed(prices: map<string, real>, k: PosKey) returns (taken: seq<Liquidation>)
      modifies this
      ensures Value() == SweepOne(old(Value()), assets, prices, k)
      ensures taken == TakenOne(old(Value()), assets, prices, k)
    {
      taken := [];
      if k.symbol !in assets || assets[k.symbol] !in prices || prices[assets[k.symbol]] <= 0.0 || k !in positions {
        return;
      }
      var pos := positions[k];
      if UnderThreshold(pos, prices[assets[k.symbol]]) {
        taken := [Liquidation(k, pos.amount)];
        TakeOff(k);
      }
    }

    /** `keys` is a snapshot of the positions' keys, in any order. */
    method CheckLiquidations(prices: map<string, real>, keys: seq<PosKey>) returns (liquidated: seq<Liquidation>)
      modifies this
      ensures Value() == Sweep(old(Value()), assets, prices, keys)
      ensures liquidated == Taken(old(Value()), assets, prices, keys)
    {
      liquidated := [];
      for i := 0 to |keys|
        invariant Value() == Sweep(old(Value()), assets, prices, keys[..i])
        invariant liquidated == Taken(old(Value()), assets, prices, keys[..i])
      {
        assert keys[..i + 1][..i] == keys[..i];
        var taken := LiquidateIfDoomed(prices, keys[i]);
        liquidated := liquidated + taken;
      }
      assert keys[..|keys|] == keys;
    }
  }
}
