/** How far the recorded collateral of a symbol can drift from what its positions hold: a burn that
    closes a position leaves up to a dust of it, and the collateral of that, on the books.
 */
module CollateralDrift {
  import opened MapSums
  import opened Synthetic
  import opened Tolerance

  ghost function Drift(b: Books, symbol: string): real {
    At(b.collateral, symbol) - Locked(b.positions, symbol)
  }

  // ---- What each change of the books does to the drift ----

  lemma DriftAfterPut(b: Books, b': Books, k: PosKey, p: Position, symbol: string)
    requires b'.positions == b.positions[k := p]
    requires b'.collateral == AddTo(b.collateral, k.symbol, p.collateral - PartAt(b.positions, k, Collateral))
    ensures Drift(b', symbol) == Drift(b, symbol)
  {
    TotalAfterPut(b.positions, k, p, symbol, Collateral);
  }

  lemma DriftAfterRemove(b: Books, b': Books, k: PosKey, share: real, symbol: string)
    requires k in b.positions && b'.positions == b.positions - {k}
    requires b'.collateral == AddTo(b.collateral, k.symbol, -share)
    ensures Drift(b', symbol) == Drift(b, symbol)
      + if k.symbol == symbol then b.positions[k].collateral - share else 0.0
  {
    TotalAfterRemove(b.positions, k, symbol, Collateral);
  }

  lemma GrowDrift(b: Books, k: PosKey, amount: real, qusd: real, price: real, symbol: string)
    ensures Drift(Grow(b, k, amount, qusd, price), symbol) == Drift(b, symbol)
  {
    DriftAfterPut(b, Grow(b, k, amount, qusd, price), k, After(PositionAt(b, k), amount, qusd), symbol);
  }

  lemma ShrinkDrift(b: Books, k: PosKey, amount: real, share: real, symbol: string)
    requires k in b.positions
    ensures Drift(Shrink(b, k, amount, share), symbol) == Drift(b, symbol)
  {
    DriftAfterPut(b, Shrink(b, k, amount, share), k, Shrink(b, k, amount, share).positions[k], symbol);
  }

  lemma {:induction false} SweepDrift(b: Books, assets: map<string, string>, prices: map<string, real>,
                                      keys: seq<PosKey>, symbol: string)
    ensures Drift(Sweep(b, assets, prices, keys), symbol) == Drift(b, symbol)
  {
    if keys == [] {
    } else {
      var swept, k := Sweep(b, assets, prices, keys[..|keys| - 1]), keys[|keys| - 1];
      SweepDrift(b, assets, prices, keys[..|keys| - 1], symbol);
      if k in swept.positions {
        DriftAfterRemove(swept, Liquidate(swept, k), k, swept.positions[k].collateral, symbol);
      }
    }
  }

  // ---- What a closing burn leaves ----

  /** The most a closing burn can leave of the collateral of a position with this highest price. */
  function Leavings(high: real): real {
    DustOf(1.5 / 0.997 * high)
  }

  function DustOf(rate: real): real {
    rate * DUST
  }

  /** Collateral per token is at most 1.5/0.997 times the highest mint price. */
  lemma PerToken(p: Position, r: Range, rate: real)
    requires InZone(p, r) && rate * p.amount == p.collateral
    ensures 0.0 <= 0.997 * rate <= 1.5 * r.high
  {
    assert Worth(p.amount, r.low) > 0.0;
    var gap := 1.5 * r.high - 0.997 * rate;
    assert gap * p.amount == 1.5 * Worth(p.amount, r.high) - 0.997 * p.collateral;
    NotNegative(rate, p.amount);
    NotNegative(gap, p.amount);
  }

  lemma NotNegative(x: real, factor: real)
    requires factor > 0.0 && x * factor >= 0.0
    ensures x >= 0.0
  {
  }

  /** A rate of at most `most`, times what is at most `bound` either way. */
  lemma Scaled(rate: real, most: real, rest: real, bound: real)
    requires 0.0 <= rate <= most && -bound <= rest <= bound
    ensures -(most * bound) <= rate * rest <= most * bound
  {
    var low := -bound;
    ScaleOrder(rate, most, bound);
    ScaleOrder(rest, bound, rate);
    ScaleOrder(low, rest, rate);
    assert low * rate == -(rate * bound);
    assert bound * rate == rate * bound;
    assert rest * rate == rate * rest;
  }

  lemma ClosingLeaves(p: Position, r: Range, amount: real)
    requires InZone(p, r) && -DUST <= p.amount - amount < DUST
    ensures -Leavings(r.high) <= p.collateral - Share(p, amount) <= Leavings(r.high)
  {
    var rate, rest := p.collateral / p.amount, p.amount - amount;
    assert Share(p, amount) == rate * amount;
    assert p.collateral == rate * p.amount;
    PerToken(p, r, rate);
    Scaled(rate, 1.5 / 0.997 * r.high, rest, DUST);
    assert p.collateral - Share(p, amount) == rate * rest;
  }

  // ---- Over runs ----

  /** The burn closes a position of the symbol. */
  predicate Closes(assets: map<string, string>, b: Books, op: Op, symbol: string) {
    && op.BurnOp? && op.key.symbol == symbol && BurnOk(assets, b, op.key, op.amount, op.price)
    && b.positions[op.key].amount - op.amount < DUST
  }

  /** Over all burns that closed a position of the symbol: 1.5/0.997 dust times the highest price
      the position was minted at. */
  ghost function Slack(assets: map<string, string>, ops: seq<Op>, symbol: string): real {
    if ops == [] then 0.0
    else
      var b, op := Run(assets, ops[..|ops| - 1]), ops[|ops| - 1];
      Slack(assets, ops[..|ops| - 1], symbol)
      + if Closes(assets, b, op, symbol) then Leavings(b.ranges[op.key].high) else 0.0
  }

  lemma BurnDrift(assets: map<string, string>, b: Books, k: PosKey, amount: real, price: real, symbol: string)
    requires Inv(b) && BurnOk(assets, b, k, amount, price)
    ensures var moved := Drift(Burn(b, k, amount), symbol) - Drift(b, symbol);
      if Closes(assets, b, BurnOp(k, amount, price), symbol)
      then -Leavings(b.ranges[k].high) <= moved <= Leavings(b.ranges[k].high)
      else moved == 0.0
  {
    var share := Share(b.positions[k], amount);
    if b.positions[k].amount - amount < DUST {
      DriftAfterRemove(b, Close(b, k, amount, share), k, share, symbol);
      ClosingLeaves(b.positions[k], b.ranges[k], amount);
    } else {
      ShrinkDrift(b, k, amount, share, symbol);
    }
  }

  /** After any run the recorded collateral is off what the positions hold by at most the slack. */
  lemma {:induction false} DriftWithinSlack(assets: map<string, string>, ops: seq<Op>, symbol: string)
    ensures -Slack(assets, ops, symbol) <= Drift(Run(assets, ops), symbol) <= Slack(assets, ops, symbol)
  {
    if ops == [] {
      assert PartsOf(map[], symbol, Collateral) == map[];
    } else {
      var init, op := ops[..|ops| - 1], ops[|ops| - 1];
      var b := Run(assets, init);
      DriftWithinSlack(assets, init, symbol);
      match op {
        case MintOp(k, qusd, price) =>
          if MintOk(assets, k, qusd, price) {
            GrowDrift(b, k, MintAmount(qusd, price), qusd, price, symbol);
          }
        case BurnOp(k, amount, price) =>
          if BurnOk(assets, b, k, amount, price) {
            BurnDrift(assets, b, k, amount, price, symbol);
          }
        case SweepOp(prices, keys) =>
          SweepDrift(b, assets, prices, keys, symbol);
      }
    }
  }

  /** The price behind each slack is one the position was minted at, and none was higher. */
  lemma SlackIsOfMintPrices(assets: map<string, string>, ops: seq<Op>, k: PosKey)
    requires k in Run(assets, ops).positions
    ensures var high, prices := Run(assets, ops).ranges[k].high, MintPrices(assets, ops, k);
      high in prices && forall p :: p in prices ==> p <= high
  {
    RangeIsMintPrices(assets, ops, k);
  }
}
