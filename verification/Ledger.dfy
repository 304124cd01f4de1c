/** The exchange's balance handlers as steps of one ledger: deposits, withdrawals, minting and
    burning of synthetics, and liquidation sweeps.
 */
module Ledger {
  import opened MapSums
  import S = Synthetic

  const QUSD := "QUSD"

  datatype Account = Account(owner: string, asset: string)

  /** `net` (deposits less withdrawals, per asset) and `fees` (kept by burns) are history. */
  datatype Ledger = Ledger(balances: map<Account, real>, books: S.Books, net: map<string, real>, fees: real)

  const EMPTY := Ledger(map[], S.EMPTY, map[], 0.0)

  // ---- Holdings ----

  ghost function HoldingsOf(balances: map<Account, real>, asset: string): map<Account, real> {
    map a | a in balances && a.asset == asset :: balances[a]
  }

  ghost function Held(balances: map<Account, real>, asset: string): real {
    Sum(HoldingsOf(balances, asset))
  }

  lemma HeldAddTo(balances: map<Account, real>, a: Account, delta: real, asset: string)
    ensures Held(AddTo(balances, a, delta), asset) == Held(balances, asset) + if a.asset == asset then delta else 0.0
  {
    var m, m' := HoldingsOf(balances, asset), HoldingsOf(AddTo(balances, a, delta), asset);
    if a.asset == asset {
      assert m' == AddTo(m, a, delta);
      SumAddTo(m, a, delta);
    } else {
      assert m' == m;
    }
  }

  // ---- The steps ----

  datatype Step =
    | Deposit(account: Account, amount: real)
    | Withdraw(account: Account, amount: real)
    | Mint(key: S.PosKey, qusd: real, price: real)
    | Burn(key: S.PosKey, amount: real, price: real)
    | Sweep(prices: map<string, real>, keys: seq<S.PosKey>)

  function Deposited(l: Ledger, a: Account, amount: real): Ledger {
    if amount <= 0.0 then l
    else l.(balances := AddTo(l.balances, a, amount), net := AddTo(l.net, a.asset, amount))
  }

  /** A refused withdrawal may leave a zero balance behind. */
  function Withdrawn(l: Ledger, a: Account, amount: real): Ledger {
    if amount <= 0.0 then l
    else if At(l.balances, a) < amount then l.(balances := AddTo(l.balances, a, 0.0))
    else l.(balances := AddTo(l.balances, a, -amount), net := AddTo(l.net, a.asset, -amount))
  }

  predicate CanMint(assets: map<string, string>, l: Ledger, k: S.PosKey, qusd: real, price: real) {
    At(l.balances, Account(k.owner, QUSD)) >= qusd && S.MintOk(assets, k, qusd, price)
  }

  predicate CanBurn(assets: map<string, string>, l: Ledger, k: S.PosKey, amount: real, price: real) {
    At(l.balances, Account(k.owner, k.symbol)) >= amount && S.BurnOk(assets, l.books, k, amount, price)
  }

  /** Two movements of balances along with new books; `fee` stays with the exchange. */
  function Exchanged(l: Ledger, a: Account, d: real, c: Account, e: real, books: S.Books, fee: real): Ledger {
    Ledger(AddTo(AddTo(l.balances, a, d), c, e), books, l.net, l.fees + fee)
  }

  /** Collateral leaves the QUSD balance, the minted tokens enter theirs. */
  function Minted(l: Ledger, k: S.PosKey, minted: real, qusd: real, price: real): Ledger {
    Exchanged(l, Account(k.owner, QUSD), -qusd, Account(k.owner, k.symbol), minted,
              S.Grow(l.books, k, minted, qusd, price), 0.0)
  }

  /** Tokens leave their balance; the released share enters the QUSD balance, less the fee. */
  function Burned(l: Ledger, k: S.PosKey, amount: real, share: real, fee: real): Ledger
    requires k in l.books.positions
  {
    Exchanged(l, Account(k.owner, k.symbol), -amount, Account(k.owner, QUSD), share - fee,
              S.Release(l.books, k, amount, share), fee)
  }

  function Touched(l: Ledger, a: Account): Ledger {
    l.(balances := AddTo(l.balances, a, 0.0))
  }

  ghost function Do(assets: map<string, string>, l: Ledger, step: Step): Ledger
    requires S.Inv(l.books)
  {
    match step
    case Deposit(a, amount) => Deposited(l, a, amount)
    case Withdraw(a, amount) => Withdrawn(l, a, amount)
    case Mint(k, qusd, price) =>
      if CanMint(assets, l, k, qusd, price) then Minted(l, k, S.MintAmount(qusd, price), qusd, price)
      else Touched(l, Account(k.owner, QUSD))
    case Burn(k, amount, price) =>
      if CanBurn(assets, l, k, amount, price) then
        var share := S.Share(l.books.positions[k], amount);
        Burned(l, k, amount, share, share * S.FEE_RATE)
      else Touched(l, Account(k.owner, k.symbol))
    case Sweep(prices, keys) => l.(books := S.Sweep(l.books, assets, prices, keys))
  }

  // ---- What every run keeps ----

  ghost predicate NonNegative(balances: map<Account, real>) {
    forall a :: a in balances ==> balances[a] >= 0.0
  }

  /** Where an asset went: QUSD is held, locked, seized or paid in burn fees; any other asset
      held is deposited or issued. The gap is what these leave unexplained. */
  ghost function Gap(l: Ledger, asset: string): real {
    Held(l.balances, asset) + Elsewhere(l, asset) - At(l.net, asset)
  }

  ghost function Elsewhere(l: Ledger, asset: string): real {
    if asset == QUSD then S.Backing(l.books) + l.fees else -S.Issued(l.books, asset)
  }

  ghost predicate Conserved(l: Ledger) {
    forall asset :: Gap(l, asset) == 0.0
  }

  ghost predicate Inv(l: Ledger) {
    S.Inv(l.books) && NonNegative(l.balances) && Conserved(l)
  }

  lemma AddToNonNegative(balances: map<Account, real>, a: Account, delta: real)
    requires NonNegative(balances) && At(balances, a) + delta >= 0.0
    ensures NonNegative(AddTo(balances, a, delta))
  {
  }

  lemma DepositBalanced(l: Ledger, a: Account, amount: real, asset: string)
    requires Gap(l, asset) == 0.0
    ensures Gap(Deposited(l, a, amount), asset) == 0.0
  {
    HeldAddTo(l.balances, a, amount, asset);
  }

  lemma WithdrawBalanced(l: Ledger, a: Account, amount: real, asset: string)
    requires Gap(l, asset) == 0.0
    ensures Gap(Withdrawn(l, a, amount), asset) == 0.0
  {
    HeldAddTo(l.balances, a, 0.0, asset);
    HeldAddTo(l.balances, a, -amount, asset);
  }

  lemma TouchBalanced(l: Ledger, a: Account, asset: string)
    requires Gap(l, asset) == 0.0
    ensures Gap(Touched(l, a), asset) == 0.0
  {
    HeldAddTo(l.balances, a, 0.0, asset);
  }

  /** Two credits in a row. */
  lemma HeldAddTwice(balances: map<Account, real>, a: Account, d: real, c: Account, e: real, asset: string)
    ensures Held(AddTo(AddTo(balances, a, d), c, e), asset)
         == Held(balances, asset) + (if a.asset == asset then d else 0.0) + if c.asset == asset then e else 0.0
  {
    HeldAddTo(balances, a, d, asset);
    HeldAddTo(AddTo(balances, a, d), c, e, asset);
  }

  /** What the two movements bring to an asset's holdings. */
  function Movement(a: Account, d: real, c: Account, e: real, asset: string): real {
    (if a.asset == asset then d else 0.0) + if c.asset == asset then e else 0.0
  }

  /** What new books and a fee leave for the holdings of an asset. */
  ghost function Offset(books: S.Books, books': S.Books, fee: real, asset: string): real {
    if asset == QUSD then S.Backing(books) - S.Backing(books') - fee
    else S.Issued(books', asset) - S.Issued(books, asset)
  }

  lemma ExchangeBalanced(l: Ledger, a: Account, d: real, c: Account, e: real, books: S.Books, fee: real, asset: string)
    requires Gap(l, asset) == 0.0 && Movement(a, d, c, e, asset) == Offset(l.books, books, fee, asset)
    ensures Gap(Exchanged(l, a, d, c, e, books, fee), asset) == 0.0
  {
    HeldAddTwice(l.balances, a, d, c, e, asset);
  }

  lemma GrowOffset(b: S.Books, k: S.PosKey, minted: real, qusd: real, price: real, asset: string)
    requires k.symbol != QUSD
    ensures Offset(b, S.Grow(b, k, minted, qusd, price), 0.0, asset)
         == Movement(Account(k.owner, QUSD), -qusd, Account(k.owner, k.symbol), minted, asset)
  {
    S.GrowBacking(b, k, minted, qusd, price);
  }

  lemma ReleaseOffset(b: S.Books, k: S.PosKey, amount: real, share: real, fee: real, asset: string)
    requires k in b.positions && k.symbol != QUSD
    ensures Offset(b, S.Release(b, k, amount, share), fee, asset)
         == Movement(Account(k.owner, k.symbol), -amount, Account(k.owner, QUSD), share - fee, asset)
  {
    S.ReleaseBacking(b, k, amount, share);
  }

  lemma MintBalanced(l: Ledger, k: S.PosKey, minted: real, qusd: real, price: real, asset: string)
    requires Gap(l, asset) == 0.0 && k.symbol != QUSD
    ensures Gap(Minted(l, k, minted, qusd, price), asset) == 0.0
  {
    GrowOffset(l.books, k, minted, qusd, price, asset);
    ExchangeBalanced(l, Account(k.owner, QUSD), -qusd, Account(k.owner, k.symbol), minted,
                     S.Grow(l.books, k, minted, qusd, price), 0.0, asset);
  }

  lemma BurnBalanced(l: Ledger, k: S.PosKey, amount: real, share: real, fee: real, asset: string)
    requires Gap(l, asset) == 0.0 && k in l.books.positions && k.symbol != QUSD
    ensures Gap(Burned(l, k, amount, share, fee), asset) == 0.0
  {
    ReleaseOffset(l.books, k, amount, share, fee, asset);
    ExchangeBalanced(l, Account(k.owner, k.symbol), -amount, Account(k.owner, QUSD), share - fee,
                     S.Release(l.books, k, amount, share), fee, asset);
  }

  lemma SweepBalanced(l: Ledger, assets: map<string, string>, prices: map<string, real>, keys: seq<S.PosKey>,
                      asset: string)
    requires Gap(l, asset) == 0.0
    ensures Gap(l.(books := S.Sweep(l.books, assets, prices, keys)), asset) == 0.0
  {
    var l' := l.(books := S.Sweep(l.books, assets, prices, keys));
    S.SweepBacking(l.books, assets, prices, keys);
    S.SweepIssued(l.books, assets, prices, keys, asset);
    assert Elsewhere(l', asset) == Elsewhere(l, asset);
  }

  lemma ExchangeNonNegative(balances: map<Account, real>, a: Account, d: real, c: Account, e: real)
    requires NonNegative(balances) && At(balances, a) + d >= 0.0 && e >= 0.0
    ensures NonNegative(AddTo(AddTo(balances, a, d), c, e))
  {
    AddToNonNegative(balances, a, d);
    assert At(AddTo(balances, a, d), c) >= 0.0;
    AddToNonNegative(AddTo(balances, a, d), c, e);
  }

  lemma MintKeepsInv(assets: map<string, string>, l: Ledger, k: S.PosKey, qusd: real, price: real)
    requires QUSD !in assets && Inv(l) && CanMint(assets, l, k, qusd, price)
    ensures Inv(Minted(l, k, S.MintAmount(qusd, price), qusd, price))
  {
    var minted := S.MintAmount(qusd, price);
    S.MintIsExact(qusd, price);
    S.MintKeepsInv(l.books, k, qusd, price);
    ExchangeNonNegative(l.balances, Account(k.owner, QUSD), -qusd, Account(k.owner, k.symbol), minted);
    forall asset ensures Gap(Minted(l, k, minted, qusd, price), asset) == 0.0 {
      MintBalanced(l, k, minted, qusd, price, asset);
    }
  }

  lemma BurnConserves(l: Ledger, k: S.PosKey, amount: real, share: real, fee: real)
    requires Conserved(l) && k in l.books.positions && k.symbol != QUSD
    ensures Conserved(Burned(l, k, amount, share, fee))
  {
    forall asset ensures Gap(Burned(l, k, amount, share, fee), asset) == 0.0 {
      BurnBalanced(l, k, amount, share, fee, asset);
    }
  }

  lemma BurnKeepsInv(assets: map<string, string>, l: Ledger, k: S.PosKey, amount: real, price: real)
    requires QUSD !in assets && Inv(l) && CanBurn(assets, l, k, amount, price)
    ensures var share := S.Share(l.books.positions[k], amount);
      Inv(Burned(l, k, amount, share, share * S.FEE_RATE))
  {
    var share := S.Share(l.books.positions[k], amount);
    S.ShareIsPositive(l.books.positions[k], l.books.ranges[k], amount);
    S.BurnKeepsInv(l.books, k, amount);
    ExchangeNonNegative(l.balances, Account(k.owner, k.symbol), -amount, Account(k.owner, QUSD),
                        share - share * S.FEE_RATE);
    BurnConserves(l, k, amount, share, share * S.FEE_RATE);
  }

  lemma DepositKeepsInv(l: Ledger, a: Account, amount: real)
    requires Inv(l)
    ensures Inv(Deposited(l, a, amount))
  {
    forall asset ensures Gap(Deposited(l, a, amount), asset) == 0.0 {
      DepositBalanced(l, a, amount, asset);
    }
  }

  lemma WithdrawKeepsInv(l: Ledger, a: Account, amount: real)
    requires Inv(l)
    ensures Inv(Withdrawn(l, a, amount))
  {
    forall asset ensures Gap(Withdrawn(l, a, amount), asset) == 0.0 {
      WithdrawBalanced(l, a, amount, asset);
    }
  }

  lemma TouchKeepsInv(l: Ledger, a: Account)
    requires Inv(l)
    ensures Inv(Touched(l, a))
  {
    forall asset ensures Gap(Touched(l, a), asset) == 0.0 {
      TouchBalanced(l, a, asset);
    }
  }

  lemma SweepKeepsInv(assets: map<string, string>, l: Ledger, prices: map<string, real>, keys: seq<S.PosKey>)
    requires Inv(l)
    ensures Inv(l.(books := S.Sweep(l.books, assets, prices, keys)))
  {
    S.SweepKeepsInv(l.books, assets, prices, keys);
    forall asset ensures Gap(l.(books := S.Sweep(l.books, assets, prices, keys)), asset) == 0.0 {
      SweepBalanced(l, assets, prices, keys, asset);
    }
  }

  lemma DoKeepsInv(assets: map<string, string>, l: Ledger, step: Step)
    requires QUSD !in assets && Inv(l)
    ensures Inv(Do(assets, l, step))
  {
    match step {
      case Deposit(a, amount) => DepositKeepsInv(l, a, amount);
      case Withdraw(a, amount) => WithdrawKeepsInv(l, a, amount);
      case Mint(k, qusd, price) =>
        if CanMint(assets, l, k, qusd, price) {
          MintKeepsInv(assets, l, k, qusd, price);
        } else {
          TouchKeepsInv(l, Account(k.owner, QUSD));
        }
      case Burn(k, amount, price) =>
        if CanBurn(assets, l, k, amount, price) {
          BurnKeepsInv(assets, l, k, amount, price);
        } else {
          TouchKeepsInv(l, Account(k.owner, k.symbol));
        }
      case Sweep(prices, keys) => SweepKeepsInv(assets, l, prices, keys);
    }
  }

  // ---- Runs ----

  lemma EmptyInv()
    ensures Inv(EMPTY)
  {
    S.EmptyInv();
    forall asset ensures Gap(EMPTY, asset) == 0.0 {
      assert HoldingsOf(map[], asset) == map[];
    }
  }

  ghost function Run(assets: map<string, string>, steps: seq<Step>): (l: Ledger)
    requires QUSD !in assets
    ensures Inv(l)
  {
    if steps == [] then
      EmptyInv();
      EMPTY
    else
      var l := Run(assets, steps[..|steps| - 1]);
      DoKeepsInv(assets, l, steps[|steps| - 1]);
      Do(assets, l, steps[|steps| - 1])
  }

  /** What a step brings in of an asset, or takes out. */
  function Flow(l: Ledger, step: Step, asset: string): real {
    match step
    case Deposit(a, amount) => if a.asset == asset && amount > 0.0 then amount else 0.0
    case Withdraw(a, amount) => if a.asset == asset && 0.0 < amount <= At(l.balances, a) then -amount else 0.0
    case _ => 0.0
  }

  /** Deposits of an asset less its granted withdrawals. */
  ghost function NetFlow(assets: map<string, string>, steps: seq<Step>, asset: string): real
    requires QUSD !in assets
  {
    if steps == [] then 0.0
    else
      var init := steps[..|steps| - 1];
      NetFlow(assets, init, asset) + Flow(Run(assets, init), steps[|steps| - 1], asset)
  }

  lemma DoFlows(assets: map<string, string>, l: Ledger, step: Step, asset: string)
    requires S.Inv(l.books)
    ensures At(Do(assets, l, step).net, asset) == At(l.net, asset) + Flow(l, step, asset)
  {
  }

  lemma {:induction false} NetIsFlow(assets: map<string, string>, steps: seq<Step>, asset: string)
    requires QUSD !in assets
    ensures At(Run(assets, steps).net, asset) == NetFlow(assets, steps, asset)
  {
    if steps == [] {
    } else {
      NetIsFlow(assets, steps[..|steps| - 1], asset);
      DoFlows(assets, Run(assets, steps[..|steps| - 1]), steps[|steps| - 1], asset);
    }
  }

  /** After any run, what came in and did not go out is all there: QUSD as balances, locked or
      seized collateral and burn fees; any other asset, with what was issued of it, as balances. */
  lemma EveryRunConserves(assets: map<string, string>, steps: seq<Step>, asset: string)
    requires QUSD !in assets
    ensures var l := Run(assets, steps);
      && NonNegative(l.balances)
      && Held(l.balances, QUSD) + Sum(l.books.collateral) + l.books.seized + l.fees == NetFlow(assets, steps, QUSD)
      && (asset != QUSD ==>
            Held(l.balances, asset) ==
              NetFlow(assets, steps, asset) + At(l.books.supply, asset) + At(l.books.writtenOff, asset))
  {
    var l := Run(assets, steps);
    NetIsFlow(assets, steps, QUSD);
    NetIsFlow(assets, steps, asset);
    assert Gap(l, QUSD) == 0.0 && Gap(l, asset) == 0.0;
  }

  // ---- What a caller sees ----

  /** Two balances move, and no other. */
  ghost predicate Moved(old_: map<Account, real>, now: map<Account, real>, a: Account, d: real, c: Account, e: real) {
    forall x :: At(now, x) == At(old_, x) + (if x == a then d else 0.0) + if x == c then e else 0.0
  }

  ghost predicate Unmoved(old_: map<Account, real>, now: map<Account, real>) {
    forall x :: At(now, x) == At(old_, x)
  }

  lemma AddsMove(old_: map<Account, real>, a: Account, d: real, c: Account, e: real)
    ensures Moved(old_, AddTo(AddTo(old_, a, d), c, e), a, d, c, e)
  {
  }

  lemma TouchMovesNothing(old_: map<Account, real>, a: Account)
    ensures Unmoved(old_, AddTo(old_, a, 0.0))
  {
  }

  /** 99.7 % of the burned share of the collateral. */
  ghost predicate Returns(p: S.Position, amount: real, returned: real) {
    returned * p.amount == 0.997 * (p.collateral * amount)
  }

  /** Tokens worth the collateral less 0.3 %, over 1.5. */
  ghost predicate Buys(qusd: real, price: real, minted: real) {
    1.5 * (minted * price) == 0.997 * qusd
  }

  lemma MintBuys(qusd: real, price: real)
    requires price > 0.0 && qusd > 0.0
    ensures Buys(qusd, price, S.MintAmount(qusd, price))
  {
    S.MintIsExact(qusd, price);
  }

  lemma BurnReturns(p: S.Position, amount: real, returned: real)
    requires p.amount > 0.0 && returned == S.Share(p, amount) - S.Share(p, amount) * S.FEE_RATE
    ensures Returns(p, amount, returned)
  {
    S.ShareMeans(p, amount);
    var share := S.Share(p, amount);
    assert returned == 0.997 * share;
    assert returned * p.amount == 0.997 * (share * p.amount);
  }

  // ---- The service ----

  class Exchange {
    const manager: S.SyntheticManager
    var balances: map<Account, real>
    ghost var net: map<string, real>
    ghost var fees: real

    ghost function Value(): Ledger
      reads this, manager
    {
      Ledger(balances, manager.Value(), net, fees)
    }

    constructor (assets: map<string, string>)
      ensures Value() == EMPTY && manager.assets == assets && fresh(manager)
    {
      manager := new S.SyntheticManager(assets);
      balances, net, fees := map[], map[], 0.0;
    }

    method DepositFunds(a: Account, amount: real) returns (success: bool, balance: real)
      requires S.Inv(manager.Value())
      modifies this
      ensures Value() == Do(manager.assets, old(Value()), Deposit(a, amount))
      ensures success == (amount > 0.0) && (success ==> balance == At(balances, a))
      ensures Moved(old(balances), balances, a, if success then amount else 0.0, a, 0.0)
    {
      if amount <= 0.0 {
        return false, 0.0;
      }
      balances := AddTo(balances, a, amount);
      net := AddTo(net, a.asset, amount);
      return true, balances[a];
    }

    method WithdrawFunds(a: Account, amount: real) returns (success: bool, balance: real)
      requires S.Inv(manager.Value())
      modifies this
      ensures Value() == Do(manager.assets, old(Value()), Withdraw(a, amount))
      ensures success == (0.0 < amount <= old(At(balances, a))) && (success ==> balance == At(balances, a))
      ensures Moved(old(balances), balances, a, if success then -amount else 0.0, a, 0.0)
    {
      if amount <= 0.0 {
        return false, 0.0;
      }
      if At(balances, a) < amount {
        balances := AddTo(balances, a, 0.0);
        return false, 0.0;
      }
      balances := AddTo(balances, a, -amount);
      net := AddTo(net, a.asset, -amount);
      return true, balances[a];
    }

    /** The QUSD check comes before the manager's own checks. */
    method MintSynthetic(k: S.PosKey, qusd: real, price: real) returns (success: bool, minted: real)
      requires S.Inv(manager.Value()) && QUSD !in manager.assets
      modifies this, manager
      ensures Value() == Do(manager.assets, old(Value()), Mint(k, qusd, price))
      ensures success <==>
        && old(At(balances, Account(k.owner, "QUSD"))) >= qusd
        && k.symbol in manager.assets && price > 0.0 && qusd > 0.0
      ensures if success then Buys(qusd, price, minted) else minted == 0.0
      ensures if success
        then Moved(old(balances), balances, Account(k.owner, "QUSD"), -qusd, Account(k.owner, k.symbol), minted)
        else Unmoved(old(balances), balances) && manager.Value() == old(manager.Value())
    {
      var q, s := Account(k.owner, QUSD), Account(k.owner, k.symbol);
      if At(balances, q) < qusd {
        TouchMovesNothing(balances, q);
        balances := AddTo(balances, q, 0.0);
        return false, 0.0;
      }
      var r := manager.MintTokens(k, qusd, price);
      if r.Err? {
        TouchMovesNothing(balances, q);
        balances := AddTo(balances, q, 0.0);
        return false, 0.0;
      }
      MintBuys(qusd, price);
      AddsMove(balances, q, -r.value.collateral, s, r.value.amount);
      balances := AddTo(balances, q, -r.value.collateral);
      balances := AddTo(balances, s, r.value.amount);
      return true, r.value.amount;
    }

    method BurnSynthetic(k: S.PosKey, amount: real, price: real) returns (success: bool, returned: real)
      requires S.Inv(manager.Value()) && QUSD !in manager.assets
      modifies this, manager
      ensures Value() == Do(manager.assets, old(Value()), Burn(k, amount, price))
      ensures success <==>
        && old(At(balances, Account(k.owner, k.symbol))) >= amount
        && k.symbol in manager.assets && price > 0.0 && amount > 0.0
        && k in old(manager.positions) && old(manager.positions)[k].amount >= amount - 0.000000000001
      ensures if success
        then Returns(old(manager.positions)[k], amount, returned)
        else returned == 0.0
      ensures if success
        then Moved(old(balances), balances, Account(k.owner, k.symbol), -amount, Account(k.owner, "QUSD"), returned)
        else Unmoved(old(balances), balances) && manager.Value() == old(manager.Value())
    {
      var q, s := Account(k.owner, QUSD), Account(k.owner, k.symbol);
      if At(balances, s) < amount {
        TouchMovesNothing(balances, s);
        balances := AddTo(balances, s, 0.0);
        return false, 0.0;
      }
      var r := manager.BurnTokens(k, amount, price);
      if r.Err? {
        TouchMovesNothing(balances, s);
        balances := AddTo(balances, s, 0.0);
        return false, 0.0;
      }
      BurnReturns(old(manager.positions)[k], amount, r.value.returned);
      AddsMove(balances, s, -amount, q, r.value.returned);
      balances := AddTo(balances, s, -amount);
      balances := AddTo(balances, q, r.value.returned);
      fees := fees + r.value.fee;
      return true, r.value.returned;
    }
  }
}
