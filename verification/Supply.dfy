/** The emission schedule: the era-by-era loop computes the per-block sum, which grows with
    every block and stays under a geometric bound.
 */
module Supply {
  const PHI := 1.618033988749895
  const INITIAL_REWARD := 15.27
  const HALVING_INTERVAL := 15474020
  const PREMINE := 33000000.0
  const MAX_SUPPLY := 3300000000.0

  function Power(e: nat): (p: real)
    ensures p >= 1.0
  {
    if e == 0 then 1.0 else PHI * Power(e - 1)
  }

  function Reward(era: nat): real {
    INITIAL_REWARD / Power(era)
  }

  function EraOf(block: nat): nat {
    block / HALVING_INTERVAL
  }

  /** What the first `height` blocks emit, block by block. */
  ghost function Emitted(height: nat): real {
    if height == 0 then 0.0 else Emitted(height - 1) + Reward(EraOf(height - 1))
  }

  function Times(n: nat, x: real): real {
    n as real * x
  }

  lemma OneMore(n: nat, x: real)
    ensures Times(n + 1, x) == Times(n, x) + x
  {
  }

  /** The first n blocks of an era emit n times its reward. */
  lemma {:induction false} WithinEra(era: nat, n: nat)
    requires n <= HALVING_INTERVAL
    ensures Emitted(era * HALVING_INTERVAL + n) == Emitted(era * HALVING_INTERVAL) + Times(n, Reward(era))
  {
    if n == 0 {
    } else {
      WithinEra(era, n - 1);
      assert EraOf(era * HALVING_INTERVAL + n - 1) == era;
      OneMore(n - 1, Reward(era));
    }
  }

  method ApproximateTotalSupply(height: nat) returns (total: real)
    ensures total == PREMINE + Emitted(height)
    ensures total < 652000000.0 < MAX_SUPPLY
  {
    total := PREMINE;
    var remaining, era: nat := height, 0;
    while remaining > 0
      invariant 0 <= remaining <= height
      invariant remaining > 0 ==> height - remaining == era * HALVING_INTERVAL
      invariant total == PREMINE + Emitted(height - remaining)
    {
      var blocksInEra := if remaining < HALVING_INTERVAL then remaining else HALVING_INTERVAL;
      var reward := INITIAL_REWARD / Power(era);
      WithinEra(era, blocksInEra);
      total := total + Times(blocksInEra, reward);
      remaining := remaining - blocksInEra;
      era := era + 1;
    }
    BelowCap(height);
  }

  // ---- Growth ----

  lemma RewardIsPositive(era: nat)
    ensures 0.0 < Reward(era) <= INITIAL_REWARD
  {
    var p := Power(era);
    assert INITIAL_REWARD / p > 0.0;
    assert INITIAL_REWARD <= INITIAL_REWARD * p;
  }

  /** Every block adds to the supply. */
  lemma {:induction false} StrictlyIncreasing(g: nat, h: nat)
    requires g < h
    ensures Emitted(g) < Emitted(h)
  {
    RewardIsPositive(EraOf(h - 1));
    if g < h - 1 {
      StrictlyIncreasing(g, h - 1);
    }
  }

  // ---- The bound ----

  /** What is left to emit from an era on, were the schedule to run for ever. */
  function Tail(era: nat): real {
    HALVING_INTERVAL as real * Reward(era) * PHI / (PHI - 1.0)
  }

  lemma TailStep(era: nat)
    ensures Tail(era) == HALVING_INTERVAL as real * Reward(era) + Tail(era + 1)
  {
    var p := Power(era);
    assert Reward(era + 1) * PHI == Reward(era);
  }

  lemma {:induction false} FullEras(eras: nat)
    ensures Emitted(eras * HALVING_INTERVAL) == Tail(0) - Tail(eras)
  {
    if eras == 0 {
    } else {
      FullEras(eras - 1);
      WithinEra(eras - 1, HALVING_INTERVAL);
      assert (eras - 1) * HALVING_INTERVAL + HALVING_INTERVAL == eras * HALVING_INTERVAL;
      TailStep(eras - 1);
    }
  }

  /** The geometric bound: the premine plus the whole series is never reached. */
  lemma BelowGeometricBound(height: nat)
    ensures Emitted(height) < INITIAL_REWARD * HALVING_INTERVAL as real * PHI / (PHI - 1.0)
  {
    var eras: nat := EraOf(height) + 1;
    StrictlyIncreasing(height, eras * HALVING_INTERVAL);
    FullEras(eras);
    RewardIsPositive(eras);
    assert Tail(eras) > 0.0;
    assert Power(0) == 1.0 && Reward(0) == INITIAL_REWARD;
  }

  /** Far below the 3.3 billion cap: less than a fifth of it is ever emitted. */
  lemma BelowCap(height: nat)
    ensures PREMINE + Emitted(height) < 652000000.0
  {
    BelowGeometricBound(height);
  }
}
