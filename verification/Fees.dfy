/** The base-fee controller (src/fees.rs): one clamped proportional step per block. */
module Fees {
  import opened Base

  const MIN_FEE: nat := 1_000
  const MAX_TXS_PER_BLOCK: nat := 5_000
  const TARGET_TXS_PER_BLOCK: nat := MAX_TXS_PER_BLOCK / 2
  const MAX_CHANGE_PCT: nat := 12
  const MAX_BASE_FEE: nat := 1_000_000_000

  function Max(x: nat, y: nat): nat {
    if x < y then y else x
  }

  function Clamp(x: int, lo: nat, hi: nat): nat
    requires lo <= hi
  {
    if x < lo then lo else if hi < x then hi else x
  }

  /** The largest move one block may cause from `prev`. */
  function Step(prev: nat): nat {
    Max(prev * MAX_CHANGE_PCT / 100, 1)
  }

  /** The part of a step taken by a block `k` transactions off target. */
  function Share(step: nat, k: nat): nat {
    step * k / TARGET_TXS_PER_BLOCK
  }

  /** One step of the controller: the fee `prev` moves by the block's distance from target. */
  function NextBaseFee(prev: nat, txs: nat): (next: nat)
    ensures MIN_FEE <= next <= MAX_BASE_FEE
  {
    var prev := Max(prev, MIN_FEE);
    var target := TARGET_TXS_PER_BLOCK;
    var next :=
      if txs > target then
        prev + Share(Step(prev), txs - target)
      else if txs < target then
        var drop := Share(Step(prev), target - txs);
        if drop <= prev then prev - drop else 0
      else
        prev;
    Clamp(next, MIN_FEE, MAX_BASE_FEE)
  }

  /** The fee after a whole sequence of blocks, given by their sizes. */
  function Run(fee: nat, sizes: seq<nat>): nat
    decreases |sizes|
  {
    if sizes == [] then fee else Run(NextBaseFee(fee, sizes[0]), sizes[1..])
  }

  function Repeat(txs: nat, n: nat): seq<nat> {
    seq(n, i => txs)
  }

  // ---- every run stays in the band ----

  lemma {:induction false} RunStaysInBand(fee: nat, sizes: seq<nat>)
    requires MIN_FEE <= fee <= MAX_BASE_FEE
    ensures MIN_FEE <= Run(fee, sizes) <= MAX_BASE_FEE
    decreases |sizes|
  {
    if sizes != [] {
      RunStaysInBand(NextBaseFee(fee, sizes[0]), sizes[1..]);
    }
  }

  // ---- monotonicity ----

  lemma DivMonotone(m: nat, n: nat)
    requires m <= n
    ensures m / 2500 <= n / 2500
  {
  }

  lemma ShareMonotone(a: nat, b: nat, x: nat, y: nat)
    requires a <= b && x <= y
    ensures Share(a, x) <= Share(b, y)
  {
    MulMonotone(a, b, x, y);
    DivMonotone(a * x, b * y);
  }

  lemma DivShift(m: nat, d: nat)
    ensures (m + d * 2500) / 2500 == m / 2500 + d
  {
  }

  lemma ShareOfSum(a: nat, d: nat, x: nat)
    requires x <= TARGET_TXS_PER_BLOCK
    ensures Share(a + d, x) <= Share(a, x) + d
  {
    MulMonotone(d, d, x, 2500);
    assert (a + d) * x == a * x + d * x;
    DivMonotone((a + d) * x, a * x + d * 2500);
    DivShift(a * x, d);
  }

  lemma StepMonotone(a: nat, b: nat)
    requires a <= b
    ensures Step(a) <= Step(b) <= Step(a) + (b - a)
  {
  }

  /** Raising the fee by `d` raises the drop of an under-full block by at most `d`. */
  lemma DropGrowsSlowly(a: nat, b: nat, under: nat)
    requires a <= b && under <= TARGET_TXS_PER_BLOCK
    ensures Share(Step(b), under) <= Share(Step(a), under) + (b - a)
  {
    hide Share;
    StepMonotone(a, b);
    ShareMonotone(Step(b), Step(a) + (b - a), under, under);
    ShareOfSum(Step(a), b - a, under);
  }

  lemma DropBelowFee(fee: nat, under: nat)
    requires MIN_FEE <= fee && under <= TARGET_TXS_PER_BLOCK
    ensures Share(Step(fee), under) <= Step(fee) <= fee
  {
    MulMonotone(Step(fee), Step(fee), under, 2500);
    DivMonotone(Step(fee) * under, Step(fee) * 2500);
  }

  lemma SideOfTarget(prev: nat, txs: nat)
    ensures txs >= TARGET_TXS_PER_BLOCK ==> NextBaseFee(prev, TARGET_TXS_PER_BLOCK) <= NextBaseFee(prev, txs)
    ensures txs <= TARGET_TXS_PER_BLOCK ==> NextBaseFee(prev, txs) <= NextBaseFee(prev, TARGET_TXS_PER_BLOCK)
  {
    hide Share;
    var p, t := Max(prev, MIN_FEE), TARGET_TXS_PER_BLOCK;
    if txs > t {
      ShareMonotone(0, Step(p), 0, txs - t);
    } else if txs < t {
      DropBelowFee(p, t - txs);
      ShareMonotone(0, Step(p), 0, t - txs);
    }
  }

  lemma MonotoneInSize(prev: nat, small: nat, large: nat)
    requires small <= large
    ensures NextBaseFee(prev, small) <= NextBaseFee(prev, large)
  {
    hide Share;
    var p, t := Max(prev, MIN_FEE), TARGET_TXS_PER_BLOCK;
    if small > t {
      ShareMonotone(Step(p), Step(p), small - t, large - t);
    } else if large < t {
      ShareMonotone(Step(p), Step(p), t - large, t - small);
      DropBelowFee(p, t - small);
    } else {
      SideOfTarget(prev, small);
      SideOfTarget(prev, large);
    }
  }

  lemma MonotoneInFee(low: nat, high: nat, txs: nat)
    requires low <= high
    ensures NextBaseFee(low, txs) <= NextBaseFee(high, txs)
  {
    hide Share;
    var a, b, t := Max(low, MIN_FEE), Max(high, MIN_FEE), TARGET_TXS_PER_BLOCK;
    StepMonotone(a, b);
    if txs > t {
      ShareMonotone(Step(a), Step(b), txs - t, txs - t);
    } else if txs < t {
      DropGrowsSlowly(a, b, t - txs);
      DropBelowFee(a, t - txs);
      DropBelowFee(b, t - txs);
    }
  }

  /** Fuller blocks from a higher fee can only end higher, over whole runs. */
  lemma {:induction false} RunMonotone(low: nat, high: nat, small: seq<nat>, large: seq<nat>)
    requires low <= high && |small| == |large|
    requires forall i :: 0 <= i < |small| ==> small[i] <= large[i]
    ensures Run(low, small) <= Run(high, large)
    decreases |small|
  {
    if small != [] {
      MonotoneInFee(low, high, small[0]);
      MonotoneInSize(high, small[0], large[0]);
      RunMonotone(NextBaseFee(low, small[0]), NextBaseFee(high, large[0]), small[1..], large[1..]);
    }
  }

  // ---- the size of one step ----

  /** No fee in the band moves by more than 12 percent of itself. */
  ghost predicate StepIsBounded(txs: nat) {
    forall fee :: MIN_FEE <= fee <= MAX_BASE_FEE ==>
      var next := NextBaseFee(fee, txs);
      100 * next <= 112 * fee && 100 * next >= 88 * fee
  }

  lemma StepWithin(fee: nat, txs: nat)
    requires MIN_FEE <= fee <= MAX_BASE_FEE && txs <= MAX_TXS_PER_BLOCK
    ensures var next := NextBaseFee(fee, txs); 100 * next <= 112 * fee && 100 * next >= 88 * fee
  {
    hide Share;
    var t := TARGET_TXS_PER_BLOCK;
    DropBelowFee(fee, if txs > t then txs - t else t - txs);
  }

  /** A block moves every fee by at most 12 percent exactly when it is no fuller than a
      block may be. */
  lemma StepIsBoundedIff(txs: nat)
    ensures StepIsBounded(txs) <==> txs <= MAX_TXS_PER_BLOCK
  {
    hide NextBaseFee;
    if txs <= MAX_TXS_PER_BLOCK {
      forall fee | MIN_FEE <= fee <= MAX_BASE_FEE
        ensures var next := NextBaseFee(fee, txs); 100 * next <= 112 * fee && 100 * next >= 88 * fee
      {
        StepWithin(fee, txs);
      }
    } else {
      OverfullStep(txs);
      assert MIN_FEE <= 1_000_000 <= MAX_BASE_FEE && 100 * NextBaseFee(1_000_000, txs) > 112 * 1_000_000;
    }
  }

  lemma OverfullStep(txs: nat)
    requires txs > MAX_TXS_PER_BLOCK
    ensures NextBaseFee(1_000_000, txs) > 1_120_000
  {
  }

  // ---- no ratchet ----

  /** A block `k` over target followed by one `k` under never raises the fee. */
  lemma OverThenUnderNeverRaises(fee: nat, k: nat)
    requires MIN_FEE <= fee <= MAX_BASE_FEE && k <= TARGET_TXS_PER_BLOCK
    ensures NextBaseFee(NextBaseFee(fee, TARGET_TXS_PER_BLOCK + k), TARGET_TXS_PER_BLOCK - k) <= fee
  {
    hide Share;
    var t := TARGET_TXS_PER_BLOCK;
    var up := NextBaseFee(fee, t + k);
    if k > 0 {
      var rise := Share(Step(fee), k);
      assert fee <= up <= fee + rise;
      StepMonotone(fee, up);
      ShareMonotone(Step(fee), Step(up), k, k);
      DropBelowFee(up, k);
    }
  }

  /** Hence any number of over/under swings, of any sizes, ends no higher than it began. */
  lemma {:induction false} SwingsNeverRaise(fee: nat, swings: seq<nat>)
    requires MIN_FEE <= fee <= MAX_BASE_FEE
    requires forall i :: 0 <= i < |swings| ==> swings[i] <= TARGET_TXS_PER_BLOCK
    ensures Run(fee, Swings(swings)) <= fee
    decreases |swings|
  {
    if swings != [] {
      var k, t, rest := swings[0], TARGET_TXS_PER_BLOCK, Swings(swings[1..]);
      var s := Swings(swings);
      assert s[0] == t + k && s[1..] == [t - k] + rest && s[1..][1..] == rest;
      var up := NextBaseFee(fee, t + k);
      var down := NextBaseFee(up, t - k);
      assert Run(fee, s) == Run(up, s[1..]) == Run(down, rest);
      OverThenUnderNeverRaises(fee, k);
      SwingsNeverRaise(down, swings[1..]);
    }
  }

  function Swings(ks: seq<nat>): seq<nat>
    requires forall i :: 0 <= i < |ks| ==> ks[i] <= TARGET_TXS_PER_BLOCK
  {
    if ks == [] then [] else
      [TARGET_TXS_PER_BLOCK + ks[0], TARGET_TXS_PER_BLOCK - ks[0]] + Swings(ks[1..])
  }

  // ---- sustained load reaches the ends of the band ----

  lemma FullBlock(fee: nat)
    requires MIN_FEE <= fee <= MAX_BASE_FEE
    ensures var next := NextBaseFee(fee, MAX_TXS_PER_BLOCK);
            next == MAX_BASE_FEE || 1000 * next >= 1119 * fee
  {
    DivShift(0, Step(fee));
  }

  lemma EmptyBlock(fee: nat)
    requires MIN_FEE <= fee <= MAX_BASE_FEE
    ensures var next := NextBaseFee(fee, 0);
            next == MIN_FEE || 1000 * next <= 881 * fee
  {
    DivShift(0, Step(fee));
  }

  lemma RunRepeat(fee: nat, txs: nat, n: nat)
    ensures Run(fee, Repeat(txs, n + 1)) == Run(NextBaseFee(fee, txs), Repeat(txs, n))
  {
    assert Repeat(txs, n + 1)[1..] == Repeat(txs, n);
  }

  /** Seven full blocks at least double the fee, up to the ceiling. */
  lemma SevenFullBlocks(fee: nat, n: nat) returns (f7: nat)
    requires MIN_FEE <= fee <= MAX_BASE_FEE
    ensures MIN_FEE <= f7 <= MAX_BASE_FEE
    ensures f7 == MAX_BASE_FEE || f7 >= 2 * fee
    ensures Run(fee, Repeat(MAX_TXS_PER_BLOCK, n + 7)) == Run(f7, Repeat(MAX_TXS_PER_BLOCK, n))
  {
    f7 := fee;
    var i := 0;
    ghost var scale := 1000;
    while i < 7
      invariant 0 <= i <= 7
      invariant MIN_FEE <= f7 <= MAX_BASE_FEE
      invariant scale == [1000, 1119, 1252, 1400, 1566, 1752, 1960, 2193][i]
      invariant f7 == MAX_BASE_FEE || 1000 * f7 >= scale * fee
      invariant Run(fee, Repeat(MAX_TXS_PER_BLOCK, n + 7)) == Run(f7, Repeat(MAX_TXS_PER_BLOCK, n + 7 - i))
    {
      FullBlock(f7);
      RunRepeat(f7, MAX_TXS_PER_BLOCK, n + 6 - i);
      f7 := NextBaseFee(f7, MAX_TXS_PER_BLOCK);
      i := i + 1;
      scale := [1000, 1119, 1252, 1400, 1566, 1752, 1960, 2193][i];
    }
  }

  /** Six empty blocks at least halve the fee, down to the floor. */
  lemma SixEmptyBlocks(fee: nat, n: nat) returns (f6: nat)
    requires MIN_FEE <= fee <= MAX_BASE_FEE
    ensures MIN_FEE <= f6 <= MAX_BASE_FEE
    ensures f6 == MIN_FEE || 2 * f6 <= fee
    ensures Run(fee, Repeat(0, n + 6)) == Run(f6, Repeat(0, n))
  {
    f6 := fee;
    var i := 0;
    ghost var scale := 1000;
    while i < 6
      invariant 0 <= i <= 6
      invariant MIN_FEE <= f6 <= MAX_BASE_FEE
      invariant scale == [1000, 881, 777, 685, 604, 533, 470][i]
      invariant f6 == MIN_FEE || 1000 * f6 <= scale * fee
      invariant Run(fee, Repeat(0, n + 6)) == Run(f6, Repeat(0, n + 6 - i))
    {
      EmptyBlock(f6);
      RunRepeat(f6, 0, n + 5 - i);
      f6 := NextBaseFee(f6, 0);
      i := i + 1;
      scale := [1000, 881, 777, 685, 604, 533, 470][i];
    }
  }

  lemma DoubledReaches(f7: nat, fee: nat, p: nat)
    requires p >= 1 && fee * (2 * p) >= MAX_BASE_FEE
    requires f7 == MAX_BASE_FEE || f7 >= 2 * fee
    ensures f7 * p >= MAX_BASE_FEE
  {
    if f7 == MAX_BASE_FEE {
      MulMonotone(f7, f7, 1, p);
    } else {
      MulMonotone(2 * fee, f7, p, p);
      assert (2 * fee) * p == fee * (2 * p);
    }
  }

  lemma HalvedReaches(f6: nat, fee: nat, p: nat)
    requires p >= 1 && fee <= MIN_FEE * (2 * p)
    requires f6 == MIN_FEE || 2 * f6 <= fee
    ensures f6 <= MIN_FEE * p
  {
  }

  lemma {:induction false} CeilingAfterDoublings(fee: nat, j: nat, extra: nat)
    requires MIN_FEE <= fee <= MAX_BASE_FEE
    requires fee * Pow2(j) >= MAX_BASE_FEE
    ensures Run(fee, Repeat(MAX_TXS_PER_BLOCK, 7 * j + extra)) == MAX_BASE_FEE
    decreases j, extra
  {
    if j > 0 {
      var f7 := SevenFullBlocks(fee, 7 * (j - 1) + extra);
      DoubledReaches(f7, fee, Pow2(j - 1));
      CeilingAfterDoublings(f7, j - 1, extra);
    } else if extra > 0 {
      FullBlock(fee);
      RunRepeat(fee, MAX_TXS_PER_BLOCK, extra - 1);
      CeilingAfterDoublings(NextBaseFee(fee, MAX_TXS_PER_BLOCK), 0, extra - 1);
    }
  }

  lemma {:induction false} FloorAfterHalvings(fee: nat, j: nat, extra: nat)
    requires MIN_FEE <= fee <= MAX_BASE_FEE
    requires fee <= MIN_FEE * Pow2(j)
    ensures Run(fee, Repeat(0, 6 * j + extra)) == MIN_FEE
    decreases j, extra
  {
    if j > 0 {
      var f6 := SixEmptyBlocks(fee, 6 * (j - 1) + extra);
      HalvedReaches(f6, fee, Pow2(j - 1));
      FloorAfterHalvings(f6, j - 1, extra);
    } else if extra > 0 {
      EmptyBlock(fee);
      RunRepeat(fee, 0, extra - 1);
      FloorAfterHalvings(NextBaseFee(fee, 0), 0, extra - 1);
    }
  }

  lemma TwentyDoublings()
    ensures Pow2(20) == 1_048_576
  {
    assert Pow2(4) == 16;
    assert Pow2(8) == 256;
    assert Pow2(12) == 4096;
    assert Pow2(16) == 65536;
  }

  /** 140 full blocks in a row drive any fee to the ceiling and hold it there. */
  lemma FullBlocksReachCeiling(fee: nat, n: nat)
    requires MIN_FEE <= fee <= MAX_BASE_FEE && 140 <= n
    ensures Run(fee, Repeat(MAX_TXS_PER_BLOCK, n)) == MAX_BASE_FEE
  {
    TwentyDoublings();
    CeilingAfterDoublings(fee, 20, n - 140);
  }

  /** 120 empty blocks in a row drive any fee to the floor and hold it there. */
  lemma EmptyBlocksReachFloor(fee: nat, n: nat)
    requires MIN_FEE <= fee <= MAX_BASE_FEE && 120 <= n
    ensures Run(fee, Repeat(0, n)) == MIN_FEE
  {
    TwentyDoublings();
    FloorAfterHalvings(fee, 20, n - 120);
  }
}
