/** Where the ledger multiplies 128-bit amounts, and why nothing wraps on a chain whose
    allocation and issuance are small enough (src/staking.rs, src/slashing.rs,
    src/consensus.rs). */
module Widths {
  import opened Base
  import opened Types
  import opened Election
  import opened Order
  import opened Tables
  import opened Ledger
  import opened Sums
  import opened Conservation
  import opened Issuance
  import Books
  import Frames
  import Pool

  /** All value in the tables, times the largest factor any product uses, fits. */
  ghost predicate Small(rows: Rows) {
    Total(rows) * SHARED <= U128_MAX
  }

  lemma StakeWithinTotal(rows: Rows, addresses: seq<Bytes>)
    requires Ascending(addresses)
    ensures TotalStake(AsValidators(rows, addresses)) <= Total(rows)
  {
    Books.AscendingDistinct(addresses);
    Books.ListedStake(rows, addresses);
    SumMonotone(rows, Books.StakedOf, Worth);
  }

  /** The stake a vote is weighed against never exceeds what the tables hold. */
  lemma ActiveStakeWithinTotal(rows: Rows, height: nat)
    ensures TotalStake(ValidatorSetAt(rows, height)) <= Total(rows)
  {
    hide Total, Electable;
    StakeWithinTotal(rows, SortedKeys(Electable(rows, height)));
  }

  lemma ProductFits(x: nat, total: nat, factor: nat)
    requires x <= total && factor <= SHARED && total * SHARED <= U128_MAX
    ensures x * factor <= U128_MAX && Mul128(x, factor) == x * factor && Mul128(factor, x) == factor * x
  {
    MulMonotone(x, total, factor, SHARED);
  }

  lemma {:induction false} EntryWithinTotal(us: seq<Unbond>, i: nat)
    requires i < |us|
    ensures us[i].amount <= UnbondingTotal(us)
  {
    if i > 0 {
      EntryWithinTotal(us[1..], i - 1);
    }
  }

  lemma {:induction false} CutTotalBounded(us: seq<Unbond>, pct: nat)
    requires pct <= 100
    ensures CutTotal(us, pct) <= UnbondingTotal(us)
  {
    if us != [] {
      CutTotalBounded(us[..|us| - 1], pct);
      UnbondingSnoc(us);
    }
  }

  /** In small tables every slashing product is the product of the integers. */
  lemma SlashProductsExact(rows: Rows, a: Bytes, pct: nat)
    requires Small(rows) && pct <= 100
    ensures var acct := GetAccount(rows, a);
      && Cut(acct.staked, pct) == acct.staked * pct / 100
      && (forall i :: 0 <= i < |acct.unbonding| ==> Cut(acct.unbonding[i].amount, pct) == acct.unbonding[i].amount * pct / 100)
      && CutAmount(Confiscated(acct, pct), REPORTER_BOUNTY_PCT) == Confiscated(acct, pct) * REPORTER_BOUNTY_PCT / 100
      && Share(acct.staked, INACTIVITY_LEAK_BPS) == acct.staked * INACTIVITY_LEAK_BPS / 10_000
      && Share(acct.staked, DOWNTIME_REPEAT_BURN_BPS) == acct.staked * DOWNTIME_REPEAT_BURN_BPS / 10_000
  {
    hide Total, Mul128, UnbondingTotal, CutTotal, GetAccount;
    var acct := GetAccount(rows, a);
    AccountWithinTotal(rows, a);
    ProductFits(acct.staked, Total(rows), pct);
    ProductFits(acct.staked, Total(rows), INACTIVITY_LEAK_BPS);
    ProductFits(acct.staked, Total(rows), DOWNTIME_REPEAT_BURN_BPS);
    CutTotalBounded(acct.unbonding, pct);
    ProductFits(Confiscated(acct, pct), Total(rows), REPORTER_BOUNTY_PCT);
    forall i | 0 <= i < |acct.unbonding|
      ensures Cut(acct.unbonding[i].amount, pct) == acct.unbonding[i].amount * pct / 100
    {
      EntryWithinTotal(acct.unbonding, i);
      ProductFits(acct.unbonding[i].amount, Total(rows), pct);
    }
  }

  /** In small tables every reward share is exact, and votes are weighed exactly. */
  lemma RewardProductsExact(rows: Rows, height: nat, i: nat)
    requires Small(rows) && i < |ValidatorSetAt(rows, height)|
    ensures var vals := ValidatorSetAt(rows, height);
      && TotalStake(vals) * 3 <= U128_MAX
      && (TotalStake(vals) > 0 ==>
            RewardCut(vals[i].stake, TotalStake(vals)) == SHARED * vals[i].stake / TotalStake(vals))
  {
    hide Total, Mul128, ValidatorSetAt;
    var vals := ValidatorSetAt(rows, height);
    ActiveStakeWithinTotal(rows, height);
    ProductFits(TotalStake(vals), Total(rows), 3);
    PrefixStake(vals, i);
    ProductFits(vals[i].stake, Total(rows), SHARED);
  }

  lemma SmallerIsSmall(rows: Rows, bound: nat)
    requires Total(rows) <= bound && bound * SHARED <= U128_MAX
    ensures Small(rows)
  {
    hide Total;
    MulMonotone(Total(rows), bound, SHARED, SHARED);
  }

  lemma BelowLimit(bound: nat)
    requires bound * SHARED <= U128_MAX
    ensures bound < U128_MAX
  {
  }

  /** The tables a slash reads: the sender already charged. */
  lemma ChargedIsSmaller(rows: Rows, sender: Bytes, debit: nat)
    requires debit <= GetAccount(rows, sender).balance
    ensures Total(SetAccount(rows, sender, Charged(GetAccount(rows, sender), debit))) + debit == Total(rows)
  {
    hide Total, SetAccount, GetAccount, UnbondingTotal;
    TotalSetAccount(rows, sender, Charged(GetAccount(rows, sender), debit));
  }

  /** On every chain whose allocation and issuance, times the shared reward, fit in 128
      bits, the tables are small wherever the code multiplies: after any number of a
      block's transactions, with the next sender charged, at the liveness update and
      after any of its charges, and when rewards are paid. */
  lemma NoProductWrapsOnAnyRun(env: Env, alloc: seq<Alloc>, genesis: Block, blocks: seq<Block>, n: nat, k: nat)
    requires genesis.header.height == 0 && n < |blocks| && k <= |blocks[n].transactions|
    requires (Allocated(alloc) + BLOCK_REWARD * |blocks|) * SHARED <= U128_MAX
    requires RunBlocks(env, Genesis(env, alloc, genesis), blocks).Ok?
    ensures RunBlocks(env, Genesis(env, alloc, genesis), blocks[..n]).Ok?
    ensures var rows, b := RunBlocks(env, Genesis(env, alloc, genesis), blocks[..n]).value, blocks[n];
            PointsSmall(env, rows, b, k)
  {
    hide RunBlocks, Genesis, PointsSmall, Allocated, Total, FreshFrom, ExecBlock, NextHeight;
    var start, bound := Genesis(env, alloc, genesis), Allocated(alloc) + BLOCK_REWARD * |blocks|;
    Pool.PrefixRuns(env, start, blocks, n);
    TotalBeforeBlock(env, alloc, genesis, blocks, n);
    BlockPointsSmall(env, RunBlocks(env, start, blocks[..n]).value, blocks[n], k, bound);
  }

  lemma IssuedSoFar(alloc: nat, n: nat, m: nat)
    requires n <= m && (alloc + BLOCK_REWARD * m) * SHARED <= U128_MAX
    ensures alloc + BLOCK_REWARD * n <= alloc + BLOCK_REWARD * m < U128_MAX
  {
    BelowLimit(alloc + BLOCK_REWARD * m);
    MulMonotone(BLOCK_REWARD, BLOCK_REWARD, n, m);
  }

  lemma TotalBeforeBlock(env: Env, alloc: seq<Alloc>, genesis: Block, blocks: seq<Block>, n: nat)
    requires genesis.header.height == 0 && n < |blocks|
    requires (Allocated(alloc) + BLOCK_REWARD * |blocks|) * SHARED <= U128_MAX
    requires RunBlocks(env, Genesis(env, alloc, genesis), blocks).Ok?
    requires RunBlocks(env, Genesis(env, alloc, genesis), blocks[..n]).Ok?
    ensures var rows := RunBlocks(env, Genesis(env, alloc, genesis), blocks[..n]).value;
      && Total(rows) <= Allocated(alloc) + BLOCK_REWARD * |blocks|
      && FreshFrom(rows, NextHeight(rows)) && ExecBlock(env, rows, blocks[n]).Ok?
  {
    hide Total, FreshFrom, RunBlocks, Genesis, Allocated, ExecBlock;
    var start := Genesis(env, alloc, genesis);
    IssuedSoFar(Allocated(alloc), n, |blocks|);
    TotalGenesis(env, alloc, genesis);
    FreshLater(start, 0);
    TotalRunBlocks(env, start, blocks[..n]);
    Pool.PrefixRuns(env, start, blocks, n + 1);
    NextRuns(env, start, blocks, n);
  }

  lemma NextRuns(env: Env, rows: Rows, blocks: seq<Block>, n: nat)
    requires n < |blocks| && RunBlocks(env, rows, blocks[..n + 1]).Ok? && RunBlocks(env, rows, blocks[..n]).Ok?
    ensures ExecBlock(env, RunBlocks(env, rows, blocks[..n]).value, blocks[n]).Ok?
  {
    hide ExecBlock;
    assert blocks[..n + 1][..n] == blocks[..n];
  }

  ghost predicate PointsSmall(env: Env, rows: Rows, b: Block, k: nat)
    requires k <= |b.transactions|
  {
    var h := b.header;
    && ApplyTxs(env, rows, b.transactions[..k], h.height).Ok?
    && ApplyTxs(env, rows, b.transactions, h.height).Ok?
    && var at, (done, fees) := ApplyTxs(env, rows, b.transactions[..k], h.height).value.0,
                               ApplyTxs(env, rows, b.transactions, h.height).value;
       var released := ReleaseUnbonded(done, h.height);
       && Small(at)
       && (forall s, debit: nat :: debit <= GetAccount(at, s).balance ==> Small(SetAccount(at, s, Charged(GetAccount(at, s), debit))))
       && Small(released)
       && (match Absent(env, released, h.height, h.parentHash, h.producer)
           case None => true
           case Some(missed) => forall i :: 0 <= i <= |missed| ==> Small(ChargeAll(released, h.height, missed[..i])))
       && Small(RecordLiveness(env, released, h.height, h.parentHash, h.producer))
  }

  lemma {:induction false} PrefixApplies(env: Env, rows: Rows, txs: seq<Transaction>, height: nat, k: nat)
    requires k <= |txs| && ApplyTxs(env, rows, txs, height).Ok?
    ensures ApplyTxs(env, rows, txs[..k], height).Ok?
  {
    hide ApplyTx;
    if k == |txs| {
      assert txs[..k] == txs;
    } else {
      var last := |txs| - 1;
      PrefixApplies(env, rows, txs[..last], height, k);
      assert txs[..last][..k] == txs[..k];
    }
  }

  lemma TxPointsSmall(rows: Rows, s: Bytes, debit: nat, bound: nat)
    requires Total(rows) <= bound && bound * SHARED <= U128_MAX && debit <= GetAccount(rows, s).balance
    ensures Small(SetAccount(rows, s, Charged(GetAccount(rows, s), debit)))
  {
    hide Total, SetAccount, GetAccount, Small;
    ChargedIsSmaller(rows, s, debit);
    SmallerIsSmall(SetAccount(rows, s, Charged(GetAccount(rows, s), debit)), bound);
  }

  lemma ChargesSmall(env: Env, rows: Rows, height: nat, parentHash: Bytes, producer: Bytes, bound: nat, i: nat)
    requires FreshFrom(rows, height) && Total(rows) <= bound && bound * SHARED <= U128_MAX
    requires Absent(env, rows, height, parentHash, producer).Some?
    requires i <= |Absent(env, rows, height, parentHash, producer).value|
    ensures Small(ChargeAll(rows, height, Absent(env, rows, height, parentHash, producer).value[..i]))
  {
    hide Total, Small, FreshFrom, ChargeAll, ValidatorSetAt, UsedAttempt, Missed;
    var vals := ValidatorSetAt(rows, height);
    var missed := Absent(env, rows, height, parentHash, producer).value;
    MissedDistinct(env, vals, height, parentHash, producer, UsedAttempt(env, vals, height, parentHash, producer, 0).value);
    TotalChargeAll(rows, height, missed[..i]);
    SmallerIsSmall(ChargeAll(rows, height, missed[..i]), bound);
  }

  lemma BlockPointsSmall(env: Env, rows: Rows, b: Block, k: nat, bound: nat)
    requires k <= |b.transactions| && FreshFrom(rows, NextHeight(rows)) && ExecBlock(env, rows, b).Ok?
    requires Total(rows) <= bound && bound * SHARED <= U128_MAX
    ensures PointsSmall(env, rows, b, k)
  {
    hide Total, Small, FreshFrom, ApplyTxs, ReleaseAll, StakerList, Absent, RecordLiveness, ChargeAll, SetAccount,
         GetAccount, FinishBlock, StoreBlock, Frames.Frame;
    BelowLimit(bound);
    var h := b.header;
    PrefixApplies(env, rows, b.transactions, h.height, k);
    var (at, _) := ApplyTxs(env, rows, b.transactions[..k], h.height).value;
    var (done, fees) := ApplyTxs(env, rows, b.transactions, h.height).value;
    TotalApplyTxs(env, rows, b.transactions[..k], h.height);
    TotalApplyTxs(env, rows, b.transactions, h.height);
    FreshApplyTxs(env, rows, b.transactions, h.height, h.height);
    SmallerIsSmall(at, bound);
    forall s, debit: nat | debit <= GetAccount(at, s).balance
      ensures Small(SetAccount(at, s, Charged(GetAccount(at, s), debit)))
    {
      TxPointsSmall(at, s, debit, bound);
    }
    var released := ReleaseUnbonded(done, h.height);
    TotalReleaseAll(done, StakerList(done), h.height);
    Frames.FrameReleaseAll(done, StakerList(done), h.height);
    FreshFrame(done, released, {Frames.Accounts}, h.height);
    SmallerIsSmall(released, bound);
    TotalRecordLiveness(env, released, h.height, h.parentHash, h.producer);
    SmallerIsSmall(RecordLiveness(env, released, h.height, h.parentHash, h.producer), bound);
    match Absent(env, released, h.height, h.parentHash, h.producer)
    case None =>
    case Some(missed) =>
      forall i | 0 <= i <= |missed|
        ensures Small(ChargeAll(released, h.height, missed[..i]))
      {
        ChargesSmall(env, released, h.height, h.parentHash, h.producer, bound, i);
      }
  }
}
