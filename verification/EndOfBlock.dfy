/** What the end of a block does to every account (src/staking.rs, src/slashing.rs):
    whose unbonds are paid out, who is charged for silence, and who is rewarded. */
module EndOfBlock {
  import opened Base
  import opened Types
  import opened Election
  import opened Order
  import opened Tables
  import opened Ledger
  import opened Frames
  import opened Books
  import opened Conservation
  import Effects
  import Fees
  import Issuance
  import Liveness

  // ---- unbonding ----

  /** Which entries stay and which are paid out. */
  lemma {:induction false} ReleaseSplits(us: seq<Unbond>, height: nat, u: Unbond)
    ensures multiset(Locked(us, height))[u] == if u.releaseHeight > height then multiset(us)[u] else 0
    ensures multiset(Matured(us, height))[u] == if u.releaseHeight <= height then multiset(us)[u] else 0
  {
    if us != [] {
      var last := |us| - 1;
      ReleaseSplits(us[..last], height, u);
      assert us == us[..last] + [us[last]];
    }
  }

  /** The account with its due entries paid into the balance. */
  function PaidOut(acct: Account, height: nat): Account {
    acct.(unbonding := Locked(acct.unbonding, height),
          balance := acct.balance + UnbondingTotal(Matured(acct.unbonding, height)))
  }

  lemma ReleaseOneIs(rows: Rows, x: Bytes, height: nat, a: Bytes)
    ensures GetAccount(ReleaseOne(rows, x, height), a)
         == if a == x then PaidOut(GetAccount(rows, a), height) else GetAccount(rows, a)
  {
    hide Matured, Locked, SetAccount, GetAccount;
    var acct := GetAccount(rows, x);
    Liveness.LockedIsLocked(acct.unbonding, height);
    GetAfterSet(rows, x, PaidOut(acct, height), a);
  }

  lemma {:induction false} ReleaseAllIs(rows: Rows, list: seq<Bytes>, height: nat, a: Bytes)
    requires Issuance.Distinct(list)
    ensures GetAccount(ReleaseAll(rows, list, height), a)
         == if a in list then PaidOut(GetAccount(rows, a), height) else GetAccount(rows, a)
  {
    hide GetAccount, PaidOut, ReleaseOne;
    if list != [] {
      var last := |list| - 1;
      ReleaseAllIs(rows, list[..last], height, a);
      ReleaseOneIs(ReleaseAll(rows, list[..last], height), list[last], height, a);
      assert list == list[..last] + [list[last]];
    }
  }

  /** Every account, listed or not, gets exactly its due entries back. */
  lemma ReleaseMoves(rows: Rows, height: nat, a: Bytes)
    requires StakersExact(rows)
    ensures GetAccount(ReleaseUnbonded(rows, height), a) == PaidOut(GetAccount(rows, a), height)
  {
    hide ReleaseAll;
    var list := StakerList(rows);
    AscendingDistinct(list);
    ReleaseAllIs(rows, list, height, a);
    assert Indexed(rows, a);
    assert a in Elems(list) <==> a in Stakers(rows);
  }

  // ---- silence ----

  /** One missed slot: before the liveness fork the fiftieth in a row jails, burning a
      thousandth of the stake of a repeat offender; after the leak starts, every one from
      the fiftieth on takes a two-thousandth. */
  function Missing(acct: Account, height: nat): Account {
    var p := acct.penalties;
    var missed := p.(missedSlots := p.missedSlots + 1, missedStreak := p.missedStreak + 1);
    var long := p.missedStreak + 1 >= 50 && !p.tombstoned;
    if height < NO_DOWNTIME_JAIL_HEIGHT && long then
      var burn := if p.downtimeJails > 0 then Share(acct.staked, DOWNTIME_REPEAT_BURN_BPS) else 0;
      acct.(staked := acct.staked - burn,
            penalties := missed.(missedStreak := 0, downtimeJails := p.downtimeJails + 1, jailFault := false,
                                 jailedUntil := height + DOWNTIME_JAIL_BLOCKS, slashed := p.slashed + burn))
    else if height >= INACTIVITY_LEAK_ACTIVATION_HEIGHT && long then
      var decay := Share(acct.staked, INACTIVITY_LEAK_BPS);
      acct.(staked := acct.staked - decay,
            penalties := missed.(leaked := p.leaked + decay, slashed := p.slashed + decay))
    else acct.(penalties := missed)
  }

  lemma ChargeMissIs(rows: Rows, height: nat, x: Bytes, a: Bytes)
    ensures GetAccount(ChargeMiss(rows, height, x), a)
         == if a == x then Missing(GetAccount(rows, a), height) else GetAccount(rows, a)
  {
    hide DowntimeId, Share, SetAccount;
    var acct := OneMiss(GetAccount(rows, x));
    GetAfterSet(rows, x, Leaked(acct, height), a);
    GetAfterSet(rows, x, Jailed(acct, height), a);
    GetAfterSet(rows, x, acct, a);
  }

  lemma {:induction false} ChargeAllIs(rows: Rows, height: nat, missed: seq<Bytes>, a: Bytes)
    requires Issuance.Distinct(missed)
    ensures GetAccount(ChargeAll(rows, height, missed), a)
         == if a in missed then Missing(GetAccount(rows, a), height) else GetAccount(rows, a)
  {
    hide GetAccount, Missing, ChargeMiss;
    if missed != [] {
      var last := |missed| - 1;
      ChargeAllIs(rows, height, missed[..last], a);
      ChargeMissIs(ChargeAll(rows, height, missed[..last]), height, missed[last], a);
      assert missed == missed[..last] + [missed[last]];
    }
  }

  /** Sealing ends the producer's streak and, past the fork, a jail that absence caused. */
  function Present(acct: Account, height: nat): Account {
    var p := acct.penalties;
    var forgiven := height >= NO_DOWNTIME_JAIL_HEIGHT && !p.jailFault && !p.tombstoned && p.jailedUntil != TOMBSTONE_HEIGHT;
    acct.(penalties := p.(missedStreak := 0, jailedUntil := if forgiven then 0 else p.jailedUntil))
  }

  lemma ClearStreakIs(rows: Rows, height: nat, producer: Bytes, a: Bytes)
    ensures GetAccount(ClearStreak(rows, height, producer), a)
         == if a == producer then Present(GetAccount(rows, a), height) else GetAccount(rows, a)
  {
  }

  /** Was `a` elected on an earlier attempt than the one this block was sealed on? */
  ghost predicate Silent(env: Env, vals: seq<Validator>, height: nat, parentHash: Bytes, producer: Bytes, a: Bytes) {
    match UsedAttempt(env, vals, height, parentHash, producer, 0)
    case None => false
    case Some(used) => exists n: nat :: n < used && AttemptLeader(env, vals, height, parentHash, n) == Some(a)
  }

  /** Once slashing is active and there are two validators, the leaders that stayed silent
      are charged one miss each, the producer is cleared, and nobody else is touched. */
  lemma LivenessMoves(env: Env, rows: Rows, height: nat, parentHash: Bytes, producer: Bytes, a: Bytes)
    ensures var vals := ValidatorSetAt(rows, height);
            var x, y := GetAccount(rows, a), GetAccount(RecordLiveness(env, rows, height, parentHash, producer), a);
            if height < env.slashingActivation || |vals| < 2 || UsedAttempt(env, vals, height, parentHash, producer, 0).None? then
              y == x
            else
              y == if a == producer then Present(x, height)
                   else if Silent(env, vals, height, parentHash, producer, a) then Missing(x, height) else x
  {
    hide AttemptLeader, ValidatorSetAt, Missed, ChargeAll, ClearStreak, GetAccount, UsedAttempt, Issuance.Distinct,
         Missing, Present;
    var vals := ValidatorSetAt(rows, height);
    if height >= env.slashingActivation && |vals| >= 2 && UsedAttempt(env, vals, height, parentHash, producer, 0).Some? {
      var used := UsedAttempt(env, vals, height, parentHash, producer, 0).value;
      var missed := Missed(env, vals, height, parentHash, producer, used);
      Liveness.MissedAreSilentLeaders(env, vals, height, parentHash, producer, used, a);
      Issuance.MissedDistinct(env, vals, height, parentHash, producer, used);
      ChargeAllIs(rows, height, missed, a);
      ClearStreakIs(ChargeAll(rows, height, missed), height, producer, a);
    }
  }

  // ---- rewards ----

  ghost predicate DistinctAddresses(vals: seq<Validator>) {
    forall i, j :: 0 <= i < j < |vals| ==> vals[i].address != vals[j].address
  }

  /** The share of the validator at `a`, if there is one. */
  function CutOf(vals: seq<Validator>, total: nat, a: Bytes): nat
    requires total > 0
  {
    if vals == [] then 0 else
      var v := vals[|vals| - 1];
      CutOf(vals[..|vals| - 1], total, a) + if v.address == a then RewardCut(v.stake, total) else 0
  }

  /** It is the rounded-down share of the pot by stake, and nothing for anybody else. */
  lemma {:induction false} CutOfIs(vals: seq<Validator>, total: nat, a: Bytes)
    requires total > 0 && DistinctAddresses(vals)
    ensures forall i :: 0 <= i < |vals| && vals[i].address == a ==> CutOf(vals, total, a) == RewardCut(vals[i].stake, total)
    ensures (forall i :: 0 <= i < |vals| ==> vals[i].address != a) ==> CutOf(vals, total, a) == 0
  {
    hide RewardCut;
    if vals != [] {
      CutOfIs(vals[..|vals| - 1], total, a);
    }
  }

  lemma {:induction false} RewardAllIs(rows: Rows, vals: seq<Validator>, total: nat, a: Bytes)
    requires total > 0
    ensures var x, cut := GetAccount(rows, a), CutOf(vals, total, a);
            GetAccount(RewardAll(rows, vals, total), a) == x.(balance := x.balance + cut, rewards := x.rewards + cut)
  {
    hide SetAccount, RewardCut, GetAccount;
    if vals != [] {
      var v, before := vals[|vals| - 1], RewardAll(rows, vals[..|vals| - 1], total);
      RewardAllIs(rows, vals[..|vals| - 1], total, a);
      var acct, cut := GetAccount(before, v.address), RewardCut(v.stake, total);
      GetAfterSet(before, v.address, acct.(balance := acct.balance + cut, rewards := acct.rewards + cut), a);
    }
  }

  /** What the reward gives to `a`: its share, and to the leader the commission and what
      rounding leaves; without stake the leader takes it all. */
  ghost function RewardTo(vals: seq<Validator>, leader: Bytes, a: Bytes): nat {
    var total := TotalStake(vals);
    if total == 0 then if a == leader then BLOCK_REWARD else 0 else
      DistributedBounded(vals, total);
      CutOf(vals, total, a) + if a == leader then BLOCK_REWARD - Distributed(vals, total) else 0
  }

  /** The leader also takes the fees; nobody else's account changes but for the reward. */
  lemma RewardsMove(rows: Rows, leader: Bytes, fees: nat, a: Bytes)
    ensures var vals, x := ValidatorSetAt(rows, NextHeight(rows)), GetAccount(rows, a);
            var reward := RewardTo(vals, leader, a);
            GetAccount(PayRewards(rows, leader, fees), a)
            == x.(balance := x.balance + reward + (if a == leader then fees else 0), rewards := x.rewards + reward,
                  blocksProduced := x.blocksProduced + (if a == leader then 1 else 0))
  {
    hide ValidatorSetAt, RewardAll, TotalStake, Distributed, CutOf, GetAccount, SetAccount;
    var vals := ValidatorSetAt(rows, NextHeight(rows));
    var total := TotalStake(vals);
    if total == 0 {
      PayLeaderIs(rows, leader, fees + BLOCK_REWARD, BLOCK_REWARD, a);
    } else {
      DistributedBounded(vals, total);
      RewardAllIs(rows, vals, total, a);
      var dust := SHARED - Distributed(vals, total);
      PayLeaderIs(RewardAll(rows, vals, total), leader, fees + COMMISSION + dust, COMMISSION + dust, a);
    }
  }

  lemma PayLeaderIs(rows: Rows, leader: Bytes, amount: nat, reward: nat, a: Bytes)
    ensures var x := GetAccount(rows, a);
            GetAccount(PayLeader(rows, leader, amount, reward), a)
            == if a == leader then x.(balance := x.balance + amount, rewards := x.rewards + reward,
                                      blocksProduced := x.blocksProduced + 1) else x
  {
  }

  // ---- together ----

  /** The tables the reward is shared on. */
  ghost function Settled(env: Env, rows: Rows, height: nat, parentHash: Bytes, producer: Bytes): Rows {
    RecordLiveness(env, ReleaseUnbonded(rows, height), height, parentHash, producer)
  }

  /** At the end of a block an account's balance grows by its due unbonds, its reward and,
      for the producer, the fees; no balance shrinks. */
  lemma FinishPays(env: Env, rows: Rows, height: nat, parentHash: Bytes, producer: Bytes, fees: nat, a: Bytes)
    requires StakersExact(rows)
    ensures var x, y := GetAccount(rows, a), GetAccount(FinishBlock(env, rows, height, parentHash, producer, fees), a);
            var settled := Settled(env, rows, height, parentHash, producer);
      && y.balance == x.balance + UnbondingTotal(Matured(x.unbonding, height))
                      + RewardTo(ValidatorSetAt(settled, NextHeight(settled)), producer, a) + (if a == producer then fees else 0)
      && y.unbonding == Locked(x.unbonding, height) && y.nonce == x.nonce
      && y.penalties.tombstoned == x.penalties.tombstoned
      && y.staked == GetAccount(settled, a).staked
  {
    hide ReleaseUnbonded, RecordLiveness, PayRewards, SealShieldedRoot, ValidatorSetAt, RewardTo, GetAccount, Frame,
         StakersExact, Locked, Matured, UnbondingTotal, UsedAttempt, Silent;
    var rows1 := ReleaseUnbonded(rows, height);
    var rows2 := RecordLiveness(env, rows1, height, parentHash, producer);
    var rows3 := PayRewards(rows2, producer, fees);
    ReleaseMoves(rows, height, a);
    LivenessMoves(env, rows1, height, parentHash, producer, a);
    RewardsMove(rows2, producer, fees, a);
    FrameSeal(env, rows3, height);
    Effects.AccountsOutside(rows3, SealShieldedRoot(env, rows3, height), {Roots, Seals}, a);
  }

  // ---- the transaction index ----

  lemma {:induction false} IndexedAt(rows: Rows, txHash: Transaction -> Bytes, txs: seq<Transaction>, height: nat, hash: Bytes)
    ensures GetAmount(IndexTxs(rows, txHash, txs, height), TxK(hash))
         == if exists i :: 0 <= i < |txs| && txHash(txs[i]) == hash then height else GetAmount(rows, TxK(hash))
  {
    if txs != [] {
      var last := |txs| - 1;
      IndexedAt(rows, txHash, txs[..last], height, hash);
      assert forall i :: 0 <= i < last ==> txs[..last][i] == txs[i];
    }
  }

  /** A stored block makes its transactions findable at its height, and no others. */
  lemma StoredIsIndexed(env: Env, rows: Rows, b: Block, hash: Bytes)
    ensures GetAmount(StoreBlock(env, rows, b), TxK(hash))
         == if exists i :: 0 <= i < |b.transactions| && env.txHash(b.transactions[i]) == hash then b.header.height
            else GetAmount(rows, TxK(hash))
  {
    hide IndexTxs, Fees.NextBaseFee;
    IndexedAt(rows[BlockK(b.header.height) := BlockV(b)], env.txHash, b.transactions, b.header.height, hash);
  }

  // ---- the base fee ----

  function Sizes(blocks: seq<Block>): seq<nat> {
    seq(|blocks|, (i: int) requires 0 <= i < |blocks| => |blocks[i].transactions|)
  }

  lemma {:induction false} FeeRunSnoc(fee: nat, sizes: seq<nat>, txs: nat)
    ensures Fees.Run(fee, sizes + [txs]) == Fees.NextBaseFee(Fees.Run(fee, sizes), txs)
    decreases |sizes|
  {
    hide Fees.NextBaseFee;
    if sizes == [] {
      assert sizes + [txs] == [txs] && [txs][1..] == [];
    } else {
      assert (sizes + [txs])[1..] == sizes[1..] + [txs];
      FeeRunSnoc(Fees.NextBaseFee(fee, sizes[0]), sizes[1..], txs);
    }
  }

  lemma FeeOutside(rows: Rows, rows': Rows, touched: set<Table>)
    requires Frame(rows, rows', touched) && BaseFees !in touched
    ensures BaseFee(rows') == BaseFee(rows)
  {
    FrameSame(rows, rows', touched, BaseFeeK);
  }

  lemma StoredFee(env: Env, rows: Rows, b: Block)
    ensures BaseFee(StoreBlock(env, rows, b)) == Fees.NextBaseFee(BaseFee(rows), |b.transactions|)
  {
    hide PutBlock, Fees.NextBaseFee;
  }

  lemma ExecFee(env: Env, rows: Rows, b: Block)
    requires ExecBlock(env, rows, b).Ok?
    ensures BaseFee(ExecBlock(env, rows, b).value) == Fees.NextBaseFee(BaseFee(rows), |b.transactions|)
  {
    hide ApplyTxs, FinishBlock, StoreBlock, Frame, BaseFee, Fees.NextBaseFee;
    var h := b.header;
    FrameApplyTxs(env, rows, b.transactions, h.height);
    var (rows1, fees) := ApplyTxs(env, rows, b.transactions, h.height).value;
    FeeOutside(rows, rows1, TXS);
    FrameFinishBlock(env, rows1, h.height, h.parentHash, h.producer, fees);
    var rows2 := FinishBlock(env, rows1, h.height, h.parentHash, h.producer, fees);
    FeeOutside(rows1, rows2, FINISH);
    StoredFee(env, rows2, b);
  }

  lemma GenesisFee(env: Env, alloc: seq<Alloc>, genesis: Block)
    ensures BaseFee(Genesis(env, alloc, genesis)) == Fees.MIN_FEE
  {
    hide Frame, PutBlock, GenesisAccounts;
    FrameGenesisAccounts(alloc);
    FeeOutside(map[], GenesisAccounts(alloc), {Accounts});
    FramePutBlock(GenesisAccounts(alloc), env.txHash, genesis);
    FeeOutside(GenesisAccounts(alloc), Genesis(env, alloc, genesis), {Blocks, Frames.Tip});
  }

  /** On every chain the stored base fee is the controller's, run over the block sizes. */
  lemma {:induction false} BaseFeeOnEveryRun(env: Env, alloc: seq<Alloc>, genesis: Block, blocks: seq<Block>)
    requires RunBlocks(env, Genesis(env, alloc, genesis), blocks).Ok?
    ensures BaseFee(RunBlocks(env, Genesis(env, alloc, genesis), blocks).value) == Fees.Run(Fees.MIN_FEE, Sizes(blocks))
  {
    hide ExecBlock, Genesis, BaseFee, Fees.NextBaseFee;
    if blocks == [] {
      GenesisFee(env, alloc, genesis);
    } else {
      var last := |blocks| - 1;
      BaseFeeOnEveryRun(env, alloc, genesis, blocks[..last]);
      ExecFee(env, RunBlocks(env, Genesis(env, alloc, genesis), blocks[..last]).value, blocks[last]);
      FeeRunSnoc(Fees.MIN_FEE, Sizes(blocks[..last]), |blocks[last].transactions|);
      assert Sizes(blocks) == Sizes(blocks[..last]) + [|blocks[last].transactions|];
    }
  }
}
