/** Conservation over whole blocks and whole chains: the end-of-block steps move
    coins between pockets and issue exactly one block reward. */
module Issuance {
  import opened Base
  import opened Types
  import opened Decimal
  import opened Evidence
  import opened Election
  import opened Order
  import opened Tables
  import opened Ledger
  import opened Sums
  import opened Conservation
  import opened Frames

  // ---- downtime records never overwrite one another ----

  function LeadingDigits(x: Bytes): nat {
    if x == "" || !('0' <= x[0] <= '9') then 0 else 1 + LeadingDigits(x[1..])
  }

  lemma {:induction false} DigitsThenColon(d: Bytes, rest: Bytes)
    requires forall i :: 0 <= i < |d| ==> '0' <= d[i] <= '9'
    requires rest != "" && rest[0] == ':'
    ensures LeadingDigits(d + rest) == |d|
  {
    if d == "" {
      assert d + rest == rest;
    } else {
      assert (d + rest)[1..] == d[1..] + rest;
      DigitsThenColon(d[1..], rest);
    }
  }

  lemma DowntimeIdInjective(g: nat, a: Bytes, h: nat, b: Bytes)
    requires DowntimeId(g, a) == DowntimeId(h, b)
    ensures g == h && a == b
  {
    hide Dec;
    var x, y := Dec(g) + (":" + a), Dec(h) + (":" + b);
    assert DowntimeId(g, a) == "downtime:" + x && DowntimeId(h, b) == "downtime:" + y;
    assert ("downtime:" + x)[9..] == x && ("downtime:" + y)[9..] == y;
    forall i | 0 <= i < |Dec(g)| ensures '0' <= Dec(g)[i] <= '9' {
      DecIsDigits(g, Dec(g)[i]);
    }
    forall i | 0 <= i < |Dec(h)| ensures '0' <= Dec(h)[i] <= '9' {
      DecIsDigits(h, Dec(h)[i]);
    }
    DigitsThenColon(Dec(g), ":" + a);
    DigitsThenColon(Dec(h), ":" + b);
    var n := |Dec(g)|;
    assert x[..n] == Dec(g) && y[..n] == Dec(h);
    assert x[n + 1..] == a && y[n + 1..] == b;
    DecInjective(g, h);
  }

  lemma EvidenceIsNotDowntime(c: Crypto, e: Evidence, h: nat, a: Bytes)
    ensures EvidenceId(c, e) != DowntimeId(h, a)
  {
    hide Dec, Le;
    assert EvidenceId(c, e)[2] == e.Label()[2] == 'u';
    assert DowntimeId(h, a)[2] == 'w';
  }

  /** No downtime has been recorded at `height` or later. */
  ghost predicate FreshFrom(rows: Rows, height: nat) {
    forall h: nat, a: Bytes :: h >= height ==> !SlashKnown(rows, DowntimeId(h, a))
  }

  lemma FreshFrame(rows: Rows, rows': Rows, touched: set<Table>, height: nat)
    requires FreshFrom(rows, height) && Frame(rows, rows', touched) && Slashes !in touched
    ensures FreshFrom(rows', height)
  {
    hide DowntimeId;
    forall h: nat, a: Bytes | h >= height
      ensures !SlashKnown(rows', DowntimeId(h, a))
    {
      assert Same(rows, rows', SlashK(DowntimeId(h, a)));
      assert !SlashKnown(rows, DowntimeId(h, a));
    }
  }

  lemma FreshApplyReport(env: Env, rows: Rows, height: nat, reporter: Bytes, e: Evidence, from: nat)
    requires FreshFrom(rows, from) && ApplyReport(env, rows, height, reporter, e).Ok?
    ensures FreshFrom(ApplyReport(env, rows, height, reporter, e).value, from)
  {
    hide DowntimeId, EvidenceId, Slashed, Confiscated, TotalStaked, BurnPct, Bounty, SetAccount, Credit, GetAccount;
    var offender := Verify(env.crypto, e).value;
    var acct := GetAccount(rows, offender);
    BurnPctBounded(acct.staked, TotalStaked(rows));
    var pct := BurnPct(acct.staked, TotalStaked(rows));
    var rows1 := SetAccount(rows, offender, Slashed(acct, pct));
    SlashedEvolves(acct, pct);
    FrameSetAccount(rows, offender, Slashed(acct, pct), {Accounts});
    FreshFrame(rows, rows1, {Accounts}, from);
    var burned := Confiscated(acct, pct);
    var bounty := Bounty(burned, reporter, offender);
    FrameCredit(rows1, reporter, bounty, {Accounts});
    FreshFrame(rows1, Credit(rows1, reporter, bounty), {Accounts}, from);
    var rows2 := if bounty > 0 then Credit(rows1, reporter, bounty) else rows1;
    var record := EquivocationRecord(env, e, offender, height, burned, bounty, reporter);
    FreshPutEvidence(env, rows2, record, e, from);
  }

  lemma FreshPutEvidence(env: Env, rows: Rows, record: SlashRecord, e: Evidence, from: nat)
    requires FreshFrom(rows, from) && record.id == EvidenceId(env.crypto, e)
    ensures FreshFrom(PutSlash(rows, record), from)
  {
    hide DowntimeId, EvidenceId;
    forall h: nat, a: Bytes | h >= from
      ensures !SlashKnown(PutSlash(rows, record), DowntimeId(h, a))
    {
      EvidenceIsNotDowntime(env.crypto, e, h, a);
      assert !SlashKnown(rows, DowntimeId(h, a));
    }
  }

  lemma FreshApplyTx(env: Env, rows: Rows, tx: Transaction, height: nat, from: nat)
    requires FreshFrom(rows, from) && ApplyTx(env, rows, tx, height).Ok?
    ensures FreshFrom(ApplyTx(env, rows, tx, height).value.0, from)
  {
    hide FreshFrom, Frame, ApplyReport, CheckReport, SetAccount, Debit, Collected, Precheck;
    FrameApplyTx(env, rows, tx, height);
    if tx.kind.ReportEquivocation? {
      var sender := env.crypto.addressOf(tx.fromPubkey).value;
      var charged := Charged(GetAccount(rows, sender), Debit(tx));
      FrameSetAccount(rows, sender, charged, {Accounts});
      var rows1 := SetAccount(rows, sender, charged);
      FreshFrame(rows, rows1, {Accounts}, from);
      FreshApplyReport(env, rows1, height, sender, CheckReport(env, rows1, height, tx.payload).value, from);
    } else {
      hide ApplyTx;
      FreshFrame(rows, ApplyTx(env, rows, tx, height).value.0, TouchedBy(tx.kind), from);
    }
  }

  lemma {:induction false} FreshApplyTxs(env: Env, rows: Rows, txs: seq<Transaction>, height: nat, from: nat)
    requires FreshFrom(rows, from) && ApplyTxs(env, rows, txs, height).Ok?
    ensures FreshFrom(ApplyTxs(env, rows, txs, height).value.0, from)
  {
    hide FreshFrom, ApplyTx;
    if txs != [] {
      var last := |txs| - 1;
      FreshApplyTxs(env, rows, txs[..last], height, from);
      FreshApplyTx(env, ApplyTxs(env, rows, txs[..last], height).value.0, txs[last], height, from);
    }
  }

  // ---- unbonds released ----

  lemma {:induction false} MaturedAndLocked(us: seq<Unbond>, height: nat)
    ensures UnbondingTotal(Matured(us, height)) + UnbondingTotal(Locked(us, height)) == UnbondingTotal(us)
  {
    if us != [] {
      var last := |us| - 1;
      MaturedAndLocked(us[..last], height);
      UnbondingSnoc(us);
      UnbondingAppend(Matured(us[..last], height), us[last]);
      UnbondingAppend(Locked(us[..last], height), us[last]);
      assert Matured(us[..last], height) + [] == Matured(us[..last], height);
      assert Locked(us[..last], height) + [] == Locked(us[..last], height);
    }
  }

  lemma {:induction false} TotalReleaseAll(rows: Rows, addresses: seq<Bytes>, height: nat)
    ensures Total(ReleaseAll(rows, addresses, height)) == Total(rows)
  {
    hide Total, SetAccount, Matured, Locked, UnbondingTotal, GetAccount;
    if addresses != [] {
      var last := |addresses| - 1;
      TotalReleaseAll(rows, addresses[..last], height);
      var before, a := ReleaseAll(rows, addresses[..last], height), addresses[last];
      var acct := GetAccount(before, a);
      MaturedAndLocked(acct.unbonding, height);
      TotalSetAccount(before, a, acct.(unbonding := Locked(acct.unbonding, height),
        balance := acct.balance + UnbondingTotal(Matured(acct.unbonding, height))));
    }
  }

  // ---- liveness ----

  lemma TotalChargeMiss(rows: Rows, height: nat, a: Bytes)
    requires !SlashKnown(rows, DowntimeId(height, a))
    ensures Total(ChargeMiss(rows, height, a)) == Total(rows)
  {
    hide Total, SetAccount, UnbondingTotal, GetAccount, DowntimeId, SlashKnown, Share, PutSlash;
    var acct := OneMiss(GetAccount(rows, a));
    TotalSetAccount(rows, a, Leaked(acct, height));
    TotalSetAccount(rows, a, Jailed(acct, height));
    TotalSetAccount(rows, a, acct);
    var jailed := SetAccount(rows, a, Jailed(acct, height));
    var r := SlashRecord(DowntimeId(height, a), "downtime", a, height, height, RepeatBurn(acct), 0, "", false,
                         height + DOWNTIME_JAIL_BLOCKS);
    SlashesAfterSet(rows, a, Jailed(acct, height), r.id);
    TotalPutSlash(jailed, r);
  }

  ghost predicate Distinct(s: seq<Bytes>) {
    forall i, j :: 0 <= i < j < |s| ==> s[i] != s[j]
  }

  lemma {:induction false} MissedDistinct(env: Env, vals: seq<Validator>, height: nat, parentHash: Bytes, producer: Bytes, used: nat)
    ensures Distinct(Missed(env, vals, height, parentHash, producer, used))
  {
    hide AttemptLeader;
    if used > 0 {
      MissedDistinct(env, vals, height, parentHash, producer, used - 1);
    }
  }

  lemma SlashAfterChargeMiss(rows: Rows, height: nat, a: Bytes, id: Bytes)
    requires id != DowntimeId(height, a)
    ensures SlashKnown(ChargeMiss(rows, height, a), id) == SlashKnown(rows, id)
  {
    hide SetAccount, Leaked, Jailed, RepeatBurn, DowntimeId, OneMiss, GetAccount;
    var acct := OneMiss(GetAccount(rows, a));
    SlashesAfterSet(rows, a, Leaked(acct, height), id);
    SlashesAfterSet(rows, a, Jailed(acct, height), id);
    SlashesAfterSet(rows, a, acct, id);
  }

  lemma {:induction false} TotalChargeAll(rows: Rows, height: nat, missed: seq<Bytes>)
    requires FreshFrom(rows, height) && Distinct(missed)
    ensures Total(ChargeAll(rows, height, missed)) == Total(rows)
    ensures forall a :: a !in missed ==> !SlashKnown(ChargeAll(rows, height, missed), DowntimeId(height, a))
    ensures FreshFrom(ChargeAll(rows, height, missed), height + 1)
  {
    hide Total, ChargeMiss, DowntimeId, SlashKnown;
    if missed == [] {
      forall h: nat, a: Bytes | h >= height
        ensures !SlashKnown(rows, DowntimeId(h, a)) {}
    } else {
      var last := |missed| - 1;
      var front, x := missed[..last], missed[last];
      TotalChargeAll(rows, height, front);
      var before := ChargeAll(rows, height, front);
      assert x !in front;
      TotalChargeMiss(before, height, x);
      forall h: nat, a: Bytes | h > height || (h == height && a !in missed)
        ensures !SlashKnown(ChargeMiss(before, height, x), DowntimeId(h, a))
      {
        if DowntimeId(h, a) == DowntimeId(height, x) {
          DowntimeIdInjective(h, a, height, x);
        }
        SlashAfterChargeMiss(before, height, x, DowntimeId(h, a));
        assert h > height ==> !SlashKnown(before, DowntimeId(h, a));
        assert a !in missed ==> a !in front;
      }
    }
  }

  lemma TotalClearStreak(rows: Rows, height: nat, producer: Bytes)
    ensures Total(ClearStreak(rows, height, producer)) == Total(rows)
  {
    hide Total, SetAccount, UnbondingTotal, GetAccount;
    var acct := GetAccount(rows, producer);
    var p := acct.penalties;
    TotalSetAccount(rows, producer, acct.(penalties := p.(missedStreak := 0,
        jailedUntil := if ForgivesJail(p, height) then 0 else p.jailedUntil)));
  }

  lemma TotalRecordLiveness(env: Env, rows: Rows, height: nat, parentHash: Bytes, producer: Bytes)
    requires FreshFrom(rows, height)
    ensures Total(RecordLiveness(env, rows, height, parentHash, producer)) == Total(rows)
    ensures FreshFrom(RecordLiveness(env, rows, height, parentHash, producer), height + 1)
  {
    hide Total, ChargeAll, ClearStreak, ValidatorSetAt, FreshFrom, UsedAttempt, Missed, Distinct;
    match Absent(env, rows, height, parentHash, producer)
    case None => FreshLater(rows, height);
    case Some(missed) =>
      var vals := ValidatorSetAt(rows, height);
      MissedDistinct(env, vals, height, parentHash, producer, UsedAttempt(env, vals, height, parentHash, producer, 0).value);
      TotalChargeAll(rows, height, missed);
      var charged := ChargeAll(rows, height, missed);
      TotalClearStreak(charged, height, producer);
      FrameClearStreak(charged, height, producer);
      FreshFrame(charged, ClearStreak(charged, height, producer), {Accounts}, height + 1);
  }

  lemma FreshLater(rows: Rows, height: nat)
    requires FreshFrom(rows, height)
    ensures FreshFrom(rows, height + 1)
  {
  }

  // ---- rewards ----

  lemma {:induction false} TotalRewardAll(rows: Rows, vals: seq<Validator>, total: nat)
    requires total > 0
    ensures Total(RewardAll(rows, vals, total)) == Total(rows) + Distributed(vals, total)
  {
    hide Total, SetAccount, RewardCut, UnbondingTotal, GetAccount;
    if vals != [] {
      var v, before := vals[|vals| - 1], RewardAll(rows, vals[..|vals| - 1], total);
      TotalRewardAll(rows, vals[..|vals| - 1], total);
      var acct, cut := GetAccount(before, v.address), RewardCut(v.stake, total);
      TotalSetAccount(before, v.address, acct.(balance := acct.balance + cut, rewards := acct.rewards + cut));
    }
  }

  lemma TotalPayLeader(rows: Rows, leader: Bytes, amount: nat, reward: nat)
    ensures Total(PayLeader(rows, leader, amount, reward)) == Total(rows) + amount
  {
    hide Total, SetAccount, UnbondingTotal, GetAccount;
    var acct := GetAccount(rows, leader);
    TotalSetAccount(rows, leader, acct.(balance := acct.balance + amount, rewards := acct.rewards + reward,
                                        blocksProduced := acct.blocksProduced + 1));
  }

  /** The fees come back and exactly one block reward is issued, dust included. */
  lemma TotalPayRewards(rows: Rows, leader: Bytes, fees: nat)
    ensures Total(PayRewards(rows, leader, fees)) == Total(rows) + fees + BLOCK_REWARD
  {
    hide Total, RewardAll, Distributed, ValidatorSetAt, TotalStake, PayLeader;
    var vals := ValidatorSetAt(rows, NextHeight(rows));
    var total := TotalStake(vals);
    if total == 0 {
      TotalPayLeader(rows, leader, fees + BLOCK_REWARD, BLOCK_REWARD);
    } else {
      DistributedBounded(vals, total);
      var dust := SHARED - Distributed(vals, total);
      TotalRewardAll(rows, vals, total);
      TotalPayLeader(RewardAll(rows, vals, total), leader, fees + COMMISSION + dust, COMMISSION + dust);
    }
  }

  // ---- a frame without coins ----

  lemma TotalFrame(rows: Rows, rows': Rows, touched: set<Table>)
    requires Frame(rows, rows', touched)
    requires Accounts !in touched && Slashes !in touched && Pool !in touched
    ensures Total(rows') == Total(rows)
  {
    forall k
      ensures At(rows, k, Worth) == At(rows', k, Worth)
    {
      if !Neutral(k) {
        assert Same(rows, rows', k);
      }
    }
    SumAgrees(rows, rows', Worth);
  }

  // ---- whole blocks ----

  lemma TotalFinishBlock(env: Env, rows: Rows, height: nat, parentHash: Bytes, producer: Bytes, fees: nat)
    requires FreshFrom(rows, height)
    ensures var rows' := FinishBlock(env, rows, height, parentHash, producer, fees);
            Total(rows') == Total(rows) + fees + BLOCK_REWARD && FreshFrom(rows', height + 1)
  {
    hide Total, FreshFrom, ReleaseAll, RecordLiveness, PayRewards, SealShieldedRoot, StakerList, Frame;
    TotalReleaseAll(rows, StakerList(rows), height);
    FrameReleaseAll(rows, StakerList(rows), height);
    var rows1 := ReleaseUnbonded(rows, height);
    FreshFrame(rows, rows1, {Accounts}, height);
    TotalRecordLiveness(env, rows1, height, parentHash, producer);
    var rows2 := RecordLiveness(env, rows1, height, parentHash, producer);
    TotalPayRewards(rows2, producer, fees);
    FramePayRewards(rows2, producer, fees);
    var rows3 := PayRewards(rows2, producer, fees);
    FreshFrame(rows2, rows3, {Accounts}, height + 1);
    FrameSeal(env, rows3, height);
    TotalFrame(rows3, SealShieldedRoot(env, rows3, height), {Roots, Seals});
    FreshFrame(rows3, SealShieldedRoot(env, rows3, height), {Roots, Seals}, height + 1);
  }

  lemma TotalExecBlock(env: Env, rows: Rows, b: Block)
    requires Total(rows) < U128_MAX && FreshFrom(rows, NextHeight(rows)) && ExecBlock(env, rows, b).Ok?
    ensures var rows' := ExecBlock(env, rows, b).value;
            && Total(rows') == Total(rows) + BLOCK_REWARD
            && Tables.Tip(rows') == Some(NextHeight(rows))
            && FreshFrom(rows', NextHeight(rows'))
  {
    hide Total, FreshFrom, ApplyTxs, FinishBlock, Frame;
    var h := b.header;
    var (rows1, fees) := ApplyTxs(env, rows, b.transactions, h.height).value;
    TotalApplyTxs(env, rows, b.transactions, h.height);
    FreshApplyTxs(env, rows, b.transactions, h.height, h.height);
    TotalFinishBlock(env, rows1, h.height, h.parentHash, h.producer, fees);
    var rows2 := FinishBlock(env, rows1, h.height, h.parentHash, h.producer, fees);
    FrameStoreBlock(env, rows2, b);
    TotalFrame(rows2, StoreBlock(env, rows2, b), {Blocks, Frames.Tip, BaseFees});
    FreshFrame(rows2, StoreBlock(env, rows2, b), {Blocks, Frames.Tip, BaseFees}, h.height + 1);
  }

  lemma {:induction false} TotalGenesisAccounts(alloc: seq<Alloc>)
    ensures Total(GenesisAccounts(alloc)) == Allocated(alloc)
  {
    hide SetAccount, UnbondingTotal, GetAccount, Total;
    if alloc == [] {
      TotalOfNothing();
    } else {
      var last := |alloc| - 1;
      TotalGenesisAccounts(alloc[..last]);
      var a, rows := alloc[last], GenesisAccounts(alloc[..last]);
      var acct := GetAccount(rows, a.address);
      var funded := acct.(balance := acct.balance + a.balance, staked := acct.staked + a.stake);
      TotalSetAccount(rows, a.address, funded);
    }
  }

  lemma TotalOfNothing()
    ensures Total(map[]) == 0
  {
  }

  lemma TotalGenesis(env: Env, alloc: seq<Alloc>, block: Block)
    requires block.header.height == 0
    ensures var rows := Genesis(env, alloc, block);
            Total(rows) == Allocated(alloc) && Tables.Tip(rows) == Some(0) && FreshFrom(rows, 0)
  {
    hide Total, Frame;
    TotalGenesisAccounts(alloc);
    FrameGenesisAccounts(alloc);
    FramePutBlock(GenesisAccounts(alloc), env.txHash, block);
    TotalFrame(GenesisAccounts(alloc), Genesis(env, alloc, block), {Blocks, Frames.Tip});
    FreshNothing();
    FreshFrame(map[], GenesisAccounts(alloc), {Accounts}, 0);
    FreshFrame(GenesisAccounts(alloc), Genesis(env, alloc, block), {Blocks, Frames.Tip}, 0);
  }

  lemma FreshNothing()
    ensures FreshFrom(map[], 0)
  {
  }

  lemma {:induction false} TotalRunBlocks(env: Env, rows: Rows, blocks: seq<Block>)
    requires FreshFrom(rows, NextHeight(rows)) && Tables.Tip(rows).Some?
    requires Total(rows) + BLOCK_REWARD * |blocks| < U128_MAX
    requires RunBlocks(env, rows, blocks).Ok?
    ensures var rows' := RunBlocks(env, rows, blocks).value;
            && Total(rows') == Total(rows) + BLOCK_REWARD * |blocks|
            && Tables.Tip(rows') == Some(Tables.Tip(rows).value + |blocks|)
            && FreshFrom(rows', NextHeight(rows'))
  {
    hide Total, FreshFrom, ExecBlock;
    if blocks != [] {
      var last := |blocks| - 1;
      TotalRunBlocks(env, rows, blocks[..last]);
      TotalExecBlock(env, RunBlocks(env, rows, blocks[..last]).value, blocks[last]);
    }
  }

  /** Over every chain: supply + pool + burns + leaks = allocation + reward x height. */
  lemma SupplyIsConserved(env: Env, alloc: seq<Alloc>, genesis: Block, blocks: seq<Block>)
    requires genesis.header.height == 0
    requires Allocated(alloc) + BLOCK_REWARD * |blocks| < U128_MAX
    requires RunBlocks(env, Genesis(env, alloc, genesis), blocks).Ok?
    ensures var rows := RunBlocks(env, Genesis(env, alloc, genesis), blocks).value;
            && Tables.Tip(rows) == Some(|blocks|)
            && TotalSupply(rows) + PoolBalance(rows) + Sum(rows, BurnedOf) + Sum(rows, LeakedOf)
               == Allocated(alloc) + BLOCK_REWARD * |blocks|
  {
    hide Total, FreshFrom, RunBlocks, Genesis;
    TotalGenesis(env, alloc, genesis);
    FreshLater(Genesis(env, alloc, genesis), 0);
    TotalRunBlocks(env, Genesis(env, alloc, genesis), blocks);
    TotalIsSumOfParts(RunBlocks(env, Genesis(env, alloc, genesis), blocks).value);
  }

  /** Hence no stored amount can reach the 128-bit limit while the issuance has not. */
  lemma AmountsFitIn128Bits(env: Env, alloc: seq<Alloc>, genesis: Block, blocks: seq<Block>, a: Bytes)
    requires genesis.header.height == 0
    requires Allocated(alloc) + BLOCK_REWARD * |blocks| < U128_MAX
    requires RunBlocks(env, Genesis(env, alloc, genesis), blocks).Ok?
    ensures var acct := GetAccount(RunBlocks(env, Genesis(env, alloc, genesis), blocks).value, a);
            acct.balance + acct.staked + UnbondingTotal(acct.unbonding) + acct.penalties.leaked < U128_MAX
  {
    hide Total, FreshFrom, RunBlocks, Genesis;
    TotalGenesis(env, alloc, genesis);
    FreshLater(Genesis(env, alloc, genesis), 0);
    TotalRunBlocks(env, Genesis(env, alloc, genesis), blocks);
    AccountWithinTotal(RunBlocks(env, Genesis(env, alloc, genesis), blocks).value, a);
  }
}
