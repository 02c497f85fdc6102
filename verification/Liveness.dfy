/** End-of-block duties: matured unbonds leave, and missed slots are charged to
    exactly the leaders that stayed silent (src/staking.rs, src/slashing.rs). */
module Liveness {
  import opened Base
  import opened Types
  import opened Election
  import opened Order
  import opened Tables
  import opened Ledger
  import opened Frames
  import opened Books
  import Issuance

  // ---- no matured unbond survives a block ----

  ghost predicate AllLocked(us: seq<Unbond>, height: nat) {
    forall i :: 0 <= i < |us| ==> us[i].releaseHeight > height
  }

  ghost predicate NothingMatured(rows: Rows, height: nat) {
    forall a :: AllLocked(GetAccount(rows, a).unbonding, height)
  }

  lemma {:induction false} LockedIsLocked(us: seq<Unbond>, height: nat)
    ensures AllLocked(Locked(us, height), height)
    ensures Matured(us, height) == [] ==> Locked(us, height) == us
  {
    if us != [] {
      var last := |us| - 1;
      LockedIsLocked(us[..last], height);
      assert us == us[..last] + [us[last]];
    }
  }

  lemma ReleaseOneUnbonding(rows: Rows, x: Bytes, height: nat, a: Bytes)
    ensures GetAccount(ReleaseOne(rows, x, height), a).unbonding
         == if a == x then Locked(GetAccount(rows, a).unbonding, height) else GetAccount(rows, a).unbonding
  {
    hide Matured, Locked, UnbondingTotal;
    LockedIsLocked(GetAccount(rows, x).unbonding, height);
  }

  lemma {:induction false} LockedTwice(us: seq<Unbond>, height: nat)
    requires AllLocked(us, height)
    ensures Locked(us, height) == us
  {
    if us != [] {
      var last := |us| - 1;
      LockedTwice(us[..last], height);
      assert us == us[..last] + [us[last]];
    }
  }

  lemma {:induction false} ReleaseAllUnbonding(rows: Rows, list: seq<Bytes>, height: nat, a: Bytes)
    ensures GetAccount(ReleaseAll(rows, list, height), a).unbonding
         == if a in list then Locked(GetAccount(rows, a).unbonding, height) else GetAccount(rows, a).unbonding
  {
    hide ReleaseOne, Locked, GetAccount;
    if list != [] {
      var last := |list| - 1;
      ReleaseAllUnbonding(rows, list[..last], height, a);
      var before := ReleaseAll(rows, list[..last], height);
      ReleaseOneUnbonding(before, list[last], height, a);
      assert list == list[..last] + [list[last]];
      LockedIsLocked(GetAccount(rows, a).unbonding, height);
      LockedTwice(Locked(GetAccount(rows, a).unbonding, height), height);
    }
  }

  lemma ReleaseClears(rows: Rows, height: nat)
    requires StakersExact(rows)
    ensures NothingMatured(ReleaseUnbonded(rows, height), height)
  {
    hide ReleaseAll, Locked;
    var list := StakerList(rows);
    forall a
      ensures AllLocked(GetAccount(ReleaseUnbonded(rows, height), a).unbonding, height)
    {
      ReleaseAllUnbonding(rows, list, height, a);
      LockedIsLocked(GetAccount(rows, a).unbonding, height);
      assert Indexed(rows, a);
      assert a in Elems(list) <==> a in Stakers(rows);
    }
  }

  ghost predicate KeepsUnbonding(rows: Rows, rows': Rows) {
    forall a :: GetAccount(rows', a).unbonding == GetAccount(rows, a).unbonding
  }

  lemma SetKeepsUnbonding(rows: Rows, x: Bytes, acct: Account)
    requires acct.unbonding == GetAccount(rows, x).unbonding
    ensures KeepsUnbonding(rows, SetAccount(rows, x, acct))
  {
  }

  lemma FrameKeepsUnbonding(rows: Rows, rows': Rows, touched: set<Table>)
    requires Frame(rows, rows', touched) && Accounts !in touched
    ensures KeepsUnbonding(rows, rows')
  {
    forall a
      ensures GetAccount(rows', a).unbonding == GetAccount(rows, a).unbonding
    {
      assert Same(rows, rows', AccountK(a));
    }
  }

  lemma ChargeMissKeepsUnbonding(rows: Rows, height: nat, x: Bytes)
    ensures KeepsUnbonding(rows, ChargeMiss(rows, height, x))
  {
    hide SetAccount, DowntimeId, RepeatBurn, Share;
    var acct := OneMiss(GetAccount(rows, x));
    SetKeepsUnbonding(rows, x, Leaked(acct, height));
    SetKeepsUnbonding(rows, x, Jailed(acct, height));
    SetKeepsUnbonding(rows, x, acct);
    var jailed := SetAccount(rows, x, Jailed(acct, height));
    var r := SlashRecord(DowntimeId(height, x), "downtime", x, height, height, RepeatBurn(acct), 0, "", false,
                         height + DOWNTIME_JAIL_BLOCKS);
    FramePut(jailed, SlashK(r.id), SlashV(r), {Slashes});
    FrameKeepsUnbonding(jailed, PutSlash(jailed, r), {Slashes});
  }

  lemma {:induction false} ChargeAllKeepsUnbonding(rows: Rows, height: nat, missed: seq<Bytes>)
    ensures KeepsUnbonding(rows, ChargeAll(rows, height, missed))
  {
    hide ChargeMiss, GetAccount;
    if missed != [] {
      var last := |missed| - 1;
      ChargeAllKeepsUnbonding(rows, height, missed[..last]);
      ChargeMissKeepsUnbonding(ChargeAll(rows, height, missed[..last]), height, missed[last]);
    }
  }

  lemma LivenessKeepsUnbonding(env: Env, rows: Rows, height: nat, parentHash: Bytes, producer: Bytes)
    ensures KeepsUnbonding(rows, RecordLiveness(env, rows, height, parentHash, producer))
  {
    hide Absent, ChargeAll, SetAccount;
    match Absent(env, rows, height, parentHash, producer)
    case None =>
    case Some(missed) =>
      ChargeAllKeepsUnbonding(rows, height, missed);
      var charged := ChargeAll(rows, height, missed);
      var acct := GetAccount(charged, producer);
      var p := acct.penalties;
      SetKeepsUnbonding(charged, producer, acct.(penalties := p.(missedStreak := 0,
        jailedUntil := if ForgivesJail(p, height) then 0 else p.jailedUntil)));
  }

  lemma {:induction false} RewardAllKeepsUnbonding(rows: Rows, vals: seq<Validator>, total: nat)
    requires total > 0
    ensures KeepsUnbonding(rows, RewardAll(rows, vals, total))
  {
    hide SetAccount, RewardCut;
    if vals != [] {
      var v, before := vals[|vals| - 1], RewardAll(rows, vals[..|vals| - 1], total);
      RewardAllKeepsUnbonding(rows, vals[..|vals| - 1], total);
      var acct, cut := GetAccount(before, v.address), RewardCut(v.stake, total);
      SetKeepsUnbonding(before, v.address, acct.(balance := acct.balance + cut, rewards := acct.rewards + cut));
    }
  }

  lemma PayLeaderKeepsUnbonding(rows: Rows, leader: Bytes, amount: nat, reward: nat)
    ensures KeepsUnbonding(rows, PayLeader(rows, leader, amount, reward))
  {
    hide SetAccount;
    var acct := GetAccount(rows, leader);
    SetKeepsUnbonding(rows, leader, acct.(balance := acct.balance + amount, rewards := acct.rewards + reward,
                                          blocksProduced := acct.blocksProduced + 1));
  }

  lemma PayKeepsUnbonding(rows: Rows, leader: Bytes, fees: nat)
    ensures KeepsUnbonding(rows, PayRewards(rows, leader, fees))
  {
    hide RewardAll, Distributed, ValidatorSetAt, TotalStake, PayLeader, GetAccount;
    var vals := ValidatorSetAt(rows, NextHeight(rows));
    var total := TotalStake(vals);
    if total == 0 {
      PayLeaderKeepsUnbonding(rows, leader, fees + BLOCK_REWARD, BLOCK_REWARD);
    } else {
      DistributedBounded(vals, total);
      var dust := SHARED - Distributed(vals, total);
      RewardAllKeepsUnbonding(rows, vals, total);
      PayLeaderKeepsUnbonding(RewardAll(rows, vals, total), leader, fees + COMMISSION + dust, COMMISSION + dust);
    }
  }

  /** After every block, no account anywhere still holds an unbond due at its height. */
  lemma NoMaturedUnbondSurvives(env: Env, rows: Rows, b: Block)
    requires StakersExact(rows) && ExecBlock(env, rows, b).Ok?
    ensures NothingMatured(ExecBlock(env, rows, b).value, b.header.height)
  {
    hide ApplyTxs, ReleaseUnbonded, RecordLiveness, PayRewards, SealShieldedRoot, StoreBlock, Frame, GetAccount,
         StakersExact;
    var h := b.header;
    var (rows0, fees) := ApplyTxs(env, rows, b.transactions, h.height).value;
    FrameApplyTxs(env, rows, b.transactions, h.height);
    StakersStayExact(rows, rows0, TXS);
    ReleaseClears(rows0, h.height);
    var rows1 := ReleaseUnbonded(rows0, h.height);
    LivenessKeepsUnbonding(env, rows1, h.height, h.parentHash, h.producer);
    var rows2 := RecordLiveness(env, rows1, h.height, h.parentHash, h.producer);
    PayKeepsUnbonding(rows2, h.producer, fees);
    var rows3 := PayRewards(rows2, h.producer, fees);
    FrameSeal(env, rows3, h.height);
    var rows4 := SealShieldedRoot(env, rows3, h.height);
    FrameKeepsUnbonding(rows3, rows4, {Roots, Seals});
    FrameStoreBlock(env, rows4, b);
    FrameKeepsUnbonding(rows4, StoreBlock(env, rows4, b), {Blocks, Frames.Tip, BaseFees});
  }

  /** The same at every point of every chain. */
  lemma NothingMaturedOnEveryRun(env: Env, alloc: seq<Alloc>, genesis: Block, blocks: seq<Block>)
    requires blocks != [] && RunBlocks(env, Genesis(env, alloc, genesis), blocks).Ok?
    ensures NothingMatured(RunBlocks(env, Genesis(env, alloc, genesis), blocks).value,
                           blocks[|blocks| - 1].header.height)
  {
    hide ExecBlock, Genesis, NothingMatured, StakersExact;
    var last := |blocks| - 1;
    StakersExactOnEveryRun(env, alloc, genesis, blocks[..last]);
    NoMaturedUnbondSurvives(env, RunBlocks(env, Genesis(env, alloc, genesis), blocks[..last]).value, blocks[last]);
  }

  // ---- exactly the silent leaders are charged ----

  /** The attempt the producer used is the least one that elects it. */
  lemma {:induction false} UsedIsLeast(env: Env, vals: seq<Validator>, height: nat, parentHash: Bytes, producer: Bytes, from: nat)
    ensures match UsedAttempt(env, vals, height, parentHash, producer, from)
            case None => forall n :: from <= n < MAX_LEADER_ATTEMPTS ==>
                           AttemptLeader(env, vals, height, parentHash, n) != Some(producer)
            case Some(used) =>
              && from <= used < MAX_LEADER_ATTEMPTS
              && AttemptLeader(env, vals, height, parentHash, used) == Some(producer)
              && forall n :: from <= n < used ==> AttemptLeader(env, vals, height, parentHash, n) != Some(producer)
    decreases MAX_LEADER_ATTEMPTS - from
  {
    hide AttemptLeader;
    if from < MAX_LEADER_ATTEMPTS && AttemptLeader(env, vals, height, parentHash, from) != Some(producer) {
      UsedIsLeast(env, vals, height, parentHash, producer, from + 1);
    }
  }

  lemma {:induction false} MissedAreSilentLeaders(env: Env, vals: seq<Validator>, height: nat, parentHash: Bytes,
                                                  producer: Bytes, used: nat, a: Bytes)
    ensures a in Missed(env, vals, height, parentHash, producer, used) <==>
            a != producer && exists n: nat :: n < used && AttemptLeader(env, vals, height, parentHash, n) == Some(a)
  {
    hide AttemptLeader;
    if used > 0 {
      MissedAreSilentLeaders(env, vals, height, parentHash, producer, used - 1, a);
      assert AttemptLeader(env, vals, height, parentHash, used - 1) == Some(a) ||
             AttemptLeader(env, vals, height, parentHash, used - 1) != Some(a);
    }
  }

  lemma ChargeMissCounts(rows: Rows, height: nat, x: Bytes, a: Bytes)
    ensures GetAccount(ChargeMiss(rows, height, x), a).penalties.missedSlots
         == GetAccount(rows, a).penalties.missedSlots + if a == x then 1 else 0
  {
    hide DowntimeId, RepeatBurn, Share;
  }

  lemma {:induction false} ChargeAllCounts(rows: Rows, height: nat, missed: seq<Bytes>, a: Bytes)
    requires Issuance.Distinct(missed)
    ensures GetAccount(ChargeAll(rows, height, missed), a).penalties.missedSlots
         == GetAccount(rows, a).penalties.missedSlots + if a in missed then 1 else 0
  {
    hide ChargeMiss, GetAccount;
    if missed != [] {
      var last := |missed| - 1;
      ChargeAllCounts(rows, height, missed[..last], a);
      ChargeMissCounts(ChargeAll(rows, height, missed[..last]), height, missed[last], a);
      assert missed == missed[..last] + [missed[last]];
    }
  }

  lemma ClearStreakCounts(rows: Rows, height: nat, producer: Bytes, a: Bytes)
    ensures GetAccount(ClearStreak(rows, height, producer), a).penalties.missedSlots
         == GetAccount(rows, a).penalties.missedSlots
  {
  }

  /** When a block is sealed on the least attempt `used` that elects its producer, one
      miss goes to each account elected on an earlier attempt, and to nobody else. */
  lemma MissesAreExact(env: Env, rows: Rows, height: nat, parentHash: Bytes, producer: Bytes, a: Bytes)
    requires height >= env.slashingActivation && |ValidatorSetAt(rows, height)| >= 2
    ensures var vals := ValidatorSetAt(rows, height);
            var before, after := GetAccount(rows, a).penalties.missedSlots,
                GetAccount(RecordLiveness(env, rows, height, parentHash, producer), a).penalties.missedSlots;
            match UsedAttempt(env, vals, height, parentHash, producer, 0)
            case None => after == before
            case Some(used) =>
              var silent := exists n: nat :: n < used && AttemptLeader(env, vals, height, parentHash, n) == Some(a);
              after == before + if silent then 1 else 0
  {
    hide AttemptLeader, ValidatorSetAt, Missed, ChargeAll, ClearStreak, GetAccount, UsedAttempt, Issuance.Distinct;
    var vals := ValidatorSetAt(rows, height);
    UsedIsLeast(env, vals, height, parentHash, producer, 0);
    match UsedAttempt(env, vals, height, parentHash, producer, 0)
    case None =>
    case Some(used) =>
      var missed := Missed(env, vals, height, parentHash, producer, used);
      MissedAreSilentLeaders(env, vals, height, parentHash, producer, used, a);
      Issuance.MissedDistinct(env, vals, height, parentHash, producer, used);
      ChargeAllCounts(rows, height, missed, a);
      ClearStreakCounts(ChargeAll(rows, height, missed), height, producer, a);
  }
}
