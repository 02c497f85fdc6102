/** Penalties in place (src/slashing.rs): equivocation slashes, leaving jail, and
    the liveness ledger. */
module Slashing {
  import opened Base
  import opened Order
  import opened Election
  import opened Evidence
  import opened Tables
  import opened Ledger
  import opened MerkleState
  import opened Store
  import Staking

  /** Cut every locked entry, then drop the ones cut to nothing. */
  method CutUnbonds(us: seq<Unbond>, pct: nat) returns (kept: seq<Unbond>, burned: nat)
    requires pct <= 100
    ensures kept == KeepPositive(CutUnbonding(us, pct)) && burned == CutTotal(us, pct)
  {
    hide Cut;
    var left := us;
    burned := 0;
    for i := 0 to |us|
      invariant |left| == |us| && left[..i] == CutUnbonding(us[..i], pct)
      invariant forall j :: i <= j < |us| ==> left[j] == us[j]
      invariant burned == CutTotal(us[..i], pct)
    {
      var cut := Cut(us[i].amount, pct);
      left := left[i := us[i].(amount := us[i].amount - cut)];
      burned := burned + cut;
      assert us[..i + 1][..i] == us[..i];
      assert left[..i + 1] == left[..i] + [left[i]];
    }
    assert us[..|us|] == us && left[..|us|] == left;
    kept := DropEmpty(left);
  }

  method DropEmpty(us: seq<Unbond>) returns (kept: seq<Unbond>)
    ensures kept == KeepPositive(us)
  {
    kept := [];
    for i := 0 to |us|
      invariant kept == KeepPositive(us[..i])
    {
      assert us[..i + 1][..i] == us[..i];
      if us[i].amount > 0 {
        kept := kept + [us[i]];
      }
    }
    assert us[..|us|] == us;
  }

  method TotalStaked(db: Database) returns (total: nat)
    ensures total == Ledger.TotalStaked(db.rows.table)
  {
    var list := db.StakeAccounts();
    var rows := db.rows.table;
    ghost var vals := AsValidators(rows, list);
    total := 0;
    for i := 0 to |list|
      invariant total == TotalStake(vals[..i])
    {
      PrefixStake(vals, i);
      total := total + GetAccount(rows, list[i]).staked;
    }
    assert vals[..|list|] == vals;
  }

  /** The reporter's share comes out of what was taken; self-reports earn nothing. */
  method PayBounty(db: Database, burned: nat, reporter: Bytes, offender: Bytes) returns (bounty: nat)
    requires db.Valid()
    modifies db`leaves, db`names, db.rows`table, db.rows`frames, db.nodes`table, db.nodes`frames
    ensures db.Valid() && bounty == Bounty(burned, reporter, offender) && bounty <= burned
    ensures db.rows.table == if bounty > 0 then Ledger.Credit(old(db.rows.table), reporter, bounty) else old(db.rows.table)
  {
    hide db.Valid, SetAccount;
    CutBounded(burned, REPORTER_BOUNTY_PCT);
    bounty := Mul128(burned, REPORTER_BOUNTY_PCT) / 100;
    if bounty > 0 && reporter != offender {
      var to := GetAccount(db.rows.table, reporter);
      db.SetAccount(reporter, to.(balance := to.balance + bounty));
    } else {
      bounty := 0;
    }
  }

  method ApplyReport(env: Env, db: Database, height: nat, reporter: Bytes, e: Evidence) returns (r: Result<()>)
    requires db.Valid()
    modifies db`leaves, db`names, db.rows`table, db.rows`frames, db.nodes`table, db.nodes`frames
    ensures db.Valid()
    ensures var spec := Ledger.ApplyReport(env, old(db.rows.table), height, reporter, e);
            r.Ok? == spec.Ok? && (r.Ok? ==> db.rows.table == spec.value)
  {
    hide db.Valid, SetAccount, Verify, EvidenceId, BurnPct, Ledger.TotalStaked, KeepPositive, CutUnbonding, CutTotal,
         Cut, Bounty, Ledger.Credit, NameSet;
    var offender :- Verify(env.crypto, e);
    if SlashKnown(db.rows.table, EvidenceId(env.crypto, e)) {
      return Err("this offence has already been slashed");
    }
    var acct := GetAccount(db.rows.table, offender);
    if acct.penalties.tombstoned {
      return Err("validator is already tombstoned");
    }
    var total := TotalStaked(db);
    var pct := BurnPct(acct.staked, total);
    BurnPctBounded(acct.staked, total);
    var burned := Cut(acct.staked, pct);
    acct := acct.(staked := acct.staked - burned);
    var kept, cut := CutUnbonds(acct.unbonding, pct);
    burned := burned + cut;
    var p := acct.penalties;
    acct := acct.(unbonding := kept,
                  penalties := p.(tombstoned := true, jailedUntil := TOMBSTONE_HEIGHT, jailFault := true,
                                  slashed := p.slashed + burned));
    db.SetAccount(offender, acct);
    var bounty := PayBounty(db, burned, reporter, offender);
    var record := SlashRecord(EvidenceId(env.crypto, e), e.Label(), offender, e.Height(), height,
                              burned - bounty, bounty, reporter, true, TOMBSTONE_HEIGHT);
    db.Write(SlashK(record.id), Some(SlashV(record)));
    r := Ok(());
  }

  method ApplyUnjail(db: Database, height: nat, a: Bytes) returns (r: Result<()>)
    requires db.Valid()
    modifies db`leaves, db`names, db.rows`table, db.rows`frames, db.nodes`table, db.nodes`frames
    ensures db.Valid()
    ensures var spec := Ledger.ApplyUnjail(old(db.rows.table), height, a);
            r.Ok? == spec.Ok? && (r.Ok? ==> db.rows.table == spec.value)
  {
    hide db.Valid, SetAccount;
    var acct := GetAccount(db.rows.table, a);
    if acct.penalties.tombstoned {
      return Err("tombstoned validators can never rejoin");
    }
    if acct.penalties.jailedUntil == 0 {
      return Err("validator is not jailed");
    }
    if acct.penalties.jailFault {
      return Err("this jail came from a provable fault and cannot be lifted");
    }
    if acct.penalties.jailedUntil > height && DowntimeJailEnabled(height) {
      return Err("still jailed");
    }
    acct := acct.(penalties := acct.penalties.(jailedUntil := 0, missedStreak := 0));
    db.SetAccount(a, acct);
    r := Ok(());
  }

  // ---- liveness ----

  method FindAttempt(env: Env, vals: seq<Validator>, height: nat, parentHash: Bytes, producer: Bytes)
    returns (used: Option<nat>)
    ensures used == UsedAttempt(env, vals, height, parentHash, producer, 0)
  {
    var attempt := 0;
    while attempt < MAX_LEADER_ATTEMPTS
      invariant 0 <= attempt <= MAX_LEADER_ATTEMPTS
      invariant UsedAttempt(env, vals, height, parentHash, producer, attempt)
             == UsedAttempt(env, vals, height, parentHash, producer, 0)
    {
      var leader := ElectLeader(vals, env.draw(height, parentHash, attempt));
      if leader == Some(producer) {
        return Some(attempt);
      }
      attempt := attempt + 1;
    }
    used := None;
  }

  method FindMissed(env: Env, vals: seq<Validator>, height: nat, parentHash: Bytes, producer: Bytes, used: nat)
    returns (missed: seq<Bytes>)
    ensures missed == Missed(env, vals, height, parentHash, producer, used)
  {
    missed := [];
    for attempt := 0 to used
      invariant missed == Missed(env, vals, height, parentHash, producer, attempt)
    {
      var leader := ElectLeader(vals, env.draw(height, parentHash, attempt));
      if leader.Some? && leader.value != producer && leader.value !in missed {
        missed := missed + [leader.value];
      }
    }
  }

  method Charge(db: Database, height: nat, a: Bytes)
    requires db.Valid()
    modifies db`leaves, db`names, db.rows`table, db.rows`frames, db.nodes`table, db.nodes`frames
    ensures db.Valid() && db.rows.table == ChargeMiss(old(db.rows.table), height, a)
  {
    hide db.Valid, SetAccount, DowntimeId, Share;
    var acct := GetAccount(db.rows.table, a);
    var p := acct.penalties;
    p := p.(missedSlots := p.missedSlots + 1, missedStreak := p.missedStreak + 1);
    if !DowntimeJailEnabled(height) {
      if height >= INACTIVITY_LEAK_ACTIVATION_HEIGHT && p.missedStreak >= INACTIVITY_LEAK_STREAK && !p.tombstoned {
        var decay := Share(acct.staked, INACTIVITY_LEAK_BPS);
        if decay > 0 {
          acct := acct.(staked := acct.staked - decay);
          p := p.(leaked := p.leaked + decay, slashed := p.slashed + decay);
        }
      }
      db.SetAccount(a, acct.(penalties := p));
    } else if p.missedStreak >= DOWNTIME_JAIL_STREAK && !p.tombstoned {
      p := p.(missedStreak := 0, downtimeJails := p.downtimeJails + 1, jailedUntil := height + DOWNTIME_JAIL_BLOCKS,
              jailFault := false);
      var burned := 0;
      if p.downtimeJails > 1 {
        burned := Share(acct.staked, DOWNTIME_REPEAT_BURN_BPS);
        acct := acct.(staked := acct.staked - burned);
        p := p.(slashed := p.slashed + burned);
      }
      db.SetAccount(a, acct.(penalties := p));
      var record := SlashRecord(DowntimeId(height, a), "downtime", a, height, height, burned, 0, "", false,
                                height + DOWNTIME_JAIL_BLOCKS);
      db.Write(SlashK(record.id), Some(SlashV(record)));
    } else {
      db.SetAccount(a, acct.(penalties := p));
    }
  }

  method RecordLiveness(env: Env, db: Database, height: nat, parentHash: Bytes, producer: Bytes)
    requires db.Valid()
    modifies db`leaves, db`names, db.rows`table, db.rows`frames, db.nodes`table, db.nodes`frames
    ensures db.Valid() && db.rows.table == Ledger.RecordLiveness(env, old(db.rows.table), height, parentHash, producer)
  {
    hide db.Valid, SetAccount, ChargeMiss, UsedAttempt, Missed, ValidatorSetAt;
    if height < env.slashingActivation {
      return;
    }
    var vals := Staking.ValidatorSet(db, height);
    if |vals| < 2 {
      return;
    }
    var used := FindAttempt(env, vals, height, parentHash, producer);
    if used.None? {
      return;
    }
    var missed := FindMissed(env, vals, height, parentHash, producer, used.value);
    ghost var start := db.rows.table;
    for i := 0 to |missed|
      invariant db.Valid() && db.rows.table == ChargeAll(start, height, missed[..i])
    {
      assert missed[..i + 1][..i] == missed[..i];
      Charge(db, height, missed[i]);
    }
    assert missed[..|missed|] == missed;
    var acct := GetAccount(db.rows.table, producer);
    var p := acct.penalties;
    var clearJail := ForgivesJail(p, height);
    if p.missedStreak != 0 || clearJail {
      p := p.(missedStreak := 0);
      if clearJail {
        p := p.(jailedUntil := 0);
      }
      db.SetAccount(producer, acct.(penalties := p));
    }
  }
}
