/** Proof of stake in place (src/staking.rs): the validator set, block rewards and
    the release of matured unbonds. */
module Staking {
  import opened Base
  import opened Order
  import opened Election
  import opened Tables
  import opened Ledger
  import opened Store

  // ---- the validator set ----

  method FilterActive(rows: Rows, list: seq<Bytes>, height: nat) returns (active: seq<Bytes>)
    requires list == StakerList(rows)
    ensures active == SortedKeys(Active(rows, height))
  {
    hide IsActiveValidator;
    active := [];
    for i := 0 to |list|
      invariant Ascending(active)
      invariant forall x :: x in active <==> x in list[..i] && IsActiveValidator(GetAccount(rows, x), height)
    {
      forall j | 0 <= j < |active|
        ensures Lt(active[j], list[i])
      {
        assert active[j] in active && active[j] in list[..i];
        var k :| 0 <= k < i && list[..i][k] == active[j];
      }
      if IsActiveValidator(GetAccount(rows, list[i]), height) {
        active := active + [list[i]];
      }
      assert list[..i + 1] == list[..i] + [list[i]];
    }
    assert list[..|list|] == list;
    assert forall x :: x in list <==> x in Elems(list);
    assert Elems(active) == Active(rows, height);
    AscendingUnique(active, SortedKeys(Active(rows, height)));
  }

  ghost predicate Ranked(rows: Rows, s: seq<Bytes>) {
    forall i, j :: 0 <= i < j < |s| ==> Outranks(rows, s[i], s[j])
  }

  lemma OutranksTotal(rows: Rows, a: Bytes, b: Bytes)
    requires a != b
    ensures Outranks(rows, a, b) != Outranks(rows, b, a)
  {
    LeTotal(a, b);
    if Le(a, b) && Le(b, a) {
      LeAntisymmetric(a, b);
    }
  }

  lemma OutranksTransitive(rows: Rows, a: Bytes, b: Bytes, c: Bytes)
    requires Outranks(rows, a, b) && Outranks(rows, b, c)
    ensures Outranks(rows, a, c)
  {
    if Le(a, b) && Le(b, c) {
      LeTransitive(a, b, c);
      if a == c {
        LeAntisymmetric(a, b);
      }
    }
  }

  lemma RankedInsert(rows: Rows, s: seq<Bytes>, k: Bytes, i: nat)
    requires Ranked(rows, s) && k !in s && i <= |s|
    requires forall j :: 0 <= j < i ==> Outranks(rows, s[j], k)
    requires i < |s| ==> !Outranks(rows, s[i], k)
    ensures Ranked(rows, s[..i] + [k] + s[i..])
  {
    hide Outranks;
    forall j | i <= j < |s|
      ensures Outranks(rows, k, s[j])
    {
      OutranksTotal(rows, s[i], k);
      if i < j {
        OutranksTransitive(rows, k, s[i], s[j]);
      }
    }
  }

  /** Sort by stake, highest first, lower address first on equal stake. */
  method SortByRank(rows: Rows, list: seq<Bytes>) returns (s: seq<Bytes>)
    requires Ascending(list)
    ensures Ranked(rows, s) && Elems(s) == Elems(list)
  {
    hide Outranks;
    s := [];
    for n := 0 to |list|
      invariant Ranked(rows, s) && Elems(s) == Elems(list[..n])
    {
      var k := list[n];
      assert k !in Elems(list[..n]);
      var i := 0;
      while i < |s| && Outranks(rows, s[i], k)
        invariant 0 <= i <= |s|
        invariant forall j :: 0 <= j < i ==> Outranks(rows, s[j], k)
      {
        i := i + 1;
      }
      RankedInsert(rows, s, k, i);
      InsertElems(s, k, i);
      s := s[..i] + [k] + s[i..];
      assert list[..n + 1] == list[..n] + [k];
    }
    assert list[..|list|] == list;
  }

  lemma {:induction false} DistinctCount(s: seq<Bytes>)
    requires forall i, j :: 0 <= i < j < |s| ==> s[i] != s[j]
    ensures |Elems(s)| == |s|
  {
    if s != [] {
      var last := |s| - 1;
      DistinctCount(s[..last]);
      assert Elems(s) == Elems(s[..last]) + {s[last]};
    }
  }

  /** In rank order, the accounts that outrank the one at `i` are the `i` before it. */
  lemma RankIsIndex(rows: Rows, s: seq<Bytes>, active: set<Bytes>, i: nat)
    requires Ranked(rows, s) && Elems(s) == active && i < |s|
    ensures |(set b | b in active && Outranks(rows, b, s[i]))| == i
  {
    hide Outranks;
    var above := set b | b in active && Outranks(rows, b, s[i]);
    assert above == Elems(s[..i]) by {
      forall b
        ensures b in above <==> b in Elems(s[..i])
      {
        if b in above {
          assert b in Elems(s);
          var j :| 0 <= j < |s| && s[j] == b;
          RankedApart(rows, s, i, j);
        }
        if b in s[..i] {
          var j :| 0 <= j < i && s[j] == b;
          assert b in Elems(s);
        }
      }
    }
    forall j, k | 0 <= j < k < i
      ensures s[..i][j] != s[..i][k]
    {
      RankedApart(rows, s, j, k);
    }
    DistinctCount(s[..i]);
  }

  lemma RankedApart(rows: Rows, s: seq<Bytes>, i: nat, j: nat)
    requires Ranked(rows, s) && i < |s| && j < |s|
    ensures Outranks(rows, s[j], s[i]) <==> j < i
    ensures i != j ==> s[i] != s[j]
  {
    if i < j {
      assert Outranks(rows, s[i], s[j]);
      if s[i] != s[j] {
        OutranksTotal(rows, s[i], s[j]);
      }
    } else if j < i {
      assert Outranks(rows, s[j], s[i]);
    }
  }

  lemma TruncatedIsElectable(rows: Rows, s: seq<Bytes>, height: nat)
    requires Ranked(rows, s) && Elems(s) == Active(rows, height)
    requires height >= VALIDATOR_CAP_ACTIVATION_HEIGHT && |Active(rows, height)| > MAX_VALIDATORS
    requires |s| > MAX_VALIDATORS
    ensures Elems(s[..MAX_VALIDATORS]) == Electable(rows, height)
  {
    hide Outranks, Active, Ranked;
    var active := Active(rows, height);
    forall a
      ensures a in Elems(s[..MAX_VALIDATORS]) <==> a in Electable(rows, height)
    {
      assert a in s[..MAX_VALIDATORS] ==> a in Elems(s);
      if a in active {
        assert a in Elems(s);
        var i :| 0 <= i < |s| && s[i] == a;
        RankIsIndex(rows, s, active, i);
        if i < MAX_VALIDATORS {
          assert s[..MAX_VALIDATORS][i] == a;
        } else if a in s[..MAX_VALIDATORS] {
          var j :| 0 <= j < MAX_VALIDATORS && s[j] == a;
          RankIsIndex(rows, s, active, j);
        }
      }
    }
  }

  /** Filter, sort by rank, truncate, sort back by address. */
  method ValidatorSet(db: Database, height: nat) returns (vals: seq<Validator>)
    ensures vals == ValidatorSetAt(db.rows.table, height)
  {
    hide Outranks, IsActiveValidator;
    var list := db.StakeAccounts();
    var rows := db.rows.table;
    var active := FilterActive(rows, list, height);
    AscendingCount(active);
    if height >= VALIDATOR_CAP_ACTIVATION_HEIGHT && |active| > MAX_VALIDATORS {
      var s := SortByRank(rows, active);
      RankedCount(rows, s);
      TruncatedIsElectable(rows, s, height);
      active := ListKeys(set a | a in s[..MAX_VALIDATORS]);
      assert (set a | a in s[..MAX_VALIDATORS]) == Electable(rows, height);
    }
    vals := AsValidators(rows, active);
  }

  lemma AscendingCount(s: seq<Bytes>)
    requires Ascending(s)
    ensures |Elems(s)| == |s|
  {
    assert forall i, j :: 0 <= i < j < |s| ==> Lt(s[i], s[j]);
    DistinctCount(s);
  }

  lemma RankedCount(rows: Rows, s: seq<Bytes>)
    requires Ranked(rows, s)
    ensures |Elems(s)| == |s|
  {
    hide Outranks;
    forall j, k | 0 <= j < k < |s|
      ensures s[j] != s[k]
    {
      RankedApart(rows, s, j, k);
    }
    DistinctCount(s);
  }

  // ---- rewards ----

  method Credit(db: Database, a: Bytes, amount: nat)
    requires db.Valid()
    modifies db`leaves, db`names, db.rows`table, db.rows`frames, db.nodes`table, db.nodes`frames
    ensures db.Valid() && db.rows.table == Reward(old(db.rows.table), a, amount)
  {
    hide db.Valid, SetAccount;
    var acct := GetAccount(db.rows.table, a);
    db.SetAccount(a, acct.(balance := acct.balance + amount, rewards := acct.rewards + amount));
  }

  /** The leader takes fees, commission and rounding dust; the rest is split by stake. */
  method PayRewards(db: Database, leader: Bytes, fees: nat)
    requires db.Valid()
    modifies db`leaves, db`names, db.rows`table, db.rows`frames, db.nodes`table, db.nodes`frames
    ensures db.Valid() && db.rows.table == Ledger.PayRewards(old(db.rows.table), leader, fees)
  {
    hide db.Valid, SetAccount, Reward, RewardCut, ValidatorSetAt;
    ghost var start := db.rows.table;
    var vals := ValidatorSet(db, NextHeight(db.rows.table));
    var total := TotalStake(vals);
    if vals == [] || total == 0 {
      var acct := GetAccount(db.rows.table, leader);
      db.SetAccount(leader, acct.(balance := acct.balance + fees + BLOCK_REWARD,
                                  rewards := acct.rewards + BLOCK_REWARD,
                                  blocksProduced := acct.blocksProduced + 1));
      return;
    }
    var distributed := 0;
    for i := 0 to |vals|
      invariant db.Valid() && db.rows.table == RewardAll(start, vals[..i], total)
      invariant distributed == Distributed(vals[..i], total)
    {
      var cut := Mul128(SHARED, vals[i].stake) / total;
      assert cut == RewardCut(vals[i].stake, total) by { CutIs(vals[i].stake, total); }
      assert vals[..i + 1][..i] == vals[..i];
      if cut != 0 {
        distributed := distributed + cut;
        Credit(db, vals[i].address, cut);
      }
    }
    assert vals[..|vals|] == vals;
    DistributedBounded(vals, total);
    var dust := SHARED - distributed;
    var acct := GetAccount(db.rows.table, leader);
    db.SetAccount(leader, acct.(balance := acct.balance + fees + COMMISSION + dust,
                                rewards := acct.rewards + COMMISSION + dust,
                                blocksProduced := acct.blocksProduced + 1));
  }

  lemma CutIs(stake: nat, total: nat)
    requires total > 0
    ensures Mul128(SHARED, stake) / total == RewardCut(stake, total)
  {
  }

  // ---- matured unbonds ----

  /** Keep the entries still locked and add up the rest. */
  method Retain(us: seq<Unbond>, height: nat) returns (locked: seq<Unbond>, released: nat)
    ensures locked == Locked(us, height) && released == UnbondingTotal(Matured(us, height))
    ensures |locked| == |us| <==> Matured(us, height) == []
  {
    locked, released := [], 0;
    for i := 0 to |us|
      invariant locked == Locked(us[..i], height) && released == UnbondingTotal(Matured(us[..i], height))
      invariant |locked| + |Matured(us[..i], height)| == i
    {
      assert us[..i + 1][..i] == us[..i] && us[..i + 1][i] == us[i];
      assert Matured(us[..i], height) + [] == Matured(us[..i], height);
      if us[i].releaseHeight <= height {
        UnbondingAppend(Matured(us[..i], height), us[i]);
        released := released + us[i].amount;
      } else {
        locked := locked + [us[i]];
      }
    }
    assert us[..|us|] == us;
  }

  /** Accounts are read up front; releasing one never touches another. */
  lemma {:induction false} ReleaseTouchesOnlyListed(rows: Rows, list: seq<Bytes>, height: nat, a: Bytes)
    requires a !in list
    ensures GetAccount(ReleaseAll(rows, list, height), a) == GetAccount(rows, a)
  {
    if list != [] {
      ReleaseTouchesOnlyListed(rows, list[..|list| - 1], height, a);
    }
  }

  method ReleaseUnbonded(db: Database, height: nat)
    requires db.Valid()
    modifies db`leaves, db`names, db.rows`table, db.rows`frames, db.nodes`table, db.nodes`frames
    ensures db.Valid() && db.rows.table == Ledger.ReleaseUnbonded(old(db.rows.table), height)
  {
    hide db.Valid, SetAccount, UnbondingTotal;
    ghost var start := db.rows.table;
    var list := db.StakeAccounts();
    var rows := db.rows.table;
    var accounts := seq(|list|, (i: int) requires 0 <= i < |list| => GetAccount(rows, list[i]));
    for i := 0 to |list|
      invariant db.Valid() && db.rows.table == ReleaseAll(start, list[..i], height)
    {
      var acct := accounts[i];
      assert list[..i + 1][..i] == list[..i];
      assert list[i] !in list[..i];
      ReleaseTouchesOnlyListed(start, list[..i], height, list[i]);
      if acct.unbonding != [] {
        var locked, released := Retain(acct.unbonding, height);
        if |locked| != |acct.unbonding| {
          db.SetAccount(list[i], acct.(unbonding := locked, balance := acct.balance + released));
        }
      }
    }
    assert list[..|list|] == list;
  }
}
