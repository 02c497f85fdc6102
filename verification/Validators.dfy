/** Who may seal and vote (src/staking.rs): exactly the bonded accounts in good standing,
    and past the cap the highest ranked hundred of them. */
module Validators {
  import opened Base
  import opened Election
  import opened Order
  import opened Tables
  import opened Ledger
  import opened Frames
  import opened Books
  import opened Staking

  /** Enough stake, never caught, and not serving a jail term; past the liveness fork a
      term no longer keeps anybody out, only the mark of a proven fault does. */
  predicate InGoodStanding(acct: Account, height: nat) {
    && acct.staked >= MIN_STAKE && !acct.penalties.tombstoned
    && (acct.penalties.jailedUntil <= height
        || (height >= NO_DOWNTIME_JAIL_HEIGHT && acct.penalties.jailedUntil != TOMBSTONE_HEIGHT))
  }

  lemma ActiveIff(rows: Rows, height: nat, a: Bytes)
    requires StakersExact(rows) && height < TOMBSTONE_HEIGHT
    ensures a in Active(rows, height) <==> InGoodStanding(GetAccount(rows, a), height)
  {
    assert Indexed(rows, a);
    assert a in Stakers(rows) <==> StakerK(a) in rows;
  }

  lemma {:induction false} RankedExists(rows: Rows, keys: set<Bytes>)
    ensures exists s :: Ranked(rows, s) && Elems(s) == keys
  {
    hide Outranks;
    if keys == {} {
      assert Ranked(rows, []) && Elems([]) == {};
    } else {
      var k :| k in keys;
      RankedExists(rows, keys - {k});
      var s :| Ranked(rows, s) && Elems(s) == keys - {k};
      var i := RankSlot(rows, s, k);
      assert k !in Elems(s);
      RankedInsert(rows, s, k, i);
      InsertElems(s, k, i);
      assert Ranked(rows, s[..i] + [k] + s[i..]) && Elems(s[..i] + [k] + s[i..]) == keys;
    }
  }

  lemma {:induction false} RankSlot(rows: Rows, s: seq<Bytes>, k: Bytes) returns (i: nat)
    ensures i <= |s| && forall j :: 0 <= j < i ==> Outranks(rows, s[j], k)
    ensures i < |s| ==> !Outranks(rows, s[i], k)
  {
    hide Outranks;
    i := 0;
    while i < |s| && Outranks(rows, s[i], k)
      invariant 0 <= i <= |s| && forall j :: 0 <= j < i ==> Outranks(rows, s[j], k)
    {
      i := i + 1;
    }
  }

  /** Past the cap exactly a hundred stay, each ranked above everybody left out. */
  lemma CapKeepsHighest(rows: Rows, height: nat)
    requires height >= VALIDATOR_CAP_ACTIVATION_HEIGHT && |Active(rows, height)| > MAX_VALIDATORS
    ensures Electable(rows, height) <= Active(rows, height) && |Electable(rows, height)| == MAX_VALIDATORS
    ensures forall a, b :: a in Electable(rows, height) && b in Active(rows, height) - Electable(rows, height) ==> Outranks(rows, a, b)
  {
    hide Outranks, Active;
    RankedExists(rows, Active(rows, height));
    var s :| Ranked(rows, s) && Elems(s) == Active(rows, height);
    RankedCount(rows, s);
    TruncatedIsElectable(rows, s, height);
    TopCount(rows, s, MAX_VALIDATORS);
    forall a, b | a in Electable(rows, height) && b in Active(rows, height) - Electable(rows, height)
      ensures Outranks(rows, a, b)
    {
      assert a in s[..MAX_VALIDATORS] && b in Elems(s);
      var i :| 0 <= i < MAX_VALIDATORS && s[i] == a;
      var j :| 0 <= j < |s| && s[j] == b;
      assert forall k :: 0 <= k < MAX_VALIDATORS ==> s[k] == s[..MAX_VALIDATORS][k] && s[k] != b;
    }
  }

  lemma TopCount(rows: Rows, s: seq<Bytes>, n: nat)
    requires Ranked(rows, s) && n <= |s|
    ensures |Elems(s[..n])| == n
  {
    hide Outranks;
    assert Ranked(rows, s[..n]);
    RankedCount(rows, s[..n]);
  }

  /** The validator set lists each electable account once, in address order, with its
      stake; below the cap that is everybody in good standing. */
  lemma ValidatorSetIs(rows: Rows, height: nat, a: Bytes, stake: nat)
    requires StakersExact(rows) && height < TOMBSTONE_HEIGHT
    ensures var vals := ValidatorSetAt(rows, height);
      && (Validator(a, stake) in vals <==> a in Electable(rows, height) && stake == GetAccount(rows, a).staked)
      && (forall i, j :: 0 <= i < j < |vals| ==> Lt(vals[i].address, vals[j].address))
      && (a in Electable(rows, height) ==> InGoodStanding(GetAccount(rows, a), height))
      && (height < VALIDATOR_CAP_ACTIVATION_HEIGHT || |Active(rows, height)| <= MAX_VALIDATORS ==>
            (a in Electable(rows, height) <==> InGoodStanding(GetAccount(rows, a), height)))
  {
    hide Outranks, Active, InGoodStanding;
    ActiveIff(rows, height, a);
    var vals, list := ValidatorSetAt(rows, height), SortedKeys(Electable(rows, height));
    assert a in Elems(list) <==> a in Electable(rows, height);
    if a in Electable(rows, height) {
      var i :| 0 <= i < |list| && list[i] == a;
      assert vals[i] == Validator(a, GetAccount(rows, a).staked);
    }
    if Validator(a, stake) in vals {
      var i :| 0 <= i < |vals| && vals[i] == Validator(a, stake);
      assert list[i] == a;
    }
  }
}
