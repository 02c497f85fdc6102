/** Stake-weighted leader election (src/staking.rs). */
module Election {
  import opened Base

  datatype Validator = Validator(address: Bytes, stake: nat)

  function TotalStake(vals: seq<Validator>): nat {
    if vals == [] then 0 else vals[0].stake + TotalStake(vals[1..])
  }

  /** Whose slice of the stake line holds `draw`. */
  function Winner(vals: seq<Validator>, draw: nat): (i: nat)
    requires draw < TotalStake(vals)
    ensures i < |vals|
  {
    if draw < vals[0].stake then 0 else 1 + Winner(vals[1..], draw - vals[0].stake)
  }

  /** The leader a 128-bit draw elects; no stake, no leader. */
  function Leader(vals: seq<Validator>, draw: nat): Option<Bytes> {
    var total := TotalStake(vals);
    if total == 0 then None else Some(vals[Winner(vals, draw % total)].address)
  }

  lemma {:induction false} PrefixStake(vals: seq<Validator>, i: nat)
    requires i < |vals|
    ensures TotalStake(vals[..i + 1]) == TotalStake(vals[..i]) + vals[i].stake
    ensures TotalStake(vals[..i + 1]) <= TotalStake(vals)
  {
    if i == 0 {
      assert vals[..1][1..] == [] && vals[..0] == [];
    } else {
      PrefixStake(vals[1..], i - 1);
      assert vals[..i + 1][1..] == vals[1..][..i] && vals[..i][1..] == vals[1..][..i - 1];
    }
  }

  /** Winners are exactly the half-open slices [stake before i, stake through i). */
  lemma {:induction false} WinnerSlice(vals: seq<Validator>, draw: nat, i: nat)
    requires draw < TotalStake(vals) && i < |vals|
    ensures Winner(vals, draw) == i <==>
            TotalStake(vals[..i]) <= draw < TotalStake(vals[..i]) + vals[i].stake
  {
    if i == 0 {
      assert vals[..0] == [];
    } else {
      assert vals[..i][1..] == vals[1..][..i - 1] && vals[..i][0] == vals[0];
      if vals[0].stake <= draw {
        WinnerSlice(vals[1..], draw - vals[0].stake, i - 1);
      }
    }
  }

  /** The election loop: a running cursor, and a fallback that is never reached. */
  method ElectLeader(vals: seq<Validator>, draw: nat) returns (leader: Option<Bytes>)
    ensures leader == Leader(vals, draw)
  {
    var total := 0;
    for k := 0 to |vals|
      invariant total == TotalStake(vals[..k])
    {
      PrefixStake(vals, k);
      total := total + vals[k].stake;
    }
    assert vals[..|vals|] == vals;
    if vals == [] || total == 0 {
      return None;
    }
    var d := draw % total;
    var cursor := 0;
    for k := 0 to |vals|
      invariant cursor == TotalStake(vals[..k]) && cursor <= d
    {
      PrefixStake(vals, k);
      cursor := cursor + vals[k].stake;
      if d < cursor {
        WinnerSlice(vals, d, k);
        return Some(vals[k].address);
      }
    }
    assert false;
  }

  // ---- the election is exactly proportional ----

  ghost function Draws(lo: nat, hi: nat): (s: set<nat>)
    requires lo <= hi
    ensures forall d: nat :: d in s <==> lo <= d < hi
    ensures |s| == hi - lo
    decreases hi - lo
  {
    if lo == hi then {} else Draws(lo, hi - 1) + {hi - 1}
  }

  ghost predicate DistinctAddresses(vals: seq<Validator>) {
    forall i, j :: 0 <= i < j < |vals| ==> vals[i].address != vals[j].address
  }

  /** The draws, out of all `total` possible ones, that elect `address`. */
  ghost function Electing(vals: seq<Validator>, address: Bytes): set<nat> {
    set d: nat | 0 <= d < TotalStake(vals) && Leader(vals, d) == Some(address)
  }

  lemma LeaderSlice(vals: seq<Validator>, d: nat, i: nat)
    requires DistinctAddresses(vals) && i < |vals| && d < TotalStake(vals)
    ensures Leader(vals, d) == Some(vals[i].address) <==>
            TotalStake(vals[..i]) <= d < TotalStake(vals[..i]) + vals[i].stake
  {
    hide TotalStake;
    var total := TotalStake(vals);
    assert d % total == d;
    WinnerSlice(vals, d, i);
  }

  /** Exactly `stake` of the `total` draws elect each validator. */
  lemma ElectionIsProportional(vals: seq<Validator>, i: nat)
    requires DistinctAddresses(vals) && i < |vals|
    ensures |Electing(vals, vals[i].address)| == vals[i].stake
  {
    hide Leader, TotalStake;
    var lo := TotalStake(vals[..i]);
    PrefixStake(vals, i);
    forall d: nat
      ensures d in Electing(vals, vals[i].address) <==> d in Draws(lo, lo + vals[i].stake)
    {
      if d < TotalStake(vals) {
        LeaderSlice(vals, d, i);
      }
    }
    assert Electing(vals, vals[i].address) == Draws(lo, lo + vals[i].stake);
  }

  /** Any leader holds stake and sits in the set. */
  lemma LeaderIsStaked(vals: seq<Validator>, draw: nat)
    requires Leader(vals, draw).Some?
    ensures exists i :: 0 <= i < |vals| && vals[i].address == Leader(vals, draw).value && vals[i].stake > 0
  {
    var d := draw % TotalStake(vals);
    WinnerSlice(vals, d, Winner(vals, d));
  }
}
