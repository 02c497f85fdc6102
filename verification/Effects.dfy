/** What one accepted transaction does to every account (src/chain.rs, src/slashing.rs),
    read off the transaction: who pays, who receives, whose bond moves. */
module Effects {
  import opened Base
  import opened Types
  import opened Evidence
  import opened Election
  import opened Tables
  import opened Ledger
  import opened Sums
  import opened Frames
  import opened Books
  import opened Conservation

  // ---- what a transaction says ----

  /** The value handed over, the fee, and what creating a token or a contract costs. */
  function Cost(tx: Transaction): nat {
    match tx.kind
    case Transfer => tx.amount + tx.fee
    case Stake => tx.amount + tx.fee
    case CallContract => tx.amount + tx.fee
    case Shield => tx.amount + tx.fee
    case DeployContract => tx.amount + tx.fee + DEPLOY_FEE
    case CreateToken => tx.fee + TOKEN_CREATION_FEE
    case _ => tx.fee
  }

  function Capped(n: nat): nat {
    if n > U128_MAX then U128_MAX else n
  }

  /** A debit is the cost, cut off at 128 bits. */
  lemma DebitIsCost(tx: Transaction)
    ensures Debit(tx) == Capped(Cost(tx))
  {
  }

  function PublicOut(env: Env, tx: Transaction): nat {
    match tx.shielded
    case None => 0
    case Some(d) =>
      match env.parseAmount(d.publicUnshield)
      case None => 0
      case Some(out) => out
  }

  function DeployedAt(env: Env, tx: Transaction, sender: Bytes): Option<Bytes> {
    match env.decodeCode(tx.payload)
    case None => None
    case Some(code) => Some(env.contractAddress(sender, tx.nonce, env.codeHash(code)))
  }

  /** What the transaction pays to `a`. */
  function Received(env: Env, tx: Transaction, sender: Bytes, a: Bytes): nat {
    match tx.kind
    case Transfer => if a == tx.to then tx.amount else 0
    case DeployContract => if DeployedAt(env, tx, sender) == Some(a) then tx.amount else 0
    case Unshield => if a == tx.to then PublicOut(env, tx) else 0
    case _ => 0
  }

  function BondsIn(tx: Transaction): nat {
    if tx.kind.Stake? then tx.amount else 0
  }

  function BondsOut(tx: Transaction): nat {
    if tx.kind.Unstake? then tx.amount else 0
  }

  function Locks(tx: Transaction, height: nat): seq<Unbond> {
    if tx.kind.Unstake? then [Unbond(tx.amount, height + UNBONDING_BLOCKS)] else []
  }

  /** `a` went from `x` to `y`: the sender paid and bonded what the transaction says,
      `a` received what it says, and nothing else moved. */
  ghost predicate Moves(env: Env, tx: Transaction, height: nat, sender: Bytes, a: Bytes, x: Account, y: Account) {
    var s := a == sender;
    && y.balance + (if s then Capped(Cost(tx)) else 0) == x.balance + Received(env, tx, sender, a)
    && y.nonce == x.nonce + (if s then 1 else 0)
    && y.staked + (if s then BondsOut(tx) else 0) == x.staked + (if s then BondsIn(tx) else 0)
    && y.unbonding == x.unbonding + (if s then Locks(tx, height) else [])
    && y.rewards == x.rewards && y.blocksProduced == x.blocksProduced
    && y.penalties == if s && tx.kind.Unjail? then x.penalties.(jailedUntil := 0, missedStreak := 0) else x.penalties
  }

  // ---- reading accounts after a write ----

  lemma AccountsOutside(rows: Rows, rows': Rows, touched: set<Table>, a: Bytes)
    requires Frame(rows, rows', touched) && Accounts !in touched
    ensures GetAccount(rows', a) == GetAccount(rows, a)
  {
    FrameSame(rows, rows', touched, AccountK(a));
  }

  lemma AfterCredit(rows: Rows, to: Bytes, amount: nat, a: Bytes)
    ensures var x := GetAccount(rows, a);
            GetAccount(Credit(rows, to, amount), a) == if a == to then x.(balance := x.balance + amount) else x
  {
  }

  lemma AfterDeploy(env: Env, rows: Rows, sender: Bytes, tx: Transaction, height: nat, a: Bytes)
    requires ApplyDeploy(env, rows, sender, tx, height).Ok?
    ensures var x := GetAccount(rows, a);
            GetAccount(ApplyDeploy(env, rows, sender, tx, height).value, a)
            == if DeployedAt(env, tx, sender) == Some(a) then x.(balance := x.balance + tx.amount) else x
  {
    hide Credit;
    var code := env.decodeCode(tx.payload).value;
    var hash := env.codeHash(code);
    var at := env.contractAddress(sender, tx.nonce, hash);
    var rows2 := SetContract(rows[CodeK(hash) := BytesV(code)], Contract(at, hash, |code|, sender, height, 0));
    AfterCredit(rows2, at, tx.amount, a);
    assert GetAccount(rows2, a) == GetAccount(rows, a);
  }

  lemma AfterApplySpend(env: Env, rows: Rows, tx: Transaction, d: ShieldedData, out: nat, height: nat, a: Bytes)
    requires |d.nullifiers| == 2 && |d.commitments| == 2 && ApplySpend(env, rows, tx, d, out, height).Ok?
    ensures var x := GetAccount(rows, a);
            GetAccount(ApplySpend(env, rows, tx, d, out, height).value, a)
            == if a == tx.to then x.(balance := x.balance + out) else x
  {
    hide ApplySpend, NotesSpent, Credit, Frame, PoolBalance;
    SpendShape(env, rows, tx, d, out, height);
    var spent := NotesSpent(env, rows, d, height);
    FrameNotesSpent(env, rows, d, height, {Leaves, Frames.Nullifiers, VerifyingKey});
    AccountsOutside(rows, spent, {Leaves, Frames.Nullifiers, VerifyingKey}, a);
    if out > 0 {
      var paid := spent[PoolK := AmountV(PoolBalance(spent) - out)];
      assert GetAccount(paid, a) == GetAccount(spent, a);
      AfterCredit(paid, tx.to, out, a);
    }
  }

  lemma AfterApplyShield(env: Env, rows: Rows, d: ShieldedData, amount: nat, a: Bytes)
    requires |d.commitments| == 1 && ApplyShield(env, rows, d, amount).Ok?
    ensures GetAccount(ApplyShield(env, rows, d, amount).value, a) == GetAccount(rows, a)
  {
    hide LeafCount;
  }

  lemma AfterApplyShielded(env: Env, rows: Rows, tx: Transaction, height: nat, a: Bytes)
    requires ApplyShielded(env, rows, tx, height).Ok?
    ensures var x := GetAccount(rows, a);
            GetAccount(ApplyShielded(env, rows, tx, height).value, a)
            == if tx.kind.Unshield? && a == tx.to then x.(balance := x.balance + PublicOut(env, tx)) else x
  {
    hide ApplyShield, ApplySpend, GetAccount;
    var d := tx.shielded.value;
    match tx.kind
    case Shield => AfterApplyShield(env, rows, d, tx.amount, a);
    case PrivateTransfer => AfterApplySpend(env, rows, tx, d, 0, height, a);
    case Unshield => AfterApplySpend(env, rows, tx, d, env.parseAmount(d.publicUnshield).value, height, a);
  }

  // ---- every kind but reports and calls ----

  predicate Plain(kind: TxKind) {
    !kind.ReportEquivocation? && !kind.CallContract?
  }

  lemma EffectMoves(env: Env, rows: Rows, tx: Transaction, height: nat, sender: Bytes, from: Account, a: Bytes)
    requires Plain(tx.kind) && Effect(env, rows, tx, height, sender, from).Ok?
    ensures var x := if a == sender then from else GetAccount(rows, a);
            var y := GetAccount(Effect(env, rows, tx, height, sender, from).value, a);
            && y.balance == x.balance + Received(env, tx, sender, a)
            && y.nonce == x.nonce && y.rewards == x.rewards && y.blocksProduced == x.blocksProduced
            && y.staked + (if a == sender then BondsOut(tx) else 0) == x.staked + (if a == sender then BondsIn(tx) else 0)
            && y.unbonding == x.unbonding + (if a == sender then Locks(tx, height) else [])
            && y.penalties == if a == sender && tx.kind.Unjail? then x.penalties.(jailedUntil := 0, missedStreak := 0) else x.penalties
  {
    hide Frame, SetAccount, Credit, GetAccount, ApplyReport, ApplyCreate, ApplyMint, ApplyTokenTransfer, ApplyBurn,
         ApplyDeploy, ApplyCall, ApplyShielded, CheckReport;
    var rows1 := SetAccount(rows, sender, from);
    var rows2 := Effect(env, rows, tx, height, sender, from).value;
    GetAfterSet(rows, sender, from, a);
    assert forall us: seq<Unbond> :: us + [] == us;
    match tx.kind
    case Transfer =>
      GetAfterSet(rows, sender, from.(balance := from.balance + tx.amount), a);
      AfterCredit(rows1, tx.to, tx.amount, a);
    case Stake => GetAfterSet(rows, sender, from.(staked := from.staked + tx.amount), a);
    case Unstake =>
      GetAfterSet(rows, sender, from.(staked := from.staked - tx.amount,
        unbonding := from.unbonding + [Unbond(tx.amount, height + UNBONDING_BLOCKS)]), a);
    case Unjail =>
      GetAfterSet(rows, sender, from, sender);
      GetAfterSet(rows1, sender, Released(GetAccount(rows1, sender)), a);
    case CreateToken =>
      FrameApplyCreate(env, rows1, sender, tx.nonce, tx.amount, height, tx.payload);
      AccountsOutside(rows1, rows2, {Tokens}, a);
    case MintToken =>
      FrameApplyMint(rows1, sender, tx.to, tx.amount, tx.payload);
      AccountsOutside(rows1, rows2, {Tokens}, a);
    case TokenTransfer =>
      FrameApplyTokenTransfer(rows1, sender, tx.to, tx.amount, tx.payload);
      AccountsOutside(rows1, rows2, {Tokens}, a);
    case BurnToken =>
      FrameApplyBurn(rows1, sender, tx.amount, tx.payload);
      AccountsOutside(rows1, rows2, {Tokens}, a);
    case DeployContract => AfterDeploy(env, rows1, sender, tx, height, a);
    case Shield => AfterApplyShielded(env, rows1, tx, height, a);
    case PrivateTransfer => AfterApplyShielded(env, rows1, tx, height, a);
    case Unshield => AfterApplyShielded(env, rows1, tx, height, a);
  }

  /** An accepted transfer, bond, unbond, token, deploy or shielded transaction moves the
      balance, nonce and bond of every account as it says, and of nobody else. */
  lemma TxMoves(env: Env, rows: Rows, tx: Transaction, height: nat, a: Bytes)
    requires Plain(tx.kind) && ApplyTx(env, rows, tx, height).Ok?
    ensures SenderOf(env, tx).Some?
    ensures Moves(env, tx, height, SenderOf(env, tx).value, a, GetAccount(rows, a),
                  GetAccount(ApplyTx(env, rows, tx, height).value.0, a))
  {
    hide Effect, Precheck, Debit, Collected, GetAccount, Received, Cost;
    var sender := SenderOf(env, tx).value;
    DebitIsCost(tx);
    EffectMoves(env, rows, tx, height, sender, Charged(GetAccount(rows, sender), Debit(tx)), a);
  }

  // ---- reports ----

  /** Three times the offender's whole percentage of all stake, but at least five and at
      most a hundred. */
  lemma BurnPctIs(offender: nat, total: nat)
    requires total > 0 && offender * 100 <= U128_MAX
    ensures var pct, thrice := BurnPct(offender, total), 3 * (offender * 100 / total);
      && (thrice <= 5 ==> pct == 5) && (5 <= thrice <= 100 ==> pct == thrice) && (thrice >= 100 ==> pct == 100)
      && (5 < pct < 100 ==> pct * total <= 300 * offender < (pct + 3) * total)
  {
    var share := offender * 100 / total;
    DivBounds(offender * 100, total);
    assert 3 * (share * total) == (3 * share) * total && 3 * ((share + 1) * total) == (3 * share + 3) * total;
  }

  lemma DivBounds(m: nat, n: nat)
    requires n > 0
    ensures (m / n) * n <= m < (m / n + 1) * n
  {
    assert m == n * (m / n) + m % n;
  }

  /** A cut takes its share of every entry and leaves when each is due. */
  lemma {:induction false} CutEntries(us: seq<Unbond>, pct: nat, i: nat)
    requires pct <= 100 && i < |us|
    ensures CutUnbonding(us, pct)[i] == Unbond(us[i].amount - Cut(us[i].amount, pct), us[i].releaseHeight)
  {
    if i < |us| - 1 {
      CutEntries(us[..|us| - 1], pct, i);
    }
  }

  lemma {:induction false} KeptEntries(us: seq<Unbond>, u: Unbond)
    ensures multiset(KeepPositive(us))[u] == if u.amount > 0 then multiset(us)[u] else 0
  {
    if us != [] {
      var last := |us| - 1;
      KeptEntries(us[..last], u);
      assert us == us[..last] + [us[last]];
    }
  }

  lemma StakeUntouched(rows: Rows, a: Bytes, acct: Account)
    requires acct.staked == GetAccount(rows, a).staked
    ensures Sum(SetAccount(rows, a, acct), StakedOf) == Sum(rows, StakedOf)
  {
    SumSet(rows, AccountK(a), AccountV(acct), StakedOf);
    var written := rows[AccountK(a) := AccountV(acct)];
    SumSet(written, StakerK(a), MarkV, StakedOf);
    SumRemove(written, StakerK(a), StakedOf);
  }

  /** What a slash of `acct` takes, and what of it goes to whoever reported it. */
  ghost predicate ReportOutcome(env: Env, rows: Rows, rows': Rows, sender: Bytes, fee: nat, e: Evidence, a: Bytes) {
    && Verify(env.crypto, e).Ok?
    && var offender, id := Verify(env.crypto, e).value, EvidenceId(env.crypto, e);
       var bad, pct := GetAccount(rows, offender), BurnPct(GetAccount(rows, offender).staked, Sum(rows, StakedOf));
       && pct <= 100
       && var burned := Confiscated(bad, pct);
          var bounty := if sender == offender then 0 else CutAmount(burned, REPORTER_BOUNTY_PCT);
          var x, y := GetAccount(rows, a), GetAccount(rows', a);
          && y.balance + (if a == sender then Capped(fee) else 0) == x.balance + (if a == sender then bounty else 0)
          && y.nonce == x.nonce + (if a == sender then 1 else 0)
          && y.rewards == x.rewards && y.blocksProduced == x.blocksProduced
          && (a != offender ==> y.staked == x.staked && y.unbonding == x.unbonding && y.penalties == x.penalties)
          && (a == offender ==>
                && y.staked == x.staked - Cut(x.staked, pct)
                && y.unbonding == KeepPositive(CutUnbonding(x.unbonding, pct))
                && y.penalties == x.penalties.(tombstoned := true, jailedUntil := TOMBSTONE_HEIGHT, jailFault := true,
                                               slashed := x.penalties.slashed + burned))
          && SlashK(id) in rows' && rows'[SlashK(id)].SlashV?
          && var r := rows'[SlashK(id)].slash;
             r.offender == offender && r.burned + bounty == burned && r.bounty == bounty && r.reporter == sender
  }

  lemma ApplyReportMoves(env: Env, rows: Rows, height: nat, reporter: Bytes, e: Evidence, a: Bytes)
    requires StakersExact(rows) && ApplyReport(env, rows, height, reporter, e).Ok?
    ensures var rows' := ApplyReport(env, rows, height, reporter, e).value;
            var offender := Verify(env.crypto, e).value;
            var bad, pct := GetAccount(rows, offender), BurnPct(GetAccount(rows, offender).staked, Sum(rows, StakedOf));
            && pct <= 100
            && var burned := Confiscated(bad, pct);
               var bounty := if reporter == offender then 0 else CutAmount(burned, REPORTER_BOUNTY_PCT);
               var x := if a == offender then Slashed(bad, pct) else GetAccount(rows, a);
               && GetAccount(rows', a) == (if a == reporter then x.(balance := x.balance + bounty) else x)
               && var id := EvidenceId(env.crypto, e);
                  SlashK(id) in rows' && rows'[SlashK(id)].SlashV?
                  && var r := rows'[SlashK(id)].slash;
                     r.offender == offender && r.burned + bounty == burned && r.bounty == bounty && r.reporter == reporter
  {
    hide Confiscated, Slashed, BurnPct, TotalStaked, SetAccount, Credit, EvidenceId, Verify, SlashKnown, CutAmount,
         Sum, StakersExact, GetAccount;
    TotalStakedIsFullScan(rows);
    var offender := Verify(env.crypto, e).value;
    var bad := GetAccount(rows, offender);
    BurnPctBounded(bad.staked, TotalStaked(rows));
    var pct := BurnPct(bad.staked, TotalStaked(rows));
    var rows1 := SetAccount(rows, offender, Slashed(bad, pct));
    GetAfterSet(rows, offender, Slashed(bad, pct), a);
    var burned := Confiscated(bad, pct);
    var bounty := Bounty(burned, reporter, offender);
    AfterCredit(rows1, reporter, bounty, a);
    var rows2 := if bounty > 0 then Credit(rows1, reporter, bounty) else rows1;
    var r := EquivocationRecord(env, e, offender, height, burned, bounty, reporter);
    AfterPut(rows2, SlashK(r.id), SlashV(r), a);
  }

  lemma AfterPut(rows: Rows, k: Key, v: Value, a: Bytes)
    requires !k.AccountK?
    ensures GetAccount(rows[k := v], a) == GetAccount(rows, a)
  {
  }

  lemma SlashDependsOnBond(x: Account, y: Account, pct: nat)
    requires x.staked == y.staked && x.unbonding == y.unbonding && x.penalties == y.penalties && pct <= 100
    ensures Confiscated(x, pct) == Confiscated(y, pct)
    ensures var z := Slashed(x, pct);
      && z.staked == y.staked - Cut(y.staked, pct) && z.unbonding == KeepPositive(CutUnbonding(y.unbonding, pct))
      && z.penalties == y.penalties.(tombstoned := true, jailedUntil := TOMBSTONE_HEIGHT, jailFault := true,
                                     slashed := y.penalties.slashed + Confiscated(y, pct))
      && z.balance == x.balance && z.nonce == x.nonce && z.rewards == x.rewards && z.blocksProduced == x.blocksProduced
  {
  }

  /** An accepted report slashes the proven offender by the percentage of its share, pays a
      tenth of that to another reporter, files the rest as burned, and moves nobody else. */
  lemma ReportMoves(env: Env, rows: Rows, tx: Transaction, height: nat, a: Bytes)
    requires StakersExact(rows) && tx.kind.ReportEquivocation? && ApplyTx(env, rows, tx, height).Ok?
    ensures SenderOf(env, tx).Some? && env.decodeEvidence(tx.payload).Some?
    ensures ReportOutcome(env, rows, ApplyTx(env, rows, tx, height).value.0, SenderOf(env, tx).value, tx.fee,
                          env.decodeEvidence(tx.payload).value, a)
  {
    hide Confiscated, Slashed, BurnPct, SetAccount, EvidenceId, CutAmount, Sum, Verify, ApplyReport, StakersExact,
         GetAccount, SlashKnown, UnbondingTotal, Cut, CutUnbonding, KeepPositive, Frame;
    var sender := SenderOf(env, tx).value;
    var acct := GetAccount(rows, sender);
    var from := Charged(acct, Debit(tx));
    var rows1 := SetAccount(rows, sender, from);
    var e := CheckReport(env, rows1, height, tx.payload).value;
    FrameSetAccount(rows, sender, from, {Accounts});
    StakersStayExact(rows, rows1, {Accounts});
    StakeUntouched(rows, sender, from);
    ApplyReportMoves(env, rows1, height, sender, e, a);
    var offender := Verify(env.crypto, e).value;
    GetAfterSet(rows, sender, from, a);
    GetAfterSet(rows, sender, from, offender);
    var pct := BurnPct(GetAccount(rows, offender).staked, Sum(rows, StakedOf));
    SlashDependsOnBond(GetAccount(rows1, offender), GetAccount(rows, offender), pct);
  }

  // ---- genesis ----

  function AllocatedTo(alloc: seq<Alloc>, a: Bytes): (nat, nat) {
    if alloc == [] then (0, 0) else
      var (balance, stake) := AllocatedTo(alloc[..|alloc| - 1], a);
      var x := alloc[|alloc| - 1];
      if x.address == a then (balance + x.balance, stake + x.stake) else (balance, stake)
  }

  /** At genesis every account holds exactly what the allocation gives it. */
  lemma {:induction false} GenesisFunds(alloc: seq<Alloc>, a: Bytes)
    ensures GetAccount(GenesisAccounts(alloc), a)
         == NEW_ACCOUNT.(balance := AllocatedTo(alloc, a).0, staked := AllocatedTo(alloc, a).1)
  {
    hide SetAccount, GetAccount;
    if alloc == [] {
      NobodyYet(a);
    } else {
      var last := |alloc| - 1;
      var x, rows := alloc[last], GenesisAccounts(alloc[..last]);
      GenesisFunds(alloc[..last], a);
      GenesisFunds(alloc[..last], x.address);
      var acct := GetAccount(rows, x.address);
      GetAfterSet(rows, x.address, acct.(balance := acct.balance + x.balance, staked := acct.staked + x.stake), a);
    }
  }

  lemma NobodyYet(a: Bytes)
    ensures GetAccount(map[], a) == NEW_ACCOUNT
  {
  }
}
