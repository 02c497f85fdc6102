/** Value is conserved: over every run of blocks, supply, shielded pool, slash
    burns and leaks add up to the genesis allocation plus issuance. */
module Conservation {
  import opened Base
  import opened Types
  import opened Decimal
  import opened Evidence
  import opened Election
  import opened Order
  import opened Tables
  import opened Ledger
  import opened Sums
  import Host

  // ---- where value sits ----

  /** Spendable, bonded and unbonding coins (`total_supply`). */
  function SupplyOf(k: Key, v: Value): nat {
    if k.AccountK? && v.AccountV? then
      v.account.balance + v.account.staked + UnbondingTotal(v.account.unbonding)
    else 0
  }

  function LeakedOf(k: Key, v: Value): nat {
    if k.AccountK? && v.AccountV? then v.account.penalties.leaked else 0
  }

  function BurnedOf(k: Key, v: Value): nat {
    if k.SlashK? && v.SlashV? then v.slash.burned else 0
  }

  function PoolOf(k: Key, v: Value): nat {
    if k.PoolK? && v.AmountV? then v.amount else 0
  }

  function Held(k: Key, v: Value): nat {
    SupplyOf(k, v) + LeakedOf(k, v)
  }

  function HeldOrBurned(k: Key, v: Value): nat {
    Held(k, v) + BurnedOf(k, v)
  }

  function Worth(k: Key, v: Value): nat {
    HeldOrBurned(k, v) + PoolOf(k, v)
  }

  ghost function TotalSupply(rows: Rows): nat {
    Sum(rows, SupplyOf)
  }

  ghost function Total(rows: Rows): nat {
    Sum(rows, Worth)
  }

  lemma TotalIsSumOfParts(rows: Rows)
    ensures Total(rows) == TotalSupply(rows) + PoolBalance(rows) + Sum(rows, BurnedOf) + Sum(rows, LeakedOf)
  {
    SumSplits(rows, Worth, HeldOrBurned, PoolOf);
    SumSplits(rows, HeldOrBurned, Held, BurnedOf);
    SumSplits(rows, Held, SupplyOf, LeakedOf);
    SumRemove(rows, PoolK, PoolOf);
    SumOfZeros(rows - {PoolK}, PoolOf);
  }

  /** Total supply by one scan of the account table, in whatever order it comes. */
  method ScanSupply(rows: Rows) returns (total: nat)
    ensures total == TotalSupply(rows)
  {
    total := 0;
    var todo := rows;
    while todo != map[]
      invariant total + Sum(todo, SupplyOf) == Sum(rows, SupplyOf)
      decreases todo.Keys
    {
      var k :| k in todo;
      SumRemove(todo, k, SupplyOf);
      if k.AccountK? && todo[k].AccountV? {
        var acct := todo[k].account;
        total := total + acct.balance + acct.staked + UnbondingTotal(acct.unbonding);
      }
      todo := todo - {k};
    }
  }

  function AccountWorth(acct: Account): nat {
    acct.balance + acct.staked + UnbondingTotal(acct.unbonding) + acct.penalties.leaked
  }

  // ---- how one write moves the total ----

  predicate Neutral(k: Key) {
    !k.AccountK? && !k.SlashK? && !k.PoolK?
  }

  lemma TotalNeutralPut(rows: Rows, k: Key, v: Value)
    requires Neutral(k)
    ensures Total(rows[k := v]) == Total(rows)
  {
    SumSet(rows, k, v, Worth);
  }

  lemma TotalNeutralDel(rows: Rows, k: Key)
    requires Neutral(k)
    ensures Total(rows - {k}) == Total(rows)
  {
    SumRemove(rows, k, Worth);
  }

  lemma TotalSetAccount(rows: Rows, a: Bytes, acct: Account)
    ensures Total(SetAccount(rows, a, acct)) + AccountWorth(GetAccount(rows, a)) == Total(rows) + AccountWorth(acct)
  {
    hide Sum, Worth, AccountWorth, GetAccount, At;
    SumSet(rows, AccountK(a), AccountV(acct), Worth);
    AccountAt(rows, a);
    WorthOfAccount(a, acct);
    var written := rows[AccountK(a) := AccountV(acct)];
    TotalNeutralPut(written, StakerK(a), MarkV);
    TotalNeutralDel(written, StakerK(a));
  }

  lemma WorthOfAccount(a: Bytes, acct: Account)
    ensures Worth(AccountK(a), AccountV(acct)) == AccountWorth(acct)
  {
  }

  lemma AccountAt(rows: Rows, a: Bytes)
    ensures At(rows, AccountK(a), Worth) == AccountWorth(GetAccount(rows, a))
  {
  }

  lemma AccountWithinTotal(rows: Rows, a: Bytes)
    ensures AccountWorth(GetAccount(rows, a)) <= Total(rows)
  {
    SumRemove(rows, AccountK(a), Worth);
    AccountAt(rows, a);
  }

  lemma GetAfterSet(rows: Rows, a: Bytes, acct: Account, b: Bytes)
    ensures GetAccount(SetAccount(rows, a, acct), b) == if a == b then acct else GetAccount(rows, b)
  {
  }

  lemma TotalCredit(rows: Rows, a: Bytes, amount: nat)
    ensures Total(Credit(rows, a, amount)) == Total(rows) + amount
  {
    hide Total, SetAccount, GetAccount, UnbondingTotal;
    var acct := GetAccount(rows, a);
    TotalSetAccount(rows, a, acct.(balance := acct.balance + amount));
  }

  lemma TotalSetPool(rows: Rows, amount: nat)
    ensures Total(rows[PoolK := AmountV(amount)]) + PoolBalance(rows) == Total(rows) + amount
  {
    SumSet(rows, PoolK, AmountV(amount), Worth);
  }

  lemma TotalPutSlash(rows: Rows, r: SlashRecord)
    requires !SlashKnown(rows, r.id)
    ensures Total(PutSlash(rows, r)) == Total(rows) + r.burned
  {
    SumSet(rows, SlashK(r.id), SlashV(r), Worth);
  }

  // ---- tokens and contracts leave the coin alone ----

  lemma TotalSetTokenBalance(rows: Rows, token: Bytes, a: Bytes, amount: nat)
    ensures Total(SetTokenBalance(rows, token, a, amount)) == Total(rows)
  {
    TotalNeutralPut(rows, BalanceK(token, a), AmountV(amount));
    TotalNeutralDel(rows, BalanceK(token, a));
  }

  lemma TotalCreditToken(rows: Rows, id: Bytes, a: Bytes, amount: nat)
    requires CreditToken(rows, id, a, amount).Ok?
    ensures Total(CreditToken(rows, id, a, amount).value) == Total(rows)
  {
    hide Total, SetTokenBalance;
    var before := TokenBalance(rows, id, a);
    match GetToken(rows, id)
    case None => TotalSetTokenBalance(rows, id, a, before + amount);
    case Some(t) =>
      var holders := if before == 0 && amount > 0 then t.holders + 1 else t.holders;
      var t' := t.(supply := t.supply + amount, holders := holders);
      TotalNeutralPut(rows, TokenK(t'.id), TokenV(t'));
      TotalSetTokenBalance(SetToken(rows, t'), id, a, before + amount);
  }

  lemma TotalDebitToken(rows: Rows, id: Bytes, a: Bytes, amount: nat)
    requires DebitToken(rows, id, a, amount).Ok?
    ensures Total(DebitToken(rows, id, a, amount).value) == Total(rows)
  {
    hide Total, SetTokenBalance;
    var before := TokenBalance(rows, id, a);
    TotalSetTokenBalance(rows, id, a, before - amount);
    var debited := SetTokenBalance(rows, id, a, before - amount);
    match GetToken(debited, id)
    case None =>
    case Some(t) =>
      var holders := if before == amount then Minus(t.holders, 1) else t.holders;
      var t' := t.(supply := Minus(t.supply, amount), holders := holders);
      TotalNeutralPut(debited, TokenK(t'.id), TokenV(t'));
  }

  lemma {:induction false} TotalCommitWrites(rows: Rows, contract: Bytes, writes: seq<(Bytes, Option<Bytes>)>)
    ensures Total(CommitWrites(rows, contract, writes)) == Total(rows)
    ensures forall a :: GetAccount(CommitWrites(rows, contract, writes), a) == GetAccount(rows, a)
  {
    hide Total;
    if writes != [] {
      var last := |writes| - 1;
      TotalCommitWrites(rows, contract, writes[..last]);
      var before := CommitWrites(rows, contract, writes[..last]);
      var k := StorageK(contract, writes[last].0);
      TotalNeutralDel(before, k);
      if writes[last].1.Some? {
        TotalNeutralPut(before, k, BytesV(writes[last].1.value));
      }
    }
  }

  lemma {:induction false} TotalCommitTransfers(rows: Rows, contract: Bytes, transfers: seq<(Bytes, nat)>)
    requires CommitTransfers(rows, contract, transfers).Ok?
    ensures Total(CommitTransfers(rows, contract, transfers).value) == Total(rows)
  {
    hide Total, SetAccount, Credit;
    if transfers != [] {
      var last := |transfers| - 1;
      var (to, amount) := transfers[last];
      TotalCommitTransfers(rows, contract, transfers[..last]);
      var rows1 := CommitTransfers(rows, contract, transfers[..last]).value;
      var acct := GetAccount(rows1, contract);
      TotalSetAccount(rows1, contract, acct.(balance := acct.balance - amount));
      TotalCredit(SetAccount(rows1, contract, acct.(balance := acct.balance - amount)), to, amount);
    }
  }

  /** The transfers a run hands over can always be paid: the guard never fires. */
  lemma {:induction false} TransfersNeverOverspend(rows: Rows, contract: Bytes, transfers: seq<(Bytes, nat)>)
    requires Host.Paid(transfers) <= GetAccount(rows, contract).balance
    ensures var r := CommitTransfers(rows, contract, transfers);
            r.Ok? && GetAccount(r.value, contract).balance + Host.Paid(transfers) >= GetAccount(rows, contract).balance
  {
    hide SetAccount;
    if transfers != [] {
      var last := |transfers| - 1;
      var (to, amount) := transfers[last];
      TransfersNeverOverspend(rows, contract, transfers[..last]);
      var rows1 := CommitTransfers(rows, contract, transfers[..last]).value;
      var acct := GetAccount(rows1, contract);
      var paid := acct.(balance := acct.balance - amount);
      GetAfterSet(rows1, contract, paid, to);
      GetAfterSet(rows1, contract, paid, contract);
      var rows2 := SetAccount(rows1, contract, paid);
      var dest := GetAccount(rows2, to);
      GetAfterSet(rows2, to, dest.(balance := dest.balance + amount), contract);
    }
  }

  lemma OutcomeIsAffordable(env: Env, rows: Rows, contract: Bytes, caller: Bytes, code: Bytes, input: Bytes,
                            value: nat, height: nat, fuel: nat)
    ensures Host.Paid(Execute(env, rows, contract, caller, code, input, value, height, fuel).transfers)
         <= GetAccount(rows, contract).balance
  {
    var storage, balance := ContractStorage(rows, contract), GetAccount(rows, contract).balance;
    var run := env.vm(VmInput(contract, caller, code, input, value, height, fuel, storage, balance));
    Host.OverlayIsInPlace(env.validAddress, storage, balance, run.calls);
  }

  // ---- slashes ----

  lemma {:induction false} CutConserves(us: seq<Unbond>, pct: nat)
    requires pct <= 100
    ensures UnbondingTotal(CutUnbonding(us, pct)) + CutTotal(us, pct) == UnbondingTotal(us)
  {
    hide CutAmount;
    if us != [] {
      var last := |us| - 1;
      CutConserves(us[..last], pct);
      UnbondingSnoc(us);
      UnbondingAppend(CutUnbonding(us[..last], pct), us[last].(amount := us[last].amount - Cut(us[last].amount, pct)));
    }
  }

  lemma {:induction false} KeepPositiveConserves(us: seq<Unbond>)
    ensures UnbondingTotal(KeepPositive(us)) == UnbondingTotal(us)
  {
    if us != [] {
      var last := |us| - 1;
      KeepPositiveConserves(us[..last]);
      UnbondingSnoc(us);
      UnbondingAppend(KeepPositive(us[..last]), us[last]);
      assert KeepPositive(us[..last]) + [] == KeepPositive(us[..last]);
    }
  }

  lemma SlashedWorth(acct: Account, pct: nat)
    requires pct <= 100
    ensures AccountWorth(Slashed(acct, pct)) + Confiscated(acct, pct) == AccountWorth(acct)
  {
    CutConserves(acct.unbonding, pct);
    KeepPositiveConserves(CutUnbonding(acct.unbonding, pct));
  }

  /** A slash moves stake into the burn record and the bounty, nowhere else. */
  lemma TotalApplyReport(env: Env, rows: Rows, height: nat, reporter: Bytes, e: Evidence)
    requires ApplyReport(env, rows, height, reporter, e).Ok?
    ensures Total(ApplyReport(env, rows, height, reporter, e).value) == Total(rows)
  {
    hide Total, Confiscated, Slashed, BurnPct, TotalStaked, SetAccount, Credit, EvidenceId, Verify, SlashKnown,
         PutSlash, GetAccount, AccountWorth, Bounty;
    var offender := Verify(env.crypto, e).value;
    var acct := GetAccount(rows, offender);
    BurnPctBounded(acct.staked, TotalStaked(rows));
    var pct := BurnPct(acct.staked, TotalStaked(rows));
    SlashedWorth(acct, pct);
    TotalSetAccount(rows, offender, Slashed(acct, pct));
    var rows1 := SetAccount(rows, offender, Slashed(acct, pct));
    var burned := Confiscated(acct, pct);
    var bounty := Bounty(burned, reporter, offender);
    TotalCredit(rows1, reporter, bounty);
    var rows2 := if bounty > 0 then Credit(rows1, reporter, bounty) else rows1;
    var record := EquivocationRecord(env, e, offender, height, burned, bounty, reporter);
    SlashesAfterSet(rows, offender, Slashed(acct, pct), record.id);
    SlashesAfterCredit(rows1, reporter, bounty, record.id);
    TotalPutSlash(rows2, record);
  }

  lemma SlashesAfterSet(rows: Rows, a: Bytes, acct: Account, id: Bytes)
    ensures SlashKnown(SetAccount(rows, a, acct), id) == SlashKnown(rows, id)
  {
  }

  lemma SlashesAfterCredit(rows: Rows, a: Bytes, amount: nat, id: Bytes)
    ensures SlashKnown(Credit(rows, a, amount), id) == SlashKnown(rows, id)
  {
  }

  // ---- each transaction kind ----

  lemma TotalApplyCreate(env: Env, rows: Rows, sender: Bytes, nonce: nat, supply: nat, height: nat, p: Option<Payload>)
    requires ApplyCreate(env, rows, sender, nonce, supply, height, p).Ok?
    ensures Total(ApplyCreate(env, rows, sender, nonce, supply, height, p).value) == Total(rows)
  {
    hide Total, CreditToken;
    var symbol := env.normalizeSymbol(p.value.symbol).value;
    var id := env.tokenId(sender, nonce, symbol);
    var token := Token(id, symbol, env.trim(p.value.name), p.value.decimals, 0, sender, p.value.mintable, height, 0);
    TotalNeutralPut(rows, TokenK(token.id), TokenV(token));
    if supply > 0 {
      TotalCreditToken(SetToken(rows, token), id, sender, supply);
    }
  }

  lemma TotalApplyTokenTransfer(rows: Rows, sender: Bytes, to: Bytes, amount: nat, p: Option<Payload>)
    requires ApplyTokenTransfer(rows, sender, to, amount, p).Ok?
    ensures Total(ApplyTokenTransfer(rows, sender, to, amount, p).value) == Total(rows)
  {
    hide Total, CreditToken, DebitToken;
    var t := GetToken(rows, p.value.token).value;
    if sender != to {
      TotalDebitToken(rows, t.id, sender, amount);
      TotalCreditToken(DebitToken(rows, t.id, sender, amount).value, t.id, to, amount);
    }
  }

  lemma TotalApplyDeploy(env: Env, rows: Rows, sender: Bytes, tx: Transaction, height: nat)
    requires ApplyDeploy(env, rows, sender, tx, height).Ok?
    ensures Total(ApplyDeploy(env, rows, sender, tx, height).value) == Total(rows) + tx.amount
  {
    hide Total, Credit;
    var code := env.decodeCode(tx.payload).value;
    var hash := env.codeHash(code);
    var a := env.contractAddress(sender, tx.nonce, hash);
    TotalNeutralPut(rows, CodeK(hash), BytesV(code));
    var rows1 := rows[CodeK(hash) := BytesV(code)];
    var c := Contract(a, hash, |code|, sender, height, 0);
    TotalNeutralPut(rows1, ContractK(a), ContractV(c));
    TotalCredit(SetContract(rows1, c), a, tx.amount);
  }

  lemma TotalRefund(rows: Rows, contract: Bytes, sender: Bytes, amount: nat)
    requires amount <= GetAccount(rows, contract).balance
    ensures Total(RefundCall(rows, contract, sender, amount)) == Total(rows)
  {
    hide Total, SetAccount, Credit;
    var acct := GetAccount(rows, contract);
    var less := acct.(balance := acct.balance - amount);
    TotalSetAccount(rows, contract, less);
    TotalCredit(SetAccount(rows, contract, less), sender, amount);
  }

  lemma TotalApplyCall(env: Env, rows: Rows, sender: Bytes, tx: Transaction, height: nat)
    requires ApplyCall(env, rows, sender, tx, height).Ok?
    ensures Total(ApplyCall(env, rows, sender, tx, height).value) == Total(rows) + tx.amount
  {
    hide Total, SetAccount, Execute, CommitTransfers, CommitWrites, RefundCall, FuelForFee;
    var c := CheckCall(env, rows, tx.to).value;
    var code := GetBytes(rows, CodeK(c.codeHash)).value;
    var input := env.decodeArgs(tx.payload).value;
    TotalCredit(rows, tx.to, tx.amount);
    var rows1 := if tx.amount > 0 then Credit(rows, tx.to, tx.amount) else rows;
    var outcome := Execute(env, rows1, tx.to, sender, code, input, tx.amount, height, FuelForFee(tx.fee));
    var receipt := ReceiptV(Receipt(tx.to, sender, outcome.ok, height));
    TotalNeutralPut(rows1, ReceiptK(env.txHash(tx)), receipt);
    var rows2 := rows1[ReceiptK(env.txHash(tx)) := receipt];
    var counted := ContractV(c.(calls := c.calls + 1));
    if !outcome.ok {
      CreditedHas(rows, tx.to, tx.amount);
      TotalRefund(rows2, tx.to, sender, tx.amount);
      TotalNeutralPut(RefundCall(rows2, tx.to, sender, tx.amount), ContractK(c.address), counted);
    } else {
      TotalCommitWrites(rows2, tx.to, outcome.writes);
      var rows3 := CommitWrites(rows2, tx.to, outcome.writes);
      TotalCommitTransfers(rows3, tx.to, outcome.transfers);
      TotalNeutralPut(CommitTransfers(rows3, tx.to, outcome.transfers).value, ContractK(c.address), counted);
    }
  }

  lemma CreditedHas(rows: Rows, a: Bytes, amount: nat)
    ensures GetAccount(Credit(rows, a, amount), a).balance >= amount
  {
  }

  /** A call never fails after the contract has run: its transfers are covered. */
  lemma CallNeverOverspends(env: Env, rows: Rows, sender: Bytes, tx: Transaction, height: nat)
    requires CheckCall(env, rows, tx.to).Ok?
    requires GetBytes(rows, CodeK(CheckCall(env, rows, tx.to).value.codeHash)).Some?
    requires env.decodeArgs(tx.payload).Some?
    ensures ApplyCall(env, rows, sender, tx, height).Ok?
  {
    hide SetAccount, Execute, CommitTransfers, CommitWrites, RefundCall, FuelForFee;
    var c := CheckCall(env, rows, tx.to).value;
    var code := GetBytes(rows, CodeK(c.codeHash)).value;
    var input := env.decodeArgs(tx.payload).value;
    var rows1 := if tx.amount > 0 then Credit(rows, tx.to, tx.amount) else rows;
    var fuel := FuelForFee(tx.fee);
    OutcomeIsAffordable(env, rows1, tx.to, sender, code, input, tx.amount, height, fuel);
    var outcome := Execute(env, rows1, tx.to, sender, code, input, tx.amount, height, fuel);
    var rows2 := rows1[ReceiptK(env.txHash(tx)) := ReceiptV(Receipt(tx.to, sender, outcome.ok, height))];
    TotalCommitWrites(rows2, tx.to, outcome.writes);
    TransfersNeverOverspend(CommitWrites(rows2, tx.to, outcome.writes), tx.to, outcome.transfers);
  }

  lemma TotalApplySpend(env: Env, rows: Rows, tx: Transaction, d: ShieldedData, out: nat, height: nat)
    requires |d.nullifiers| == 2 && |d.commitments| == 2
    requires ApplySpend(env, rows, tx, d, out, height).Ok?
    ensures Total(ApplySpend(env, rows, tx, d, out, height).value) == Total(rows)
  {
    hide Total, Credit, LeafCount, SpendInputs;
    TotalNeutralPut(rows, VerifyingKeyK, BytesV(env.devnetKey));
    var rows1 := InstallKey(env, rows);
    TotalNeutralPut(rows1, NullifierK(d.nullifiers[0]), AmountV(height));
    var rows2 := BurnNullifier(rows1, d.nullifiers[0], height);
    TotalNeutralPut(rows2, NullifierK(d.nullifiers[1]), AmountV(height));
    var rows3 := BurnNullifier(rows2, d.nullifiers[1], height);
    TotalNeutralPut(rows3, LeafK(LeafCount(rows3)), BytesV(d.commitments[0]));
    var rows4 := AppendLeaf(rows3, d.commitments[0]);
    TotalNeutralPut(rows4, LeafK(LeafCount(rows4)), BytesV(d.commitments[1]));
    var rows5 := AppendLeaf(rows4, d.commitments[1]);
    assert PoolBalance(rows5) == PoolBalance(rows);
    if out > 0 {
      var left := PoolBalance(rows5) - out;
      TotalSetPool(rows5, left);
      TotalCredit(rows5[PoolK := AmountV(left)], tx.to, out);
    }
  }

  lemma TotalApplyShield(env: Env, rows: Rows, d: ShieldedData, amount: nat)
    requires |d.commitments| == 1 && ApplyShield(env, rows, d, amount).Ok?
    ensures Total(ApplyShield(env, rows, d, amount).value) == Total(rows) + amount
  {
    hide Total, LeafCount;
    TotalNeutralPut(rows, LeafK(LeafCount(rows)), BytesV(d.commitments[0]));
    var rows1 := AppendLeaf(rows, d.commitments[0]);
    TotalSetPool(rows1, PoolBalance(rows1) + amount);
  }

  /** Value the sender hands over beyond the fee. */
  function Moved(tx: Transaction): nat {
    match tx.kind
    case Transfer => tx.amount
    case Stake => tx.amount
    case DeployContract => tx.amount
    case CallContract => tx.amount
    case Shield => tx.amount
    case _ => 0
  }

  /** The debit is what moves plus what is collected, saturated at 128 bits. */
  lemma DebitSplits(tx: Transaction)
    ensures Debit(tx) == SatAdd(Moved(tx), Collected(tx))
  {
  }

  lemma TotalEffect(env: Env, rows: Rows, tx: Transaction, height: nat, sender: Bytes)
    requires var acct := GetAccount(rows, sender);
             && Debit(tx) <= acct.balance
             && Effect(env, rows, tx, height, sender, Charged(acct, Debit(tx))).Ok?
    ensures var acct := GetAccount(rows, sender);
            Total(Effect(env, rows, tx, height, sender, Charged(acct, Debit(tx))).value) + Debit(tx)
            == Total(rows) + Moved(tx)
  {
    hide Total, SetAccount, Credit, Debit, Collected, ApplyReport, ApplyUnjail, ApplyCreate, ApplyMint,
         ApplyTokenTransfer, ApplyBurn, ApplyDeploy, ApplyCall, ApplyShielded, CheckReport, UnbondingTotal,
         GetAccount;
    var acct := GetAccount(rows, sender);
    var from := Charged(acct, Debit(tx));
    TotalSetAccount(rows, sender, from);
    var rows1 := SetAccount(rows, sender, from);
    match tx.kind
    case Transfer =>
      TotalSetAccount(rows, sender, from.(balance := from.balance + tx.amount));
      TotalCredit(rows1, tx.to, tx.amount);
    case Stake => TotalSetAccount(rows, sender, from.(staked := from.staked + tx.amount));
    case Unstake => TotalUnstake(rows, sender, from, tx.amount, height);
    case ReportEquivocation =>
      TotalApplyReport(env, rows1, height, sender, CheckReport(env, rows1, height, tx.payload).value);
    case Unjail => TotalApplyUnjail(rows1, height, sender);
    case CreateToken => TotalApplyCreate(env, rows1, sender, tx.nonce, tx.amount, height, tx.payload);
    case MintToken => TotalApplyMint(rows1, sender, tx.to, tx.amount, tx.payload);
    case TokenTransfer => TotalApplyTokenTransfer(rows1, sender, tx.to, tx.amount, tx.payload);
    case BurnToken => TotalApplyBurn(rows1, sender, tx.amount, tx.payload);
    case DeployContract => TotalApplyDeploy(env, rows1, sender, tx, height);
    case CallContract => TotalApplyCall(env, rows1, sender, tx, height);
    case Shield => TotalApplyShielded(env, rows1, tx, height);
    case PrivateTransfer => TotalApplyShielded(env, rows1, tx, height);
    case Unshield => TotalApplyShielded(env, rows1, tx, height);
  }

  lemma TotalUnstake(rows: Rows, sender: Bytes, from: Account, amount: nat, height: nat)
    requires amount <= from.staked
    ensures var after := from.(staked := from.staked - amount,
                               unbonding := from.unbonding + [Unbond(amount, height + UNBONDING_BLOCKS)]);
            Total(SetAccount(rows, sender, after)) == Total(SetAccount(rows, sender, from))
  {
    hide Total, SetAccount;
    var u := Unbond(amount, height + UNBONDING_BLOCKS);
    UnbondingAppend(from.unbonding, u);
    TotalSetAccount(rows, sender, from.(staked := from.staked - amount, unbonding := from.unbonding + [u]));
    TotalSetAccount(rows, sender, from);
  }

  lemma TotalApplyUnjail(rows: Rows, height: nat, a: Bytes)
    requires ApplyUnjail(rows, height, a).Ok?
    ensures Total(ApplyUnjail(rows, height, a).value) == Total(rows)
  {
    hide Total, SetAccount;
    TotalSetAccount(rows, a, Released(GetAccount(rows, a)));
  }

  lemma TotalApplyMint(rows: Rows, sender: Bytes, to: Bytes, amount: nat, p: Option<Payload>)
    requires ApplyMint(rows, sender, to, amount, p).Ok?
    ensures Total(ApplyMint(rows, sender, to, amount, p).value) == Total(rows)
  {
    hide Total, CreditToken;
    TotalCreditToken(rows, GetToken(rows, p.value.token).value.id, to, amount);
  }

  lemma TotalApplyBurn(rows: Rows, sender: Bytes, amount: nat, p: Option<Payload>)
    requires ApplyBurn(rows, sender, amount, p).Ok?
    ensures Total(ApplyBurn(rows, sender, amount, p).value) == Total(rows)
  {
    hide Total, DebitToken;
    TotalDebitToken(rows, GetToken(rows, p.value.token).value.id, sender, amount);
  }

  lemma TotalApplyShielded(env: Env, rows: Rows, tx: Transaction, height: nat)
    requires ApplyShielded(env, rows, tx, height).Ok?
    ensures Total(ApplyShielded(env, rows, tx, height).value) == Total(rows) + if tx.kind.Shield? then tx.amount else 0
  {
    hide Total, ApplyShield, ApplySpend;
    var d := tx.shielded.value;
    match tx.kind
    case Shield => TotalApplyShield(env, rows, d, tx.amount);
    case PrivateTransfer => TotalApplySpend(env, rows, tx, d, 0, height);
    case Unshield => TotalApplySpend(env, rows, tx, d, env.parseAmount(d.publicUnshield).value, height);
  }

  /** A transaction takes exactly its fee out of the tables if and only if its debit
      does not saturate; a saturated debit would pay out more than it took. */
  lemma TxConservesIff(env: Env, rows: Rows, tx: Transaction, height: nat)
    requires ApplyTx(env, rows, tx, height).Ok?
    ensures var (rows', fee) := ApplyTx(env, rows, tx, height).value;
            Total(rows') + fee == Total(rows) <==> Moved(tx) + Collected(tx) <= U128_MAX
  {
    hide Total, Effect, Debit, Collected, Precheck, Moved;
    TotalEffect(env, rows, tx, height, env.crypto.addressOf(tx.fromPubkey).value);
    DebitSplits(tx);
  }

  /** One transaction takes exactly its fee out of the tables. */
  lemma TotalApplyTx(env: Env, rows: Rows, tx: Transaction, height: nat)
    requires Total(rows) < U128_MAX && ApplyTx(env, rows, tx, height).Ok?
    ensures var (rows', fee) := ApplyTx(env, rows, tx, height).value;
            Total(rows') + fee == Total(rows)
  {
    hide Total, Effect, Debit, Collected, Precheck, Moved;
    AccountWithinTotal(rows, env.crypto.addressOf(tx.fromPubkey).value);
    DebitSplits(tx);
    TxConservesIff(env, rows, tx, height);
  }

  lemma {:induction false} TotalApplyTxs(env: Env, rows: Rows, txs: seq<Transaction>, height: nat)
    requires Total(rows) < U128_MAX && ApplyTxs(env, rows, txs, height).Ok?
    ensures var (rows', fees) := ApplyTxs(env, rows, txs, height).value;
            Total(rows') + fees == Total(rows)
  {
    hide Total, ApplyTx;
    if txs != [] {
      var last := |txs| - 1;
      TotalApplyTxs(env, rows, txs[..last], height);
      TotalApplyTx(env, ApplyTxs(env, rows, txs[..last], height).value.0, txs[last], height);
    }
  }
}
