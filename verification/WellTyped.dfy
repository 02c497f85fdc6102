/** Every row of every reachable table holds the kind of value its key calls for, under its
    own name (src/state.rs, src/chain.rs). */
module WellTyped {
  import opened Base
  import opened Types
  import opened Evidence
  import opened Election
  import opened Tables
  import opened Ledger
  import opened LeafText
  import Fees
  import Signing

  predicate Fits(k: Key, v: Value) {
    match k
    case AccountK(_) => v.AccountV?
    case StakerK(_) => v.MarkV?
    case TokenK(id) => v.TokenV? && v.token.id == id && PlainToken(v.token)
    case BalanceK(_, _) => v.AmountV? && v.amount > 0
    case ContractK(a) => v.ContractV? && v.contract.address == a && PlainContract(v.contract)
    case CodeK(_) => v.BytesV?
    case StorageK(_, _) => v.BytesV?
    case ReceiptK(_) => v.ReceiptV?
    case SlashK(id) => v.SlashV? && v.slash.id == id
    case LeafK(_) => v.BytesV?
    case NullifierK(_) => v.AmountV?
    case RootK(_) => v.AmountV?
    case BlockK(h) => v.BlockV? && v.block.header.height == h
    case TxK(_) => v.AmountV?
    case TipHeightK => v.AmountV?
    case TipHashK => v.BytesV?
    case BaseFeeK => v.AmountV?
    case PoolK => v.AmountV?
    case VerifyingKeyK => v.BytesV?
    case SealedCountK => v.AmountV?
    case FinalizedK => v.AmountV?
    case SealK => v.SealV?
  }

  ghost predicate Typed(rows: Rows) {
    forall k :: k in rows ==> Fits(k, rows[k])
  }

  /** Addresses, code hashes and token symbols hold no bar. */
  ghost predicate PlainNames(env: Env) {
    && (forall key :: env.crypto.addressOf(key).Some? ==> Signing.DelimiterFree(env.crypto.addressOf(key).value))
    && (forall code :: Signing.DelimiterFree(env.codeHash(code)))
    && (forall s :: env.normalizeSymbol(s).Some? ==> Signing.DelimiterFree(env.normalizeSymbol(s).value))
  }

  // ---- single writes ----

  lemma Put(rows: Rows, k: Key, v: Value)
    requires Typed(rows) && Fits(k, v)
    ensures Typed(rows[k := v]) && Typed(rows - {k})
  {
  }

  lemma SetAccountFits(rows: Rows, a: Bytes, acct: Account)
    requires Typed(rows)
    ensures Typed(SetAccount(rows, a, acct))
  {
  }

  lemma CreditFits(rows: Rows, a: Bytes, amount: nat)
    requires Typed(rows)
    ensures Typed(Credit(rows, a, amount))
  {
    hide Typed, SetAccount;
    var acct := GetAccount(rows, a);
    SetAccountFits(rows, a, acct.(balance := acct.balance + amount));
  }

  // ---- tokens ----

  lemma TokenFits(rows: Rows, id: Bytes)
    requires Typed(rows) && GetToken(rows, id).Some?
    ensures GetToken(rows, id).value.id == id && PlainToken(GetToken(rows, id).value)
  {
    assert Fits(TokenK(id), rows[TokenK(id)]);
  }

  lemma SetBalanceFits(rows: Rows, id: Bytes, a: Bytes, amount: nat)
    requires Typed(rows)
    ensures Typed(SetTokenBalance(rows, id, a, amount))
  {
  }

  lemma CreditTokenFits(rows: Rows, id: Bytes, a: Bytes, amount: nat)
    requires Typed(rows) && CreditToken(rows, id, a, amount).Ok?
    ensures Typed(CreditToken(rows, id, a, amount).value)
  {
    hide Typed, SetTokenBalance, TokenBalance, GetToken;
    var before := TokenBalance(rows, id, a);
    match GetToken(rows, id)
    case None => SetBalanceFits(rows, id, a, before + amount);
    case Some(t) =>
      TokenFits(rows, id);
      var t' := t.(supply := t.supply + amount, holders := if before == 0 && amount > 0 then t.holders + 1 else t.holders);
      Put(rows, TokenK(id), TokenV(t'));
      SetBalanceFits(SetToken(rows, t'), id, a, before + amount);
  }

  lemma DebitTokenFits(rows: Rows, id: Bytes, a: Bytes, amount: nat)
    requires Typed(rows) && DebitToken(rows, id, a, amount).Ok?
    ensures Typed(DebitToken(rows, id, a, amount).value)
  {
    hide Typed, SetTokenBalance, TokenBalance, GetToken;
    var before := TokenBalance(rows, id, a);
    SetBalanceFits(rows, id, a, before - amount);
    var debited := SetTokenBalance(rows, id, a, before - amount);
    match GetToken(debited, id)
    case None =>
    case Some(t) =>
      TokenFits(debited, id);
      var holders := if before == amount then Minus(t.holders, 1) else t.holders;
      Put(debited, TokenK(id), TokenV(t.(supply := Minus(t.supply, amount), holders := holders)));
  }

  lemma CreateFits(env: Env, rows: Rows, sender: Bytes, nonce: nat, supply: nat, height: nat, p: Option<Payload>)
    requires Typed(rows) && PlainNames(env) && Signing.DelimiterFree(sender)
    requires ApplyCreate(env, rows, sender, nonce, supply, height, p).Ok?
    ensures Typed(ApplyCreate(env, rows, sender, nonce, supply, height, p).value)
  {
    hide Typed, CreditToken, GetToken;
    var symbol := env.normalizeSymbol(p.value.symbol).value;
    var id := env.tokenId(sender, nonce, symbol);
    var token := Token(id, symbol, env.trim(p.value.name), p.value.decimals, 0, sender, p.value.mintable, height, 0);
    Put(rows, TokenK(id), TokenV(token));
    if supply > 0 {
      CreditTokenFits(SetToken(rows, token), id, sender, supply);
    }
  }

  lemma TokenTransferFits(rows: Rows, sender: Bytes, to: Bytes, amount: nat, p: Option<Payload>)
    requires Typed(rows) && ApplyTokenTransfer(rows, sender, to, amount, p).Ok?
    ensures Typed(ApplyTokenTransfer(rows, sender, to, amount, p).value)
  {
    hide Typed, CreditToken, DebitToken, GetToken;
    var t := GetToken(rows, p.value.token).value;
    if sender != to {
      DebitTokenFits(rows, t.id, sender, amount);
      CreditTokenFits(DebitToken(rows, t.id, sender, amount).value, t.id, to, amount);
    }
  }

  // ---- contracts ----

  lemma ContractFits(rows: Rows, a: Bytes)
    requires Typed(rows) && GetContract(rows, a).Some?
    ensures GetContract(rows, a).value.address == a && PlainContract(GetContract(rows, a).value)
  {
    assert Fits(ContractK(a), rows[ContractK(a)]);
  }

  lemma DeployFits(env: Env, rows: Rows, sender: Bytes, tx: Transaction, height: nat)
    requires Typed(rows) && PlainNames(env) && Signing.DelimiterFree(sender) && ApplyDeploy(env, rows, sender, tx, height).Ok?
    ensures Typed(ApplyDeploy(env, rows, sender, tx, height).value)
  {
    hide Typed, Credit, GetContract;
    var code := env.decodeCode(tx.payload).value;
    var hash := env.codeHash(code);
    var a := env.contractAddress(sender, tx.nonce, hash);
    Put(rows, CodeK(hash), BytesV(code));
    var rows1 := rows[CodeK(hash) := BytesV(code)];
    var c := Contract(a, hash, |code|, sender, height, 0);
    Put(rows1, ContractK(a), ContractV(c));
    CreditFits(SetContract(rows1, c), a, tx.amount);
  }

  lemma {:induction false} WritesFit(rows: Rows, c: Bytes, writes: seq<(Bytes, Option<Bytes>)>)
    requires Typed(rows)
    ensures Typed(CommitWrites(rows, c, writes))
  {
    hide Typed;
    if writes != [] {
      var last := |writes| - 1;
      WritesFit(rows, c, writes[..last]);
      var value := if writes[last].1.Some? then writes[last].1.value else "";
      Put(CommitWrites(rows, c, writes[..last]), StorageK(c, writes[last].0), BytesV(value));
    }
  }

  lemma {:induction false} TransfersFit(rows: Rows, c: Bytes, transfers: seq<(Bytes, nat)>)
    requires Typed(rows) && CommitTransfers(rows, c, transfers).Ok?
    ensures Typed(CommitTransfers(rows, c, transfers).value)
  {
    hide Typed, SetAccount, Credit, GetAccount;
    if transfers != [] {
      var last := |transfers| - 1;
      var (to, amount) := transfers[last];
      TransfersFit(rows, c, transfers[..last]);
      var rows1 := CommitTransfers(rows, c, transfers[..last]).value;
      var acct := GetAccount(rows1, c);
      var less := acct.(balance := acct.balance - amount);
      SetAccountFits(rows1, c, less);
      CreditFits(SetAccount(rows1, c, less), to, amount);
    }
  }

  lemma RefundFits(rows: Rows, c: Bytes, sender: Bytes, amount: nat)
    requires Typed(rows)
    ensures Typed(RefundCall(rows, c, sender, amount))
  {
    hide Typed, SetAccount, Credit, GetAccount;
    var acct := GetAccount(rows, c);
    var less := acct.(balance := Minus(acct.balance, amount));
    SetAccountFits(rows, c, less);
    CreditFits(SetAccount(rows, c, less), sender, amount);
  }

  lemma CallFits(env: Env, rows: Rows, sender: Bytes, tx: Transaction, height: nat)
    requires Typed(rows) && ApplyCall(env, rows, sender, tx, height).Ok?
    ensures Typed(ApplyCall(env, rows, sender, tx, height).value)
  {
    hide Typed, Credit, Execute, CommitTransfers, CommitWrites, RefundCall, FuelForFee, GetContract;
    var c := CheckCall(env, rows, tx.to).value;
    ContractFits(rows, tx.to);
    var code := GetBytes(rows, CodeK(c.codeHash)).value;
    var input := env.decodeArgs(tx.payload).value;
    CreditFits(rows, tx.to, tx.amount);
    var rows1 := if tx.amount > 0 then Credit(rows, tx.to, tx.amount) else rows;
    var o := Execute(env, rows1, tx.to, sender, code, input, tx.amount, height, FuelForFee(tx.fee));
    var receipt := ReceiptV(Receipt(tx.to, sender, o.ok, height));
    Put(rows1, ReceiptK(env.txHash(tx)), receipt);
    var rows2 := rows1[ReceiptK(env.txHash(tx)) := receipt];
    var counted := ContractV(c.(calls := c.calls + 1));
    if o.ok {
      WritesFit(rows2, tx.to, o.writes);
      TransfersFit(CommitWrites(rows2, tx.to, o.writes), tx.to, o.transfers);
      Put(CommitTransfers(CommitWrites(rows2, tx.to, o.writes), tx.to, o.transfers).value, ContractK(c.address), counted);
    } else {
      RefundFits(rows2, tx.to, sender, tx.amount);
      Put(RefundCall(rows2, tx.to, sender, tx.amount), ContractK(c.address), counted);
    }
  }

  // ---- slashes and the pool ----

  lemma ReportFits(env: Env, rows: Rows, height: nat, reporter: Bytes, e: Evidence)
    requires Typed(rows) && ApplyReport(env, rows, height, reporter, e).Ok?
    ensures Typed(ApplyReport(env, rows, height, reporter, e).value)
  {
    hide Typed, SetAccount, Credit, Slashed, Confiscated, TotalStaked, BurnPct, EvidenceId, GetAccount, Bounty;
    var offender := Verify(env.crypto, e).value;
    var acct := GetAccount(rows, offender);
    BurnPctBounded(acct.staked, TotalStaked(rows));
    var pct := BurnPct(acct.staked, TotalStaked(rows));
    SetAccountFits(rows, offender, Slashed(acct, pct));
    var rows1 := SetAccount(rows, offender, Slashed(acct, pct));
    var burned := Confiscated(acct, pct);
    var bounty := Bounty(burned, reporter, offender);
    CreditFits(rows1, reporter, bounty);
    var rows2 := if bounty > 0 then Credit(rows1, reporter, bounty) else rows1;
    var r := EquivocationRecord(env, e, offender, height, burned, bounty, reporter);
    Put(rows2, SlashK(r.id), SlashV(r));
  }

  lemma SpendFits(env: Env, rows: Rows, tx: Transaction, d: ShieldedData, out: nat, height: nat)
    requires Typed(rows) && |d.nullifiers| == 2 && |d.commitments| == 2 && ApplySpend(env, rows, tx, d, out, height).Ok?
    ensures Typed(ApplySpend(env, rows, tx, d, out, height).value)
  {
    hide Typed, LeafCount, Credit, SpendInputs;
    Put(rows, VerifyingKeyK, BytesV(env.devnetKey));
    var rows1 := InstallKey(env, rows);
    Put(rows1, NullifierK(d.nullifiers[0]), AmountV(height));
    var rows2 := BurnNullifier(rows1, d.nullifiers[0], height);
    Put(rows2, NullifierK(d.nullifiers[1]), AmountV(height));
    var rows3 := BurnNullifier(rows2, d.nullifiers[1], height);
    Put(rows3, LeafK(LeafCount(rows3)), BytesV(d.commitments[0]));
    var rows4 := AppendLeaf(rows3, d.commitments[0]);
    Put(rows4, LeafK(LeafCount(rows4)), BytesV(d.commitments[1]));
    var rows5 := AppendLeaf(rows4, d.commitments[1]);
    assert PoolBalance(rows5) == PoolBalance(rows);
    if out > 0 {
      var left := AmountV(PoolBalance(rows5) - out);
      Put(rows5, PoolK, left);
      CreditFits(rows5[PoolK := left], tx.to, out);
    }
  }

  lemma ShieldFits(env: Env, rows: Rows, d: ShieldedData, amount: nat)
    requires Typed(rows) && |d.commitments| == 1 && ApplyShield(env, rows, d, amount).Ok?
    ensures Typed(ApplyShield(env, rows, d, amount).value)
  {
    hide Typed, LeafCount;
    Put(rows, LeafK(LeafCount(rows)), BytesV(d.commitments[0]));
    var rows1 := AppendLeaf(rows, d.commitments[0]);
    Put(rows1, PoolK, AmountV(PoolBalance(rows1) + amount));
  }

  lemma ShieldedFits(env: Env, rows: Rows, tx: Transaction, height: nat)
    requires Typed(rows) && ApplyShielded(env, rows, tx, height).Ok?
    ensures Typed(ApplyShielded(env, rows, tx, height).value)
  {
    hide Typed, ApplyShield, ApplySpend;
    var d := tx.shielded.value;
    match tx.kind
    case Shield => ShieldFits(env, rows, d, tx.amount);
    case PrivateTransfer => SpendFits(env, rows, tx, d, 0, height);
    case Unshield => SpendFits(env, rows, tx, d, env.parseAmount(d.publicUnshield).value, height);
  }

  // ---- transactions ----

  lemma EffectFits(env: Env, rows: Rows, tx: Transaction, height: nat, sender: Bytes, from: Account)
    requires Typed(rows) && PlainNames(env) && Signing.DelimiterFree(sender)
    requires Effect(env, rows, tx, height, sender, from).Ok?
    ensures Typed(Effect(env, rows, tx, height, sender, from).value)
  {
    hide Typed, PlainNames, SetAccount, Credit, GetAccount, ApplyReport, ApplyCreate, ApplyTokenTransfer, CreditToken,
         DebitToken, ApplyDeploy, ApplyCall, ApplyShielded, CheckReport, GetToken;
    SetAccountFits(rows, sender, from);
    var rows1 := SetAccount(rows, sender, from);
    match tx.kind
    case Transfer =>
      SetAccountFits(rows, sender, from.(balance := from.balance + tx.amount));
      CreditFits(rows1, tx.to, tx.amount);
    case Stake => SetAccountFits(rows, sender, from.(staked := from.staked + tx.amount));
    case Unstake =>
      SetAccountFits(rows, sender, from.(staked := from.staked - tx.amount,
        unbonding := from.unbonding + [Unbond(tx.amount, height + UNBONDING_BLOCKS)]));
    case ReportEquivocation => ReportFits(env, rows1, height, sender, CheckReport(env, rows1, height, tx.payload).value);
    case Unjail => SetAccountFits(rows1, sender, Released(GetAccount(rows1, sender)));
    case CreateToken => CreateFits(env, rows1, sender, tx.nonce, tx.amount, height, tx.payload);
    case MintToken => CreditTokenFits(rows1, GetToken(rows1, tx.payload.value.token).value.id, tx.to, tx.amount);
    case TokenTransfer => TokenTransferFits(rows1, sender, tx.to, tx.amount, tx.payload);
    case BurnToken => DebitTokenFits(rows1, GetToken(rows1, tx.payload.value.token).value.id, sender, tx.amount);
    case DeployContract => DeployFits(env, rows1, sender, tx, height);
    case CallContract => CallFits(env, rows1, sender, tx, height);
    case Shield => ShieldedFits(env, rows1, tx, height);
    case PrivateTransfer => ShieldedFits(env, rows1, tx, height);
    case Unshield => ShieldedFits(env, rows1, tx, height);
  }

  lemma {:induction false} TxsFit(env: Env, rows: Rows, txs: seq<Transaction>, height: nat)
    requires Typed(rows) && PlainNames(env) && ApplyTxs(env, rows, txs, height).Ok?
    ensures Typed(ApplyTxs(env, rows, txs, height).value.0)
  {
    hide Typed, Effect, Precheck, Debit, Collected, GetAccount;
    if txs != [] {
      var last := |txs| - 1;
      TxsFit(env, rows, txs[..last], height);
      var rows1, tx := ApplyTxs(env, rows, txs[..last], height).value.0, txs[last];
      var sender := env.crypto.addressOf(tx.fromPubkey).value;
      EffectFits(env, rows1, tx, height, sender, Charged(GetAccount(rows1, sender), Debit(tx)));
    }
  }

  // ---- end of block ----

  lemma {:induction false} ReleaseFits(rows: Rows, list: seq<Bytes>, height: nat)
    requires Typed(rows)
    ensures Typed(ReleaseAll(rows, list, height))
  {
    hide Typed, SetAccount, Matured, Locked, UnbondingTotal;
    if list != [] {
      var last := |list| - 1;
      ReleaseFits(rows, list[..last], height);
      var before, a := ReleaseAll(rows, list[..last], height), list[last];
      var acct := GetAccount(before, a);
      SetAccountFits(before, a, acct.(unbonding := Locked(acct.unbonding, height),
        balance := acct.balance + UnbondingTotal(Matured(acct.unbonding, height))));
    }
  }

  lemma {:induction false} ChargesFit(rows: Rows, height: nat, missed: seq<Bytes>)
    requires Typed(rows)
    ensures Typed(ChargeAll(rows, height, missed))
  {
    hide Typed, SetAccount, Leaked, Jailed, RepeatBurn, DowntimeId, OneMiss, GetAccount;
    if missed != [] {
      var last := |missed| - 1;
      ChargesFit(rows, height, missed[..last]);
      var before, a := ChargeAll(rows, height, missed[..last]), missed[last];
      var acct := OneMiss(GetAccount(before, a));
      SetAccountFits(before, a, Leaked(acct, height));
      SetAccountFits(before, a, Jailed(acct, height));
      SetAccountFits(before, a, acct);
      var r := SlashRecord(DowntimeId(height, a), "downtime", a, height, height, RepeatBurn(acct), 0, "", false,
                           height + DOWNTIME_JAIL_BLOCKS);
      Put(SetAccount(before, a, Jailed(acct, height)), SlashK(r.id), SlashV(r));
    }
  }

  lemma LivenessFits(env: Env, rows: Rows, height: nat, parentHash: Bytes, producer: Bytes)
    requires Typed(rows)
    ensures Typed(RecordLiveness(env, rows, height, parentHash, producer))
  {
    hide Typed, Absent, ChargeAll, SetAccount;
    match Absent(env, rows, height, parentHash, producer)
    case None =>
    case Some(missed) =>
      ChargesFit(rows, height, missed);
      var charged := ChargeAll(rows, height, missed);
      var acct := GetAccount(charged, producer);
      var p := acct.penalties;
      SetAccountFits(charged, producer, acct.(penalties := p.(missedStreak := 0,
        jailedUntil := if ForgivesJail(p, height) then 0 else p.jailedUntil)));
  }

  lemma {:induction false} RewardsFit(rows: Rows, vals: seq<Validator>, total: nat)
    requires Typed(rows) && total > 0
    ensures Typed(RewardAll(rows, vals, total))
  {
    hide Typed, SetAccount, RewardCut;
    if vals != [] {
      var v, before := vals[|vals| - 1], RewardAll(rows, vals[..|vals| - 1], total);
      RewardsFit(rows, vals[..|vals| - 1], total);
      var acct, cut := GetAccount(before, v.address), RewardCut(v.stake, total);
      SetAccountFits(before, v.address, acct.(balance := acct.balance + cut, rewards := acct.rewards + cut));
    }
  }

  lemma LeaderFits(rows: Rows, leader: Bytes, amount: nat, reward: nat)
    requires Typed(rows)
    ensures Typed(PayLeader(rows, leader, amount, reward))
  {
    hide Typed, SetAccount;
    var acct := GetAccount(rows, leader);
    SetAccountFits(rows, leader, acct.(balance := acct.balance + amount, rewards := acct.rewards + reward,
                                       blocksProduced := acct.blocksProduced + 1));
  }

  lemma PayFits(rows: Rows, leader: Bytes, fees: nat)
    requires Typed(rows)
    ensures Typed(PayRewards(rows, leader, fees))
  {
    hide Typed, RewardAll, Distributed, ValidatorSetAt, TotalStake, PayLeader;
    var vals := ValidatorSetAt(rows, NextHeight(rows));
    var total := TotalStake(vals);
    if total == 0 {
      LeaderFits(rows, leader, fees + BLOCK_REWARD, BLOCK_REWARD);
    } else {
      DistributedBounded(vals, total);
      var dust := SHARED - Distributed(vals, total);
      RewardsFit(rows, vals, total);
      LeaderFits(RewardAll(rows, vals, total), leader, fees + COMMISSION + dust, COMMISSION + dust);
    }
  }

  lemma SealFits(env: Env, rows: Rows, height: nat)
    requires Typed(rows)
    ensures Typed(SealShieldedRoot(env, rows, height))
  {
    hide Typed, ShieldedRoot, LeafCount, PoolBalance, Nullifiers;
    var count := LeafCount(rows);
    Put(rows, RootK(ShieldedRoot(env, rows)), AmountV(height));
    var rows1 := rows[RootK(ShieldedRoot(env, rows)) := AmountV(height)];
    Put(rows1, SealedCountK, AmountV(count));
    Put(rows1[SealedCountK := AmountV(count)], SealK, CurrentSeal(env, rows));
  }

  lemma FinishFits(env: Env, rows: Rows, height: nat, parentHash: Bytes, producer: Bytes, fees: nat)
    requires Typed(rows)
    ensures Typed(FinishBlock(env, rows, height, parentHash, producer, fees))
  {
    hide Typed, ReleaseAll, RecordLiveness, PayRewards, SealShieldedRoot, StakerList;
    ReleaseFits(rows, StakerList(rows), height);
    var rows1 := ReleaseUnbonded(rows, height);
    LivenessFits(env, rows1, height, parentHash, producer);
    var rows2 := RecordLiveness(env, rows1, height, parentHash, producer);
    PayFits(rows2, producer, fees);
    SealFits(env, PayRewards(rows2, producer, fees), height);
  }

  // ---- blocks ----

  lemma {:induction false} IndexFits(rows: Rows, txHash: Transaction -> Bytes, txs: seq<Transaction>, height: nat)
    requires Typed(rows)
    ensures Typed(IndexTxs(rows, txHash, txs, height))
  {
    hide Typed;
    if txs != [] {
      var last := |txs| - 1;
      IndexFits(rows, txHash, txs[..last], height);
      Put(IndexTxs(rows, txHash, txs[..last], height), TxK(txHash(txs[last])), AmountV(height));
    }
  }

  lemma PutBlockFits(rows: Rows, txHash: Transaction -> Bytes, b: Block)
    requires Typed(rows)
    ensures Typed(PutBlock(rows, txHash, b))
  {
    hide Typed, IndexTxs;
    var h := b.header.height;
    Put(rows, BlockK(h), BlockV(b));
    IndexFits(rows[BlockK(h) := BlockV(b)], txHash, b.transactions, h);
    var indexed := IndexTxs(rows[BlockK(h) := BlockV(b)], txHash, b.transactions, h);
    Put(indexed, TipHeightK, AmountV(h));
    Put(indexed[TipHeightK := AmountV(h)], TipHashK, BytesV(b.header.hash));
  }

  lemma StoreFits(env: Env, rows: Rows, b: Block)
    requires Typed(rows)
    ensures Typed(StoreBlock(env, rows, b))
  {
    hide Typed, PutBlock, BaseFee;
    PutBlockFits(rows, env.txHash, b);
    Put(PutBlock(rows, env.txHash, b), BaseFeeK, AmountV(Fees.NextBaseFee(BaseFee(rows), |b.transactions|)));
  }

  lemma {:induction false} GenesisFits(alloc: seq<Alloc>)
    ensures Typed(GenesisAccounts(alloc))
  {
    hide SetAccount, GetAccount;
    if alloc != [] {
      var last := |alloc| - 1;
      GenesisFits(alloc[..last]);
      var a, rows := alloc[last], GenesisAccounts(alloc[..last]);
      var acct := GetAccount(rows, a.address);
      SetAccountFits(rows, a.address, acct.(balance := acct.balance + a.balance, staked := acct.staked + a.stake));
    }
  }

  /** On every chain from genesis each row fits its key: accounts under addresses, tokens and
      contracts under their own names with readable text, no zero token balances. */
  lemma {:induction false} TypedOnEveryRun(env: Env, alloc: seq<Alloc>, genesis: Block, blocks: seq<Block>)
    requires PlainNames(env) && RunBlocks(env, Genesis(env, alloc, genesis), blocks).Ok?
    ensures Typed(RunBlocks(env, Genesis(env, alloc, genesis), blocks).value)
  {
    hide Typed, ApplyTxs, FinishBlock, StoreBlock, PutBlock, GenesisAccounts, PlainNames;
    if blocks == [] {
      GenesisFits(alloc);
      PutBlockFits(GenesisAccounts(alloc), env.txHash, genesis);
    } else {
      var last := |blocks| - 1;
      var b := blocks[last];
      TypedOnEveryRun(env, alloc, genesis, blocks[..last]);
      var rows1 := RunBlocks(env, Genesis(env, alloc, genesis), blocks[..last]).value;
      TxsFit(env, rows1, b.transactions, b.header.height);
      var (rows2, fees) := ApplyTxs(env, rows1, b.transactions, b.header.height).value;
      FinishFits(env, rows2, b.header.height, b.header.parentHash, b.header.producer, fees);
      StoreFits(env, FinishBlock(env, rows2, b.header.height, b.header.parentHash, b.header.producer, fees), b);
    }
  }
}
