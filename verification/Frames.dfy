/** Which tables each ledger operation may touch; every other row is left alone.
    Account rows only ever change together with the staker index, and never lose
    a nonce, a tombstone or a slash. */
module Frames {
  import opened Base
  import opened Types
  import opened Evidence
  import opened Election
  import opened Tables
  import opened Ledger
  import Fees

  datatype Table =
    | Accounts | Tokens | Contracts | Receipts | Slashes | Leaves | Nullifiers | Roots | Blocks
    | Pool | VerifyingKey | Seals | Tip | BaseFees | Finality

  function TableOf(k: Key): Table {
    match k
    case AccountK(_) => Accounts
    case StakerK(_) => Accounts
    case TokenK(_) => Tokens
    case BalanceK(_, _) => Tokens
    case ContractK(_) => Contracts
    case CodeK(_) => Contracts
    case StorageK(_, _) => Contracts
    case ReceiptK(_) => Receipts
    case SlashK(_) => Slashes
    case LeafK(_) => Leaves
    case NullifierK(_) => Nullifiers
    case RootK(_) => Roots
    case BlockK(_) => Blocks
    case TxK(_) => Blocks
    case TipHeightK => Tip
    case TipHashK => Tip
    case BaseFeeK => BaseFees
    case PoolK => Pool
    case VerifyingKeyK => VerifyingKey
    case SealedCountK => Seals
    case FinalizedK => Finality
    case SealK => Seals
  }

  /** What no operation takes back from an account. */
  predicate Evolves(x: Account, y: Account) {
    && x.nonce <= y.nonce
    && (x.penalties.tombstoned ==> y.penalties.tombstoned)
    && x.penalties.slashed <= y.penalties.slashed
    && x.blocksProduced <= y.blocksProduced
  }

  /** The staker index lists `a` exactly when it has stake or unbonding amounts. */
  predicate Indexed(rows: Rows, a: Bytes) {
    StakerK(a) in rows <==> Bonded(GetAccount(rows, a))
  }

  ghost predicate AccountStep(rows: Rows, rows': Rows, a: Bytes) {
    && Evolves(GetAccount(rows, a), GetAccount(rows', a))
    && ((Same(rows, rows', StakerK(a)) && Same(rows, rows', AccountK(a))) || Indexed(rows', a))
  }

  /** Only rows of the tables in `touched` may differ, and accounts only by whole steps. */
  ghost predicate Frame(rows: Rows, rows': Rows, touched: set<Table>) {
    && (forall k :: TableOf(k) !in touched ==> Same(rows, rows', k))
    && (forall a :: AccountStep(rows, rows', a))
  }

  lemma FrameSame(rows: Rows, rows': Rows, touched: set<Table>, k: Key)
    requires Frame(rows, rows', touched) && TableOf(k) !in touched
    ensures Same(rows, rows', k)
  {
  }

  lemma FrameTrans(a: Rows, b: Rows, c: Rows, touched: set<Table>)
    requires Frame(a, b, touched) && Frame(b, c, touched)
    ensures Frame(a, c, touched)
  {
    forall k | TableOf(k) !in touched
      ensures Same(a, c, k)
    {
      assert Same(a, b, k) && Same(b, c, k);
    }
    forall x
      ensures AccountStep(a, c, x)
    {
      assert AccountStep(a, b, x) && AccountStep(b, c, x);
    }
  }

  lemma FrameWider(a: Rows, b: Rows, small: set<Table>, large: set<Table>)
    requires Frame(a, b, small) && small <= large
    ensures Frame(a, b, large)
  {
    forall k | TableOf(k) !in large
      ensures Same(a, b, k)
    {
      assert TableOf(k) !in small;
    }
  }

  lemma FramePut(rows: Rows, k: Key, v: Value, touched: set<Table>)
    requires TableOf(k) in touched && TableOf(k) != Accounts
    ensures Frame(rows, rows[k := v], touched) && Frame(rows, rows - {k}, touched)
  {
  }

  lemma FrameSetAccount(rows: Rows, a: Bytes, acct: Account, touched: set<Table>)
    requires Accounts in touched && Evolves(GetAccount(rows, a), acct)
    ensures Frame(rows, SetAccount(rows, a, acct), touched)
  {
  }

  lemma FrameCredit(rows: Rows, a: Bytes, amount: nat, touched: set<Table>)
    requires Accounts in touched
    ensures Frame(rows, Credit(rows, a, amount), touched)
  {
  }

  lemma FrameCreditToken(rows: Rows, id: Bytes, a: Bytes, amount: nat)
    requires CreditToken(rows, id, a, amount).Ok?
    ensures Frame(rows, CreditToken(rows, id, a, amount).value, {Tokens})
  {
  }

  lemma FrameDebitToken(rows: Rows, id: Bytes, a: Bytes, amount: nat)
    requires DebitToken(rows, id, a, amount).Ok?
    ensures Frame(rows, DebitToken(rows, id, a, amount).value, {Tokens})
  {
  }

  lemma FrameApplyCreate(env: Env, rows: Rows, sender: Bytes, nonce: nat, supply: nat, height: nat, p: Option<Payload>)
    requires ApplyCreate(env, rows, sender, nonce, supply, height, p).Ok?
    ensures Frame(rows, ApplyCreate(env, rows, sender, nonce, supply, height, p).value, {Tokens})
  {
    hide CreditToken, Frame;
    var symbol := env.normalizeSymbol(p.value.symbol).value;
    var id := env.tokenId(sender, nonce, symbol);
    var token := Token(id, symbol, env.trim(p.value.name), p.value.decimals, 0, sender, p.value.mintable, height, 0);
    FramePut(rows, TokenK(id), TokenV(token), {Tokens});
    if supply > 0 {
      FrameCreditToken(SetToken(rows, token), id, sender, supply);
      FrameTrans(rows, SetToken(rows, token), CreditToken(SetToken(rows, token), id, sender, supply).value, {Tokens});
    }
  }

  lemma FrameApplyTokenTransfer(rows: Rows, sender: Bytes, to: Bytes, amount: nat, p: Option<Payload>)
    requires ApplyTokenTransfer(rows, sender, to, amount, p).Ok?
    ensures Frame(rows, ApplyTokenTransfer(rows, sender, to, amount, p).value, {Tokens})
  {
    hide CreditToken, DebitToken;
    var t := GetToken(rows, p.value.token).value;
    if sender != to {
      FrameDebitToken(rows, t.id, sender, amount);
      var rows1 := DebitToken(rows, t.id, sender, amount).value;
      FrameCreditToken(rows1, t.id, to, amount);
      FrameTrans(rows, rows1, CreditToken(rows1, t.id, to, amount).value, {Tokens});
    }
  }

  lemma FrameApplyDeploy(env: Env, rows: Rows, sender: Bytes, tx: Transaction, height: nat)
    requires ApplyDeploy(env, rows, sender, tx, height).Ok?
    ensures Frame(rows, ApplyDeploy(env, rows, sender, tx, height).value, {Accounts, Contracts, Receipts})
  {
    hide Frame, SetAccount;
    var touched := {Accounts, Contracts, Receipts};
    var code := env.decodeCode(tx.payload).value;
    var hash := env.codeHash(code);
    var a := env.contractAddress(sender, tx.nonce, hash);
    FramePut(rows, CodeK(hash), BytesV(code), touched);
    var rows1 := rows[CodeK(hash) := BytesV(code)];
    var c := Contract(a, hash, |code|, sender, height, 0);
    FramePut(rows1, ContractK(a), ContractV(c), touched);
    FrameTrans(rows, rows1, SetContract(rows1, c), touched);
    FrameCredit(SetContract(rows1, c), a, tx.amount, touched);
    FrameTrans(rows, SetContract(rows1, c), Credit(SetContract(rows1, c), a, tx.amount), touched);
  }

  lemma {:induction false} FrameCommitWrites(rows: Rows, contract: Bytes, writes: seq<(Bytes, Option<Bytes>)>)
    ensures Frame(rows, CommitWrites(rows, contract, writes), {Contracts})
  {
    hide Frame;
    if writes == [] {
      FrameNothing(rows, {Contracts});
    } else {
      var last := |writes| - 1;
      var (slot, value) := writes[last];
      FrameCommitWrites(rows, contract, writes[..last]);
      var rows1 := CommitWrites(rows, contract, writes[..last]);
      FramePut(rows1, StorageK(contract, slot), BytesV(if value.Some? then value.value else ""), {Contracts});
      FrameTrans(rows, rows1, SetStorage(rows1, contract, slot, value), {Contracts});
    }
  }

  lemma {:induction false} FrameCommitTransfers(rows: Rows, contract: Bytes, transfers: seq<(Bytes, nat)>)
    requires CommitTransfers(rows, contract, transfers).Ok?
    ensures Frame(rows, CommitTransfers(rows, contract, transfers).value, {Accounts})
  {
    hide Frame, SetAccount, Credit;
    if transfers == [] {
      FrameNothing(rows, {Accounts});
    } else {
      var last := |transfers| - 1;
      var (to, amount) := transfers[last];
      FrameCommitTransfers(rows, contract, transfers[..last]);
      var rows1 := CommitTransfers(rows, contract, transfers[..last]).value;
      var acct := GetAccount(rows1, contract);
      var paid := acct.(balance := acct.balance - amount);
      FrameSetAccount(rows1, contract, paid, {Accounts});
      var rows2 := SetAccount(rows1, contract, paid);
      FrameCredit(rows2, to, amount, {Accounts});
      FrameTrans(rows, rows1, rows2, {Accounts});
      FrameTrans(rows, rows2, Credit(rows2, to, amount), {Accounts});
    }
  }

  lemma FrameNothing(rows: Rows, touched: set<Table>)
    ensures Frame(rows, rows, touched)
  {
  }

  lemma FrameRefund(rows: Rows, contract: Bytes, sender: Bytes, amount: nat)
    ensures Frame(rows, RefundCall(rows, contract, sender, amount), {Accounts})
  {
    hide Frame, SetAccount, Credit;
    FrameNothing(rows, {Accounts});
    var acct := GetAccount(rows, contract);
    var less := acct.(balance := Minus(acct.balance, amount));
    FrameSetAccount(rows, contract, less, {Accounts});
    var rows1 := SetAccount(rows, contract, less);
    FrameCredit(rows1, sender, amount, {Accounts});
    FrameTrans(rows, rows1, Credit(rows1, sender, amount), {Accounts});
  }

  lemma FrameApplyCall(env: Env, rows: Rows, sender: Bytes, tx: Transaction, height: nat)
    requires ApplyCall(env, rows, sender, tx, height).Ok?
    ensures Frame(rows, ApplyCall(env, rows, sender, tx, height).value, {Accounts, Contracts, Receipts})
  {
    hide Frame, SetAccount, Credit, Execute, CommitTransfers, CommitWrites, RefundCall, FuelForFee;
    var touched := {Accounts, Contracts, Receipts};
    var c := CheckCall(env, rows, tx.to).value;
    var code := GetBytes(rows, CodeK(c.codeHash)).value;
    var input := env.decodeArgs(tx.payload).value;
    FrameCredit(rows, tx.to, tx.amount, touched);
    FrameNothing(rows, touched);
    var rows1 := if tx.amount > 0 then Credit(rows, tx.to, tx.amount) else rows;
    var outcome := Execute(env, rows1, tx.to, sender, code, input, tx.amount, height, FuelForFee(tx.fee));
    var receipt := ReceiptV(Receipt(tx.to, sender, outcome.ok, height));
    FramePut(rows1, ReceiptK(env.txHash(tx)), receipt, touched);
    var rows2 := rows1[ReceiptK(env.txHash(tx)) := receipt];
    FrameTrans(rows, rows1, rows2, touched);
    var rows4;
    if !outcome.ok {
      FrameRefund(rows2, tx.to, sender, tx.amount);
      rows4 := RefundCall(rows2, tx.to, sender, tx.amount);
      FrameWider(rows2, rows4, {Accounts}, touched);
    } else {
      FrameCommitWrites(rows2, tx.to, outcome.writes);
      var rows3 := CommitWrites(rows2, tx.to, outcome.writes);
      FrameWider(rows2, rows3, {Contracts}, touched);
      FrameCommitTransfers(rows3, tx.to, outcome.transfers);
      rows4 := CommitTransfers(rows3, tx.to, outcome.transfers).value;
      FrameWider(rows3, rows4, {Accounts}, touched);
      FrameTrans(rows2, rows3, rows4, touched);
    }
    FrameTrans(rows, rows2, rows4, touched);
    FramePut(rows4, ContractK(c.address), ContractV(c.(calls := c.calls + 1)), touched);
    FrameTrans(rows, rows4, CountCall(rows4, c), touched);
  }

  lemma FrameApplyReport(env: Env, rows: Rows, height: nat, reporter: Bytes, e: Evidence)
    requires ApplyReport(env, rows, height, reporter, e).Ok?
    ensures Frame(rows, ApplyReport(env, rows, height, reporter, e).value, {Accounts, Slashes})
  {
    hide Frame, SetAccount, Credit, Slashed, Confiscated, TotalStaked, BurnPct, EvidenceId;
    var touched := {Accounts, Slashes};
    var offender := Verify(env.crypto, e).value;
    var acct := GetAccount(rows, offender);
    assert BurnPct(acct.staked, TotalStaked(rows)) <= 100 by {
      BurnPctBounded(acct.staked, TotalStaked(rows));
    }
    var pct := BurnPct(acct.staked, TotalStaked(rows));
    SlashedEvolves(acct, pct);
    FrameSetAccount(rows, offender, Slashed(acct, pct), touched);
    var rows1 := SetAccount(rows, offender, Slashed(acct, pct));
    var burned := Confiscated(acct, pct);
    var bounty := Bounty(burned, reporter, offender);
    FrameCredit(rows1, reporter, bounty, touched);
    var rows2 := if bounty > 0 then Credit(rows1, reporter, bounty) else rows1;
    FrameNothing(rows1, touched);
    FrameTrans(rows, rows1, rows2, touched);
    var record := EquivocationRecord(env, e, offender, height, burned, bounty, reporter);
    FramePut(rows2, SlashK(record.id), SlashV(record), touched);
    FrameTrans(rows, rows2, PutSlash(rows2, record), touched);
  }

  lemma SlashedEvolves(acct: Account, pct: nat)
    requires pct <= 100
    ensures Evolves(acct, Slashed(acct, pct))
  {
  }

  lemma FrameApplyShielded(env: Env, rows: Rows, tx: Transaction, height: nat)
    requires ApplyShielded(env, rows, tx, height).Ok?
    ensures Frame(rows, ApplyShielded(env, rows, tx, height).value, {Accounts, Leaves, Nullifiers, Pool, VerifyingKey})
  {
    hide ApplyShield, ApplySpend;
    var d := tx.shielded.value;
    match tx.kind
    case Shield => FrameApplyShield(env, rows, d, tx.amount);
    case PrivateTransfer => FrameApplySpend(env, rows, tx, d, 0, height);
    case Unshield => FrameApplySpend(env, rows, tx, d, env.parseAmount(d.publicUnshield).value, height);
  }

  lemma FrameApplyShield(env: Env, rows: Rows, d: ShieldedData, amount: nat)
    requires |d.commitments| == 1 && ApplyShield(env, rows, d, amount).Ok?
    ensures Frame(rows, ApplyShield(env, rows, d, amount).value, {Accounts, Leaves, Nullifiers, Pool, VerifyingKey})
  {
    hide LeafCount;
  }

  /** The key, nullifier and leaf rows a successful spend writes. */
  function NotesSpent(env: Env, rows: Rows, d: ShieldedData, height: nat): Rows
    requires |d.nullifiers| == 2 && |d.commitments| == 2
  {
    var rows1 := BurnNullifier(BurnNullifier(InstallKey(env, rows), d.nullifiers[0], height), d.nullifiers[1], height);
    AppendLeaf(AppendLeaf(rows1, d.commitments[0]), d.commitments[1])
  }

  lemma SpendShape(env: Env, rows: Rows, tx: Transaction, d: ShieldedData, out: nat, height: nat)
    requires |d.nullifiers| == 2 && |d.commitments| == 2
    requires ApplySpend(env, rows, tx, d, out, height).Ok?
    ensures var spent := NotesSpent(env, rows, d, height);
            if out == 0 then ApplySpend(env, rows, tx, d, out, height).value == spent
            else PoolBalance(spent) >= out && ApplySpend(env, rows, tx, d, out, height).value
                   == Credit(spent[PoolK := AmountV(PoolBalance(spent) - out)], tx.to, out)
  {
    hide LeafCount, SpendInputs, Credit;
  }

  lemma FrameNotesSpent(env: Env, rows: Rows, d: ShieldedData, height: nat, touched: set<Table>)
    requires |d.nullifiers| == 2 && |d.commitments| == 2 && {Leaves, Nullifiers, VerifyingKey} <= touched
    ensures Frame(rows, NotesSpent(env, rows, d, height), touched)
  {
    hide LeafCount, Frame;
    FrameNothing(rows, touched);
    FramePut(rows, VerifyingKeyK, BytesV(env.devnetKey), touched);
    var rows1 := InstallKey(env, rows);
    var rows2 := FramePutThen(rows, rows1, NullifierK(d.nullifiers[0]), AmountV(height), touched);
    var rows3 := FramePutThen(rows, rows2, NullifierK(d.nullifiers[1]), AmountV(height), touched);
    var rows4 := FramePutThen(rows, rows3, LeafK(LeafCount(rows3)), BytesV(d.commitments[0]), touched);
    var rows5 := FramePutThen(rows, rows4, LeafK(LeafCount(rows4)), BytesV(d.commitments[1]), touched);
  }

  lemma FrameApplySpend(env: Env, rows: Rows, tx: Transaction, d: ShieldedData, out: nat, height: nat)
    requires |d.nullifiers| == 2 && |d.commitments| == 2
    requires ApplySpend(env, rows, tx, d, out, height).Ok?
    ensures Frame(rows, ApplySpend(env, rows, tx, d, out, height).value, {Accounts, Leaves, Nullifiers, Pool, VerifyingKey})
  {
    hide ApplySpend, NotesSpent, Credit, Frame, PoolBalance;
    var touched := {Accounts, Leaves, Nullifiers, Pool, VerifyingKey};
    SpendShape(env, rows, tx, d, out, height);
    FrameNotesSpent(env, rows, d, height, touched);
    if out > 0 {
      var spent := NotesSpent(env, rows, d, height);
      var rows6 := FramePutThen(rows, spent, PoolK, AmountV(PoolBalance(spent) - out), touched);
      FrameCredit(rows6, tx.to, out, touched);
      FrameTrans(rows, rows6, Credit(rows6, tx.to, out), touched);
    }
  }

  lemma FramePutThen(rows: Rows, before: Rows, k: Key, v: Value, touched: set<Table>) returns (after: Rows)
    requires Frame(rows, before, touched) && TableOf(k) in touched && TableOf(k) != Accounts
    ensures after == before[k := v] && Frame(rows, after, touched)
  {
    after := before[k := v];
    FramePut(before, k, v, touched);
    FrameTrans(rows, before, after, touched);
  }

  /** The tables a transaction of this kind may touch. */
  function TouchedBy(kind: TxKind): set<Table> {
    match kind
    case Transfer => {Accounts}
    case Stake => {Accounts}
    case Unstake => {Accounts}
    case Unjail => {Accounts}
    case ReportEquivocation => {Accounts, Slashes}
    case CreateToken => {Accounts, Tokens}
    case MintToken => {Accounts, Tokens}
    case TokenTransfer => {Accounts, Tokens}
    case BurnToken => {Accounts, Tokens}
    case DeployContract => {Accounts, Contracts, Receipts}
    case CallContract => {Accounts, Contracts, Receipts}
    case _ => {Accounts, Leaves, Nullifiers, Pool, VerifyingKey}
  }

  lemma FrameTail(rows: Rows, rows1: Rows, rows2: Rows, part: set<Table>, touched: set<Table>)
    requires Frame(rows, rows1, {Accounts}) && Frame(rows1, rows2, part)
    requires Accounts in touched && part <= touched
    ensures Frame(rows, rows2, touched)
  {
    FrameWider(rows, rows1, {Accounts}, touched);
    FrameWider(rows1, rows2, part, touched);
    FrameTrans(rows, rows1, rows2, touched);
  }

  lemma FrameEffect(env: Env, rows: Rows, tx: Transaction, height: nat, sender: Bytes, from: Account)
    requires Effect(env, rows, tx, height, sender, from).Ok?
    requires Evolves(GetAccount(rows, sender), from)
    ensures Frame(rows, Effect(env, rows, tx, height, sender, from).value, TouchedBy(tx.kind))
  {
    hide Frame, SetAccount, Credit, ApplyReport, ApplyUnjail, ApplyCreate, ApplyMint, ApplyTokenTransfer, ApplyBurn,
         ApplyDeploy, ApplyCall, ApplyShielded, CheckReport;
    FrameSetAccount(rows, sender, from, {Accounts});
    var rows1 := SetAccount(rows, sender, from);
    var rows2 := Effect(env, rows, tx, height, sender, from).value;
    match tx.kind
    case Transfer =>
      FrameSetAccount(rows, sender, from.(balance := from.balance + tx.amount), {Accounts});
      FrameCredit(rows1, tx.to, tx.amount, {Accounts});
      FrameTrans(rows, rows1, Credit(rows1, tx.to, tx.amount), {Accounts});
    case Stake => FrameSetAccount(rows, sender, from.(staked := from.staked + tx.amount), {Accounts});
    case Unstake =>
      FrameSetAccount(rows, sender, from.(staked := from.staked - tx.amount,
        unbonding := from.unbonding + [Unbond(tx.amount, height + UNBONDING_BLOCKS)]), {Accounts});
    case ReportEquivocation =>
      FrameApplyReport(env, rows1, height, sender, CheckReport(env, rows1, height, tx.payload).value);
      FrameTail(rows, rows1, rows2, {Accounts, Slashes}, TouchedBy(tx.kind));
    case Unjail =>
      FrameApplyUnjail(rows1, height, sender);
      FrameTail(rows, rows1, rows2, {Accounts}, TouchedBy(tx.kind));
    case CreateToken =>
      FrameApplyCreate(env, rows1, sender, tx.nonce, tx.amount, height, tx.payload);
      FrameTail(rows, rows1, rows2, {Tokens}, TouchedBy(tx.kind));
    case MintToken =>
      FrameApplyMint(rows1, sender, tx.to, tx.amount, tx.payload);
      FrameTail(rows, rows1, rows2, {Tokens}, TouchedBy(tx.kind));
    case TokenTransfer =>
      FrameApplyTokenTransfer(rows1, sender, tx.to, tx.amount, tx.payload);
      FrameTail(rows, rows1, rows2, {Tokens}, TouchedBy(tx.kind));
    case BurnToken =>
      FrameApplyBurn(rows1, sender, tx.amount, tx.payload);
      FrameTail(rows, rows1, rows2, {Tokens}, TouchedBy(tx.kind));
    case DeployContract =>
      FrameApplyDeploy(env, rows1, sender, tx, height);
      FrameTail(rows, rows1, rows2, {Accounts, Contracts, Receipts}, TouchedBy(tx.kind));
    case CallContract =>
      FrameApplyCall(env, rows1, sender, tx, height);
      FrameTail(rows, rows1, rows2, {Accounts, Contracts, Receipts}, TouchedBy(tx.kind));
    case _ =>
      FrameApplyShielded(env, rows1, tx, height);
      FrameTail(rows, rows1, rows2, {Accounts, Leaves, Nullifiers, Pool, VerifyingKey}, TouchedBy(tx.kind));
  }

  lemma FrameApplyUnjail(rows: Rows, height: nat, a: Bytes)
    requires ApplyUnjail(rows, height, a).Ok?
    ensures Frame(rows, ApplyUnjail(rows, height, a).value, {Accounts})
  {
    hide Frame, SetAccount;
    FrameSetAccount(rows, a, Released(GetAccount(rows, a)), {Accounts});
  }

  lemma FrameApplyMint(rows: Rows, sender: Bytes, to: Bytes, amount: nat, p: Option<Payload>)
    requires ApplyMint(rows, sender, to, amount, p).Ok?
    ensures Frame(rows, ApplyMint(rows, sender, to, amount, p).value, {Tokens})
  {
    hide Frame, CreditToken;
    FrameCreditToken(rows, GetToken(rows, p.value.token).value.id, to, amount);
  }

  lemma FrameApplyBurn(rows: Rows, sender: Bytes, amount: nat, p: Option<Payload>)
    requires ApplyBurn(rows, sender, amount, p).Ok?
    ensures Frame(rows, ApplyBurn(rows, sender, amount, p).value, {Tokens})
  {
    hide Frame, DebitToken;
    FrameDebitToken(rows, GetToken(rows, p.value.token).value.id, sender, amount);
  }

  lemma FrameApplyTx(env: Env, rows: Rows, tx: Transaction, height: nat)
    requires ApplyTx(env, rows, tx, height).Ok?
    ensures Frame(rows, ApplyTx(env, rows, tx, height).value.0, TouchedBy(tx.kind))
  {
    hide Frame, Effect, Precheck, Debit, Collected, TouchedBy;
    var sender := env.crypto.addressOf(tx.fromPubkey).value;
    FrameEffect(env, rows, tx, height, sender, Charged(GetAccount(rows, sender), Debit(tx)));
  }

  // ---- end of block ----

  lemma {:induction false} FrameReleaseAll(rows: Rows, addresses: seq<Bytes>, height: nat)
    ensures Frame(rows, ReleaseAll(rows, addresses, height), {Accounts})
  {
    hide Frame, SetAccount, Matured, Locked;
    FrameNothing(rows, {Accounts});
    if addresses != [] {
      var last := |addresses| - 1;
      FrameReleaseAll(rows, addresses[..last], height);
      var before, a := ReleaseAll(rows, addresses[..last], height), addresses[last];
      var acct := GetAccount(before, a);
      FrameSetAccount(before, a, acct.(unbonding := Locked(acct.unbonding, height),
        balance := acct.balance + UnbondingTotal(Matured(acct.unbonding, height))), {Accounts});
      FrameNothing(before, {Accounts});
      FrameTrans(rows, before, ReleaseOne(before, a, height), {Accounts});
    }
  }

  lemma MissEvolves(acct: Account, height: nat)
    ensures Evolves(acct, OneMiss(acct))
    ensures Evolves(acct, Leaked(OneMiss(acct), height)) && Evolves(acct, Jailed(OneMiss(acct), height))
  {
  }

  lemma FrameChargeMiss(rows: Rows, height: nat, a: Bytes)
    ensures Frame(rows, ChargeMiss(rows, height, a), {Accounts, Slashes})
  {
    hide Frame, SetAccount, Leaked, Jailed, RepeatBurn, DowntimeId, OneMiss, GetAccount;
    var touched := {Accounts, Slashes};
    var acct := OneMiss(GetAccount(rows, a));
    MissEvolves(GetAccount(rows, a), height);
    FrameSetAccount(rows, a, Leaked(acct, height), touched);
    FrameSetAccount(rows, a, Jailed(acct, height), touched);
    FrameSetAccount(rows, a, acct, touched);
    var jailed := SetAccount(rows, a, Jailed(acct, height));
    var r := SlashRecord(DowntimeId(height, a), "downtime", a, height, height, RepeatBurn(acct), 0, "", false,
                         height + DOWNTIME_JAIL_BLOCKS);
    FramePut(jailed, SlashK(r.id), SlashV(r), touched);
    FrameTrans(rows, jailed, PutSlash(jailed, r), touched);
  }

  lemma {:induction false} FrameChargeAll(rows: Rows, height: nat, missed: seq<Bytes>)
    ensures Frame(rows, ChargeAll(rows, height, missed), {Accounts, Slashes})
  {
    hide Frame, ChargeMiss;
    FrameNothing(rows, {Accounts, Slashes});
    if missed != [] {
      var last := |missed| - 1;
      FrameChargeAll(rows, height, missed[..last]);
      var before := ChargeAll(rows, height, missed[..last]);
      FrameChargeMiss(before, height, missed[last]);
      FrameTrans(rows, before, ChargeMiss(before, height, missed[last]), {Accounts, Slashes});
    }
  }

  lemma FrameClearStreak(rows: Rows, height: nat, producer: Bytes)
    ensures Frame(rows, ClearStreak(rows, height, producer), {Accounts})
  {
    hide SetAccount, Frame;
    var acct := GetAccount(rows, producer);
    var p := acct.penalties;
    FrameNothing(rows, {Accounts});
    FrameSetAccount(rows, producer, acct.(penalties := p.(missedStreak := 0,
        jailedUntil := if ForgivesJail(p, height) then 0 else p.jailedUntil)), {Accounts});
  }

  lemma FrameRecordLiveness(env: Env, rows: Rows, height: nat, parentHash: Bytes, producer: Bytes)
    ensures Frame(rows, RecordLiveness(env, rows, height, parentHash, producer), {Accounts, Slashes})
  {
    hide Frame, Absent, ChargeAll, ClearStreak;
    var touched := {Accounts, Slashes};
    match Absent(env, rows, height, parentHash, producer)
    case None => FrameNothing(rows, touched);
    case Some(missed) =>
      FrameChargeAll(rows, height, missed);
      var charged := ChargeAll(rows, height, missed);
      FrameClearStreak(charged, height, producer);
      FrameWider(charged, ClearStreak(charged, height, producer), {Accounts}, touched);
      FrameTrans(rows, charged, ClearStreak(charged, height, producer), touched);
  }

  lemma {:induction false} FrameRewardAll(rows: Rows, vals: seq<Validator>, total: nat)
    requires total > 0
    ensures Frame(rows, RewardAll(rows, vals, total), {Accounts})
  {
    hide Frame, SetAccount, RewardCut;
    FrameNothing(rows, {Accounts});
    if vals != [] {
      var v, before := vals[|vals| - 1], RewardAll(rows, vals[..|vals| - 1], total);
      FrameRewardAll(rows, vals[..|vals| - 1], total);
      var acct, cut := GetAccount(before, v.address), RewardCut(v.stake, total);
      var paid := acct.(balance := acct.balance + cut, rewards := acct.rewards + cut);
      FrameSetAccount(before, v.address, paid, {Accounts});
      FrameTrans(rows, before, SetAccount(before, v.address, paid), {Accounts});
    }
  }

  lemma FramePayRewards(rows: Rows, leader: Bytes, fees: nat)
    ensures Frame(rows, PayRewards(rows, leader, fees), {Accounts})
  {
    hide Frame, SetAccount, RewardAll, Distributed, ValidatorSetAt, TotalStake;
    var vals := ValidatorSetAt(rows, NextHeight(rows));
    var total := TotalStake(vals);
    if total == 0 {
      FramePayLeader(rows, leader, fees + BLOCK_REWARD, BLOCK_REWARD);
    } else {
      DistributedBounded(vals, total);
      var dust := SHARED - Distributed(vals, total);
      FrameRewardAll(rows, vals, total);
      var rewarded := RewardAll(rows, vals, total);
      FramePayLeader(rewarded, leader, fees + COMMISSION + dust, COMMISSION + dust);
      FrameTrans(rows, rewarded, PayLeader(rewarded, leader, fees + COMMISSION + dust, COMMISSION + dust), {Accounts});
    }
  }

  lemma FramePayLeader(rows: Rows, leader: Bytes, amount: nat, reward: nat)
    ensures Frame(rows, PayLeader(rows, leader, amount, reward), {Accounts})
  {
  }

  lemma FrameSeal(env: Env, rows: Rows, height: nat)
    ensures Frame(rows, SealShieldedRoot(env, rows, height), {Roots, Seals})
  {
    hide ShieldedRoot, CurrentSeal, LeafCount;
  }

  lemma {:induction false} FrameIndexTxs(rows: Rows, txHash: Transaction -> Bytes, txs: seq<Transaction>, height: nat)
    ensures Frame(rows, IndexTxs(rows, txHash, txs, height), {Blocks})
  {
    hide Frame;
    if txs == [] {
      FrameNothing(rows, {Blocks});
    } else {
      var last := |txs| - 1;
      FrameIndexTxs(rows, txHash, txs[..last], height);
      var rows1 := FramePutThen(rows, IndexTxs(rows, txHash, txs[..last], height), TxK(txHash(txs[last])), AmountV(height), {Blocks});
    }
  }

  lemma FramePutBlock(rows: Rows, txHash: Transaction -> Bytes, b: Block)
    ensures Frame(rows, PutBlock(rows, txHash, b), {Blocks, Tip})
  {
    hide Frame;
    var touched := {Blocks, Tip};
    var h := b.header.height;
    FrameNothing(rows, touched);
    var rows1 := FramePutThen(rows, rows, BlockK(h), BlockV(b), touched);
    FrameIndexTxs(rows1, txHash, b.transactions, h);
    var rows2 := IndexTxs(rows1, txHash, b.transactions, h);
    FrameWider(rows1, rows2, {Blocks}, touched);
    FrameTrans(rows, rows1, rows2, touched);
    var rows3 := FramePutThen(rows, rows2, TipHeightK, AmountV(h), touched);
    var rows4 := FramePutThen(rows, rows3, TipHashK, BytesV(b.header.hash), touched);
  }

  lemma FrameStoreBlock(env: Env, rows: Rows, b: Block)
    ensures Frame(rows, StoreBlock(env, rows, b), {Blocks, Tip, BaseFees})
  {
    hide Frame, PutBlock;
    FramePutBlock(rows, env.txHash, b);
    FrameWider(rows, PutBlock(rows, env.txHash, b), {Blocks, Tip}, {Blocks, Tip, BaseFees});
    var stored := FramePutThen(rows, PutBlock(rows, env.txHash, b), BaseFeeK,
      AmountV(Fees.NextBaseFee(BaseFee(rows), |b.transactions|)), {Blocks, Tip, BaseFees});
  }

  lemma {:induction false} FrameGenesisAccounts(alloc: seq<Alloc>)
    ensures Frame(map[], GenesisAccounts(alloc), {Accounts})
  {
    hide Frame, SetAccount, GetAccount;
    if alloc == [] {
      FrameNothing(map[], {Accounts});
    } else {
      var last := |alloc| - 1;
      FrameGenesisAccounts(alloc[..last]);
      var a, rows := alloc[last], GenesisAccounts(alloc[..last]);
      var acct := GetAccount(rows, a.address);
      var funded := acct.(balance := acct.balance + a.balance, staked := acct.staked + a.stake);
      FrameSetAccount(rows, a.address, funded, {Accounts});
      FrameTrans(map[], rows, SetAccount(rows, a.address, funded), {Accounts});
    }
  }
}
