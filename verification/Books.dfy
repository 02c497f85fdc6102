/** The bookkeeping every run keeps: token supplies and holder counts, the staker
    index, matured unbonds, and what accounts never lose. */
module Books {
  import opened Base
  import opened Types
  import opened Election
  import opened Order
  import opened Tables
  import opened Ledger
  import opened Sums
  import opened Frames
  import Conservation

  // ---- tables touched by whole blocks and chains ----

  const ALL: set<Table> := {
    Accounts, Tokens, Contracts, Receipts, Slashes, Leaves, Nullifiers, Roots, Blocks,
    Pool, VerifyingKey, Seals, Frames.Tip, BaseFees}

  const FINISH: set<Table> := {Accounts, Slashes, Roots, Seals}

  const TXS: set<Table> := {
    Accounts, Tokens, Contracts, Receipts, Slashes, Leaves, Nullifiers, Pool, VerifyingKey}

  lemma {:induction false} FrameApplyTxs(env: Env, rows: Rows, txs: seq<Transaction>, height: nat)
    requires ApplyTxs(env, rows, txs, height).Ok?
    ensures Frame(rows, ApplyTxs(env, rows, txs, height).value.0, TXS)
  {
    hide Frame, ApplyTx;
    if txs == [] {
      FrameNothing(rows, TXS);
    } else {
      var last := |txs| - 1;
      FrameApplyTxs(env, rows, txs[..last], height);
      var rows1 := ApplyTxs(env, rows, txs[..last], height).value.0;
      FrameApplyTx(env, rows1, txs[last], height);
      var rows2 := ApplyTx(env, rows1, txs[last], height).value.0;
      FrameWider(rows1, rows2, TouchedBy(txs[last].kind), TXS);
      FrameTrans(rows, rows1, rows2, TXS);
    }
  }

  lemma FrameFinishBlock(env: Env, rows: Rows, height: nat, parentHash: Bytes, producer: Bytes, fees: nat)
    ensures Frame(rows, FinishBlock(env, rows, height, parentHash, producer, fees), FINISH)
  {
    hide Frame, ReleaseAll, RecordLiveness, PayRewards, SealShieldedRoot, StakerList;
    FrameReleaseAll(rows, StakerList(rows), height);
    var rows1 := ReleaseUnbonded(rows, height);
    FrameWider(rows, rows1, {Accounts}, FINISH);
    FrameRecordLiveness(env, rows1, height, parentHash, producer);
    var rows2 := RecordLiveness(env, rows1, height, parentHash, producer);
    FrameWider(rows1, rows2, {Accounts, Slashes}, FINISH);
    FrameTrans(rows, rows1, rows2, FINISH);
    FramePayRewards(rows2, producer, fees);
    var rows3 := PayRewards(rows2, producer, fees);
    FrameWider(rows2, rows3, {Accounts}, FINISH);
    FrameTrans(rows, rows2, rows3, FINISH);
    FrameSeal(env, rows3, height);
    var rows4 := SealShieldedRoot(env, rows3, height);
    FrameWider(rows3, rows4, {Roots, Seals}, FINISH);
    FrameTrans(rows, rows3, rows4, FINISH);
  }

  lemma FrameExecBlock(env: Env, rows: Rows, b: Block)
    requires ExecBlock(env, rows, b).Ok?
    ensures Frame(rows, ExecBlock(env, rows, b).value, ALL)
  {
    hide Frame, ApplyTxs, FinishBlock, StoreBlock;
    var h := b.header;
    var (rows1, fees) := ApplyTxs(env, rows, b.transactions, h.height).value;
    FrameApplyTxs(env, rows, b.transactions, h.height);
    FrameWider(rows, rows1, TXS, ALL);
    FrameFinishBlock(env, rows1, h.height, h.parentHash, h.producer, fees);
    var rows2 := FinishBlock(env, rows1, h.height, h.parentHash, h.producer, fees);
    FrameWider(rows1, rows2, FINISH, ALL);
    FrameTrans(rows, rows1, rows2, ALL);
    FrameStoreBlock(env, rows2, b);
    FrameWider(rows2, StoreBlock(env, rows2, b), {Blocks, Frames.Tip, BaseFees}, ALL);
    FrameTrans(rows, rows2, StoreBlock(env, rows2, b), ALL);
  }

  lemma {:induction false} FrameRunBlocks(env: Env, rows: Rows, blocks: seq<Block>)
    requires RunBlocks(env, rows, blocks).Ok?
    ensures Frame(rows, RunBlocks(env, rows, blocks).value, ALL)
  {
    hide Frame, ExecBlock;
    if blocks == [] {
      FrameNothing(rows, ALL);
    } else {
      var last := |blocks| - 1;
      FrameRunBlocks(env, rows, blocks[..last]);
      var rows1 := RunBlocks(env, rows, blocks[..last]).value;
      FrameExecBlock(env, rows1, blocks[last]);
      FrameTrans(rows, rows1, ExecBlock(env, rows1, blocks[last]).value, ALL);
    }
  }

  lemma {:induction false} FrameGenesis(env: Env, alloc: seq<Alloc>, block: Block)
    ensures Frame(map[], Genesis(env, alloc, block), ALL)
  {
    hide Frame, PutBlock;
    FrameGenesisAccounts(alloc);
    FrameWider(map[], GenesisAccounts(alloc), {Accounts}, ALL);
    FramePutBlock(GenesisAccounts(alloc), env.txHash, block);
    FrameWider(GenesisAccounts(alloc), Genesis(env, alloc, block), {Blocks, Frames.Tip}, ALL);
    FrameTrans(map[], GenesisAccounts(alloc), Genesis(env, alloc, block), ALL);
  }

  // ---- the staker index ----

  ghost predicate StakersExact(rows: Rows) {
    forall a :: Indexed(rows, a)
  }

  lemma StakersStayExact(rows: Rows, rows': Rows, touched: set<Table>)
    requires StakersExact(rows) && Frame(rows, rows', touched)
    ensures StakersExact(rows')
  {
    forall a
      ensures Indexed(rows', a)
    {
      assert AccountStep(rows, rows', a) && Indexed(rows, a);
    }
  }

  /** In every reachable state the staker index is exact. */
  lemma StakersExactOnEveryRun(env: Env, alloc: seq<Alloc>, genesis: Block, blocks: seq<Block>)
    requires RunBlocks(env, Genesis(env, alloc, genesis), blocks).Ok?
    ensures StakersExact(RunBlocks(env, Genesis(env, alloc, genesis), blocks).value)
  {
    hide Frame, RunBlocks, Genesis;
    assert StakersExact(map[]);
    FrameGenesis(env, alloc, genesis);
    StakersStayExact(map[], Genesis(env, alloc, genesis), ALL);
    FrameRunBlocks(env, Genesis(env, alloc, genesis), blocks);
    StakersStayExact(Genesis(env, alloc, genesis), RunBlocks(env, Genesis(env, alloc, genesis), blocks).value, ALL);
  }

  function StakedOf(k: Key, v: Value): nat {
    if k.AccountK? && v.AccountV? then v.account.staked else 0
  }

  ghost function AccountKeys(addresses: seq<Bytes>): set<Key> {
    set a | a in addresses :: AccountK(a)
  }

  lemma {:induction false} ListedStake(rows: Rows, addresses: seq<Bytes>)
    requires forall i, j :: 0 <= i < j < |addresses| ==> addresses[i] != addresses[j]
    ensures Sum(rows, StakedOf)
         == TotalStake(AsValidators(rows, addresses)) + Sum(rows - AccountKeys(addresses), StakedOf)
  {
    if addresses == [] {
      assert rows - AccountKeys([]) == rows;
    } else {
      var last := |addresses| - 1;
      var front, a := addresses[..last], addresses[last];
      ListedStake(rows, front);
      var vals := AsValidators(rows, addresses);
      StakeSnoc(vals);
      assert vals[..last] == AsValidators(rows, front);
      var rest := rows - AccountKeys(front);
      SumRemove(rest, AccountK(a), StakedOf);
      assert AccountK(a) !in AccountKeys(front);
      assert rest - {AccountK(a)} == rows - AccountKeys(addresses) by {
        assert AccountKeys(addresses) == AccountKeys(front) + {AccountK(a)} by {
          assert addresses == front + [a];
        }
      }
      assert At(rest, AccountK(a), StakedOf) == GetAccount(rows, a).staked;
    }
  }

  lemma AscendingDistinct(s: seq<Bytes>)
    requires Ascending(s)
    ensures forall i, j :: 0 <= i < j < |s| ==> s[i] != s[j]
  {
    forall i, j | 0 <= i < j < |s|
      ensures s[i] != s[j]
    {
      assert Lt(s[i], s[j]);
    }
  }

  /** `total_staked`, which reads only the index, equals a scan of every account. */
  lemma TotalStakedIsFullScan(rows: Rows)
    requires StakersExact(rows)
    ensures TotalStaked(rows) == Sum(rows, StakedOf)
  {
    var list := StakerList(rows);
    AscendingDistinct(list);
    ListedStake(rows, list);
    var rest := rows - AccountKeys(list);
    forall k | k in rest
      ensures StakedOf(k, rest[k]) == 0
    {
      if k.AccountK? {
        assert Indexed(rows, k.address);
        assert k.address !in list && k.address !in Stakers(rows);
      }
    }
    SumOfZeros(rest, StakedOf);
  }

  // ---- what accounts never lose ----

  lemma RunEvolves(env: Env, rows: Rows, blocks: seq<Block>, a: Bytes)
    requires RunBlocks(env, rows, blocks).Ok?
    ensures Evolves(GetAccount(rows, a), GetAccount(RunBlocks(env, rows, blocks).value, a))
  {
    hide RunBlocks, GetAccount;
    FrameRunBlocks(env, rows, blocks);
    assert AccountStep(rows, RunBlocks(env, rows, blocks).value, a);
  }

  /** A tombstoned validator is out of the active set at every later height. */
  lemma TombstoneIsForever(env: Env, rows: Rows, blocks: seq<Block>, a: Bytes, height: nat)
    requires GetAccount(rows, a).penalties.tombstoned && RunBlocks(env, rows, blocks).Ok?
    ensures a !in Active(RunBlocks(env, rows, blocks).value, height)
  {
    hide RunBlocks;
    RunEvolves(env, rows, blocks, a);
  }

  function SenderOf(env: Env, tx: Transaction): Option<Bytes> {
    env.crypto.addressOf(tx.fromPubkey)
  }

  function AllTxs(blocks: seq<Block>): seq<Transaction> {
    if blocks == [] then [] else
      var last := |blocks| - 1;
      AllTxs(blocks[..last]) + blocks[last].transactions
  }

  /** `tx` has been executed before `rows`: its sender's nonce has moved past it. */
  predicate Spent(env: Env, rows: Rows, tx: Transaction) {
    SenderOf(env, tx).Some? && tx.nonce < GetAccount(rows, SenderOf(env, tx).value).nonce
  }

  lemma SpentStays(env: Env, rows: Rows, rows': Rows, touched: set<Table>, tx: Transaction)
    requires Spent(env, rows, tx) && Frame(rows, rows', touched)
    ensures Spent(env, rows', tx)
  {
    assert AccountStep(rows, rows', SenderOf(env, tx).value);
  }

  lemma TxSpendsItself(env: Env, rows: Rows, tx: Transaction, height: nat)
    requires ApplyTx(env, rows, tx, height).Ok?
    ensures SenderOf(env, tx).Some? && tx.nonce == GetAccount(rows, SenderOf(env, tx).value).nonce
    ensures Spent(env, ApplyTx(env, rows, tx, height).value.0, tx)
  {
    hide Frame, SetAccount, Debit, Collected, Precheck, Credit, ApplyReport, ApplyUnjail, ApplyCreate, ApplyMint,
         ApplyTokenTransfer, ApplyBurn, ApplyDeploy, ApplyCall, ApplyShielded, CheckReport;
    var sender := SenderOf(env, tx).value;
    var acct := GetAccount(rows, sender);
    var from := Charged(acct, Debit(tx));
    EffectKeepsNonce(env, rows, tx, height, sender, from);
  }

  lemma NonceAfterSet(rows: Rows, a: Bytes, acct: Account)
    ensures GetAccount(SetAccount(rows, a, acct), a) == acct
  {
  }

  lemma NonceThenFrame(rows: Rows, a: Bytes, acct: Account, rows2: Rows, touched: set<Table>)
    requires Frame(SetAccount(rows, a, acct), rows2, touched)
    ensures GetAccount(rows2, a).nonce >= acct.nonce
  {
    NonceAfterSet(rows, a, acct);
    assert AccountStep(SetAccount(rows, a, acct), rows2, a);
  }

  lemma EffectKeepsNonce(env: Env, rows: Rows, tx: Transaction, height: nat, sender: Bytes, from: Account)
    requires Effect(env, rows, tx, height, sender, from).Ok?
    ensures GetAccount(Effect(env, rows, tx, height, sender, from).value, sender).nonce >= from.nonce
  {
    hide Frame, SetAccount, GetAccount, Credit, ApplyReport, ApplyUnjail, ApplyCreate, ApplyMint, ApplyTokenTransfer,
         ApplyBurn, ApplyDeploy, ApplyCall, ApplyShielded, CheckReport;
    var rows1 := SetAccount(rows, sender, from);
    var rows2 := Effect(env, rows, tx, height, sender, from).value;
    match tx.kind
    case Transfer =>
      NonceAfterSet(rows, sender, from.(balance := from.balance + tx.amount));
      FrameCredit(rows1, tx.to, tx.amount, {Accounts});
      NonceThenFrame(rows, sender, from, Credit(rows1, tx.to, tx.amount), {Accounts});
    case Stake => NonceAfterSet(rows, sender, from.(staked := from.staked + tx.amount));
    case Unstake =>
      NonceAfterSet(rows, sender, from.(staked := from.staked - tx.amount,
        unbonding := from.unbonding + [Unbond(tx.amount, height + UNBONDING_BLOCKS)]));
    case ReportEquivocation =>
      FrameApplyReport(env, rows1, height, sender, CheckReport(env, rows1, height, tx.payload).value);
      NonceThenFrame(rows, sender, from, rows2, {Accounts, Slashes});
    case Unjail =>
      FrameApplyUnjail(rows1, height, sender);
      NonceThenFrame(rows, sender, from, rows2, {Accounts});
    case CreateToken =>
      FrameApplyCreate(env, rows1, sender, tx.nonce, tx.amount, height, tx.payload);
      NonceThenFrame(rows, sender, from, rows2, {Tokens});
    case MintToken =>
      FrameApplyMint(rows1, sender, tx.to, tx.amount, tx.payload);
      NonceThenFrame(rows, sender, from, rows2, {Tokens});
    case TokenTransfer =>
      FrameApplyTokenTransfer(rows1, sender, tx.to, tx.amount, tx.payload);
      NonceThenFrame(rows, sender, from, rows2, {Tokens});
    case BurnToken =>
      FrameApplyBurn(rows1, sender, tx.amount, tx.payload);
      NonceThenFrame(rows, sender, from, rows2, {Tokens});
    case DeployContract =>
      FrameApplyDeploy(env, rows1, sender, tx, height);
      NonceThenFrame(rows, sender, from, rows2, {Accounts, Contracts, Receipts});
    case CallContract =>
      FrameApplyCall(env, rows1, sender, tx, height);
      NonceThenFrame(rows, sender, from, rows2, {Accounts, Contracts, Receipts});
    case _ =>
      FrameApplyShielded(env, rows1, tx, height);
      NonceThenFrame(rows, sender, from, rows2, {Accounts, Leaves, Nullifiers, Pool, VerifyingKey});
  }

  ghost predicate NoncesIncrease(env: Env, txs: seq<Transaction>) {
    forall i, j :: 0 <= i < j < |txs| && SenderOf(env, txs[i]) == SenderOf(env, txs[j]) ==> txs[i].nonce < txs[j].nonce
  }

  ghost predicate AllSpent(env: Env, rows: Rows, txs: seq<Transaction>) {
    forall i :: 0 <= i < |txs| ==> Spent(env, rows, txs[i])
  }

  lemma AllSpentStays(env: Env, rows: Rows, rows': Rows, touched: set<Table>, txs: seq<Transaction>)
    requires AllSpent(env, rows, txs) && Frame(rows, rows', touched)
    ensures AllSpent(env, rows', txs)
  {
    hide Frame, Spent;
    forall i | 0 <= i < |txs|
      ensures Spent(env, rows', txs[i])
    {
      SpentStays(env, rows, rows', touched, txs[i]);
    }
  }

  lemma {:induction false} BlockNonces(env: Env, rows: Rows, past: seq<Transaction>, txs: seq<Transaction>, height: nat)
    requires ApplyTxs(env, rows, txs, height).Ok?
    requires NoncesIncrease(env, past) && AllSpent(env, rows, past)
    ensures NoncesIncrease(env, past + txs)
    ensures AllSpent(env, ApplyTxs(env, rows, txs, height).value.0, past + txs)
  {
    hide ApplyTx, Spent;
    if txs == [] {
      assert past + txs == past;
    } else {
      var last := |txs| - 1;
      var front, tx := txs[..last], txs[last];
      BlockNonces(env, rows, past, front, height);
      var rows1 := ApplyTxs(env, rows, front, height).value.0;
      var rows2 := ApplyTx(env, rows1, tx, height).value.0;
      FrameApplyTx(env, rows1, tx, height);
      AllSpentStays(env, rows1, rows2, TouchedBy(tx.kind), past + front);
      TxSpendsItself(env, rows1, tx, height);
      assert past + txs == (past + front) + [tx];
      NextNonce(env, rows1, past + front, tx);
    }
  }

  lemma NextNonce(env: Env, rows: Rows, past: seq<Transaction>, tx: Transaction)
    requires NoncesIncrease(env, past) && AllSpent(env, rows, past)
    requires SenderOf(env, tx).Some? && tx.nonce == GetAccount(rows, SenderOf(env, tx).value).nonce
    ensures NoncesIncrease(env, past + [tx])
  {
    var all := past + [tx];
    forall i, j | 0 <= i < j < |all| && SenderOf(env, all[i]) == SenderOf(env, all[j])
      ensures all[i].nonce < all[j].nonce
    {
      assert Spent(env, rows, past[i]);
    }
  }

  lemma {:induction false} RunNonces(env: Env, rows: Rows, blocks: seq<Block>)
    requires RunBlocks(env, rows, blocks).Ok?
    ensures NoncesIncrease(env, AllTxs(blocks))
    ensures AllSpent(env, RunBlocks(env, rows, blocks).value, AllTxs(blocks))
  {
    hide ApplyTxs, FinishBlock, StoreBlock, Frame, Spent;
    if blocks != [] {
      var last := |blocks| - 1;
      var b := blocks[last];
      RunNonces(env, rows, blocks[..last]);
      var rows1 := RunBlocks(env, rows, blocks[..last]).value;
      var past := AllTxs(blocks[..last]);
      BlockNonces(env, rows1, past, b.transactions, b.header.height);
      var (rows2, fees) := ApplyTxs(env, rows1, b.transactions, b.header.height).value;
      var all := past + b.transactions;
      FrameFinishBlock(env, rows2, b.header.height, b.header.parentHash, b.header.producer, fees);
      var rows3 := FinishBlock(env, rows2, b.header.height, b.header.parentHash, b.header.producer, fees);
      AllSpentStays(env, rows2, rows3, FINISH, all);
      FrameStoreBlock(env, rows3, b);
      AllSpentStays(env, rows3, StoreBlock(env, rows3, b), {Blocks, Frames.Tip, BaseFees}, all);
    }
  }

  /** Over a whole chain each sender's nonces strictly increase, so no signed
      transaction is ever executed twice. */
  lemma NoTransactionRunsTwice(env: Env, rows: Rows, blocks: seq<Block>, i: nat, j: nat)
    requires RunBlocks(env, rows, blocks).Ok?
    requires i < j < |AllTxs(blocks)|
    ensures AllTxs(blocks)[i] != AllTxs(blocks)[j]
    ensures SenderOf(env, AllTxs(blocks)[i]) == SenderOf(env, AllTxs(blocks)[j]) ==>
              AllTxs(blocks)[i].nonce < AllTxs(blocks)[j].nonce
  {
    RunNonces(env, rows, blocks);
  }
}
