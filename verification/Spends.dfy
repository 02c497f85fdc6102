/** Every note spent on any chain was spent with a valid proof (src/chain.rs). */
module Spends {
  import opened Base
  import opened Types
  import opened Tables
  import opened Ledger
  import opened Frames
  import opened Books
  import opened Pool
  import Widths

  // ---- the acceptance test ----

  /** The key spends are checked with: the stored one, or the one a first spend installs. */
  function KeyOf(env: Env, rows: Rows): Bytes {
    match GetBytes(rows, VerifyingKeyK)
    case None => env.devnetKey
    case Some(key) => key
  }

  /** The proof verifies under `key` for these notes and this payout: anchor, both
      nullifiers, both commitments and the amount leaving the pool, in that order. */
  predicate Proves(env: Env, key: Bytes, d: ShieldedData, out: nat) {
    && |d.nullifiers| == 2 && |d.commitments| == 2 && env.keyDecodes(key) && env.proofDecodes(d.proof)
    && env.frFromHex(d.anchor).Some?
    && env.frFromHex(d.nullifiers[0]).Some? && env.frFromHex(d.nullifiers[1]).Some?
    && env.frFromHex(d.commitments[0]).Some? && env.frFromHex(d.commitments[1]).Some?
    && env.spendVerifies(key, d.proof,
         [env.frFromHex(d.anchor).value,
          env.frFromHex(d.nullifiers[0]).value, env.frFromHex(d.nullifiers[1]).value,
          env.frFromHex(d.commitments[0]).value, env.frFromHex(d.commitments[1]).value, out])
  }

  /** A spend is taken exactly when its proof verifies, its anchor is a sealed root, its
      nullifiers are two different unburned strings, and a payout has a valid recipient and is
      covered by the pool. */
  lemma SpendAcceptedIff(env: Env, rows: Rows, tx: Transaction, d: ShieldedData, out: nat, height: nat)
    requires |d.nullifiers| == 2 && |d.commitments| == 2
    ensures ApplySpend(env, rows, tx, d, out, height).Ok? <==>
      && Proves(env, KeyOf(env, rows), d, out) && RootKnown(rows, d.anchor)
      && !NullifierSeen(rows, d.nullifiers[0]) && !NullifierSeen(rows, d.nullifiers[1]) && d.nullifiers[0] != d.nullifiers[1]
      && (out > 0 ==> env.validAddress(tx.to) && out <= PoolBalance(rows))
  {
    hide LeafCount, AppendLeaf, Credit;
  }

  // ---- one key per chain ----

  ghost predicate OneKey(env: Env, rows: Rows) {
    KeyOf(env, rows) == env.devnetKey
  }

  lemma SpendKeepsKey(env: Env, rows: Rows, tx: Transaction, d: ShieldedData, out: nat, height: nat)
    requires |d.nullifiers| == 2 && |d.commitments| == 2 && ApplySpend(env, rows, tx, d, out, height).Ok? && OneKey(env, rows)
    ensures OneKey(env, ApplySpend(env, rows, tx, d, out, height).value)
  {
    hide LeafCount, SpendInputs, ApplySpend;
    SpendShape(env, rows, tx, d, out, height);
  }

  lemma FrameKeepsKey(env: Env, rows: Rows, rows': Rows, touched: set<Table>)
    requires OneKey(env, rows) && Frame(rows, rows', touched) && VerifyingKey !in touched
    ensures OneKey(env, rows')
  {
    FrameSame(rows, rows', touched, VerifyingKeyK);
  }

  lemma ShieldKeepsKey(env: Env, rows: Rows, d: ShieldedData, amount: nat)
    requires |d.commitments| == 1 && ApplyShield(env, rows, d, amount).Ok? && OneKey(env, rows)
    ensures OneKey(env, ApplyShield(env, rows, d, amount).value)
  {
    hide LeafCount;
  }

  lemma TxKeepsKey(env: Env, rows: Rows, tx: Transaction, height: nat)
    requires OneKey(env, rows) && ApplyTx(env, rows, tx, height).Ok?
    ensures OneKey(env, ApplyTx(env, rows, tx, height).value.0)
  {
    hide Frame, SetAccount, GetAccount, OneKey, Debit, Collected, ApplyShield, ApplySpend, Credit, ApplyReport,
         ApplyUnjail, ApplyCreate, ApplyMint, ApplyTokenTransfer, ApplyBurn, ApplyDeploy, ApplyCall, CheckReport;
    if tx.kind.Shield? || IsSpend(tx) {
      var sender := SenderOf(env, tx).value;
      var charged := Charged(GetAccount(rows, sender), Debit(tx));
      FrameSetAccount(rows, sender, charged, {Accounts});
      var rows1 := SetAccount(rows, sender, charged);
      FrameKeepsKey(env, rows, rows1, {Accounts});
      var d := tx.shielded.value;
      match tx.kind
      case Shield => ShieldKeepsKey(env, rows1, d, tx.amount);
      case PrivateTransfer => SpendKeepsKey(env, rows1, tx, d, 0, height);
      case Unshield => SpendKeepsKey(env, rows1, tx, d, env.parseAmount(d.publicUnshield).value, height);
    } else {
      FrameApplyTx(env, rows, tx, height);
      FrameKeepsKey(env, rows, ApplyTx(env, rows, tx, height).value.0, TouchedBy(tx.kind));
    }
  }

  lemma {:induction false} TxsKeepKey(env: Env, rows: Rows, txs: seq<Transaction>, height: nat)
    requires OneKey(env, rows) && ApplyTxs(env, rows, txs, height).Ok?
    ensures OneKey(env, ApplyTxs(env, rows, txs, height).value.0)
  {
    hide OneKey, ApplyTx;
    if txs != [] {
      var last := |txs| - 1;
      TxsKeepKey(env, rows, txs[..last], height);
      TxKeepsKey(env, ApplyTxs(env, rows, txs[..last], height).value.0, txs[last], height);
    }
  }

  lemma {:induction false} RunKeepsKey(env: Env, rows: Rows, blocks: seq<Block>)
    requires OneKey(env, rows) && RunBlocks(env, rows, blocks).Ok?
    ensures OneKey(env, RunBlocks(env, rows, blocks).value)
  {
    hide OneKey, ApplyTxs, FinishBlock, StoreBlock, Frame;
    if blocks != [] {
      var last := |blocks| - 1;
      var b := blocks[last];
      RunKeepsKey(env, rows, blocks[..last]);
      var rows1 := RunBlocks(env, rows, blocks[..last]).value;
      TxsKeepKey(env, rows1, b.transactions, b.header.height);
      var (rows2, fees) := ApplyTxs(env, rows1, b.transactions, b.header.height).value;
      FrameFinishBlock(env, rows2, b.header.height, b.header.parentHash, b.header.producer, fees);
      var rows3 := FinishBlock(env, rows2, b.header.height, b.header.parentHash, b.header.producer, fees);
      FrameKeepsKey(env, rows2, rows3, FINISH);
      FrameStoreBlock(env, rows3, b);
      FrameKeepsKey(env, rows3, StoreBlock(env, rows3, b), {Blocks, Frames.Tip, BaseFees});
    }
  }

  lemma NoKeyAtGenesis(env: Env, alloc: seq<Alloc>, genesis: Block)
    ensures OneKey(env, Genesis(env, alloc, genesis))
  {
    hide Frame, PutBlock, GenesisAccounts;
    FrameGenesisAccounts(alloc);
    FrameKeepsKey(env, map[], GenesisAccounts(alloc), {Accounts});
    FramePutBlock(GenesisAccounts(alloc), env.txHash, genesis);
    FrameKeepsKey(env, GenesisAccounts(alloc), Genesis(env, alloc, genesis), {Blocks, Frames.Tip});
  }

  // ---- every spend on every chain ----

  /** An included spend: proven under the chain's key, and anchored in the root of a prefix
      of the commitments `cs`. */
  ghost predicate Justified(env: Env, tx: Transaction, cs: seq<Bytes>) {
    && tx.shielded.Some? && Proves(env, env.devnetKey, tx.shielded.value, ShieldedOut(env, tx))
    && exists n: nat :: n <= |cs| && tx.shielded.value.anchor == RootHex(env, cs[..n])
  }

  lemma AcceptedSpend(env: Env, rows: Rows, tx: Transaction, height: nat)
    requires IsSpend(tx) && ApplyTx(env, rows, tx, height).Ok?
    ensures tx.shielded.Some? && RootKnown(rows, tx.shielded.value.anchor)
    ensures Proves(env, KeyOf(env, rows), tx.shielded.value, ShieldedOut(env, tx))
  {
    hide Frame, SetAccount, GetAccount, Debit, Collected, ApplySpend, Proves;
    var sender := SenderOf(env, tx).value;
    var charged := Charged(GetAccount(rows, sender), Debit(tx));
    FrameSetAccount(rows, sender, charged, {Accounts});
    var rows1, d := SetAccount(rows, sender, charged), tx.shielded.value;
    FrameSame(rows, rows1, {Accounts}, VerifyingKeyK);
    FrameSame(rows, rows1, {Accounts}, RootK(d.anchor));
    SpendAcceptedIff(env, rows1, tx, d, ShieldedOut(env, tx), height);
  }

  /** In one block, on tables that hold one key and known anchors. */
  lemma BlockSpends(env: Env, rows: Rows, txs: seq<Transaction>, height: nat, i: nat, cs: seq<Bytes>)
    requires OneKey(env, rows) && AnchorsArePrefixes(env, rows, cs) && ApplyTxs(env, rows, txs, height).Ok?
    requires i < |txs| && IsSpend(txs[i])
    ensures Justified(env, txs[i], cs)
  {
    hide ApplyTx, Frame, Proves, ShieldedOut, RootHex;
    Widths.PrefixApplies(env, rows, txs, height, i);
    Widths.PrefixApplies(env, rows, txs, height, i + 1);
    assert txs[..i + 1][..i] == txs[..i];
    var rows1 := ApplyTxs(env, rows, txs[..i], height).value.0;
    TxsKeepKey(env, rows, txs[..i], height);
    FrameApplyTxs(env, rows, txs[..i], height);
    AcceptedSpend(env, rows1, txs[i], height);
    var anchor := txs[i].shielded.value.anchor;
    FrameSame(rows, rows1, TXS, RootK(anchor));
    assert RootKnown(rows, anchor);
    var n: nat :| n <= |cs| && anchor == RootHex(env, cs[..n]);
  }

  /** On every chain from genesis, every included private transfer or unshield carries a
      proof that verifies, under the one key the chain installs, for its anchor, nullifiers,
      commitments and payout; and its anchor is the root of a prefix of the commitments of
      earlier blocks. */
  lemma SpendsAreProven(env: Env, alloc: seq<Alloc>, genesis: Block, blocks: seq<Block>, b: nat, i: nat)
    requires RunBlocks(env, Genesis(env, alloc, genesis), blocks).Ok?
    requires b < |blocks| && i < |blocks[b].transactions| && IsSpend(blocks[b].transactions[i])
    ensures Justified(env, blocks[b].transactions[i], AllCommitments(AllTxs(blocks[..b])))
  {
    hide Genesis, ApplyTxs, FinishBlock, StoreBlock, OneKey, AnchorsArePrefixes, Justified, PoolAgrees, SealTracks,
         Sealed;
    var start := Genesis(env, alloc, genesis);
    PrefixRuns(env, start, blocks, b);
    PrefixRuns(env, start, blocks, b + 1);
    assert blocks[..b + 1][..b] == blocks[..b];
    var rows := RunBlocks(env, start, blocks[..b]).value;
    PoolOnEveryRun(env, alloc, genesis, blocks[..b]);
    NoKeyAtGenesis(env, alloc, genesis);
    RunKeepsKey(env, start, blocks[..b]);
    BlockSpends(env, rows, blocks[b].transactions, blocks[b].header.height, i, AllCommitments(AllTxs(blocks[..b])));
  }
}
