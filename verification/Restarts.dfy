/** The tree a node keeps and the tree it would rebuild from its tables, on every
    chain (src/state.rs, src/snapshot.rs). */
module Restarts {
  import opened Base
  import opened Types
  import opened Tables
  import opened Ledger
  import opened Frames
  import opened Books
  import Chain
  import Pool

  lemma TipAfterBlock(env: Env, rows: Rows, b: Block)
    requires ExecBlock(env, rows, b).Ok?
    ensures Tables.Tip(rows) == Some(b.header.height - 1)
    ensures Tables.Tip(ExecBlock(env, rows, b).value) == Some(b.header.height)
  {
    hide ApplyTxs, FinishBlock;
  }

  lemma {:induction false} TipOfRun(env: Env, rows: Rows, blocks: seq<Block>)
    requires Tables.Tip(rows) == Some(0) && RunBlocks(env, rows, blocks).Ok?
    ensures Tables.Tip(RunBlocks(env, rows, blocks).value) == Some(|blocks|)
    ensures blocks != [] ==> blocks[|blocks| - 1].header.height == |blocks|
  {
    hide ExecBlock;
    if blocks != [] {
      var last := |blocks| - 1;
      TipOfRun(env, rows, blocks[..last]);
      TipAfterBlock(env, RunBlocks(env, rows, blocks[..last]).value, blocks[last]);
    }
  }

  /** Below activation a block does not touch the shielded leaves. */
  lemma QuietBlock(env: Env, rows: Rows, b: Block)
    requires ExecBlock(env, rows, b).Ok? && b.header.height < env.shieldedActivation
    ensures SealK in ExecBlock(env, rows, b).value <==> SealK in rows
  {
    hide Frame, ApplyTxs, ReleaseAll, RecordLiveness, PayRewards, StoreBlock, StakerList;
    var h := b.header;
    FrameApplyTxs(env, rows, b.transactions, h.height);
    var (rows1, fees) := ApplyTxs(env, rows, b.transactions, h.height).value;
    FrameSame(rows, rows1, TXS, SealK);
    FrameReleaseAll(rows1, StakerList(rows1), h.height);
    var rows2 := ReleaseUnbonded(rows1, h.height);
    FrameSame(rows1, rows2, {Accounts}, SealK);
    FrameRecordLiveness(env, rows2, h.height, h.parentHash, h.producer);
    var rows3 := RecordLiveness(env, rows2, h.height, h.parentHash, h.producer);
    FrameSame(rows2, rows3, {Accounts, Slashes}, SealK);
    FramePayRewards(rows3, h.producer, fees);
    var rows4 := PayRewards(rows3, h.producer, fees);
    FrameSame(rows3, rows4, {Accounts}, SealK);
    FrameStoreBlock(env, rows4, b);
    FrameSame(rows4, StoreBlock(env, rows4, b), {Blocks, Frames.Tip, BaseFees}, SealK);
  }

  lemma GenesisUnsealed(env: Env, alloc: seq<Alloc>, genesis: Block)
    ensures SealK !in Genesis(env, alloc, genesis)
  {
    hide Frame, PutBlock, GenesisAccounts;
    FrameGenesisAccounts(alloc);
    FrameSame(map[], GenesisAccounts(alloc), {Accounts}, SealK);
    FramePutBlock(GenesisAccounts(alloc), env.txHash, genesis);
    FrameSame(GenesisAccounts(alloc), Genesis(env, alloc, genesis), {Blocks, Frames.Tip}, SealK);
  }

  lemma {:induction false} UnsealedBelowActivation(env: Env, alloc: seq<Alloc>, genesis: Block, blocks: seq<Block>)
    requires genesis.header.height == 0 && (blocks != [] ==> |blocks| < env.shieldedActivation)
    requires RunBlocks(env, Genesis(env, alloc, genesis), blocks).Ok?
    ensures SealK !in RunBlocks(env, Genesis(env, alloc, genesis), blocks).value
  {
    hide ExecBlock, Genesis;
    if blocks == [] {
      GenesisUnsealed(env, alloc, genesis);
    } else {
      var last := |blocks| - 1;
      UnsealedBelowActivation(env, alloc, genesis, blocks[..last]);
      GenesisTip(env, alloc, genesis);
      TipOfRun(env, Genesis(env, alloc, genesis), blocks);
      QuietBlock(env, RunBlocks(env, Genesis(env, alloc, genesis), blocks[..last]).value, blocks[last]);
    }
  }

  lemma GenesisTip(env: Env, alloc: seq<Alloc>, genesis: Block)
    requires genesis.header.height == 0
    ensures Tables.Tip(Genesis(env, alloc, genesis)) == Some(0)
  {
    hide IndexTxs, GenesisAccounts;
  }

  lemma SealedRebuilds(env: Env, rows: Rows, height: nat)
    requires height >= env.shieldedActivation && Pool.Sealed(env, rows)
    ensures Chain.Rebuilt(env, rows, height) == rows
  {
    hide CurrentSeal, ShieldedRoot;
  }

  lemma UnsealedRebuilds(env: Env, rows: Rows, height: nat)
    requires SealK !in rows
    ensures Chain.Rebuilt(env, rows, height) == rows <==> height < env.shieldedActivation
  {
    hide CurrentSeal;
    assert rows - {SealK} == rows;
  }

  /** On every chain, rebuilding the tree at the tip gives the tree the node has kept
      block by block, with one exception: at genesis on a chain whose pool is active
      from height zero, where no block has sealed the pool yet. */
  lemma RebuildIsWhatWasKept(env: Env, alloc: seq<Alloc>, genesis: Block, blocks: seq<Block>)
    requires genesis.header.height == 0
    requires RunBlocks(env, Genesis(env, alloc, genesis), blocks).Ok?
    ensures var rows := RunBlocks(env, Genesis(env, alloc, genesis), blocks).value;
            && Tables.Tip(rows) == Some(|blocks|)
            && (Chain.Rebuilt(env, rows, |blocks|) == rows <==> blocks != [] || env.shieldedActivation > 0)
  {
    hide RunBlocks, Genesis, Chain.Rebuilt, Pool.Sealed, Pool.PoolAgrees, Pool.AnchorsArePrefixes, Pool.SealTracks;
    var start := Genesis(env, alloc, genesis);
    var rows := RunBlocks(env, start, blocks).value;
    GenesisTip(env, alloc, genesis);
    TipOfRun(env, start, blocks);
    if blocks == [] || |blocks| < env.shieldedActivation {
      UnsealedBelowActivation(env, alloc, genesis, blocks);
      UnsealedRebuilds(env, rows, |blocks|);
    } else {
      Pool.PoolOnEveryRun(env, alloc, genesis, blocks);
      SealedRebuilds(env, rows, |blocks|);
    }
  }
}
