/** Snapshots of real chains: what an export taken on any run carries, and what importing
    it gives (src/snapshot.rs). */
module SnapshotRuns {
  import opened Base
  import opened Types
  import opened Evidence
  import opened Tables
  import opened Ledger
  import opened MerkleState
  import opened Store
  import opened Snapshot
  import Blocks
  import Books
  import Chain
  import Election
  import Frames
  import Pool
  import Restarts
  import RootBinding

  // ---- stored blocks ----

  lemma PutBlockRow(rows: Rows, env: Env, b: Block, h: nat)
    ensures StoredBlock(PutBlock(rows, env.txHash, b), b.header.height) == Some(b)
    ensures h != b.header.height ==> Same(rows, PutBlock(rows, env.txHash, b), BlockK(h))
  {
    var rows1 := rows[BlockK(b.header.height) := BlockV(b)];
    IndexAgrees(rows1, env, b, BlockK(b.header.height));
    IndexAgrees(rows1, env, b, BlockK(h));
  }

  /** Executing a block stores it at its height and leaves the others alone. */
  lemma ExecStores(env: Env, rows: Rows, b: Block, h: nat)
    requires ExecBlock(env, rows, b).Ok?
    ensures var rows' := ExecBlock(env, rows, b).value;
      && StoredBlock(rows', b.header.height) == Some(b)
      && (h != b.header.height ==> Same(rows, rows', BlockK(h)))
  {
    hide Frames.Frame, ApplyTxs, FinishBlock, PutBlock;
    var x := b.header;
    Books.FrameApplyTxs(env, rows, b.transactions, x.height);
    var (rows1, fees) := ApplyTxs(env, rows, b.transactions, x.height).value;
    Frames.FrameSame(rows, rows1, Books.TXS, BlockK(h));
    Books.FrameFinishBlock(env, rows1, x.height, x.parentHash, x.producer, fees);
    var rows2 := FinishBlock(env, rows1, x.height, x.parentHash, x.producer, fees);
    Frames.FrameSame(rows1, rows2, Books.FINISH, BlockK(h));
    PutBlockRow(rows2, env, b, h);
  }

  ghost function ChainBlock(genesis: Block, blocks: seq<Block>, h: nat): Block
    requires h <= |blocks|
  {
    if h == 0 then genesis else blocks[h - 1]
  }

  lemma HashedByExec(env: Env, rows: Rows, b: Block)
    requires ExecBlock(env, rows, b).Ok?
    ensures b.header.hash == HeaderHash(env.crypto, b.header)
  {
    hide ApplyTxs, FinishBlock, StoreBlock, HeaderHash;
  }

  ghost predicate InOrder(c: Crypto, b: Block, h: nat) {
    b.header.height == h && b.header.hash == HeaderHash(c, b.header)
  }

  /** On every chain the block stored at each height is the chain's block of that height,
      under its own header hash. */
  lemma {:induction false} StoredOnEveryRun(env: Env, alloc: seq<Alloc>, genesis: Block, blocks: seq<Block>, h: nat)
    requires InOrder(env.crypto, genesis, 0) && h <= |blocks|
    requires RunBlocks(env, Genesis(env, alloc, genesis), blocks).Ok?
    ensures StoredBlock(RunBlocks(env, Genesis(env, alloc, genesis), blocks).value, h) == Some(ChainBlock(genesis, blocks, h))
    ensures InOrder(env.crypto, ChainBlock(genesis, blocks, h), h)
  {
    hide ExecBlock, PutBlock, GenesisAccounts, HeaderHash;
    var start := Genesis(env, alloc, genesis);
    if blocks == [] {
      PutBlockRow(GenesisAccounts(alloc), env, genesis, 0);
    } else {
      var last := |blocks| - 1;
      var rows := RunBlocks(env, start, blocks[..last]).value;
      Restarts.GenesisTip(env, alloc, genesis);
      Restarts.TipOfRun(env, start, blocks);
      ExecStores(env, rows, blocks[last], h);
      HashedByExec(env, rows, blocks[last]);
      if h < |blocks| {
        StoredOnEveryRun(env, alloc, genesis, blocks[..last], h);
      }
    }
  }

  // ---- finality rows ----

  lemma UnfinalizedRun(env: Env, alloc: seq<Alloc>, genesis: Block, blocks: seq<Block>)
    requires RunBlocks(env, Genesis(env, alloc, genesis), blocks).Ok?
    ensures FinalizedK !in RunBlocks(env, Genesis(env, alloc, genesis), blocks).value
  {
    hide Frames.Frame, RunBlocks, Genesis;
    var start := Genesis(env, alloc, genesis);
    Books.FrameGenesis(env, alloc, genesis);
    Frames.FrameSame(map[], start, Books.ALL, FinalizedK);
    Books.FrameRunBlocks(env, start, blocks);
    Frames.FrameSame(start, RunBlocks(env, start, blocks).value, Books.ALL, FinalizedK);
  }

  /** The height a snapshot of the chain is filed under when `f` is final. */
  function FiledHeight(blocks: seq<Block>, f: nat): nat {
    if f > 0 then f else |blocks|
  }

  lemma FiledUnder(rows: Rows, f: nat, tip: nat)
    requires FinalizedK !in rows && Tip(rows) == Some(tip)
    ensures SnapshotHeight(SetFinalized(rows, f)) == if f > 0 then f else tip
    ensures Tip(SetFinalized(rows, f)) == Some(tip)
    ensures forall h :: StoredBlock(SetFinalized(rows, f), h) == StoredBlock(rows, h)
  {
  }

  lemma FinalityOutsideState(env: Env, rows: Rows, f: nat)
    ensures CurrentSeal(env, SetFinalized(rows, f)) == CurrentSeal(env, rows)
    ensures SealK in SetFinalized(rows, f) <==> SealK in rows
    ensures SealK in rows ==> SetFinalized(rows, f)[SealK] == rows[SealK]
    ensures DumpAll(SetFinalized(rows, f)) == DumpAll(rows)
  {
    hide CurrentSeal;
    Chain.PoolRowsDecideSeal(env, SetFinalized(rows, f), rows);
    forall name: TableName
      ensures Dump(SetFinalized(rows, f), name) == Dump(rows, name)
    {
    }
  }

  // ---- when the snapshot's shielded leaves are those of its height ----

  /** The pool was not activated between the filed height and the tip, and there is a
      block if it was active from the start. */
  predicate SealIsOfFiledHeight(env: Env, blocks: seq<Block>, f: nat) {
    && !(FiledHeight(blocks, f) < env.shieldedActivation <= |blocks|)
    && (blocks != [] || env.shieldedActivation > 0)
  }

  lemma GenesisUnsealed(env: Env, alloc: seq<Alloc>, genesis: Block)
    ensures SealK !in Genesis(env, alloc, genesis)
  {
    hide Frames.Frame, PutBlock, GenesisAccounts;
    Frames.FrameGenesisAccounts(alloc);
    Frames.FrameSame(map[], GenesisAccounts(alloc), {Frames.Accounts}, SealK);
    Frames.FramePutBlock(GenesisAccounts(alloc), env.txHash, genesis);
    Frames.FrameSame(GenesisAccounts(alloc), Genesis(env, alloc, genesis), {Frames.Blocks, Frames.Tip}, SealK);
  }

  /** On every chain, rebuilding the exported tables at the filed height changes nothing
      unless the pool was activated between that height and the tip, or from the start of
      a chain without blocks. */
  lemma RebuildAtFiledHeightIff(env: Env, alloc: seq<Alloc>, genesis: Block, blocks: seq<Block>, f: nat)
    requires genesis.header.height == 0 && f <= |blocks|
    requires RunBlocks(env, Genesis(env, alloc, genesis), blocks).Ok?
    ensures var rows := SetFinalized(RunBlocks(env, Genesis(env, alloc, genesis), blocks).value, f);
            Chain.Rebuilt(env, rows, FiledHeight(blocks, f)) == rows <==> SealIsOfFiledHeight(env, blocks, f)
  {
    hide RunBlocks, Genesis, SetFinalized, CurrentSeal, Pool.PoolAgrees, Pool.AnchorsArePrefixes, Pool.SealTracks,
         ShieldedRoot, DumpAll, RootKnown;
    var start := Genesis(env, alloc, genesis);
    var run := RunBlocks(env, start, blocks).value;
    var rows := SetFinalized(run, f);
    Restarts.GenesisTip(env, alloc, genesis);
    Restarts.TipOfRun(env, start, blocks);
    FinalityOutsideState(env, run, f);
    if |blocks| < env.shieldedActivation {
      Restarts.UnsealedBelowActivation(env, alloc, genesis, blocks);
      Restarts.UnsealedRebuilds(env, rows, FiledHeight(blocks, f));
    } else if blocks == [] {
      RunOfNothing(env, start);
      GenesisUnsealed(env, alloc, genesis);
    } else {
      SealedAtTip(env, alloc, genesis, blocks, f);
      assert SealK !in rows - {SealK};
    }
  }

  lemma RunOfNothing(env: Env, rows: Rows)
    ensures RunBlocks(env, rows, []) == Ok(rows)
  {
  }

  /** Once the pool is active the tables hold the shielded leaves of their own pool. */
  lemma SealedAtTip(env: Env, alloc: seq<Alloc>, genesis: Block, blocks: seq<Block>, f: nat)
    requires genesis.header.height == 0 && blocks != [] && env.shieldedActivation <= |blocks|
    requires RunBlocks(env, Genesis(env, alloc, genesis), blocks).Ok?
    ensures var rows := SetFinalized(RunBlocks(env, Genesis(env, alloc, genesis), blocks).value, f);
            SealK in rows && rows[SealK] == CurrentSeal(env, rows)
  {
    hide RunBlocks, Genesis, SetFinalized, CurrentSeal, Pool.PoolAgrees, Pool.AnchorsArePrefixes, Pool.SealTracks,
         ShieldedRoot;
    Restarts.GenesisTip(env, alloc, genesis);
    Restarts.TipOfRun(env, Genesis(env, alloc, genesis), blocks);
    Pool.PoolOnEveryRun(env, alloc, genesis, blocks);
    FinalityOutsideState(env, RunBlocks(env, Genesis(env, alloc, genesis), blocks).value, f);
  }

  // ---- when other shielded leaves pass the root check ----

  /** The legacy digest does not cover the shielded leaves of the tree. */
  lemma LegacyRootIgnoresSeal(env: Env, h: Hashing, rows: Rows, height: nat)
    requires height < STATE_ROOT_V2_ACTIVATION_HEIGHT
    ensures StateRootAt(h, Chain.Rebuilt(env, rows, height), height) == StateRootAt(h, rows, height)
  {
    hide CurrentSeal;
    assert Digested(Chain.Rebuilt(env, rows, height)) == Digested(rows);
  }

  /** Tables with and without the shielded leaves have roots that read alike: the text of
      two digests, or a hash on the way to the first of these leaves, collides. */
  ghost predicate SealCollision(h: Hashing, rows: Rows) {
    var less := rows - {SealK};
    var x, y := TableRoot(h.sha, rows), TableRoot(h.sha, less);
    (x != y && h.hex(x) == h.hex(y)) || RootBinding.RootCollision(h.sha, rows, less, LeafName(SealK, 0))
  }

  lemma FewerNames(rows: Rows)
    ensures LiveNames(rows - {SealK}) <= LiveNames(rows)
    ensures forall x :: x in LiveNames(rows) ==> Proper(x)
    ensures SealK in rows ==> LeafName(SealK, 0) in LiveNames(rows)
  {
    assert LeafName(SealK, 0) in NamesOf(SealK);
  }

  lemma MerkleRootShowsSeal(h: Hashing, rows: Rows, height: nat)
    requires height >= STATE_ROOT_V2_ACTIVATION_HEIGHT && SealK in rows && NoClash(h.sha, LiveNames(rows))
    requires StateRootAt(h, rows - {SealK}, height) == StateRootAt(h, rows, height)
    ensures SealCollision(h, rows)
  {
    hide NoClash, LiveNames, TableRoot, RootBinding.RootCollision, Proper, LegacyRoot;
    var less := rows - {SealK};
    if TableRoot(h.sha, rows) == TableRoot(h.sha, less) {
      FewerNames(rows);
      RootBinding.RootBindsLeaf(h.sha, rows, less, LiveNames(rows), LeafName(SealK, 0));
    }
  }

  // ---- the round trip on every chain ----

  lemma HeaderInOrder(c: Crypto, snap: Snap, chainId: nat)
    requires snap.format == SNAPSHOT_FORMAT && snap.chainId == chainId && InOrder(c, snap.block, snap.height)
    requires snap.blockHash == snap.block.header.hash && snap.stateRoot == snap.block.header.stateRoot
    ensures HeaderOk(c, snap, chainId)
  {
  }

  lemma OtherSealOtherState(src: Rows, other: Rows, dst: Rows)
    requires (SealK in src) != (SealK in other) && SameState(other, dst)
    ensures !SameState(src, dst)
  {
    assert Same(other, dst, SealK);
    assert !Same(src, dst, SealK);
  }

  /** What an import of the snapshot must come to, by the height it is filed under. */
  ghost predicate ImportOutcome(env: Env, h: Hashing, blocks: seq<Block>, f: nat, src: Rows, dst: Rows, r: Result<nat>) {
    var filed := FiledHeight(blocks, f);
    && (r.Ok? ==> r == Ok(filed) && Tip(dst) == Some(filed) && SameState(Chain.Rebuilt(env, src, filed), dst))
    && (r.Ok? ==> (SameState(src, dst) <==> SealIsOfFiledHeight(env, blocks, f)))
    && (SealIsOfFiledHeight(env, blocks, f) ==> r.Ok?)
    && (filed < STATE_ROOT_V2_ACTIVATION_HEIGHT ==> r.Ok?)
    && (!SealIsOfFiledHeight(env, blocks, f) && filed >= STATE_ROOT_V2_ACTIVATION_HEIGHT && r.Ok? ==> SealCollision(h, src))
  }

  /** Which shielded leaves a rebuild at the filed height adds or drops. */
  lemma WhereSealDiffers(env: Env, alloc: seq<Alloc>, genesis: Block, blocks: seq<Block>, f: nat)
    requires genesis.header.height == 0 && f <= |blocks| && !SealIsOfFiledHeight(env, blocks, f)
    requires RunBlocks(env, Genesis(env, alloc, genesis), blocks).Ok?
    ensures var rows := SetFinalized(RunBlocks(env, Genesis(env, alloc, genesis), blocks).value, f);
            var rebuilt := Chain.Rebuilt(env, rows, FiledHeight(blocks, f));
            && (SealK in rows) != (SealK in rebuilt)
            && (blocks != [] ==> SealK in rows && rebuilt == rows - {SealK})
  {
    hide RunBlocks, Genesis, SetFinalized, CurrentSeal, ShieldedRoot;
    if blocks == [] {
      RunOfNothing(env, Genesis(env, alloc, genesis));
      GenesisUnsealed(env, alloc, genesis);
      FinalityOutsideState(env, Genesis(env, alloc, genesis), f);
    } else {
      SealedAtTip(env, alloc, genesis, blocks, f);
    }
  }

  lemma OutcomeOnEveryRun(
      env: Env, h: Hashing, alloc: seq<Alloc>, genesis: Block, blocks: seq<Block>, f: nat, src: Rows, dst: Rows, r: Result<nat>)
    requires genesis.header.height == 0 && f <= |blocks| && RunBlocks(env, Genesis(env, alloc, genesis), blocks).Ok?
    requires src == SetFinalized(RunBlocks(env, Genesis(env, alloc, genesis), blocks).value, f)
    requires FiledHeight(blocks, f) >= STATE_ROOT_V2_ACTIVATION_HEIGHT ==> NoClash(h.sha, LiveNames(src))
    requires var filed := FiledHeight(blocks, f); var rebuilt := Chain.Rebuilt(env, src, filed);
             && (r.Ok? <==> StateRootAt(h, rebuilt, filed) == StateRootAt(h, src, filed))
             && (r.Ok? ==> r == Ok(filed) && Tip(dst) == Some(filed) && SameState(rebuilt, dst))
    ensures ImportOutcome(env, h, blocks, f, src, dst, r)
  {
    hide RunBlocks, Genesis, SetFinalized, Chain.Rebuilt, SameState, StateRootAt, NoClash, LiveNames, SealCollision;
    var filed := FiledHeight(blocks, f);
    RebuildAtFiledHeightIff(env, alloc, genesis, blocks, f);
    if filed < STATE_ROOT_V2_ACTIVATION_HEIGHT {
      LegacyRootIgnoresSeal(env, h, src, filed);
    }
    if !SealIsOfFiledHeight(env, blocks, f) {
      WhereSealDiffers(env, alloc, genesis, blocks, f);
      if r.Ok? {
        OtherSealOtherState(src, Chain.Rebuilt(env, src, filed), dst);
        if filed >= STATE_ROOT_V2_ACTIVATION_HEIGHT {
          MerkleRootShowsSeal(h, src, filed);
        }
      }
    }
  }

  /** Take a snapshot of any chain from genesis, whatever height `f` up to the tip is
      final, and import it into any other store. The export succeeds. If the shielded
      leaves are those of the filed height, the import passes its root check and restores
      the same state. If they are not, the import passes below the root upgrade, where the
      root does not cover them, and restores a state without them or with them added; above
      it, it passes only on a collision. The restored tip is the exporter's exactly when the
      final height, if any, is the tip. */
  method ExportThenImportOnEveryRun(
      env: Env, src: Database, dst: Database, chainId: nat, checkpoint: Option<(nat, Bytes)>,
      ghost alloc: seq<Alloc>, ghost genesis: Block, ghost blocks: seq<Block>, ghost f: nat)
    returns (snap: Result<Snap>, r: Result<nat>)
    requires src.Valid() && dst.Loading() && src.hashing == dst.hashing
    requires {src, src.rows, src.nodes} !! {dst, dst.rows, dst.nodes}
    requires InOrder(env.crypto, genesis, 0) && f <= |blocks|
    requires RunBlocks(env, Genesis(env, alloc, genesis), blocks).Ok?
    requires src.rows.table == SetFinalized(RunBlocks(env, Genesis(env, alloc, genesis), blocks).value, f)
    requires checkpoint.Some? && checkpoint.value.0 == FiledHeight(blocks, f) ==>
               checkpoint.value.1 == LegacyRoot(src.hashing, src.rows.table)
    modifies dst`leaves, dst`names, dst.rows`table, dst.rows`frames, dst.nodes`table, dst.nodes`frames
    ensures dst.Loading() && snap.Ok? && (r.Ok? ==> dst.Valid())
    ensures RootIsKnown(src.hashing.sha, src.names, FiledHeight(blocks, f)) ==>
              ImportOutcome(env, src.hashing, blocks, f, src.rows.table, dst.rows.table, r)
    ensures Tip(src.rows.table) == Some(|blocks|)
    ensures r.Ok? ==> (Tip(dst.rows.table) == Tip(src.rows.table) <==> f == 0 || f == |blocks|)
  {
    hide Database.Valid, Database.Loading, RunBlocks, Genesis, SetFinalized, Chain.Rebuilt, HeaderHash, LegacyRoot,
         NoClash, SameState, HeaderOk, SnapshotHeight, StoredBlock, CurrentSeal, LiveNames, StateRootAt,
         ImportOutcome;
    ghost var run := RunBlocks(env, Genesis(env, alloc, genesis), blocks).value;
    ghost var rows, filed := src.rows.table, FiledHeight(blocks, f);
    UnfinalizedRun(env, alloc, genesis, blocks);
    Restarts.GenesisTip(env, alloc, genesis);
    Restarts.TipOfRun(env, Genesis(env, alloc, genesis), blocks);
    FiledUnder(run, f, |blocks|);
    StoredOnEveryRun(env, alloc, genesis, blocks, filed);
    snap, r := ExportThenImport(env, src, dst, chainId, checkpoint);
    HeaderInOrder(env.crypto, snap.value, chainId);
    if RootIsKnown(src.hashing.sha, src.names, filed) {
      if filed >= STATE_ROOT_V2_ACTIVATION_HEIGHT {
        src.LiveNamesCovered();
        NamesOfRebuilt(env, alloc, genesis, blocks, f);
        assert src.names + LiveNames(Chain.Rebuilt(env, rows, filed)) == src.names;
      }
      OutcomeOnEveryRun(env, src.hashing, alloc, genesis, blocks, f, rows, dst.rows.table, r);
    }
  }

  /** A rebuild at the filed height names no new leaves, except on a chain without blocks. */
  lemma NamesOfRebuilt(env: Env, alloc: seq<Alloc>, genesis: Block, blocks: seq<Block>, f: nat)
    requires genesis.header.height == 0 && f <= |blocks| && blocks != []
    requires RunBlocks(env, Genesis(env, alloc, genesis), blocks).Ok?
    ensures var rows := SetFinalized(RunBlocks(env, Genesis(env, alloc, genesis), blocks).value, f);
            LiveNames(Chain.Rebuilt(env, rows, FiledHeight(blocks, f))) <= LiveNames(rows)
  {
    hide RunBlocks, Genesis, SetFinalized, Chain.Rebuilt, LiveNames;
    RebuildAtFiledHeightIff(env, alloc, genesis, blocks, f);
    if !SealIsOfFiledHeight(env, blocks, f) {
      WhereSealDiffers(env, alloc, genesis, blocks, f);
      FewerNames(SetFinalized(RunBlocks(env, Genesis(env, alloc, genesis), blocks).value, f));
    }
  }

  // ---- what height the exported tables belong to ----

  function Produced(rows: Rows, a: Bytes): nat {
    GetAccount(rows, a).blocksProduced
  }

  lemma FrameProduced(rows: Rows, rows': Rows, touched: set<Frames.Table>, a: Bytes)
    requires Frames.Frame(rows, rows', touched)
    ensures Produced(rows, a) <= Produced(rows', a)
  {
    assert Frames.AccountStep(rows, rows', a);
  }

  lemma PayRewardsProduces(rows: Rows, leader: Bytes, fees: nat)
    ensures Produced(PayRewards(rows, leader, fees), leader) > Produced(rows, leader)
  {
    hide Frames.Frame, ValidatorSetAt, RewardAll, Distributed, Election.TotalStake;
    var vals := ValidatorSetAt(rows, NextHeight(rows));
    var total := Election.TotalStake(vals);
    if total > 0 {
      Frames.FrameRewardAll(rows, vals, total);
      FrameProduced(rows, RewardAll(rows, vals, total), {Frames.Accounts}, leader);
    }
  }

  /** Every block counts for its producer. */
  lemma ExecProduces(env: Env, rows: Rows, b: Block)
    requires ExecBlock(env, rows, b).Ok?
    ensures Produced(ExecBlock(env, rows, b).value, b.header.producer) > Produced(rows, b.header.producer)
  {
    hide Frames.Frame, Produced, ApplyTxs, ReleaseAll, RecordLiveness, PayRewards, SealShieldedRoot, StoreBlock,
         StakerList;
    var h, a := b.header, b.header.producer;
    Books.FrameApplyTxs(env, rows, b.transactions, h.height);
    var (rows1, fees) := ApplyTxs(env, rows, b.transactions, h.height).value;
    FrameProduced(rows, rows1, Books.TXS, a);
    Frames.FrameReleaseAll(rows1, StakerList(rows1), h.height);
    var rows2 := ReleaseUnbonded(rows1, h.height);
    FrameProduced(rows1, rows2, {Frames.Accounts}, a);
    Frames.FrameRecordLiveness(env, rows2, h.height, h.parentHash, a);
    var rows3 := RecordLiveness(env, rows2, h.height, h.parentHash, a);
    FrameProduced(rows2, rows3, {Frames.Accounts, Frames.Slashes}, a);
    PayRewardsProduces(rows3, a, fees);
    var rows4 := PayRewards(rows3, a, fees);
    Frames.FrameSeal(env, rows4, h.height);
    var rows5 := SealShieldedRoot(env, rows4, h.height);
    FrameProduced(rows4, rows5, {Frames.Roots, Frames.Seals}, a);
    Frames.FrameStoreBlock(env, rows5, b);
    FrameProduced(rows5, StoreBlock(env, rows5, b), {Frames.Blocks, Frames.Tip, Frames.BaseFees}, a);
  }

  lemma {:induction false} ProducedGrows(env: Env, rows: Rows, blocks: seq<Block>, n: nat, a: Bytes)
    requires n <= |blocks| && RunBlocks(env, rows, blocks).Ok? && RunBlocks(env, rows, blocks[..n]).Ok?
    ensures Produced(RunBlocks(env, rows, blocks[..n]).value, a) <= Produced(RunBlocks(env, rows, blocks).value, a)
  {
    hide ExecBlock, Produced, Frames.Frame;
    if n == |blocks| {
      assert blocks[..n] == blocks;
    } else {
      var last := |blocks| - 1;
      assert blocks[..last][..n] == blocks[..n];
      ProducedGrows(env, rows, blocks[..last], n, a);
      var before := RunBlocks(env, rows, blocks[..last]).value;
      Books.FrameExecBlock(env, before, blocks[last]);
      FrameProduced(before, ExecBlock(env, before, blocks[last]).value, Books.ALL, a);
    }
  }

  lemma DumpDecidesAccount(x: Rows, y: Rows, a: Bytes)
    requires DumpAll(x) == DumpAll(y)
    ensures GetAccount(x, a) == GetAccount(y, a)
  {
    var dx, dy := Dump(x, Accounts), Dump(y, Accounts);
    assert DumpAll(x)[0].entries == dx && DumpAll(y)[0].entries == dy;
    assert AccountK(a) in x <==> AccountK(a) in dx;
    assert AccountK(a) in y <==> AccountK(a) in dy;
    assert AccountK(a) in dx ==> x[AccountK(a)] == dx[AccountK(a)] && y[AccountK(a)] == dy[AccountK(a)];
  }

  lemma LaterTablesDiffer(env: Env, rows: Rows, blocks: seq<Block>, n: nat)
    requires n < |blocks| && RunBlocks(env, rows, blocks).Ok? && RunBlocks(env, rows, blocks[..n]).Ok?
    ensures DumpAll(RunBlocks(env, rows, blocks).value) != DumpAll(RunBlocks(env, rows, blocks[..n]).value)
  {
    hide ExecBlock, DumpAll;
    var last := |blocks| - 1;
    var a := blocks[last].header.producer;
    assert blocks[..last][..n] == blocks[..n];
    ProducedGrows(env, rows, blocks[..last], n, a);
    ExecProduces(env, RunBlocks(env, rows, blocks[..last]).value, blocks[last]);
    var x, y := RunBlocks(env, rows, blocks).value, RunBlocks(env, rows, blocks[..n]).value;
    assert Produced(x, a) > Produced(y, a);
    if DumpAll(x) == DumpAll(y) {
      DumpDecidesAccount(x, y, a);
    }
  }

  /** On every chain the exported tables are those of the height they are filed under if
      and only if that height is the tip. */
  lemma TablesMatchFiledHeightIff(env: Env, alloc: seq<Alloc>, genesis: Block, blocks: seq<Block>, f: nat)
    requires genesis.header.height == 0 && f <= |blocks|
    requires RunBlocks(env, Genesis(env, alloc, genesis), blocks).Ok?
    ensures var start := Genesis(env, alloc, genesis);
            var rows, filed := SetFinalized(RunBlocks(env, start, blocks).value, f), FiledHeight(blocks, f);
            && SnapshotHeight(rows) == filed && RunBlocks(env, start, blocks[..filed]).Ok?
            && (DumpAll(rows) == DumpAll(RunBlocks(env, start, blocks[..filed]).value) <==> filed == |blocks|)
  {
    hide RunBlocks, Genesis, SetFinalized, DumpAll, SnapshotHeight, CurrentSeal;
    var start, filed := Genesis(env, alloc, genesis), FiledHeight(blocks, f);
    UnfinalizedRun(env, alloc, genesis, blocks);
    Restarts.GenesisTip(env, alloc, genesis);
    Restarts.TipOfRun(env, start, blocks);
    FiledUnder(RunBlocks(env, start, blocks).value, f, |blocks|);
    FinalityOutsideState(env, RunBlocks(env, start, blocks).value, f);
    Pool.PrefixRuns(env, start, blocks, filed);
    if filed == |blocks| {
      assert blocks[..filed] == blocks;
    } else {
      LaterTablesDiffer(env, start, blocks, filed);
    }
  }

  // ---- a chain whose snapshot is filed under the wrong height ----

  /** A block with no transactions on top of these tables, before it is sealed. */
  function Draft(rows: Rows, seal: Blocks.Sealer, height: nat, nowMs: nat): Block {
    Block(Header(height, TipHash(rows), nowMs, "", seal.txsRoot([]), seal.address, seal.pubkey, "", ""), [])
  }

  function Sealed(c: Crypto, seal: Blocks.Sealer, b: Block, root: Bytes): Block {
    var rooted := b.header.(stateRoot := root);
    var signed := rooted.(signature := seal.sign(HeaderBytes(rooted)));
    b.(header := signed.(hash := HeaderHash(c, signed)))
  }

  lemma DraftRuns(env: Env, rows: Rows, seal: Blocks.Sealer, height: nat, nowMs: nat)
    ensures Blocks.Executed(env, rows, Draft(rows, seal, height, nowMs)).Ok?
  {
  }

  /** The empty block a producer holding these tables seals. */
  ghost function EmptyBlock(env: Env, h: Hashing, rows: Rows, seal: Blocks.Sealer, height: nat, nowMs: nat): Block {
    DraftRuns(env, rows, seal, height, nowMs);
    var draft := Draft(rows, seal, height, nowMs);
    Sealed(env.crypto, seal, draft, StateRootAt(h, Blocks.Executed(env, rows, draft).value, height))
  }

  lemma SealedInOrder(c: Crypto, seal: Blocks.Sealer, b: Block, root: Bytes)
    ensures var x := Sealed(c, seal, b, root);
            && x.header.hash == HeaderHash(c, x.header) && x.header.stateRoot == root && x.transactions == b.transactions
            && x.header.height == b.header.height && x.header.parentHash == b.header.parentHash
            && x.header.producer == b.header.producer
  {
  }

  /** Whoever accepts its header imports it, and the chain grows by one. */
  lemma EmptyBlockImports(
      env: Env, h: Hashing, rows: Rows, seal: Blocks.Sealer, height: nat, nowMs: nat, accepts: (Rows, Block) -> bool)
    requires Tip(rows) == Some(height)
    ensures var b := EmptyBlock(env, h, rows, seal, height + 1, nowMs);
            && (accepts(rows, b) <==> Blocks.Importable(env, h, rows, b, accepts))
            && ExecBlock(env, rows, b).Ok? && Tip(ExecBlock(env, rows, b).value) == Some(height + 1)
  {
    hide FinishBlock, HeaderHash, StateRootAt, Sealed;
    var draft, b := Draft(rows, seal, height + 1, nowMs), EmptyBlock(env, h, rows, seal, height + 1, nowMs);
    DraftRuns(env, rows, seal, height + 1, nowMs);
    SealedInOrder(env.crypto, seal, draft, StateRootAt(h, Blocks.Executed(env, rows, draft).value, height + 1));
    assert Blocks.Executed(env, rows, b) == Blocks.Executed(env, rows, draft);
    Restarts.TipAfterBlock(env, rows, b);
  }

  /** Two empty blocks as a producer seals them, imported by every node that accepts
      their headers, the first one final: the snapshot is filed under height one and
      carries the tables of height two. */
  lemma SnapshotOfTwoBlocks(env: Env, h: Hashing, alloc: seq<Alloc>, genesis: Block, seal: Blocks.Sealer, t1: nat, t2: nat,
                            accepts: (Rows, Block) -> bool)
    requires genesis.header.height == 0
    ensures var start := Genesis(env, alloc, genesis);
            var b1 := EmptyBlock(env, h, start, seal, 1, t1);
            && (accepts(start, b1) <==> Blocks.Importable(env, h, start, b1, accepts))
            && RunBlocks(env, start, [b1]).Ok?
            && var at1 := RunBlocks(env, start, [b1]).value;
               var b2 := EmptyBlock(env, h, at1, seal, 2, t2);
               && (accepts(at1, b2) <==> Blocks.Importable(env, h, at1, b2, accepts))
               && RunBlocks(env, start, [b1, b2]).Ok?
               && var at2 := RunBlocks(env, start, [b1, b2]).value;
                  && SnapshotHeight(SetFinalized(at2, 1)) == 1 && Tip(SetFinalized(at2, 1)) == Some(2)
                  && DumpAll(SetFinalized(at2, 1)) == DumpAll(at2) != DumpAll(at1)
  {
    hide ExecBlock, Genesis, SetFinalized, DumpAll, SnapshotHeight, CurrentSeal, EmptyBlock, Blocks.Importable;
    var start := Genesis(env, alloc, genesis);
    var b1 := EmptyBlock(env, h, start, seal, 1, t1);
    Restarts.GenesisTip(env, alloc, genesis);
    EmptyBlockImports(env, h, start, seal, 0, t1, accepts);
    assert [b1][..0] == [];
    assert RunBlocks(env, start, [b1]) == ExecBlock(env, start, b1);
    var at1 := RunBlocks(env, start, [b1]).value;
    var b2 := EmptyBlock(env, h, at1, seal, 2, t2);
    EmptyBlockImports(env, h, at1, seal, 1, t2, accepts);
    assert [b1, b2][..1] == [b1];
    assert RunBlocks(env, start, [b1, b2]) == ExecBlock(env, at1, b2);
    TablesMatchFiledHeightIff(env, alloc, genesis, [b1, b2], 1);
    UnfinalizedRun(env, alloc, genesis, [b1, b2]);
    FiledUnder(RunBlocks(env, start, [b1, b2]).value, 1, 2);
    FinalityOutsideState(env, RunBlocks(env, start, [b1, b2]).value, 1);
  }
}
