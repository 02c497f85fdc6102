/** Producing and importing blocks (src/chain.rs). The producer drops failing
    transactions behind a savepoint each; the importer executes the block straight
    through. Both must end in the same tables under the same root. */
module Blocks {
  import opened Base
  import opened Types
  import opened Evidence
  import opened Tables
  import opened Ledger
  import opened MerkleState
  import opened Store
  import Chain

  /** The transactions of `batch` a producer includes: each one that still applies
      after those kept before it. */
  ghost function Kept(env: Env, rows: Rows, batch: seq<Transaction>, height: nat): (txs: seq<Transaction>)
    ensures ApplyTxs(env, rows, txs, height).Ok?
  {
    if batch == [] then [] else
      var last := |batch| - 1;
      var before := Kept(env, rows, batch[..last], height);
      KeptMore(env, rows, before, batch[last], height);
      if Ledger.ApplyTx(env, ApplyTxs(env, rows, before, height).value.0, batch[last], height).Ok? then before + [batch[last]]
      else before
  }

  lemma KeptMore(env: Env, rows: Rows, txs: seq<Transaction>, tx: Transaction, height: nat)
    requires ApplyTxs(env, rows, txs, height).Ok?
    ensures ApplyTxs(env, rows, txs + [tx], height)
         == var (rows1, fees) := ApplyTxs(env, rows, txs, height).value;
            match Ledger.ApplyTx(env, rows1, tx, height)
            case Err(e) => Err(e)
            case Ok((rows2, fee)) => Ok((rows2, fees + fee))
  {
    hide Ledger.ApplyTx;
    assert (txs + [tx])[..|txs|] == txs;
  }

  lemma LastApplies(env: Env, rows: Rows, batch: seq<Transaction>, height: nat)
    requires batch != [] && ApplyTxs(env, rows, batch, height).Ok?
    ensures var front := ApplyTxs(env, rows, batch[..|batch| - 1], height);
            front.Ok? && Ledger.ApplyTx(env, front.value.0, batch[|batch| - 1], height).Ok?
  {
    hide Ledger.ApplyTx;
  }

  lemma KeptLast(env: Env, rows: Rows, batch: seq<Transaction>, height: nat)
    requires batch != []
    ensures var before, tx := Kept(env, rows, batch[..|batch| - 1], height), batch[|batch| - 1];
            Kept(env, rows, batch, height)
            == if Ledger.ApplyTx(env, ApplyTxs(env, rows, before, height).value.0, tx, height).Ok? then before + [tx] else before
  {
    hide Ledger.ApplyTx, ApplyTxs;
  }

  /** Nothing that applies is left out: a batch that runs as a whole is kept whole. */
  lemma {:induction false} WholeBatchKept(env: Env, rows: Rows, batch: seq<Transaction>, height: nat)
    requires ApplyTxs(env, rows, batch, height).Ok?
    ensures Kept(env, rows, batch, height) == batch
  {
    hide Ledger.ApplyTx, ApplyTxs;
    if batch != [] {
      var last := |batch| - 1;
      LastApplies(env, rows, batch, height);
      WholeBatchKept(env, rows, batch[..last], height);
      KeptLast(env, rows, batch, height);
      assert batch == batch[..last] + [batch[last]];
    }
  }

  /** What is left out fails where it stands: on the tables after those kept before it. */
  lemma {:induction false} DroppedFails(env: Env, rows: Rows, batch: seq<Transaction>, height: nat, i: nat)
    requires i < |batch|
    ensures var before := Kept(env, rows, batch[..i], height);
            var outcome := Ledger.ApplyTx(env, ApplyTxs(env, rows, before, height).value.0, batch[i], height);
            before + (if outcome.Ok? then [batch[i]] else []) <= Kept(env, rows, batch, height)
  {
    hide Ledger.ApplyTx, ApplyTxs;
    var last := |batch| - 1;
    KeptLast(env, rows, batch, height);
    if i < last {
      DroppedFails(env, rows, batch[..last], height, i);
      assert batch[..last][..i] == batch[..i];
    }
  }

  /** The tables a block's root is taken of: executed, not yet stored. */
  ghost function Executed(env: Env, rows: Rows, b: Block): Result<Rows> {
    var h := b.header;
    var (rows1, fees) :- ApplyTxs(env, rows, b.transactions, h.height);
    Ok(FinishBlock(env, rows1, h.height, h.parentHash, h.producer, fees))
  }

  // ---- genesis ----

  /** Allocate the genesis accounts and store block zero, once. */
  method InitGenesis(env: Env, db: Database, alloc: seq<Alloc>, seal: Bytes -> Block) returns (r: Result<Block>)
    requires db.Valid()
    modifies db`leaves, db`names, db.rows`table, db.rows`frames, db.nodes`table, db.nodes`frames
    ensures db.Valid()
    ensures r.Ok? <==> Tip(old(db.rows.table)).None? && forall i :: 0 <= i < |alloc| ==> env.validAddress(alloc[i].address)
    ensures r.Ok? && old(db.rows.table) == map[] ==> db.rows.table == Genesis(env, alloc, r.value)
  {
    hide db.Valid, SetAccount, PutBlock, LegacyRoot;
    if Tip(db.rows.table).Some? {
      return Err("chain already initialized");
    }
    ghost var start := db.rows.table;
    for i := 0 to |alloc|
      invariant db.Valid() && forall j :: 0 <= j < i ==> env.validAddress(alloc[j].address)
      invariant start == map[] ==> db.rows.table == GenesisAccounts(alloc[..i])
    {
      if !env.validAddress(alloc[i].address) {
        return Err("invalid genesis address");
      }
      assert alloc[..i + 1][..i] == alloc[..i];
      var acct := GetAccount(db.rows.table, alloc[i].address);
      db.SetAccount(alloc[i].address, acct.(balance := acct.balance + alloc[i].balance, staked := acct.staked + alloc[i].stake));
    }
    assert alloc[..|alloc|] == alloc;
    var block := seal(LegacyRoot(db.hashing, db.rows.table));
    db.PutBlock(env.txHash, block);
    r := Ok(block);
  }

  // ---- producing ----

  /** The producing key, and the hash of the transaction list. */
  datatype Sealer = Sealer(address: Bytes, pubkey: Bytes, sign: Bytes -> Bytes, txsRoot: seq<Transaction> -> Bytes)

  /** Apply each transaction behind its own savepoint and drop the failing ones. */
  method IncludeTxs(env: Env, db: Database, batch: seq<Transaction>, height: nat)
    returns (included: seq<Transaction>, fees: nat)
    requires db.Valid()
    modifies db, db.rows, db.nodes
    ensures db.Valid() && db.Savepoints() == old(db.Savepoints())
    ensures included == Kept(env, old(db.rows.table), batch, height)
    ensures ApplyTxs(env, old(db.rows.table), included, height) == Ok((db.rows.table, fees))
  {
    hide db.Valid, Ledger.ApplyTx;
    ghost var start, outer := db.rows.table, db.Savepoints();
    included, fees := [], 0;
    for i := 0 to |batch|
      invariant db.Valid() && db.Savepoints() == outer
      invariant included == Kept(env, start, batch[..i], height)
      invariant ApplyTxs(env, start, included, height) == Ok((db.rows.table, fees))
    {
      assert batch[..i + 1][..i] == batch[..i];
      KeptMore(env, start, included, batch[i], height);
      PushThenPop(outer, db.rows.table, db.nodes.table, db.leaves);
      db.Begin();
      var outcome := Chain.ApplyTx(env, db, batch[i], height);
      if outcome.Ok? {
        db.Commit();
        fees := fees + outcome.value;
        included := included + [batch[i]];
      } else {
        db.Abort();
      }
    }
    assert batch[..|batch|] == batch;
  }

  method ProduceBlock(env: Env, db: Database, seal: Sealer, batch: seq<Transaction>, nowMs: nat) returns (r: Result<Block>)
    requires db.Valid()
    modifies db, db.rows, db.nodes
    ensures db.Valid() && db.Savepoints() == old(db.Savepoints())
    ensures r.Err? == Tip(old(db.rows.table)).None?
    ensures r.Err? ==> db.rows.table == old(db.rows.table)
    ensures r.Ok? ==>
      var rows, b := old(db.rows.table), r.value;
      && b.header.parentHash == TipHash(rows)
      && b.transactions == Kept(env, rows, batch, b.header.height)
      && ExecBlock(env, rows, b) == Ok(db.rows.table)
      && Executed(env, rows, b).Ok?
      && (NoClash(db.hashing.sha, db.names) ==>
            b.header.stateRoot == StateRootAt(db.hashing, Executed(env, rows, b).value, b.header.height))
  {
    hide db.Valid, Ledger.ApplyTx, ApplyTxs, Ledger.FinishBlock, Ledger.StoreBlock, StateRootAt, NoClash;
    ghost var start := db.rows.table;
    var tip := Tip(db.rows.table);
    if tip.None? {
      return Err("chain not initialized");
    }
    var parentHash, height := TipHash(db.rows.table), tip.value + 1;
    PushThenPop(db.Savepoints(), db.rows.table, db.nodes.table, db.leaves);
    db.Begin();
    var included, fees := IncludeTxs(env, db, batch, height);
    Chain.FinishBlock(env, db, height, parentHash, seal.address, fees);
    var root := db.RootAt(height);
    var header := Header(height, parentHash, nowMs, root, seal.txsRoot(included), seal.address, seal.pubkey, "", "");
    header := header.(signature := seal.sign(HeaderBytes(header)));
    header := header.(hash := HeaderHash(env.crypto, header));
    var b := Block(header, included);
    Chain.StoreBlock(env, db, b);
    db.Commit();
    r := Ok(b);
  }

  // ---- importing ----

  lemma {:induction false} FailedPrefix(env: Env, rows: Rows, txs: seq<Transaction>, height: nat, n: nat)
    requires n <= |txs| && ApplyTxs(env, rows, txs[..n], height).Err?
    ensures ApplyTxs(env, rows, txs, height).Err?
  {
    hide Ledger.ApplyTx;
    if n == |txs| {
      assert txs[..n] == txs;
    } else {
      var last := |txs| - 1;
      assert txs[..last][..n] == txs[..n];
      FailedPrefix(env, rows, txs[..last], height, n);
    }
  }

  /** Apply every transaction with no savepoint of its own; the first failure ends it. */
  method ImportTxs(env: Env, db: Database, txs: seq<Transaction>, height: nat) returns (r: Result<nat>)
    requires db.Valid()
    modifies db`leaves, db`names, db.rows`table, db.rows`frames, db.nodes`table, db.nodes`frames
    ensures db.Valid()
    ensures var spec := ApplyTxs(env, old(db.rows.table), txs, height);
            r.Ok? == spec.Ok? && (r.Ok? ==> spec.value == (db.rows.table, r.value))
  {
    hide db.Valid, Ledger.ApplyTx;
    ghost var start := db.rows.table;
    var fees := 0;
    for i := 0 to |txs|
      invariant db.Valid() && ApplyTxs(env, start, txs[..i], height) == Ok((db.rows.table, fees))
    {
      assert txs[..i + 1][..i] == txs[..i];
      var outcome := Chain.ApplyTx(env, db, txs[i], height);
      if outcome.Err? {
        FailedPrefix(env, start, txs, height, i + 1);
        return Err(outcome.error);
      }
      fees := fees + outcome.value;
    }
    assert txs[..|txs|] == txs;
    r := Ok(fees);
  }

  /** When an importer takes a block: next height, right parent, its own header hash,
      accepted header and signatures, every transaction applies, and the root matches. */
  ghost predicate Importable(env: Env, h: Hashing, rows: Rows, b: Block, accepts: (Rows, Block) -> bool) {
    && Tip(rows) == Some(b.header.height - 1)
    && b.header.parentHash == TipHash(rows)
    && b.header.hash == HeaderHash(env.crypto, b.header)
    && accepts(rows, b)
    && Executed(env, rows, b).Ok?
    && b.header.stateRoot == StateRootAt(h, Executed(env, rows, b).value, b.header.height)
  }

  method ImportInner(env: Env, db: Database, b: Block, accepts: (Rows, Block) -> bool) returns (r: Result<bool>)
    requires db.Valid()
    modifies db`leaves, db`names, db.rows`table, db.rows`frames, db.nodes`table, db.nodes`frames
    ensures db.Valid()
    ensures r == Ok(false) <==> Tip(old(db.rows.table)).Some? && b.header.height <= Tip(old(db.rows.table)).value
    ensures r == Ok(false) ==> db.rows.table == old(db.rows.table) && db.nodes.table == old(db.nodes.table)
    ensures r == Ok(true) ==> ExecBlock(env, old(db.rows.table), b) == Ok(db.rows.table)
    ensures NoClash(db.hashing.sha, db.names) ==>
      (r == Ok(true) <==> Importable(env, db.hashing, old(db.rows.table), b, accepts))
  {
    hide db.Valid, Ledger.ApplyTx, ApplyTxs, Ledger.FinishBlock, Ledger.StoreBlock, StateRootAt, NoClash;
    var tip := Tip(db.rows.table);
    if tip.None? {
      return Err("chain not initialized");
    }
    if b.header.height <= tip.value {
      return Ok(false);
    }
    if b.header.height != tip.value + 1 {
      return Err("out of order");
    }
    if b.header.parentHash != TipHash(db.rows.table) {
      return Err("parent hash mismatch");
    }
    if b.header.hash != HeaderHash(env.crypto, b.header) {
      return Err("bad producer signature");
    }
    if !accepts(db.rows.table, b) {
      return Err("block not acceptable");
    }
    var fees :- ImportTxs(env, db, b.transactions, b.header.height);
    Chain.FinishBlock(env, db, b.header.height, b.header.parentHash, b.header.producer, fees);
    var root := db.RootAt(b.header.height);
    if root != b.header.stateRoot {
      return Err("state root mismatch");
    }
    Chain.StoreBlock(env, db, b);
    r := Ok(true);
  }

  /** Import behind one savepoint: a rejected block leaves nothing behind. */
  method ImportBlock(env: Env, db: Database, b: Block, accepts: (Rows, Block) -> bool) returns (r: Result<bool>)
    requires db.Valid()
    modifies db, db.rows, db.nodes
    ensures db.Valid() && db.Savepoints() == old(db.Savepoints())
    ensures r != Ok(true) ==> db.rows.table == old(db.rows.table) && db.nodes.table == old(db.nodes.table)
    ensures r == Ok(true) ==> ExecBlock(env, old(db.rows.table), b) == Ok(db.rows.table)
    ensures NoClash(db.hashing.sha, db.names) ==>
      (r == Ok(true) <==> Importable(env, db.hashing, old(db.rows.table), b, accepts))
  {
    hide db.Valid, ExecBlock, Importable, NoClash;
    PushThenPop(db.Savepoints(), db.rows.table, db.nodes.table, db.leaves);
    db.Begin();
    r := ImportInner(env, db, b, accepts);
    if r.Ok? {
      var stored := r.value;
      assert r == Ok(stored);
      db.Commit();
    } else {
      db.Abort();
    }
  }

  // ---- agreement ----

  /** From equal tables, whatever else the two nodes ever wrote and undid, the block
      the producer seals is one the importer takes, and both end in the same tables. */
  method ProduceThenImport(env: Env, producer: Database, importer: Database, seal: Sealer, batch: seq<Transaction>,
                           nowMs: nat, accepts: (Rows, Block) -> bool) returns (b: Result<Block>, taken: Result<bool>)
    requires producer.Valid() && importer.Valid() && producer.hashing == importer.hashing
    requires {producer, producer.rows, producer.nodes} !! {importer, importer.rows, importer.nodes}
    requires producer.rows.table == importer.rows.table
    modifies producer, producer.rows, producer.nodes, importer, importer.rows, importer.nodes
    ensures producer.Valid() && importer.Valid()
    ensures NoClash(producer.hashing.sha, producer.names) && NoClash(importer.hashing.sha, importer.names)
            && b.Ok? && accepts(old(importer.rows.table), b.value)
            ==> taken == Ok(true) && importer.rows.table == producer.rows.table
  {
    hide Database.Valid, NoClash, ApplyTxs, Ledger.FinishBlock, Ledger.StoreBlock, StateRootAt, Kept, TipHash;
    b := ProduceBlock(env, producer, seal, batch, nowMs);
    if b.Err? {
      return b, Err("no block");
    }
    taken := ImportBlock(env, importer, b.value, accepts);
  }
}
