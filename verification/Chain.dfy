/** Executing transactions and blocks in place (src/chain.rs, src/tokens.rs). */
module Chain {
  import opened Base
  import opened Types
  import opened Evidence
  import opened Tables
  import opened Ledger
  import opened MerkleState
  import opened Store
  import Fees
  import Host
  import NoteTree
  import Slashing
  import Staking

  /** A method's outcome against the outcome its specification prescribes. */
  ghost predicate Meets<T>(r: Result<T>, rows: Rows, spec: Result<Rows>) {
    r.Ok? == spec.Ok? && (r.Ok? ==> rows == spec.value)
  }

  method Credit(db: Database, a: Bytes, amount: nat)
    requires db.Valid()
    modifies db`leaves, db`names, db.rows`table, db.rows`frames, db.nodes`table, db.nodes`frames
    ensures db.Valid() && db.rows.table == Ledger.Credit(old(db.rows.table), a, amount)
  {
    hide db.Valid, SetAccount;
    var acct := GetAccount(db.rows.table, a);
    db.SetAccount(a, acct.(balance := acct.balance + amount));
  }

  // ---- tokens ----

  method ApplyCreate(env: Env, db: Database, sender: Bytes, nonce: nat, supply: nat, height: nat,
                     payload: Option<Payload>) returns (r: Result<()>)
    requires db.Valid()
    modifies db`leaves, db`names, db.rows`table, db.rows`frames, db.nodes`table, db.nodes`frames
    ensures db.Valid()
    ensures Meets(r, db.rows.table, Ledger.ApplyCreate(env, old(db.rows.table), sender, nonce, supply, height, payload))
  {
    hide db.Valid, CreditToken;
    if payload.None? {
      return Err("token transaction missing payload");
    }
    var p := payload.value;
    var symbol := env.normalizeSymbol(p.symbol);
    if symbol.None? {
      return Err("bad symbol");
    }
    if p.decimals > MAX_DECIMALS {
      return Err("decimals too large");
    }
    var id := env.tokenId(sender, nonce, symbol.value);
    if GetToken(db.rows.table, id).Some? {
      return Err("token already exists");
    }
    db.Write(TokenK(id), Some(TokenV(Token(id, symbol.value, env.trim(p.name), p.decimals, 0, sender,
                                           p.mintable, height, 0))));
    if supply > 0 {
      var _ :- db.CreditToken(id, sender, supply);
    }
    r := Ok(());
  }

  method ApplyMint(db: Database, sender: Bytes, to: Bytes, amount: nat, payload: Option<Payload>) returns (r: Result<()>)
    requires db.Valid()
    modifies db`leaves, db`names, db.rows`table, db.rows`frames, db.nodes`table, db.nodes`frames
    ensures db.Valid()
    ensures Meets(r, db.rows.table, Ledger.ApplyMint(old(db.rows.table), sender, to, amount, payload))
  {
    hide db.Valid, CreditToken;
    if payload.None? {
      return Err("token transaction missing payload");
    }
    var token := GetToken(db.rows.table, payload.value.token);
    if token.None? {
      return Err("unknown token");
    }
    var t := token.value;
    if t.creator != sender || !t.mintable {
      return Err("not allowed to mint this token");
    }
    r := db.CreditToken(t.id, to, amount);
  }

  /** Debit then credit, so the supply is unchanged overall. */
  method ApplyTokenTransfer(db: Database, sender: Bytes, to: Bytes, amount: nat, payload: Option<Payload>)
    returns (r: Result<()>)
    requires db.Valid()
    modifies db`leaves, db`names, db.rows`table, db.rows`frames, db.nodes`table, db.nodes`frames
    ensures db.Valid()
    ensures Meets(r, db.rows.table, Ledger.ApplyTokenTransfer(old(db.rows.table), sender, to, amount, payload))
  {
    hide db.Valid, CreditToken, DebitToken;
    if payload.None? {
      return Err("token transaction missing payload");
    }
    var token := GetToken(db.rows.table, payload.value.token);
    if token.None? {
      return Err("unknown token");
    }
    if sender == to {
      return Ok(());
    }
    var _ :- db.DebitToken(token.value.id, sender, amount);
    r := db.CreditToken(token.value.id, to, amount);
  }

  method ApplyBurn(db: Database, sender: Bytes, amount: nat, payload: Option<Payload>) returns (r: Result<()>)
    requires db.Valid()
    modifies db`leaves, db`names, db.rows`table, db.rows`frames, db.nodes`table, db.nodes`frames
    ensures db.Valid()
    ensures Meets(r, db.rows.table, Ledger.ApplyBurn(old(db.rows.table), sender, amount, payload))
  {
    hide db.Valid, DebitToken;
    if payload.None? {
      return Err("token transaction missing payload");
    }
    var token := GetToken(db.rows.table, payload.value.token);
    if token.None? {
      return Err("unknown token");
    }
    r := db.DebitToken(token.value.id, sender, amount);
  }

  // ---- contracts ----

  method ApplyDeploy(env: Env, db: Database, sender: Bytes, tx: Transaction, height: nat) returns (r: Result<()>)
    requires db.Valid()
    modifies db`leaves, db`names, db.rows`table, db.rows`frames, db.nodes`table, db.nodes`frames
    ensures db.Valid()
    ensures Meets(r, db.rows.table, Ledger.ApplyDeploy(env, old(db.rows.table), sender, tx, height))
  {
    hide db.Valid, Ledger.Credit;
    var code := env.decodeCode(tx.payload);
    if code.None? {
      return Err("code must be hex-encoded wasm");
    }
    var hash := env.codeHash(code.value);
    var a := env.contractAddress(sender, tx.nonce, hash);
    if GetContract(db.rows.table, a).Some? {
      return Err("contract already exists");
    }
    db.Write(CodeK(hash), Some(BytesV(code.value)));
    db.Write(ContractK(a), Some(ContractV(Contract(a, hash, |code.value|, sender, height, 0))));
    if tx.amount > 0 {
      Credit(db, a, tx.amount);
    }
    r := Ok(());
  }

  /** Move each collected transfer out of the contract account. */
  method PayTransfers(db: Database, contract: Bytes, transfers: seq<(Bytes, nat)>) returns (r: Result<()>)
    requires db.Valid()
    modifies db`leaves, db`names, db.rows`table, db.rows`frames, db.nodes`table, db.nodes`frames
    ensures db.Valid()
    ensures Meets(r, db.rows.table, CommitTransfers(old(db.rows.table), contract, transfers))
  {
    hide db.Valid, SetAccount, Ledger.Credit;
    ghost var start := db.rows.table;
    for i := 0 to |transfers|
      invariant db.Valid() && CommitTransfers(start, contract, transfers[..i]) == Ok(db.rows.table)
    {
      var (to, amount) := transfers[i];
      assert transfers[..i + 1][..i] == transfers[..i];
      var acct := GetAccount(db.rows.table, contract);
      if acct.balance < amount {
        FailedPrefix(start, contract, transfers, i + 1);
        return Err("contract overspent");
      }
      db.SetAccount(contract, acct.(balance := acct.balance - amount));
      Credit(db, to, amount);
    }
    assert transfers[..|transfers|] == transfers;
    r := Ok(());
  }

  lemma {:induction false} FailedPrefix(rows: Rows, contract: Bytes, transfers: seq<(Bytes, nat)>, n: nat)
    requires n <= |transfers| && CommitTransfers(rows, contract, transfers[..n]).Err?
    ensures CommitTransfers(rows, contract, transfers).Err?
  {
    hide SetAccount, Ledger.Credit;
    if n == |transfers| {
      assert transfers[..n] == transfers;
    } else {
      var last := |transfers| - 1;
      assert transfers[..last][..n] == transfers[..n];
      FailedPrefix(rows, contract, transfers[..last], n);
    }
  }

  method WriteStorage(db: Database, contract: Bytes, writes: seq<(Bytes, Option<Bytes>)>)
    requires db.Valid()
    modifies db`leaves, db`names, db.rows`table, db.rows`frames, db.nodes`table, db.nodes`frames
    ensures db.Valid() && db.rows.table == CommitWrites(old(db.rows.table), contract, writes)
  {
    hide db.Valid, SetStorage;
    ghost var start := db.rows.table;
    for i := 0 to |writes|
      invariant db.Valid() && db.rows.table == CommitWrites(start, contract, writes[..i])
    {
      assert writes[..i + 1][..i] == writes[..i];
      db.SetStorage(contract, writes[i].0, writes[i].1);
    }
    assert writes[..|writes|] == writes;
  }

  method ApplyCall(env: Env, db: Database, sender: Bytes, tx: Transaction, height: nat) returns (r: Result<()>)
    requires db.Valid()
    modifies db`leaves, db`names, db.rows`table, db.rows`frames, db.nodes`table, db.nodes`frames
    ensures db.Valid()
    ensures Meets(r, db.rows.table, Ledger.ApplyCall(env, old(db.rows.table), sender, tx, height))
  {
    hide db.Valid, SetAccount, Ledger.Credit, Execute, CommitWrites, CommitTransfers, CheckCall, FuelForFee;
    var c :- CheckCall(env, db.rows.table, tx.to);
    var code := GetBytes(db.rows.table, CodeK(c.codeHash));
    if code.None? {
      return Err("contract code missing");
    }
    var input := env.decodeArgs(tx.payload);
    if input.None? {
      return Err("args must be hex");
    }
    if tx.amount > 0 {
      Credit(db, tx.to, tx.amount);
    }
    var outcome := Execute(env, db.rows.table, tx.to, sender, code.value, input.value, tx.amount, height,
                           FuelForFee(tx.fee));
    db.Write(ReceiptK(env.txHash(tx)), Some(ReceiptV(Receipt(tx.to, sender, outcome.ok, height))));
    if !outcome.ok {
      if tx.amount > 0 {
        var acct := GetAccount(db.rows.table, tx.to);
        db.SetAccount(tx.to, acct.(balance := Minus(acct.balance, tx.amount)));
        Credit(db, sender, tx.amount);
      }
    } else {
      WriteStorage(db, tx.to, outcome.writes);
      var _ :- PayTransfers(db, tx.to, outcome.transfers);
    }
    db.Write(ContractK(c.address), Some(ContractV(c.(calls := c.calls + 1))));
    r := Ok(());
  }

  // ---- shielded pool ----

  method ApplySpend(env: Env, db: Database, tx: Transaction, d: ShieldedData, out: nat, height: nat) returns (r: Result<()>)
    requires db.Valid() && |d.nullifiers| == 2 && |d.commitments| == 2
    modifies db`leaves, db`names, db.rows`table, db.rows`frames, db.nodes`table, db.nodes`frames
    ensures db.Valid()
    ensures Meets(r, db.rows.table, Ledger.ApplySpend(env, old(db.rows.table), tx, d, out, height))
  {
    hide db.Valid, Ledger.Credit, SpendInputs, RootKnown, NameSet, LeafCount;
    if out > 0 {
      if !env.validAddress(tx.to) {
        return Err("unshield: invalid recipient address");
      }
      if PoolBalance(db.rows.table) < out {
        return Err("unshield: pool underflow");
      }
    }
    if !RootKnown(db.rows.table, d.anchor) {
      return Err("spend: anchor is not a sealed tree root");
    }
    if !env.proofDecodes(d.proof) {
      return Err("spend: bad proof encoding");
    }
    var key := env.devnetKey;
    var stored := GetBytes(db.rows.table, VerifyingKeyK);
    if stored.Some? {
      key := stored.value;
    } else {
      db.Write(VerifyingKeyK, Some(BytesV(key)));
    }
    if !env.keyDecodes(key) {
      return Err("stored verifying key is corrupt");
    }
    var inputs := SpendInputs(env, d, out);
    if inputs.None? {
      return Err("spend: bad field");
    }
    if !env.spendVerifies(key, d.proof, inputs.value) {
      return Err("spend: invalid proof");
    }
    var first := db.BurnNullifier(d.nullifiers[0], height);
    if !first {
      return Err("spend: nullifier already spent");
    }
    var second := db.BurnNullifier(d.nullifiers[1], height);
    if !second {
      return Err("spend: nullifier already spent");
    }
    db.AppendLeaf(d.commitments[0]);
    db.AppendLeaf(d.commitments[1]);
    if out > 0 {
      var bal := PoolBalance(db.rows.table);
      db.Write(PoolK, Some(AmountV(bal - out)));
      Credit(db, tx.to, out);
    }
    r := Ok(());
  }

  method ApplyShielded(env: Env, db: Database, tx: Transaction, height: nat) returns (r: Result<()>)
    requires db.Valid()
    modifies db`leaves, db`names, db.rows`table, db.rows`frames, db.nodes`table, db.nodes`frames
    ensures db.Valid()
    ensures Meets(r, db.rows.table, Ledger.ApplyShielded(env, old(db.rows.table), tx, height))
  {
    hide db.Valid, Ledger.ApplySpend, AppendLeaf;
    if height < env.shieldedActivation {
      return Err("shielded pool is not active at this height");
    }
    var _ :- CheckShape(env, tx);
    var d := tx.shielded.value;
    match tx.kind {
      case Shield =>
        var cm := env.frFromHex(d.commitments[0]);
        if cm.None? {
          return Err("shield: bad commitment field");
        }
        if cm.value == 0 {
          return Err("shield: zero commitment");
        }
        db.AppendLeaf(d.commitments[0]);
        var bal := PoolBalance(db.rows.table);
        if bal + tx.amount > U128_MAX {
          return Err("pool balance overflow");
        }
        db.Write(PoolK, Some(AmountV(bal + tx.amount)));
        r := Ok(());
      case PrivateTransfer =>
        r := ApplySpend(env, db, tx, d, 0, height);
      case Unshield =>
        var out := env.parseAmount(d.publicUnshield);
        if out.None? {
          return Err("bad public unshield amount");
        }
        r := ApplySpend(env, db, tx, d, out.value, height);
      case _ =>
        r := Err("not a shielded transaction");
    }
  }

  /** Decode the stored commitments and rebuild the note tree's root. */
  method CurrentRoot(env: Env, rows: Rows) returns (root: Bytes)
    ensures root == ShieldedRoot(env, rows)
  {
    var commitments := ShieldedLeaves(rows);
    var leaves: seq<NoteTree.Fr> := [];
    for i := 0 to |commitments|
      invariant leaves == FieldLeaves(env, commitments[..i])
    {
      assert commitments[..i + 1][..i] == commitments[..i];
      var f := env.frFromHex(commitments[i]);
      if f.Some? {
        leaves := leaves + [f.value];
      }
    }
    assert commitments[..|commitments|] == commitments;
    var r := NoteTree.RootFromLeaves(env.hash2, leaves);
    root := env.frToHex(r);
  }

  method SealShieldedRoot(env: Env, db: Database, height: nat)
    requires db.Valid()
    modifies db`leaves, db`names, db.rows`table, db.rows`frames, db.nodes`table, db.nodes`frames
    ensures db.Valid() && db.rows.table == Ledger.SealShieldedRoot(env, old(db.rows.table), height)
  {
    hide db.Valid, ShieldedRoot;
    if height < env.shieldedActivation {
      return;
    }
    var count := LeafCount(db.rows.table);
    if count == GetAmount(db.rows.table, SealedCountK) && count > 0 {
      return;
    }
    var root := CurrentRoot(env, db.rows.table);
    ghost var start := db.rows.table;
    db.Write(RootK(root), Some(AmountV(height)));
    db.Write(SealedCountK, Some(AmountV(count)));
    SealUnmoved(env, start, db.rows.table);
    db.Write(SealK, Some(SealV(root, PoolBalance(db.rows.table), env.nullsDigest(Nullifiers(db.rows.table)))));
  }

  lemma SealUnmoved(env: Env, rows: Rows, rows': Rows)
    requires exists root, height, count :: rows' == rows[RootK(root) := AmountV(height)][SealedCountK := AmountV(count)]
    ensures PoolBalance(rows') == PoolBalance(rows) && Nullifiers(rows') == Nullifiers(rows)
  {
  }

  /** The tables and tree after rebuilding: the shielded leaves are taken from the
      pool's tables at active heights and absent below. */
  function Rebuilt(env: Env, rows: Rows, height: nat): Rows {
    if height >= env.shieldedActivation then rows[SealK := CurrentSeal(env, rows)] else rows - {SealK}
  }

  ghost predicate SamePool(rows: Rows, rows': Rows) {
    && (forall k: Key :: k.LeafK? || k.NullifierK? ==> Same(rows, rows', k))
    && PoolBalance(rows) == PoolBalance(rows')
  }

  lemma SameLeaves(rows: Rows, rows': Rows)
    requires SamePool(rows, rows')
    ensures ShieldedLeaves(rows) == ShieldedLeaves(rows')
  {
    assert LeafKeys(rows) == LeafKeys(rows') by {
      assert forall k: Key :: k.LeafK? ==> Same(rows, rows', k);
    }
    forall i: nat
      ensures CommitmentAt(rows, i) == CommitmentAt(rows', i)
    {
      assert Same(rows, rows', LeafK(i));
    }
  }

  lemma SameNullifiers(rows: Rows, rows': Rows)
    requires SamePool(rows, rows')
    ensures Nullifiers(rows) == Nullifiers(rows')
  {
    assert forall k: Key :: k.NullifierK? ==> Same(rows, rows', k);
  }

  /** The seal is a function of the pool's own rows. */
  lemma PoolRowsDecideSeal(env: Env, rows: Rows, rows': Rows)
    requires SamePool(rows, rows')
    ensures CurrentSeal(env, rows) == CurrentSeal(env, rows')
  {
    hide ShieldedLeaves, Nullifiers;
    SameLeaves(rows, rows');
    SameNullifiers(rows, rows');
  }

  lemma SealNames(rows: Rows, seal: Value)
    ensures LiveNames(rows) + NameSet(SealK) == LiveNames(rows[SealK := seal])
  {
    var rows' := rows[SealK := seal];
    forall x
      ensures x in LiveNames(rows') <==> x in LiveNames(rows) || x in NameSet(SealK)
    {
      if x in LiveNames(rows) {
        var k :| k in rows && x in NamesOf(k);
        assert k in rows';
      }
      if x in NameSet(SealK) {
        assert SealK in rows';
      }
    }
  }

  /** Clear the tree and build it from the tables as they stand. */
  method BuildMerkleState(env: Env, db: Database, height: nat)
    requires db.Loading()
    modifies db`leaves, db`names, db.rows`table, db.rows`frames, db.nodes`table, db.nodes`frames
    ensures db.Valid() && db.Loading()
    ensures db.rows.table == Rebuilt(env, old(db.rows.table), height) && db.names == LiveNames(db.rows.table)
  {
    hide CurrentSeal, LiveNames, NameSet, ShieldedRoot, db.Valid, db.Loading;
    ghost var start := db.rows.table;
    db.Rebuild();
    PoolRowsDecideSeal(env, start, db.rows.table);
    if height >= env.shieldedActivation {
      var rows := db.rows.table;
      var root := CurrentRoot(env, rows);
      var seal := SealV(root, PoolBalance(rows), env.nullsDigest(Nullifiers(rows)));
      assert seal == CurrentSeal(env, rows) by { SealIs(env, rows); }
      SealNames(rows, seal);
      db.Write(SealK, Some(seal));
      db.Settled();
    }
  }

  lemma SealIs(env: Env, rows: Rows)
    ensures CurrentSeal(env, rows) == SealV(ShieldedRoot(env, rows), PoolBalance(rows), env.nullsDigest(Nullifiers(rows)))
  {
  }

  // ---- one transaction ----

  method ApplyTx(env: Env, db: Database, tx: Transaction, height: nat) returns (r: Result<nat>)
    requires db.Valid()
    modifies db`leaves, db`names, db.rows`table, db.rows`frames, db.nodes`table, db.nodes`frames
    ensures db.Valid()
    ensures var spec := Ledger.ApplyTx(env, old(db.rows.table), tx, height);
            r.Ok? == spec.Ok? && (r.Ok? ==> spec.value == (db.rows.table, r.value))
  {
    hide db.Valid, Effect, Debit, Precheck;
    var sender := env.crypto.addressOf(tx.fromPubkey);
    if sender.None? {
      return Err("bad sender");
    }
    var _ :- Precheck(env, db.rows.table, tx, sender.value);
    var from := GetAccount(db.rows.table, sender.value);
    if tx.nonce != from.nonce {
      return Err("stale nonce");
    }
    var debit := Debit(tx);
    if from.balance < debit {
      return Err("insufficient balance");
    }
    from := from.(balance := from.balance - debit, nonce := from.nonce + 1);
    var _ :- RunEffect(env, db, tx, height, sender.value, from);
    r := Ok(Collected(tx));
  }

  method RunEffect(env: Env, db: Database, tx: Transaction, height: nat, sender: Bytes, from: Account) returns (r: Result<()>)
    requires db.Valid()
    modifies db`leaves, db`names, db.rows`table, db.rows`frames, db.nodes`table, db.nodes`frames
    ensures db.Valid()
    ensures Meets(r, db.rows.table, Effect(env, old(db.rows.table), tx, height, sender, from))
  {
    hide db.Valid, SetAccount, Ledger.Credit, CheckReport, Ledger.ApplyReport, Ledger.ApplyUnjail, Ledger.ApplyCreate,
         Ledger.ApplyMint, Ledger.ApplyTokenTransfer, Ledger.ApplyBurn, Ledger.ApplyDeploy, Ledger.ApplyCall,
         Ledger.ApplyShielded;
    if tx.kind.Transfer? && tx.to == sender {
      db.SetAccount(sender, from.(balance := from.balance + tx.amount));
      return Ok(());
    }
    if tx.kind.Stake? {
      db.SetAccount(sender, from.(staked := from.staked + tx.amount));
      return Ok(());
    }
    if tx.kind.Unstake? {
      if from.staked < tx.amount {
        return Err("not enough staked");
      }
      db.SetAccount(sender, from.(staked := from.staked - tx.amount,
                                  unbonding := from.unbonding + [Unbond(tx.amount, height + UNBONDING_BLOCKS)]));
      return Ok(());
    }
    db.SetAccount(sender, from);
    if tx.kind.Transfer? {
      Credit(db, tx.to, tx.amount);
      r := Ok(());
    } else if tx.kind.ReportEquivocation? {
      var e :- CheckReport(env, db.rows.table, height, tx.payload);
      r := Slashing.ApplyReport(env, db, height, sender, e);
    } else if tx.kind.Unjail? {
      r := Slashing.ApplyUnjail(db, height, sender);
    } else if tx.kind.CreateToken? {
      r := ApplyCreate(env, db, sender, tx.nonce, tx.amount, height, tx.payload);
    } else if tx.kind.MintToken? {
      r := ApplyMint(db, sender, tx.to, tx.amount, tx.payload);
    } else if tx.kind.TokenTransfer? {
      r := ApplyTokenTransfer(db, sender, tx.to, tx.amount, tx.payload);
    } else if tx.kind.BurnToken? {
      r := ApplyBurn(db, sender, tx.amount, tx.payload);
    } else if tx.kind.DeployContract? {
      r := ApplyDeploy(env, db, sender, tx, height);
    } else if tx.kind.CallContract? {
      r := ApplyCall(env, db, sender, tx, height);
    } else {
      r := ApplyShielded(env, db, tx, height);
    }
  }

  // ---- one block ----

  method FinishBlock(env: Env, db: Database, height: nat, parentHash: Bytes, producer: Bytes, fees: nat)
    requires db.Valid()
    modifies db`leaves, db`names, db.rows`table, db.rows`frames, db.nodes`table, db.nodes`frames
    ensures db.Valid()
    ensures db.rows.table == Ledger.FinishBlock(env, old(db.rows.table), height, parentHash, producer, fees)
  {
    hide db.Valid, Ledger.ReleaseUnbonded, Ledger.RecordLiveness, Ledger.PayRewards, Ledger.SealShieldedRoot;
    Staking.ReleaseUnbonded(db, height);
    Slashing.RecordLiveness(env, db, height, parentHash, producer);
    Staking.PayRewards(db, producer, fees);
    SealShieldedRoot(env, db, height);
  }

  method StoreBlock(env: Env, db: Database, b: Block)
    requires db.Valid()
    modifies db`leaves, db`names, db.rows`table, db.rows`frames, db.nodes`table, db.nodes`frames
    ensures db.Valid() && db.rows.table == Ledger.StoreBlock(env, old(db.rows.table), b) && db.names == old(db.names)
  {
    hide db.Valid, PutBlock;
    ghost var start := db.rows.table;
    db.PutBlock(env.txHash, b);
    PutBlockKeepsBaseFee(start, env.txHash, b);
    db.Write(BaseFeeK, Some(AmountV(Fees.NextBaseFee(BaseFee(db.rows.table), |b.transactions|))));
  }

  lemma {:induction false} IndexKeepsBaseFee(rows: Rows, txHash: Transaction -> Bytes, txs: seq<Transaction>, height: nat)
    ensures BaseFee(IndexTxs(rows, txHash, txs, height)) == BaseFee(rows)
  {
    if txs != [] {
      IndexKeepsBaseFee(rows, txHash, txs[..|txs| - 1], height);
    }
  }

  lemma PutBlockKeepsBaseFee(rows: Rows, txHash: Transaction -> Bytes, b: Block)
    ensures BaseFee(PutBlock(rows, txHash, b)) == BaseFee(rows)
  {
    hide IndexTxs;
    IndexKeepsBaseFee(rows[BlockK(b.header.height) := BlockV(b)], txHash, b.transactions, b.header.height);
  }
}
