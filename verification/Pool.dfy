/** The shielded pool over whole chains (src/chain.rs, src/state.rs): the tables
    are exactly what the included shielded transactions say they should be. */
module Pool {
  import opened Base
  import opened Types
  import opened Tables
  import opened Ledger
  import opened Frames
  import opened Books
  import NoteTree

  // ---- what a list of included transactions says ----

  predicate IsSpend(tx: Transaction) {
    tx.kind.PrivateTransfer? || tx.kind.Unshield?
  }

  function CommitmentsOf(tx: Transaction): seq<Bytes> {
    if (tx.kind.Shield? || IsSpend(tx)) && tx.shielded.Some? then tx.shielded.value.commitments else []
  }

  function NullifiersOf(tx: Transaction): seq<Bytes> {
    if IsSpend(tx) && tx.shielded.Some? then tx.shielded.value.nullifiers else []
  }

  function ShieldedIn(tx: Transaction): nat {
    if tx.kind.Shield? then tx.amount else 0
  }

  function ShieldedOut(env: Env, tx: Transaction): nat {
    if tx.kind.Unshield? && tx.shielded.Some? then
      match env.parseAmount(tx.shielded.value.publicUnshield)
      case None => 0
      case Some(out) => out
    else 0
  }

  function AllCommitments(txs: seq<Transaction>): seq<Bytes> {
    if txs == [] then [] else AllCommitments(txs[..|txs| - 1]) + CommitmentsOf(txs[|txs| - 1])
  }

  function AllNullifiers(txs: seq<Transaction>): seq<Bytes> {
    if txs == [] then [] else AllNullifiers(txs[..|txs| - 1]) + NullifiersOf(txs[|txs| - 1])
  }

  function TotalIn(txs: seq<Transaction>): nat {
    if txs == [] then 0 else TotalIn(txs[..|txs| - 1]) + ShieldedIn(txs[|txs| - 1])
  }

  function TotalOut(env: Env, txs: seq<Transaction>): nat {
    if txs == [] then 0 else TotalOut(env, txs[..|txs| - 1]) + ShieldedOut(env, txs[|txs| - 1])
  }

  // ---- the tables agree with it ----

  /** Leaf keys are contiguous from zero and hold exactly the commitments, in order. */
  ghost predicate LeavesAre(rows: Rows, cs: seq<Bytes>) {
    && (forall i: nat :: LeafK(i) in rows <==> i < |cs|)
    && (forall i: nat :: i < |cs| ==> rows[LeafK(i)] == BytesV(cs[i]))
  }

  ghost predicate NullifiersAre(rows: Rows, ns: seq<Bytes>) {
    && (forall nf :: NullifierSeen(rows, nf) <==> nf in ns)
    && (forall i, j :: 0 <= i < j < |ns| ==> ns[i] != ns[j])
  }

  ghost predicate AllFields(env: Env, cs: seq<Bytes>) {
    forall i :: 0 <= i < |cs| ==> env.frFromHex(cs[i]).Some?
  }

  ghost predicate PoolAgrees(env: Env, rows: Rows, txs: seq<Transaction>) {
    && LeavesAre(rows, AllCommitments(txs))
    && AllFields(env, AllCommitments(txs))
    && NullifiersAre(rows, AllNullifiers(txs))
    && PoolBalance(rows) + TotalOut(env, txs) == TotalIn(txs)
  }

  ghost function Positions(n: nat): set<Key> {
    set i: nat | i < n :: LeafK(i)
  }

  lemma {:induction false} PositionsCount(n: nat)
    ensures |Positions(n)| == n
  {
    if n > 0 {
      PositionsCount(n - 1);
      assert Positions(n) == Positions(n - 1) + {LeafK(n - 1)};
    } else {
      assert Positions(0) == {};
    }
  }

  lemma LeafCountIs(rows: Rows, cs: seq<Bytes>)
    requires LeavesAre(rows, cs)
    ensures LeafCount(rows) == |cs| && ShieldedLeaves(rows) == cs
  {
    assert LeafKeys(rows) == Positions(|cs|);
    PositionsCount(|cs|);
  }

  lemma AppendExtends(rows: Rows, cs: seq<Bytes>, c: Bytes)
    requires LeavesAre(rows, cs)
    ensures AppendLeaf(rows, c) == rows[LeafK(|cs|) := BytesV(c)]
    ensures LeavesAre(AppendLeaf(rows, c), cs + [c])
  {
    LeafCountIs(rows, cs);
  }

  lemma LeavesFrame(rows: Rows, rows': Rows, cs: seq<Bytes>)
    requires LeavesAre(rows, cs) && forall i: nat :: Same(rows, rows', LeafK(i))
    ensures LeavesAre(rows', cs)
  {
    forall i: nat
      ensures LeafK(i) in rows' <==> i < |cs|
      ensures i < |cs| ==> rows'[LeafK(i)] == BytesV(cs[i])
    {
      assert Same(rows, rows', LeafK(i));
    }
  }

  lemma PoolFrame(env: Env, rows: Rows, rows': Rows, touched: set<Table>, txs: seq<Transaction>)
    requires PoolAgrees(env, rows, txs) && Frame(rows, rows', touched)
    requires Leaves !in touched && Frames.Nullifiers !in touched && Frames.Pool !in touched
    ensures PoolAgrees(env, rows', txs)
  {
    forall i: nat
      ensures Same(rows, rows', LeafK(i)) {}
    LeavesFrame(rows, rows', AllCommitments(txs));
    forall nf
      ensures NullifierSeen(rows', nf) <==> NullifierSeen(rows, nf)
    {
      assert Same(rows, rows', NullifierK(nf));
    }
    assert Same(rows, rows', PoolK);
  }

  // ---- one shielded transaction ----

  /** What a successful shield writes. */
  lemma ShieldShape(env: Env, rows: Rows, tx: Transaction, height: nat)
    requires tx.kind.Shield? && ApplyShielded(env, rows, tx, height).Ok?
    ensures tx.shielded.Some? && |tx.shielded.value.commitments| == 1 && tx.shielded.value.nullifiers == []
    ensures var c := tx.shielded.value.commitments[0]; var rows1 := AppendLeaf(rows, c);
      && env.frFromHex(c).Some?
      && ApplyShielded(env, rows, tx, height).value == rows1[PoolK := AmountV(PoolBalance(rows1) + tx.amount)]
  {
    hide AppendLeaf;
  }

  lemma ShieldAgrees(env: Env, rows: Rows, txs: seq<Transaction>, tx: Transaction, height: nat)
    requires PoolAgrees(env, rows, txs) && tx.kind.Shield? && ApplyShielded(env, rows, tx, height).Ok?
    ensures PoolAgrees(env, ApplyShielded(env, rows, tx, height).value, txs + [tx])
  {
    hide LeafCount, LeavesAre, NullifiersAre, ApplyShielded;
    ShieldShape(env, rows, tx, height);
    var d, cs := tx.shielded.value, AllCommitments(txs);
    Snoc(env, txs, tx);
    AppendExtends(rows, cs, d.commitments[0]);
    var rows1 := AppendLeaf(rows, d.commitments[0]);
    var rows2 := rows1[PoolK := AmountV(PoolBalance(rows1) + tx.amount)];
    assert d.commitments == [d.commitments[0]];
    LeavesFrame(rows1, rows2, cs + d.commitments);
    NullifiersFrame(rows, rows2, AllNullifiers(txs));
    assert AllNullifiers(txs) + [] == AllNullifiers(txs);
    FieldsSnoc(env, cs, d.commitments);
  }

  lemma NullifiersFrame(rows: Rows, rows': Rows, ns: seq<Bytes>)
    requires NullifiersAre(rows, ns) && forall nf :: NullifierSeen(rows, nf) == NullifierSeen(rows', nf)
    ensures NullifiersAre(rows', ns)
  {
  }

  lemma FieldsSnoc(env: Env, cs: seq<Bytes>, more: seq<Bytes>)
    requires AllFields(env, cs) && AllFields(env, more)
    ensures AllFields(env, cs + more)
  {
  }

  lemma Snoc(env: Env, txs: seq<Transaction>, tx: Transaction)
    ensures AllCommitments(txs + [tx]) == AllCommitments(txs) + CommitmentsOf(tx)
    ensures AllNullifiers(txs + [tx]) == AllNullifiers(txs) + NullifiersOf(tx)
    ensures TotalIn(txs + [tx]) == TotalIn(txs) + ShieldedIn(tx)
    ensures TotalOut(env, txs + [tx]) == TotalOut(env, txs) + ShieldedOut(env, tx)
  {
    var all := txs + [tx];
    assert all[..|all| - 1] == txs;
  }

  lemma BurnExtends(rows: Rows, ns: seq<Bytes>, nf: Bytes, height: nat)
    requires NullifiersAre(rows, ns) && !NullifierSeen(rows, nf)
    ensures NullifiersAre(BurnNullifier(rows, nf, height), ns + [nf])
  {
  }

  /** What a successful spend writes to the pool's own tables. */
  lemma SpendAgrees(env: Env, rows: Rows, cs: seq<Bytes>, ns: seq<Bytes>, tx: Transaction, d: ShieldedData, out: nat, height: nat)
    requires |d.nullifiers| == 2 && |d.commitments| == 2
    requires LeavesAre(rows, cs) && AllFields(env, cs) && NullifiersAre(rows, ns)
    requires ApplySpend(env, rows, tx, d, out, height).Ok?
    ensures var rows' := ApplySpend(env, rows, tx, d, out, height).value;
            && LeavesAre(rows', cs + d.commitments) && AllFields(env, cs + d.commitments)
            && NullifiersAre(rows', ns + d.nullifiers)
            && PoolBalance(rows') + out == PoolBalance(rows)
  {
    hide LeavesAre, NullifiersAre, LeafCount, SetAccount;
    var rows1 := InstallKey(env, rows);
    LeavesFrame(rows, rows1, cs);
    NullifiersFrame(rows, rows1, ns);
    var n0, n1 := d.nullifiers[0], d.nullifiers[1];
    BurnExtends(rows1, ns, n0, height);
    var rows2 := BurnNullifier(rows1, n0, height);
    BurnExtends(rows2, ns + [n0], n1, height);
    var rows3 := BurnNullifier(rows2, n1, height);
    assert ns + [n0] + [n1] == ns + d.nullifiers;
    LeavesFrame(rows1, rows3, cs);
    AppendExtends(rows3, cs, d.commitments[0]);
    var rows4 := AppendLeaf(rows3, d.commitments[0]);
    AppendExtends(rows4, cs + [d.commitments[0]], d.commitments[1]);
    var rows5 := AppendLeaf(rows4, d.commitments[1]);
    assert cs + [d.commitments[0]] + [d.commitments[1]] == cs + d.commitments;
    NullifiersFrame(rows3, rows5, ns + d.nullifiers);
    assert PoolBalance(rows5) == PoolBalance(rows);
    FieldsSnoc(env, cs, d.commitments);
    if out > 0 {
      var rows6 := rows5[PoolK := AmountV(PoolBalance(rows5) - out)];
      LeavesFrame(rows5, rows6, cs + d.commitments);
      NullifiersFrame(rows5, rows6, ns + d.nullifiers);
      PayoutKeepsPool(rows6, tx.to, out, cs + d.commitments, ns + d.nullifiers);
    }
  }

  lemma PayoutKeepsPool(rows: Rows, to: Bytes, out: nat, cs: seq<Bytes>, ns: seq<Bytes>)
    requires LeavesAre(rows, cs) && NullifiersAre(rows, ns)
    ensures LeavesAre(Credit(rows, to, out), cs) && NullifiersAre(Credit(rows, to, out), ns)
    ensures PoolBalance(Credit(rows, to, out)) == PoolBalance(rows)
  {
    hide LeavesAre, NullifiersAre;
    var rows' := Credit(rows, to, out);
    forall i: nat
      ensures Same(rows, rows', LeafK(i)) {}
    LeavesFrame(rows, rows', cs);
    NullifiersFrame(rows, rows', ns);
  }

  lemma ShieldedTxAgrees(env: Env, rows: Rows, txs: seq<Transaction>, tx: Transaction, height: nat)
    requires PoolAgrees(env, rows, txs) && ApplyShielded(env, rows, tx, height).Ok?
    ensures PoolAgrees(env, ApplyShielded(env, rows, tx, height).value, txs + [tx])
  {
    hide LeavesAre, NullifiersAre, ApplySpend, ApplyShield, AllFields;
    if tx.kind.Shield? {
      ShieldAgrees(env, rows, txs, tx, height);
    } else {
      var d := tx.shielded.value;
      var out := if tx.kind.Unshield? then env.parseAmount(d.publicUnshield).value else 0;
      Snoc(env, txs, tx);
      SpendAgrees(env, rows, AllCommitments(txs), AllNullifiers(txs), tx, d, out, height);
    }
  }

  lemma TxAgrees(env: Env, rows: Rows, txs: seq<Transaction>, tx: Transaction, height: nat)
    requires PoolAgrees(env, rows, txs) && ApplyTx(env, rows, tx, height).Ok?
    ensures PoolAgrees(env, ApplyTx(env, rows, tx, height).value.0, txs + [tx])
  {
    hide PoolAgrees, Frame, SetAccount, GetAccount, Debit, Collected, Precheck, Credit, ApplyReport, ApplyUnjail,
         ApplyCreate, ApplyMint, ApplyTokenTransfer, ApplyBurn, ApplyDeploy, ApplyCall, ApplyShielded, CheckReport;
    var rows' := ApplyTx(env, rows, tx, height).value.0;
    if tx.kind.Shield? || IsSpend(tx) {
      var sender := env.crypto.addressOf(tx.fromPubkey).value;
      var charged := Charged(GetAccount(rows, sender), Debit(tx));
      FrameSetAccount(rows, sender, charged, {Accounts});
      PoolFrame(env, rows, SetAccount(rows, sender, charged), {Accounts}, txs);
      ShieldedTxAgrees(env, SetAccount(rows, sender, charged), txs, tx, height);
    } else {
      FrameApplyTx(env, rows, tx, height);
      PoolFrame(env, rows, rows', TouchedBy(tx.kind), txs);
      PublicTxAgrees(env, rows', txs, tx);
    }
  }

  lemma PublicTxAgrees(env: Env, rows: Rows, txs: seq<Transaction>, tx: Transaction)
    requires PoolAgrees(env, rows, txs) && !tx.kind.Shield? && !IsSpend(tx)
    ensures PoolAgrees(env, rows, txs + [tx])
  {
    Snoc(env, txs, tx);
    assert AllCommitments(txs) + [] == AllCommitments(txs) && AllNullifiers(txs) + [] == AllNullifiers(txs);
  }

  lemma {:induction false} TxsAgree(env: Env, rows: Rows, past: seq<Transaction>, txs: seq<Transaction>, height: nat)
    requires PoolAgrees(env, rows, past) && ApplyTxs(env, rows, txs, height).Ok?
    ensures PoolAgrees(env, ApplyTxs(env, rows, txs, height).value.0, past + txs)
  {
    hide PoolAgrees, ApplyTx;
    if txs == [] {
      assert past + txs == past;
    } else {
      var last := |txs| - 1;
      TxsAgree(env, rows, past, txs[..last], height);
      TxAgrees(env, ApplyTxs(env, rows, txs[..last], height).value.0, past + txs[..last], txs[last], height);
      assert past + txs[..last] + [txs[last]] == past + txs;
    }
  }

  // ---- sealed roots ----

  function RootHex(env: Env, cs: seq<Bytes>): Bytes {
    env.frToHex(NoteTree.Root(env.hash2, FieldLeaves(env, cs)))
  }

  /** Every anchor a spend may use is the root of some prefix of the leaf list. */
  ghost predicate AnchorsArePrefixes(env: Env, rows: Rows, cs: seq<Bytes>) {
    forall root :: RootKnown(rows, root) ==> exists n: nat :: n <= |cs| && root == RootHex(env, cs[..n])
  }

  /** The pool's Merkle leaves and the anchor table cover the current tree. */
  ghost predicate Sealed(env: Env, rows: Rows) {
    && SealK in rows && rows[SealK] == CurrentSeal(env, rows)
    && RootKnown(rows, ShieldedRoot(env, rows))
  }

  /** A seal is skipped only while the sealed tree is still the current one. */
  ghost predicate SealTracks(env: Env, rows: Rows, cs: seq<Bytes>) {
    var sealed := GetAmount(rows, SealedCountK);
    sealed <= |cs| && (sealed == |cs| > 0 ==> Sealed(env, rows))
  }

  lemma AnchorsGrow(env: Env, rows: Rows, rows': Rows, touched: set<Table>, cs: seq<Bytes>, more: seq<Bytes>)
    requires AnchorsArePrefixes(env, rows, cs) && Frame(rows, rows', touched) && Roots !in touched
    ensures AnchorsArePrefixes(env, rows', cs + more)
  {
    hide RootHex, Frame;
    forall root | RootKnown(rows', root)
      ensures exists n: nat :: n <= |cs + more| && root == RootHex(env, (cs + more)[..n])
    {
      FrameSame(rows, rows', touched, RootK(root));
      assert RootKnown(rows, root);
      var n: nat :| n <= |cs| && root == RootHex(env, cs[..n]);
      assert (cs + more)[..n] == cs[..n];
    }
  }

  lemma SealSame(env: Env, rows: Rows, rows': Rows, touched: set<Table>, cs: seq<Bytes>)
    requires LeavesAre(rows, cs) && Frame(rows, rows', touched)
    requires Leaves !in touched && Frames.Nullifiers !in touched && Frames.Pool !in touched
    ensures LeavesAre(rows', cs) && CurrentSeal(env, rows') == CurrentSeal(env, rows)
    ensures ShieldedRoot(env, rows') == ShieldedRoot(env, rows) == RootHex(env, cs)
  {
    hide LeafCount;
    forall i: nat
      ensures Same(rows, rows', LeafK(i)) {}
    LeavesFrame(rows, rows', cs);
    LeafCountIs(rows, cs);
    LeafCountIs(rows', cs);
    assert Same(rows, rows', PoolK);
    assert Tables.Nullifiers(rows') == Tables.Nullifiers(rows) by {
      forall nf
        ensures NullifierK(nf) in rows <==> NullifierK(nf) in rows'
        ensures NullifierK(nf) in rows ==> rows[NullifierK(nf)] == rows'[NullifierK(nf)]
      {
        assert Same(rows, rows', NullifierK(nf));
      }
    }
  }

  lemma SealTracksFrame(env: Env, rows: Rows, rows': Rows, touched: set<Table>, cs: seq<Bytes>)
    requires SealTracks(env, rows, cs) && LeavesAre(rows, cs) && Frame(rows, rows', touched)
    requires Leaves !in touched && Frames.Nullifiers !in touched && Frames.Pool !in touched
    requires Seals !in touched && Roots !in touched
    ensures SealTracks(env, rows', cs) && (Sealed(env, rows) ==> Sealed(env, rows'))
  {
    hide CurrentSeal, ShieldedRoot, LeavesAre, Frame, RootHex;
    SealSame(env, rows, rows', touched, cs);
    FrameSame(rows, rows', touched, SealedCountK);
    FrameSame(rows, rows', touched, SealK);
    FrameSame(rows, rows', touched, RootK(ShieldedRoot(env, rows)));
  }

  /** After a shielded transaction the tree has outgrown every earlier seal. */
  lemma SealOutgrown(env: Env, rows: Rows, rows': Rows, touched: set<Table>, cs: seq<Bytes>, more: seq<Bytes>)
    requires SealTracks(env, rows, cs) && Frame(rows, rows', touched) && Seals !in touched && more != []
    ensures SealTracks(env, rows', cs + more)
  {
    assert Same(rows, rows', SealedCountK);
  }

  lemma ShieldedMakesLeaves(env: Env, rows: Rows, tx: Transaction, height: nat)
    requires ApplyShielded(env, rows, tx, height).Ok?
    ensures CommitmentsOf(tx) != []
  {
  }

  lemma EffectMakesLeaves(env: Env, rows: Rows, tx: Transaction, height: nat)
    requires ApplyTx(env, rows, tx, height).Ok? && (tx.kind.Shield? || IsSpend(tx))
    ensures CommitmentsOf(tx) != []
  {
    hide ApplyShielded, SetAccount, GetAccount, Debit, Precheck, CommitmentsOf;
    var sender := env.crypto.addressOf(tx.fromPubkey).value;
    ShieldedMakesLeaves(env, SetAccount(rows, sender, Charged(GetAccount(rows, sender), Debit(tx))), tx, height);
  }

  ghost predicate PoolInv(env: Env, rows: Rows, txs: seq<Transaction>) {
    && PoolAgrees(env, rows, txs)
    && AnchorsArePrefixes(env, rows, AllCommitments(txs))
    && SealTracks(env, rows, AllCommitments(txs))
  }

  lemma TxKeepsPool(env: Env, rows: Rows, txs: seq<Transaction>, tx: Transaction, height: nat)
    requires PoolInv(env, rows, txs) && ApplyTx(env, rows, tx, height).Ok?
    ensures PoolInv(env, ApplyTx(env, rows, tx, height).value.0, txs + [tx])
  {
    hide ApplyTx, Frame, AnchorsArePrefixes, SealTracks, Sealed, LeavesAre, NullifiersAre;
    var rows', cs := ApplyTx(env, rows, tx, height).value.0, AllCommitments(txs);
    TxAgrees(env, rows, txs, tx, height);
    FrameApplyTx(env, rows, tx, height);
    Snoc(env, txs, tx);
    AnchorsGrow(env, rows, rows', TouchedBy(tx.kind), cs, CommitmentsOf(tx));
    if tx.kind.Shield? || IsSpend(tx) {
      EffectMakesLeaves(env, rows, tx, height);
      SealOutgrown(env, rows, rows', TouchedBy(tx.kind), cs, CommitmentsOf(tx));
    } else {
      assert cs + [] == cs;
      SealTracksFrame(env, rows, rows', TouchedBy(tx.kind), cs);
    }
  }

  lemma {:induction false} TxsKeepPool(env: Env, rows: Rows, past: seq<Transaction>, txs: seq<Transaction>, height: nat)
    requires PoolInv(env, rows, past) && ApplyTxs(env, rows, txs, height).Ok?
    ensures PoolInv(env, ApplyTxs(env, rows, txs, height).value.0, past + txs)
  {
    hide PoolInv, ApplyTx;
    if txs == [] {
      assert past + txs == past;
    } else {
      var last := |txs| - 1;
      TxsKeepPool(env, rows, past, txs[..last], height);
      TxKeepsPool(env, ApplyTxs(env, rows, txs[..last], height).value.0, past + txs[..last], txs[last], height);
      assert past + txs[..last] + [txs[last]] == past + txs;
    }
  }

  lemma FrameKeepsPool(env: Env, rows: Rows, rows': Rows, touched: set<Table>, txs: seq<Transaction>)
    requires PoolInv(env, rows, txs) && Frame(rows, rows', touched)
    requires Leaves !in touched && Frames.Nullifiers !in touched && Frames.Pool !in touched
    requires Seals !in touched && Roots !in touched
    ensures PoolInv(env, rows', txs) && (Sealed(env, rows) ==> Sealed(env, rows'))
  {
    hide Frame, AnchorsArePrefixes, SealTracks, Sealed, LeavesAre, NullifiersAre;
    var cs := AllCommitments(txs);
    PoolFrame(env, rows, rows', touched, txs);
    AnchorsGrow(env, rows, rows', touched, cs, []);
    assert cs + [] == cs;
    SealTracksFrame(env, rows, rows', touched, cs);
  }

  /** Sealing at an active height leaves the current root known and the Merkle leaves current. */
  lemma SealKeepsPool(env: Env, rows: Rows, txs: seq<Transaction>, height: nat)
    requires PoolInv(env, rows, txs)
    ensures PoolInv(env, SealShieldedRoot(env, rows, height), txs)
    ensures height >= env.shieldedActivation ==> Sealed(env, SealShieldedRoot(env, rows, height))
  {
    hide CurrentSeal, LeavesAre, NullifiersAre, PoolAgrees, AnchorsArePrefixes, RootHex, ShieldedRoot, LeafCount, Frame;
    var rows', cs := SealShieldedRoot(env, rows, height), AllCommitments(txs);
    assert LeavesAre(rows, cs) by {
      PoolLeaves(env, rows, txs);
    }
    LeafCountIs(rows, cs);
    FrameSeal(env, rows, height);
    PoolFrame(env, rows, rows', {Roots, Seals}, txs);
    SealSame(env, rows, rows', {Roots, Seals}, cs);
    SealKeepsAnchors(env, rows, cs, height);
  }

  lemma PoolLeaves(env: Env, rows: Rows, txs: seq<Transaction>)
    requires PoolAgrees(env, rows, txs)
    ensures LeavesAre(rows, AllCommitments(txs))
  {
  }

  lemma SealKeepsAnchors(env: Env, rows: Rows, cs: seq<Bytes>, height: nat)
    requires AnchorsArePrefixes(env, rows, cs) && ShieldedRoot(env, rows) == RootHex(env, cs)
    ensures AnchorsArePrefixes(env, SealShieldedRoot(env, rows, height), cs)
  {
    hide CurrentSeal, RootHex, ShieldedRoot, LeafCount;
    forall root | RootKnown(SealShieldedRoot(env, rows, height), root)
      ensures exists n: nat :: n <= |cs| && root == RootHex(env, cs[..n])
    {
      if !RootKnown(rows, root) {
        assert cs[..|cs|] == cs && root == RootHex(env, cs[..|cs|]);
      }
    }
  }

  lemma FinishKeepsPool(env: Env, rows: Rows, txs: seq<Transaction>, height: nat, parentHash: Bytes, producer: Bytes, fees: nat)
    requires PoolInv(env, rows, txs)
    ensures var rows' := FinishBlock(env, rows, height, parentHash, producer, fees);
            PoolInv(env, rows', txs) && (height >= env.shieldedActivation ==> Sealed(env, rows'))
  {
    hide PoolInv, Sealed, Frame, ReleaseAll, RecordLiveness, PayRewards, SealShieldedRoot, StakerList;
    FrameReleaseAll(rows, StakerList(rows), height);
    var rows1 := ReleaseUnbonded(rows, height);
    FrameKeepsPool(env, rows, rows1, {Accounts}, txs);
    FrameRecordLiveness(env, rows1, height, parentHash, producer);
    var rows2 := RecordLiveness(env, rows1, height, parentHash, producer);
    FrameKeepsPool(env, rows1, rows2, {Accounts, Slashes}, txs);
    FramePayRewards(rows2, producer, fees);
    var rows3 := PayRewards(rows2, producer, fees);
    FrameKeepsPool(env, rows2, rows3, {Accounts}, txs);
    SealKeepsPool(env, rows3, txs, height);
  }

  lemma ExecKeepsPool(env: Env, rows: Rows, past: seq<Transaction>, b: Block)
    requires PoolInv(env, rows, past) && ExecBlock(env, rows, b).Ok?
    ensures PoolInv(env, ExecBlock(env, rows, b).value, past + b.transactions)
    ensures b.header.height >= env.shieldedActivation ==> Sealed(env, ExecBlock(env, rows, b).value)
  {
    hide PoolInv, Sealed, Frame, ApplyTxs, FinishBlock, StoreBlock;
    var h, txs := b.header, past + b.transactions;
    TxsKeepPool(env, rows, past, b.transactions, h.height);
    var (rows1, fees) := ApplyTxs(env, rows, b.transactions, h.height).value;
    FinishKeepsPool(env, rows1, txs, h.height, h.parentHash, h.producer, fees);
    var rows2 := FinishBlock(env, rows1, h.height, h.parentHash, h.producer, fees);
    FrameStoreBlock(env, rows2, b);
    FrameKeepsPool(env, rows2, StoreBlock(env, rows2, b), {Blocks, Frames.Tip, BaseFees}, txs);
  }

  lemma PoolAtGenesis(env: Env, alloc: seq<Alloc>, genesis: Block)
    ensures PoolInv(env, Genesis(env, alloc, genesis), [])
  {
    hide Frame, PutBlock, GenesisAccounts, PoolInv;
    assert PoolInv(env, map[], []) by {
      EmptyPool(env);
    }
    FrameGenesisAccounts(alloc);
    FrameKeepsPool(env, map[], GenesisAccounts(alloc), {Accounts}, []);
    FramePutBlock(GenesisAccounts(alloc), env.txHash, genesis);
    FrameKeepsPool(env, GenesisAccounts(alloc), Genesis(env, alloc, genesis), {Blocks, Frames.Tip}, []);
  }

  lemma EmptyPool(env: Env)
    ensures PoolInv(env, map[], [])
  {
  }

  /** On every chain, at every height: leaves are the included commitments in order,
      nullifier strings are the included ones and no string repeats, the pool holds what
      went in minus what came out, every anchor is the root of a prefix of the leaves,
      and at an active height the current root is one of them. */
  lemma {:induction false} PoolOnEveryRun(env: Env, alloc: seq<Alloc>, genesis: Block, blocks: seq<Block>)
    requires RunBlocks(env, Genesis(env, alloc, genesis), blocks).Ok?
    ensures var rows := RunBlocks(env, Genesis(env, alloc, genesis), blocks).value;
            && PoolAgrees(env, rows, AllTxs(blocks))
            && AnchorsArePrefixes(env, rows, AllCommitments(AllTxs(blocks)))
            && SealTracks(env, rows, AllCommitments(AllTxs(blocks)))
            && (blocks != [] && blocks[|blocks| - 1].header.height >= env.shieldedActivation ==> Sealed(env, rows))
  {
    hide ExecBlock, Genesis, Sealed, PoolAgrees, AnchorsArePrefixes, SealTracks;
    if blocks == [] {
      PoolAtGenesis(env, alloc, genesis);
    } else {
      var last := |blocks| - 1;
      PoolOnEveryRun(env, alloc, genesis, blocks[..last]);
      var rows := RunBlocks(env, Genesis(env, alloc, genesis), blocks[..last]).value;
      ExecKeepsPool(env, rows, AllTxs(blocks[..last]), blocks[last]);
    }
  }

  lemma LeavesOfRun(env: Env, alloc: seq<Alloc>, genesis: Block, blocks: seq<Block>)
    requires RunBlocks(env, Genesis(env, alloc, genesis), blocks).Ok?
    ensures ShieldedLeaves(RunBlocks(env, Genesis(env, alloc, genesis), blocks).value) == AllCommitments(AllTxs(blocks))
  {
    hide RunBlocks, Genesis, LeavesAre, PoolAgrees, AnchorsArePrefixes, SealTracks, Sealed;
    PoolOnEveryRun(env, alloc, genesis, blocks);
    var rows := RunBlocks(env, Genesis(env, alloc, genesis), blocks).value;
    PoolLeaves(env, rows, AllTxs(blocks));
    LeafCountIs(rows, AllCommitments(AllTxs(blocks)));
  }

  /** Leaves are append-only: a longer chain's list extends a shorter one's. */
  lemma LeavesAppendOnly(env: Env, alloc: seq<Alloc>, genesis: Block, blocks: seq<Block>, n: nat)
    requires n <= |blocks| && RunBlocks(env, Genesis(env, alloc, genesis), blocks).Ok?
    ensures RunBlocks(env, Genesis(env, alloc, genesis), blocks[..n]).Ok?
    ensures ShieldedLeaves(RunBlocks(env, Genesis(env, alloc, genesis), blocks[..n]).value)
         <= ShieldedLeaves(RunBlocks(env, Genesis(env, alloc, genesis), blocks).value)
  {
    hide RunBlocks, Genesis, ShieldedLeaves, AllTxs, AllCommitments;
    PrefixRuns(env, Genesis(env, alloc, genesis), blocks, n);
    LeavesOfRun(env, alloc, genesis, blocks[..n]);
    LeavesOfRun(env, alloc, genesis, blocks);
    TxsGrow(blocks, n);
    var k := |AllTxs(blocks[..n])|;
    assert AllTxs(blocks)[..k] == AllTxs(blocks[..n]);
    CommitmentsGrow(AllTxs(blocks), k);
  }

  lemma {:induction false} PrefixRuns(env: Env, rows: Rows, blocks: seq<Block>, n: nat)
    requires n <= |blocks| && RunBlocks(env, rows, blocks).Ok?
    ensures RunBlocks(env, rows, blocks[..n]).Ok?
  {
    hide ExecBlock;
    if n < |blocks| {
      var last := |blocks| - 1;
      PrefixRuns(env, rows, blocks[..last], n);
      assert blocks[..last][..n] == blocks[..n];
    } else {
      assert blocks[..n] == blocks;
    }
  }

  lemma {:induction false} TxsGrow(blocks: seq<Block>, n: nat)
    requires n <= |blocks|
    ensures AllTxs(blocks[..n]) <= AllTxs(blocks)
  {
    if n < |blocks| {
      var last := |blocks| - 1;
      TxsGrow(blocks[..last], n);
      assert blocks[..last][..n] == blocks[..n];
    } else {
      assert blocks[..n] == blocks;
    }
  }

  lemma {:induction false} CommitmentsGrow(txs: seq<Transaction>, n: nat)
    requires n <= |txs|
    ensures AllCommitments(txs[..n]) <= AllCommitments(txs)
  {
    if n < |txs| {
      var last := |txs| - 1;
      CommitmentsGrow(txs[..last], n);
      assert txs[..last][..n] == txs[..n];
    } else {
      assert txs[..n] == txs;
    }
  }

  /** Every stored commitment is a field element, so positions in the store and in
      the note tree are the same. */
  lemma {:induction false} FieldLeavesAlign(env: Env, cs: seq<Bytes>)
    requires AllFields(env, cs)
    ensures |FieldLeaves(env, cs)| == |cs|
    ensures forall i :: 0 <= i < |cs| ==> Some(FieldLeaves(env, cs)[i]) == env.frFromHex(cs[i])
  {
    if cs != [] {
      FieldLeavesAlign(env, cs[..|cs| - 1]);
    }
  }
}
