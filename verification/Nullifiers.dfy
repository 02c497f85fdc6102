/** Nullifiers as elements and as text (src/chain.rs, src/state.rs): a proof speaks of
    decoded elements, the burned table of the strings they were spelled with. */
module Nullifiers {
  import opened Base
  import opened Types
  import opened Tables
  import opened Ledger
  import opened Frames
  import opened Books
  import opened Pool
  import FieldText

  /** The spend with its nullifiers spelled otherwise. */
  predicate Respelled(env: Env, d: ShieldedData, e: ShieldedData) {
    && |d.nullifiers| == 2 && |e.nullifiers| == 2
    && e == d.(nullifiers := e.nullifiers)
    && env.frFromHex(e.nullifiers[0]) == env.frFromHex(d.nullifiers[0])
    && env.frFromHex(e.nullifiers[1]) == env.frFromHex(d.nullifiers[1])
  }

  /** What a spend leaves for the next one to be checked against. */
  lemma AfterSpend(env: Env, rows: Rows, tx: Transaction, d: ShieldedData, out: nat, height: nat)
    requires |d.nullifiers| == 2 && |d.commitments| == 2 && ApplySpend(env, rows, tx, d, out, height).Ok?
    ensures var after := ApplySpend(env, rows, tx, d, out, height).value;
            && RootKnown(after, d.anchor)
            && GetBytes(after, VerifyingKeyK) == GetBytes(InstallKey(env, rows), VerifyingKeyK)
            && InstallKey(env, after) == after
            && forall nf :: NullifierSeen(after, nf) <==> NullifierSeen(rows, nf) || nf in d.nullifiers
  {
    hide LeafCount, SpendInputs;
    SpendShape(env, rows, tx, d, out, height);
  }

  /** A spend whose proof was accepted is accepted a second time exactly when the
      nullifiers are spelled with two different strings, neither of them burned, and the
      pool still covers what it pays out. */
  lemma RespentIff(
      env: Env, rows: Rows, tx: Transaction, d: ShieldedData, e: ShieldedData, out: nat, height: nat, later: nat)
    requires |d.commitments| == 2 && Respelled(env, d, e) && ApplySpend(env, rows, tx, d, out, height).Ok?
    ensures var after := ApplySpend(env, rows, tx, d, out, height).value;
            (ApplySpend(env, after, tx, e, out, later).Ok?
             <==> && !NullifierSeen(after, e.nullifiers[0]) && !NullifierSeen(after, e.nullifiers[1])
                  && e.nullifiers[0] != e.nullifiers[1] && (out > 0 ==> PoolBalance(after) >= out))
  {
    hide LeafCount, AppendLeaf, Credit;
    AfterSpend(env, rows, tx, d, out, height);
    assert SpendInputs(env, e, out) == SpendInputs(env, d, out);
  }

  /** Two spellings of a spend written plainly: a space after each nullifier. */
  lemma SpacedSpendIsTakenAgain(
      env: Env, order: nat, rows: Rows, tx: Transaction, d: ShieldedData, height: nat, later: nat)
    requires order > 0 && forall s :: env.frFromHex(s) == FieldText.FrFromHex(order, s)
    requires |d.nullifiers| == 2 && |d.commitments| == 2
    requires FieldText.Plain(order, d.nullifiers[0]) && FieldText.Plain(order, d.nullifiers[1])
    requires ApplySpend(env, rows, tx, d, 0, height).Ok?
    requires !NullifierSeen(rows, d.nullifiers[0] + " ") && !NullifierSeen(rows, d.nullifiers[1] + " ")
    ensures var e := d.(nullifiers := [d.nullifiers[0] + " ", d.nullifiers[1] + " "]);
            ApplySpend(env, ApplySpend(env, rows, tx, d, 0, height).value, tx, e, 0, later).Ok?
  {
    hide ApplySpend, PoolBalance, FieldText.FrFromHex, FieldText.Lower, FieldText.Value;
    var n0, n1 := d.nullifiers[0], d.nullifiers[1];
    var e := d.(nullifiers := [n0 + " ", n1 + " "]);
    FieldText.SpacedReadsTheSame(order, n0);
    FieldText.SpacedReadsTheSame(order, n1);
    AfterSpend(env, rows, tx, d, 0, height);
    DifferentNullifiers(env, rows, tx, d, 0, height);
    assert (n0 + " ")[..|n0|] == n0 && (n1 + " ")[..|n1|] == n1;
    RespentIff(env, rows, tx, d, e, 0, height, later);
  }

  lemma DifferentNullifiers(env: Env, rows: Rows, tx: Transaction, d: ShieldedData, out: nat, height: nat)
    requires |d.nullifiers| == 2 && |d.commitments| == 2 && ApplySpend(env, rows, tx, d, out, height).Ok?
    ensures d.nullifiers[0] != d.nullifiers[1]
  {
    hide LeafCount, AppendLeaf, Credit, SpendInputs;
  }

  /** The spelling the writer of its element uses. */
  predicate Canonical(env: Env, nf: Bytes) {
    match env.frFromHex(nf)
    case None => false
    case Some(f) => env.frToHex(f) == nf
  }

  /** On every chain whose burned nullifiers are all spelled canonically, no element is
      burned twice. */
  lemma NoElementBurnedTwice(env: Env, alloc: seq<Alloc>, genesis: Block, blocks: seq<Block>)
    requires RunBlocks(env, Genesis(env, alloc, genesis), blocks).Ok?
    requires var rows := RunBlocks(env, Genesis(env, alloc, genesis), blocks).value;
             forall nf :: NullifierSeen(rows, nf) ==> Canonical(env, nf)
    ensures var ns := AllNullifiers(AllTxs(blocks));
            forall i, j :: 0 <= i < j < |ns| ==> env.frFromHex(ns[i]) != env.frFromHex(ns[j])
  {
    hide RunBlocks, Genesis, AllNullifiers, AllTxs, AnchorsArePrefixes, SealTracks, Sealed, LeavesAre, AllFields,
         NullifierSeen;
    PoolOnEveryRun(env, alloc, genesis, blocks);
    var ns := AllNullifiers(AllTxs(blocks));
    forall i, j | 0 <= i < j < |ns|
      ensures env.frFromHex(ns[i]) != env.frFromHex(ns[j])
    {
      assert ns[i] in ns && ns[j] in ns;
      assert Canonical(env, ns[i]) && Canonical(env, ns[j]);
    }
  }
}
