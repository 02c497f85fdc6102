/** Exactly which transactions are accepted (src/chain.rs, src/tokens.rs, src/contracts.rs):
    for every kind, a condition on the transaction and the tables before it. */
module Acceptance {
  import opened Base
  import opened Types
  import opened Evidence
  import opened Tables
  import opened Ledger
  import opened Frames
  import opened Books
  import opened Conservation
  import opened Effects
  import opened Spends
  import opened TokenBooks
  import opened TokenMoves

  /** The sender exists, this is its next transaction, and it can pay for it. */
  predicate Covered(env: Env, rows: Rows, tx: Transaction) {
    && SenderOf(env, tx).Some?
    && var acct := GetAccount(rows, SenderOf(env, tx).value);
       tx.nonce == acct.nonce && acct.balance >= Capped(Cost(tx))
  }

  lemma ChargedOutside(rows: Rows, sender: Bytes, tx: Transaction)
    requires Debit(tx) <= GetAccount(rows, sender).balance
    ensures Frame(rows, SetAccount(rows, sender, Charged(GetAccount(rows, sender), Debit(tx))), {Accounts})
  {
    hide Frame, SetAccount, GetAccount, Debit;
    FrameSetAccount(rows, sender, Charged(GetAccount(rows, sender), Debit(tx)), {Accounts});
  }

  // ---- coins and bonds ----

  /** A payment goes through exactly when it carries the sender's next nonce and the sender
      can cover it; an unbond also needs that much stake. */
  lemma PaymentAcceptedIff(env: Env, rows: Rows, tx: Transaction, height: nat)
    requires tx.kind.Transfer? || tx.kind.Stake? || tx.kind.Unstake?
    ensures ApplyTx(env, rows, tx, height).Ok? <==>
      && SenderOf(env, tx).Some?
      && var acct := GetAccount(rows, SenderOf(env, tx).value);
         && tx.nonce == acct.nonce && acct.balance >= Capped(Cost(tx)) && acct.staked >= BondsOut(tx)
  {
    hide SetAccount, Credit;
    DebitIsCost(tx);
  }

  /** A validator leaves jail exactly when no fault put it there, it is not tombstoned, and
      its time is up or absence is no longer jailed. */
  lemma UnjailAcceptedIff(env: Env, rows: Rows, tx: Transaction, height: nat)
    requires tx.kind.Unjail?
    ensures ApplyTx(env, rows, tx, height).Ok? <==>
      && SenderOf(env, tx).Some?
      && var acct := GetAccount(rows, SenderOf(env, tx).value);
         && tx.nonce == acct.nonce && acct.balance >= tx.fee
         && !acct.penalties.tombstoned && !acct.penalties.jailFault && acct.penalties.jailedUntil > 0
         && (acct.penalties.jailedUntil <= height || height >= NO_DOWNTIME_JAIL_HEIGHT)
  {
    hide SetAccount, GetAccount;
    if SenderOf(env, tx).Some? && GetAccount(rows, SenderOf(env, tx).value).balance >= tx.fee {
      var sender := SenderOf(env, tx).value;
      GetAfterSet(rows, sender, Charged(GetAccount(rows, sender), tx.fee), sender);
    }
  }

  /** A report is taken exactly when its proof stands, is recent, is new, and names a
      validator with something left to lose. */
  lemma ReportAcceptedIff(env: Env, rows: Rows, tx: Transaction, height: nat)
    requires tx.kind.ReportEquivocation?
    ensures ApplyTx(env, rows, tx, height).Ok? <==>
      && SenderOf(env, tx).Some?
      && var acct := GetAccount(rows, SenderOf(env, tx).value);
         && tx.nonce == acct.nonce && acct.balance >= tx.fee
         && env.decodeEvidence(tx.payload).Some?
         && var e := env.decodeEvidence(tx.payload).value;
            && Verify(env.crypto, e).Ok? && e.Height() <= height <= e.Height() + EVIDENCE_MAX_AGE_BLOCKS
            && !SlashKnown(rows, EvidenceId(env.crypto, e))
            && var bad := GetAccount(rows, Verify(env.crypto, e).value);
               !bad.penalties.tombstoned && (bad.staked > 0 || UnbondingTotal(bad.unbonding) > 0)
  {
    hide Confiscated, Slashed, BurnPct, TotalStaked, SetAccount, Credit, EvidenceId, SlashKnown, Verify,
         UnbondingTotal, GetAccount;
    if SenderOf(env, tx).Some? {
      var sender := SenderOf(env, tx).value;
      var acct := GetAccount(rows, sender);
      if acct.balance >= tx.fee && env.decodeEvidence(tx.payload).Some? {
        var e := env.decodeEvidence(tx.payload).value;
        var from := Charged(acct, Debit(tx));
        SlashesAfterSet(rows, sender, from, EvidenceId(env.crypto, e));
        if Verify(env.crypto, e).Ok? {
          GetAfterSet(rows, sender, from, Verify(env.crypto, e).value);
        }
      }
    }
  }

  // ---- tokens ----

  /** A token is made exactly when symbol, name and decimals are in order and its id is new. */
  lemma CreateAcceptedIff(env: Env, rows: Rows, tx: Transaction, height: nat)
    requires tx.kind.CreateToken? && TokensBalanced(rows)
    ensures ApplyTx(env, rows, tx, height).Ok? <==>
      && Covered(env, rows, tx) && tx.payload.Some?
      && var p := tx.payload.value;
         && env.normalizeSymbol(p.symbol).Some? && p.decimals <= MAX_DECIMALS
         && env.trim(p.name) != "" && |p.name| <= MAX_NAME_LEN
         && GetToken(rows, CreatedId(env, tx, SenderOf(env, tx).value).value).None?
  {
    hide SetAccount, GetAccount, Frame, TokensBalanced, GetToken, TokenBalance, SetToken, SetTokenBalance;
    DebitIsCost(tx);
    if SenderOf(env, tx).Some? && tx.payload.Some? && env.normalizeSymbol(tx.payload.value.symbol).Some? {
      var sender, id := SenderOf(env, tx).value, CreatedId(env, tx, SenderOf(env, tx).value).value;
      if Debit(tx) <= GetAccount(rows, sender).balance && GetToken(rows, id).None? {
        ChargedOutside(rows, sender, tx);
        var rows1 := SetAccount(rows, sender, Charged(GetAccount(rows, sender), Debit(tx)));
        FrameKeepsBalanced(rows, rows1, {Accounts});
        var p := tx.payload.value;
        FreshToken(rows1, Token(id, env.normalizeSymbol(p.symbol).value, env.trim(p.name), p.decimals, 0, sender, p.mintable, height, 0),
                   sender);
      }
    }
  }

  lemma FreshToken(rows: Rows, t: Token, a: Bytes)
    requires TokensBalanced(rows) && GetToken(rows, t.id).None?
    ensures GetToken(SetToken(rows, t), t.id) == Some(t) && TokenBalance(SetToken(rows, t), t.id, a) == 0
  {
    assert Balanced(rows, t.id);
    BalanceWithinSupply(rows, t.id, a);
  }

  /** Only the creator of a mintable token mints, a positive amount, to a valid address,
      within 128 bits. */
  lemma MintAcceptedIff(env: Env, rows: Rows, tx: Transaction, height: nat)
    requires tx.kind.MintToken? && TokensBalanced(rows)
    ensures ApplyTx(env, rows, tx, height).Ok? <==>
      && Covered(env, rows, tx) && tx.payload.Some? && GetToken(rows, tx.payload.value.token).Some?
      && var t := GetToken(rows, tx.payload.value.token).value;
         && t.creator == SenderOf(env, tx).value && t.mintable && tx.amount > 0 && env.validAddress(tx.to)
         && TokenBalance(rows, t.id, tx.to) + tx.amount <= U128_MAX && t.supply + tx.amount <= U128_MAX
  {
    hide SetAccount, GetAccount, Frame, TokensBalanced, GetToken, TokenBalance, SetToken, SetTokenBalance;
    DebitIsCost(tx);
    if SenderOf(env, tx).Some? && tx.payload.Some? && GetToken(rows, tx.payload.value.token).Some? {
      var sender := SenderOf(env, tx).value;
      if Debit(tx) <= GetAccount(rows, sender).balance {
        ChargedOutside(rows, sender, tx);
        FrameKeepsBalanced(rows, SetAccount(rows, sender, Charged(GetAccount(rows, sender), Debit(tx))), {Accounts});
        NamedByKey(rows, tx.payload.value.token);
      }
    }
  }

  lemma NamedByKey(rows: Rows, id: Bytes)
    requires TokensBalanced(rows) && GetToken(rows, id).Some?
    ensures GetToken(rows, id).value.id == id
  {
    assert Balanced(rows, id);
  }

  /** A token transfer needs a known token, a positive amount the sender holds, a valid
      recipient, and room for it there. */
  lemma TokenTransferAcceptedIff(env: Env, rows: Rows, tx: Transaction, height: nat)
    requires tx.kind.TokenTransfer? && TokensBalanced(rows)
    ensures ApplyTx(env, rows, tx, height).Ok? <==>
      && Covered(env, rows, tx) && tx.payload.Some? && GetToken(rows, tx.payload.value.token).Some?
      && var t, sender := GetToken(rows, tx.payload.value.token).value, SenderOf(env, tx).value;
         && tx.amount > 0 && env.validAddress(tx.to) && TokenBalance(rows, t.id, sender) >= tx.amount
         && (tx.to != sender ==> TokenBalance(rows, t.id, tx.to) + tx.amount <= U128_MAX && t.supply <= U128_MAX)
  {
    hide SetAccount, GetAccount, Frame, TokensBalanced, GetToken, TokenBalance, SetToken, SetTokenBalance,
         CreditToken, DebitToken;
    DebitIsCost(tx);
    if SenderOf(env, tx).Some? && tx.payload.Some? && GetToken(rows, tx.payload.value.token).Some? {
      var sender := SenderOf(env, tx).value;
      if Debit(tx) <= GetAccount(rows, sender).balance {
        ChargedOutside(rows, sender, tx);
        var rows1 := SetAccount(rows, sender, Charged(GetAccount(rows, sender), Debit(tx)));
        FrameKeepsBalanced(rows, rows1, {Accounts});
        NamedByKey(rows, tx.payload.value.token);
        if tx.to != sender && tx.amount > 0 && TokenBalance(rows, tx.payload.value.token, sender) >= tx.amount {
          MoveFits(rows1, tx.payload.value.token, sender, tx.to, tx.amount);
        }
      }
    }
  }

  lemma MoveFits(rows: Rows, id: Bytes, from: Bytes, to: Bytes, amount: nat)
    requires TokensBalanced(rows) && GetToken(rows, id).Some? && from != to && amount > 0 && TokenBalance(rows, id, from) >= amount
    ensures DebitToken(rows, id, from, amount).Ok?
    ensures CreditToken(DebitToken(rows, id, from, amount).value, id, to, amount).Ok? <==>
            TokenBalance(rows, id, to) + amount <= U128_MAX && GetToken(rows, id).value.supply <= U128_MAX
  {
    hide TokensBalanced, GetToken, TokenBalance, SetToken, SetTokenBalance, DebitToken;
    Debitable(rows, id, from, amount);
    DebitMoves(rows, id, from, amount, id, to);
    DebitKeepsBalanced(rows, id, from, amount);
  }

  lemma Debitable(rows: Rows, id: Bytes, from: Bytes, amount: nat)
    ensures DebitToken(rows, id, from, amount).Ok? <==> TokenBalance(rows, id, from) >= amount
  {
  }

  /** A burn needs a known token and a positive amount the sender holds. */
  lemma BurnAcceptedIff(env: Env, rows: Rows, tx: Transaction, height: nat)
    requires tx.kind.BurnToken? && TokensBalanced(rows)
    ensures ApplyTx(env, rows, tx, height).Ok? <==>
      && Covered(env, rows, tx) && tx.payload.Some? && GetToken(rows, tx.payload.value.token).Some?
      && tx.amount > 0 && TokenBalance(rows, tx.payload.value.token, SenderOf(env, tx).value) >= tx.amount
  {
    hide SetAccount, GetAccount, Frame, TokensBalanced, GetToken, TokenBalance, DebitToken;
    DebitIsCost(tx);
    if SenderOf(env, tx).Some? && tx.payload.Some? && GetToken(rows, tx.payload.value.token).Some? {
      var sender := SenderOf(env, tx).value;
      if Debit(tx) <= GetAccount(rows, sender).balance {
        ChargedOutside(rows, sender, tx);
        var rows1 := SetAccount(rows, sender, Charged(GetAccount(rows, sender), Debit(tx)));
        FrameKeepsBalanced(rows, rows1, {Accounts});
        NamedByKey(rows, tx.payload.value.token);
        Debitable(rows1, tx.payload.value.token, sender, tx.amount);
      }
    }
  }

  // ---- contracts ----

  /** A deploy needs code that decodes to valid wasm and an address nobody holds. */
  lemma DeployAcceptedIff(env: Env, rows: Rows, tx: Transaction, height: nat)
    requires tx.kind.DeployContract?
    ensures ApplyTx(env, rows, tx, height).Ok? <==>
      && Covered(env, rows, tx) && env.decodeCode(tx.payload).Some? && env.validWasm(env.decodeCode(tx.payload).value)
      && GetContract(rows, DeployedAt(env, tx, SenderOf(env, tx).value).value).None?
  {
    hide SetAccount, GetAccount, Credit, Frame;
    DebitIsCost(tx);
    if SenderOf(env, tx).Some? && env.decodeCode(tx.payload).Some? {
      var sender := SenderOf(env, tx).value;
      if Debit(tx) <= GetAccount(rows, sender).balance {
        ChargedOutside(rows, sender, tx);
        FrameSame(rows, SetAccount(rows, sender, Charged(GetAccount(rows, sender), Debit(tx))), {Accounts},
                  ContractK(DeployedAt(env, tx, sender).value));
      }
    }
  }

  /** A call is taken, whatever its run comes to, exactly when the contract and its code are
      there and the arguments decode. */
  lemma CallAcceptedIff(env: Env, rows: Rows, tx: Transaction, height: nat)
    requires tx.kind.CallContract?
    ensures ApplyTx(env, rows, tx, height).Ok? <==>
      && Covered(env, rows, tx) && env.validAddress(tx.to) && GetContract(rows, tx.to).Some? && env.decodeArgs(tx.payload).Some?
      && GetBytes(rows, CodeK(GetContract(rows, tx.to).value.codeHash)).Some?
  {
    hide SetAccount, GetAccount, Credit, Frame, Execute, CommitTransfers, CommitWrites, RefundCall, FuelForFee;
    DebitIsCost(tx);
    if SenderOf(env, tx).Some? && GetContract(rows, tx.to).Some? && env.validAddress(tx.to) && env.decodeArgs(tx.payload).Some? {
      var sender := SenderOf(env, tx).value;
      if Debit(tx) <= GetAccount(rows, sender).balance {
        ChargedOutside(rows, sender, tx);
        var rows1 := SetAccount(rows, sender, Charged(GetAccount(rows, sender), Debit(tx)));
        FrameSame(rows, rows1, {Accounts}, ContractK(tx.to));
        var k := CodeK(GetContract(rows, tx.to).value.codeHash);
        FrameSame(rows, rows1, {Accounts}, k);
        if GetBytes(rows1, k).Some? {
          CallNeverOverspends(env, rows1, sender, tx, height);
        }
      }
    }
  }

  // ---- the shielded pool ----

  /** What any shielded payload must satisfy: a short proof, fields that decode where they
      are given, and a readable payout. */
  predicate PayloadOk(env: Env, d: ShieldedData) {
    && |d.proof| <= MAX_PROOF_LEN
    && (forall f :: f in d.commitments + d.nullifiers + [d.anchor] ==> f == "" || env.frFromHex(f).Some?)
    && (d.publicUnshield == "" || env.parseAmount(d.publicUnshield).Some?)
  }

  /** A shield makes one note from a positive amount: a commitment that is not zero, nothing
      else in the payload, and room in the pool. */
  lemma ShieldAcceptedIff(env: Env, rows: Rows, tx: Transaction, height: nat)
    requires tx.kind.Shield?
    ensures ApplyTx(env, rows, tx, height).Ok? <==>
      && Covered(env, rows, tx) && height >= env.shieldedActivation && tx.shielded.Some?
      && var d := tx.shielded.value;
         && PayloadOk(env, d) && |d.commitments| == 1 && d.nullifiers == [] && d.proof == ""
         && (d.publicUnshield == "" || env.parseAmount(d.publicUnshield) == Some(0))
         && tx.amount > 0 && PoolBalance(rows) + tx.amount <= U128_MAX
         && env.frFromHex(d.commitments[0]).Some? && env.frFromHex(d.commitments[0]).value != 0
  {
    hide SetAccount, GetAccount, Frame, LeafCount;
    DebitIsCost(tx);
    if SenderOf(env, tx).Some? {
      var sender := SenderOf(env, tx).value;
      if Debit(tx) <= GetAccount(rows, sender).balance {
        ChargedOutside(rows, sender, tx);
        FrameSame(rows, SetAccount(rows, sender, Charged(GetAccount(rows, sender), Debit(tx))), {Accounts}, PoolK);
        FieldsOk(env, tx);
      }
    }
  }

  lemma FieldsOk(env: Env, tx: Transaction)
    ensures tx.shielded.Some? ==>
      var d := tx.shielded.value;
      (forall f :: f in d.commitments + d.nullifiers + [d.anchor] ==> f == "" || env.frFromHex(f).Some?) <==>
      && (forall f :: f in d.commitments ==> FieldOk(env, f)) && (forall f :: f in d.nullifiers ==> FieldOk(env, f))
      && FieldOk(env, d.anchor)
  {
    if tx.shielded.Some? {
      var d := tx.shielded.value;
      if forall f :: f in d.commitments + d.nullifiers + [d.anchor] ==> f == "" || env.frFromHex(f).Some? {
        assert d.anchor in d.commitments + d.nullifiers + [d.anchor];
        assert forall f :: f in d.commitments ==> f in d.commitments + d.nullifiers + [d.anchor];
        assert forall f :: f in d.nullifiers ==> f in d.commitments + d.nullifiers + [d.anchor];
      }
    }
  }

  /** What a private transfer takes out of the pool is nothing; what an unshield takes out is
      positive and public. */
  predicate PayoutOk(env: Env, tx: Transaction, d: ShieldedData) {
    if tx.kind.Unshield? then env.parseAmount(d.publicUnshield).Some? && d.publicUnshield != "" && PublicOut(env, tx) > 0
    else d.publicUnshield == "" || env.parseAmount(d.publicUnshield) == Some(0)
  }

  function Payout(env: Env, tx: Transaction): nat {
    if tx.kind.Unshield? then PublicOut(env, tx) else 0
  }

  /** Two nullifiers, two commitments, one proof, an anchor, and no public amount of its own. */
  predicate SpendShapeOk(env: Env, tx: Transaction) {
    && tx.shielded.Some?
    && var d := tx.shielded.value;
       && PayloadOk(env, d) && |d.nullifiers| == 2 && |d.commitments| == 2 && d.proof != "" && d.anchor != ""
       && tx.amount == 0 && PayoutOk(env, tx, d) && d.nullifiers[0] != d.nullifiers[1]
  }

  lemma SpendShapeIff(env: Env, tx: Transaction)
    requires tx.kind.PrivateTransfer? || tx.kind.Unshield?
    ensures CheckShape(env, tx).Ok? <==> SpendShapeOk(env, tx)
  {
    FieldsOk(env, tx);
  }

  lemma ShieldedSpendIff(env: Env, rows: Rows, tx: Transaction, height: nat)
    requires tx.kind.PrivateTransfer? || tx.kind.Unshield?
    ensures ApplyShielded(env, rows, tx, height).Ok? <==>
      && height >= env.shieldedActivation && SpendShapeOk(env, tx)
      && ApplySpend(env, rows, tx, tx.shielded.value, Payout(env, tx), height).Ok?
  {
    hide CheckShape, ApplySpend, PayloadOk;
    SpendShapeIff(env, tx);
  }

  /** A private transfer or unshield is taken exactly when its payload is in shape, the proof
      verifies for these notes and this payout, the anchor is sealed, the nullifiers are two
      different unburned strings, and the payout has a valid recipient and is covered. */
  lemma SpendTxAcceptedIff(env: Env, rows: Rows, tx: Transaction, height: nat)
    requires tx.kind.PrivateTransfer? || tx.kind.Unshield?
    ensures ApplyTx(env, rows, tx, height).Ok? <==>
      && Covered(env, rows, tx) && height >= env.shieldedActivation && SpendShapeOk(env, tx)
      && var d, out := tx.shielded.value, Payout(env, tx);
         && Proves(env, KeyOf(env, rows), d, out) && RootKnown(rows, d.anchor)
         && !NullifierSeen(rows, d.nullifiers[0]) && !NullifierSeen(rows, d.nullifiers[1])
         && (out > 0 ==> env.validAddress(tx.to) && out <= PoolBalance(rows))
  {
    hide SetAccount, GetAccount, Frame, ApplySpend, ApplyShielded, Proves, PayloadOk, PayoutOk, Payout, KeyOf, Debit,
         Cost, PoolBalance;
    DebitIsCost(tx);
    if Covered(env, rows, tx) {
      var sender := SenderOf(env, tx).value;
      ChargedOutside(rows, sender, tx);
      var rows1 := SetAccount(rows, sender, Charged(GetAccount(rows, sender), Debit(tx)));
      ShieldedSpendIff(env, rows1, tx, height);
      if SpendShapeOk(env, tx) {
        PoolRowsSame(env, rows, rows1, tx.shielded.value);
        SpendAcceptedIff(env, rows1, tx, tx.shielded.value, Payout(env, tx), height);
      }
    }
  }

  lemma PoolRowsSame(env: Env, rows: Rows, rows': Rows, d: ShieldedData)
    requires Frame(rows, rows', {Accounts}) && |d.nullifiers| == 2
    ensures KeyOf(env, rows') == KeyOf(env, rows) && PoolBalance(rows') == PoolBalance(rows)
    ensures RootKnown(rows', d.anchor) == RootKnown(rows, d.anchor)
    ensures NullifierSeen(rows', d.nullifiers[0]) == NullifierSeen(rows, d.nullifiers[0])
    ensures NullifierSeen(rows', d.nullifiers[1]) == NullifierSeen(rows, d.nullifiers[1])
  {
    hide Frame;
    FrameSame(rows, rows', {Accounts}, VerifyingKeyK);
    FrameSame(rows, rows', {Accounts}, PoolK);
    FrameSame(rows, rows', {Accounts}, RootK(d.anchor));
    FrameSame(rows, rows', {Accounts}, NullifierK(d.nullifiers[0]));
    FrameSame(rows, rows', {Accounts}, NullifierK(d.nullifiers[1]));
  }
}
