/** Tables with one state root hold the same ledger (src/state.rs, src/smt.rs): the same
    funds, tokens, contracts and storage, unless two named inputs of the hash collide. */
module RootFacts {
  import opened Base
  import opened Tables
  import opened Ledger
  import opened SparseTree
  import opened MerkleState
  import opened RootBinding
  import opened LeafText
  import opened WellTyped
  import opened Store
  import Calls
  import Decimal

  /** Two tables with one Merkle root, their leaves on paths of their own. */
  ghost predicate OneRoot(sha: Sha, a: Rows, b: Rows) {
    && NoClash(sha, LiveNames(a) + LiveNames(b)) && TableRoot(sha, a) == TableRoot(sha, b)
    && Typed(a) && Typed(b)
  }

  /** What an account leaf records of two accounts is the same. */
  predicate SameFunds(x: Account, y: Account) {
    && x.balance == y.balance && x.nonce == y.nonce && x.staked == y.staked && x.rewards == y.rewards
    && UnbondingTotal(x.unbonding) == UnbondingTotal(y.unbonding)
  }

  predicate SameToken(x: Option<Token>, y: Option<Token>) {
    match (x, y)
    case (Some(s), Some(t)) =>
      && s.id == t.id && s.symbol == t.symbol && s.decimals == t.decimals && s.supply == t.supply
      && s.creator == t.creator && s.mintable == t.mintable
    case (None, None) => true
    case _ => false
  }

  predicate SameContract(x: Option<Contract>, y: Option<Contract>) {
    match (x, y)
    case (Some(c), Some(d)) =>
      c.address == d.address && c.codeHash == d.codeHash && c.creator == d.creator && c.createdHeight == d.createdHeight
    case (None, None) => true
    case _ => false
  }

  /** A leaf of one of the tables shows two different inputs with one hash. */
  ghost predicate CollidesAt(sha: Sha, a: Rows, b: Rows, x: LeafName) {
    x in LiveNames(a) + LiveNames(b) && RootCollision(sha, a, b, x)
  }

  // ---- one row ----

  /** The row is in both tables or in neither, with the same leaf bytes, or it shows a collision. */
  lemma RootBindsRow(sha: Sha, a: Rows, b: Rows, k: Key, part: nat)
    requires OneRoot(sha, a, b) && LeafName(k, part) in NamesOf(k)
    ensures CollidesAt(sha, a, b, LeafName(k, part)) || LeafValue(a, LeafName(k, part)) == LeafValue(b, LeafName(k, part))
  {
    hide NoClash, TableRoot, RootCollision, LiveNames, Typed, LeafBytes, NamesOf;
    var x, names := LeafName(k, part), LiveNames(a) + LiveNames(b);
    LiveNameIff(a, x);
    LiveNameIff(b, x);
    if x in names {
      AllProper(a, b);
      RootBindsLeaf(sha, a, b, names, x);
    }
  }

  lemma AllProper(a: Rows, b: Rows)
    ensures forall x :: x in LiveNames(a) + LiveNames(b) ==> Proper(x)
  {
    hide LiveNames, NamesOf;
    forall x | x in LiveNames(a) + LiveNames(b)
      ensures Proper(x)
    {
      LiveNameIff(a, x);
      LiveNameIff(b, x);
    }
  }

  lemma RootBindsAccount(sha: Sha, a: Rows, b: Rows, who: Bytes)
    requires OneRoot(sha, a, b)
    ensures CollidesAt(sha, a, b, LeafName(AccountK(who), 0)) || SameFunds(GetAccount(a, who), GetAccount(b, who))
  {
    hide NoClash, TableRoot, CollidesAt, LiveNames, AccountLeaf, UnbondingTotal;
    var k := AccountK(who);
    RootBindsRow(sha, a, b, k, 0);
    if k in a && k in b && AccountLeaf(a[k].account) == AccountLeaf(b[k].account) {
      AccountLeafReads(a[k].account, b[k].account);
    }
  }

  lemma RootBindsToken(sha: Sha, a: Rows, b: Rows, id: Bytes)
    requires OneRoot(sha, a, b)
    ensures CollidesAt(sha, a, b, LeafName(TokenK(id), 0)) || SameToken(GetToken(a, id), GetToken(b, id))
  {
    hide NoClash, TableRoot, CollidesAt, LiveNames, TokenLeaf, PlainToken;
    var k := TokenK(id);
    RootBindsRow(sha, a, b, k, 0);
    if k in a && k in b && TokenLeaf(a[k].token) == TokenLeaf(b[k].token) {
      TokenLeafReads(a[k].token, b[k].token);
    }
  }

  lemma RootBindsBalance(sha: Sha, a: Rows, b: Rows, id: Bytes, who: Bytes)
    requires OneRoot(sha, a, b)
    ensures CollidesAt(sha, a, b, LeafName(BalanceK(id, who), 0)) || TokenBalance(a, id, who) == TokenBalance(b, id, who)
  {
    hide NoClash, TableRoot, CollidesAt, LiveNames, Decimal.Dec;
    var k := BalanceK(id, who);
    RootBindsRow(sha, a, b, k, 0);
    if k in a && k in b {
      Decimal.DecInjective(a[k].amount, b[k].amount);
    }
  }

  lemma RootBindsContract(sha: Sha, a: Rows, b: Rows, at: Bytes)
    requires OneRoot(sha, a, b)
    ensures CollidesAt(sha, a, b, LeafName(ContractK(at), 0)) || SameContract(GetContract(a, at), GetContract(b, at))
  {
    hide NoClash, TableRoot, CollidesAt, LiveNames, ContractLeaf, PlainContract;
    var k := ContractK(at);
    RootBindsRow(sha, a, b, k, 0);
    if k in a && k in b && ContractLeaf(a[k].contract) == ContractLeaf(b[k].contract) {
      ContractLeafReads(a[k].contract, b[k].contract);
    }
  }

  lemma RootBindsSlot(sha: Sha, a: Rows, b: Rows, at: Bytes, slot: Bytes)
    requires OneRoot(sha, a, b)
    ensures CollidesAt(sha, a, b, LeafName(StorageK(at, slot), 0)) || Same(a, b, StorageK(at, slot))
  {
    hide NoClash, TableRoot, CollidesAt, LiveNames;
    RootBindsRow(sha, a, b, StorageK(at, slot), 0);
  }

  // ---- whole tables ----

  /** Everything the root stands for. */
  ghost predicate SameLedger(a: Rows, b: Rows) {
    && (forall who :: SameFunds(GetAccount(a, who), GetAccount(b, who)))
    && (forall id :: SameToken(GetToken(a, id), GetToken(b, id)))
    && (forall id, who :: TokenBalance(a, id, who) == TokenBalance(b, id, who))
    && (forall at :: SameContract(GetContract(a, at), GetContract(b, at)))
    && (forall at :: ContractStorage(a, at) == ContractStorage(b, at))
  }

  ghost predicate Collides(sha: Sha, a: Rows, b: Rows) {
    exists x :: CollidesAt(sha, a, b, x)
  }

  /** Tables with one root hold one ledger, or a leaf shows a collision. */
  lemma OneRootOneLedger(sha: Sha, a: Rows, b: Rows)
    requires OneRoot(sha, a, b)
    ensures Collides(sha, a, b) || SameLedger(a, b)
  {
    hide OneRoot, CollidesAt, SameFunds, SameToken, SameContract, GetAccount, GetToken, GetContract, TokenBalance,
         ContractStorage;
    if !Collides(sha, a, b) {
      forall who ensures SameFunds(GetAccount(a, who), GetAccount(b, who)) {
        RootBindsAccount(sha, a, b, who);
      }
      forall id ensures SameToken(GetToken(a, id), GetToken(b, id)) {
        RootBindsToken(sha, a, b, id);
      }
      forall id, who ensures TokenBalance(a, id, who) == TokenBalance(b, id, who) {
        RootBindsBalance(sha, a, b, id, who);
      }
      forall at ensures SameContract(GetContract(a, at), GetContract(b, at)) {
        RootBindsContract(sha, a, b, at);
      }
      forall at ensures ContractStorage(a, at) == ContractStorage(b, at) {
        forall slot ensures Same(b, a, StorageK(at, slot)) {
          RootBindsSlot(sha, a, b, at, slot);
        }
        Calls.StorageSame(b, a, at);
      }
    }
  }

  /** Two chains, each from a genesis of its own, that end in one state root past the root
      upgrade end in one ledger: every balance, nonce, bond, token, contract and storage slot
      agrees, or two digests read alike, or a leaf shows a collision. */
  lemma ChainsWithOneRootAgree(
      env: Env, h: Hashing, alloc: seq<Alloc>, genesis: Block, blocks: seq<Block>,
      alloc': seq<Alloc>, genesis': Block, blocks': seq<Block>, height: nat)
    requires PlainNames(env) && height >= STATE_ROOT_V2_ACTIVATION_HEIGHT
    requires RunBlocks(env, Genesis(env, alloc, genesis), blocks).Ok?
    requires RunBlocks(env, Genesis(env, alloc', genesis'), blocks').Ok?
    requires var a := RunBlocks(env, Genesis(env, alloc, genesis), blocks).value;
             var b := RunBlocks(env, Genesis(env, alloc', genesis'), blocks').value;
             NoClash(h.sha, LiveNames(a) + LiveNames(b)) && StateRootAt(h, a, height) == StateRootAt(h, b, height)
    ensures var a := RunBlocks(env, Genesis(env, alloc, genesis), blocks).value;
            var b := RunBlocks(env, Genesis(env, alloc', genesis'), blocks').value;
            || SameLedger(a, b) || Collides(h.sha, a, b)
            || (TableRoot(h.sha, a) != TableRoot(h.sha, b) && h.hex(TableRoot(h.sha, a)) == h.hex(TableRoot(h.sha, b)))
  {
    hide RunBlocks, Genesis, Typed, PlainNames, NoClash, LiveNames, TableRoot, SameLedger, Collides, LegacyRoot;
    var a := RunBlocks(env, Genesis(env, alloc, genesis), blocks).value;
    var b := RunBlocks(env, Genesis(env, alloc', genesis'), blocks').value;
    TypedOnEveryRun(env, alloc, genesis, blocks);
    TypedOnEveryRun(env, alloc', genesis', blocks');
    if TableRoot(h.sha, a) == TableRoot(h.sha, b) {
      OneRootOneLedger(h.sha, a, b);
    }
  }

  /** Before the upgrade the root is a digest of rows that decide the whole ledger, every
      note and every nullifier. */
  lemma DigestDecidesLedger(a: Rows, b: Rows, k: Key)
    requires Digested(a) == Digested(b)
    requires k.AccountK? || k.TokenK? || k.BalanceK? || k.ContractK? || k.StorageK? || k.LeafK? || k.NullifierK?
    ensures Same(a, b, k)
  {
    var x, y := Digested(a), Digested(b);
    assert k in a <==> k in x;
    assert k in b <==> k in y;
    assert k in x ==> a[k] == x[k] && b[k] == y[k];
  }
}
