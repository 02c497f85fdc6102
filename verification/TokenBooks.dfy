/** Native tokens (src/tokens.rs): every recorded supply is the sum of the
    balances, and every holder count the number of non-zero balances. */
module TokenBooks {
  import opened Base
  import opened Types
  import opened Tables
  import opened Ledger
  import opened Sums
  import opened Frames
  import opened Books

  function BalanceOf(id: Bytes): Weight<Key, Value> {
    (k: Key, v: Value) => if k.BalanceK? && k.token == id && v.AmountV? then v.amount else 0
  }

  function HolderOf(id: Bytes): Weight<Key, Value> {
    (k: Key, v: Value) => if k.BalanceK? && k.token == id && v.AmountV? && v.amount > 0 then 1 else 0
  }

  ghost function Circulating(rows: Rows, id: Bytes): nat {
    Sum(rows, BalanceOf(id))
  }

  ghost function Holders(rows: Rows, id: Bytes): nat {
    Sum(rows, HolderOf(id))
  }

  /** The registry entry of `id` agrees with the ledger; an unknown token has no balances. */
  ghost predicate Balanced(rows: Rows, id: Bytes) {
    match GetToken(rows, id)
    case None => Circulating(rows, id) == 0 && Holders(rows, id) == 0
    case Some(t) => t.id == id && t.supply == Circulating(rows, id) && t.holders == Holders(rows, id)
  }

  ghost predicate TokensBalanced(rows: Rows) {
    forall id :: Balanced(rows, id)
  }

  lemma BalanceWithinSupply(rows: Rows, id: Bytes, a: Bytes)
    ensures TokenBalance(rows, id, a) <= Circulating(rows, id)
    ensures TokenBalance(rows, id, a) > 0 ==> Holders(rows, id) >= 1
  {
    SumRemove(rows, BalanceK(id, a), BalanceOf(id));
    SumRemove(rows, BalanceK(id, a), HolderOf(id));
  }

  function OneIf(b: bool): nat {
    if b then 1 else 0
  }

  /** One balance write moves its own token's sums and no other's. */
  lemma SetBalanceMoves(rows: Rows, token: Bytes, a: Bytes, amount: nat, id: Bytes)
    ensures var rows', before := SetTokenBalance(rows, token, a, amount), TokenBalance(rows, token, a);
            && GetToken(rows', id) == GetToken(rows, id)
            && (token != id ==> Circulating(rows', id) == Circulating(rows, id) && Holders(rows', id) == Holders(rows, id))
            && (token == id ==>
                 && Circulating(rows', id) + before == Circulating(rows, id) + amount
                 && Holders(rows', id) + OneIf(before > 0) == Holders(rows, id) + OneIf(amount > 0))
  {
    var k := BalanceK(token, a);
    SumSet(rows, k, AmountV(amount), BalanceOf(id));
    SumSet(rows, k, AmountV(amount), HolderOf(id));
    SumRemove(rows, k, BalanceOf(id));
    SumRemove(rows, k, HolderOf(id));
  }

  lemma SetTokenMoves(rows: Rows, t: Token, id: Bytes)
    ensures var rows' := SetToken(rows, t);
            && GetToken(rows', id) == (if t.id == id then Some(t) else GetToken(rows, id))
            && Circulating(rows', id) == Circulating(rows, id) && Holders(rows', id) == Holders(rows, id)
            && forall a :: TokenBalance(rows', id, a) == TokenBalance(rows, id, a)
  {
    SumSet(rows, TokenK(t.id), TokenV(t), BalanceOf(id));
    SumSet(rows, TokenK(t.id), TokenV(t), HolderOf(id));
  }

  lemma CreditKeepsBalanced(rows: Rows, id: Bytes, a: Bytes, amount: nat)
    requires TokensBalanced(rows) && GetToken(rows, id).Some? && CreditToken(rows, id, a, amount).Ok?
    ensures TokensBalanced(CreditToken(rows, id, a, amount).value)
  {
    hide Circulating, Holders, SetTokenBalance, SetToken, TokenBalance, GetToken;
    var before := TokenBalance(rows, id, a);
    var t := GetToken(rows, id).value;
    assert Balanced(rows, id);
    var holders := if before == 0 && amount > 0 then t.holders + 1 else t.holders;
    var t' := t.(supply := t.supply + amount, holders := holders);
    var rows1 := SetToken(rows, t');
    var rows2 := SetTokenBalance(rows1, id, a, before + amount);
    forall x
      ensures Balanced(rows2, x)
    {
      assert Balanced(rows, x);
      SetTokenMoves(rows, t', x);
      SetTokenMoves(rows, t', id);
      SetBalanceMoves(rows1, id, a, before + amount, x);
    }
  }

  lemma DebitKeepsBalanced(rows: Rows, id: Bytes, a: Bytes, amount: nat)
    requires TokensBalanced(rows) && amount > 0 && DebitToken(rows, id, a, amount).Ok?
    ensures TokensBalanced(DebitToken(rows, id, a, amount).value)
    ensures forall x :: GetToken(DebitToken(rows, id, a, amount).value, x).Some? == GetToken(rows, x).Some?
  {
    hide Circulating, Holders, SetTokenBalance, SetToken, TokenBalance, GetToken;
    var before := TokenBalance(rows, id, a);
    BalanceWithinSupply(rows, id, a);
    assert Balanced(rows, id);
    var debited := SetTokenBalance(rows, id, a, before - amount);
    SetBalanceMoves(rows, id, a, before - amount, id);
    var t := GetToken(debited, id).value;
    var holders := if before == amount then Minus(t.holders, 1) else t.holders;
    var t' := t.(supply := Minus(t.supply, amount), holders := holders);
    var rows2 := SetToken(debited, t');
    forall x
      ensures Balanced(rows2, x) && GetToken(rows2, x).Some? == GetToken(rows, x).Some?
    {
      assert Balanced(rows, x);
      SetBalanceMoves(rows, id, a, before - amount, x);
      SetTokenMoves(debited, t', x);
    }
  }

  lemma FrameKeepsBalanced(rows: Rows, rows': Rows, touched: set<Table>)
    requires TokensBalanced(rows) && Frame(rows, rows', touched) && Tokens !in touched
    ensures TokensBalanced(rows') && forall id :: GetToken(rows', id) == GetToken(rows, id)
    ensures forall id, a :: TokenBalance(rows', id, a) == TokenBalance(rows, id, a)
  {
    forall id
      ensures Balanced(rows', id) && GetToken(rows', id) == GetToken(rows, id)
    {
      assert Balanced(rows, id);
      assert Same(rows, rows', TokenK(id));
      forall k
        ensures At(rows, k, BalanceOf(id)) == At(rows', k, BalanceOf(id))
        ensures At(rows, k, HolderOf(id)) == At(rows', k, HolderOf(id))
      {
        if k.BalanceK? {
          assert Same(rows, rows', k);
        }
      }
      SumAgrees(rows, rows', BalanceOf(id));
      SumAgrees(rows, rows', HolderOf(id));
    }
    forall id, a
      ensures TokenBalance(rows', id, a) == TokenBalance(rows, id, a)
    {
      assert Same(rows, rows', BalanceK(id, a));
    }
  }

  lemma CreateKeepsBalanced(env: Env, rows: Rows, sender: Bytes, nonce: nat, supply: nat, height: nat, p: Option<Payload>)
    requires TokensBalanced(rows) && ApplyCreate(env, rows, sender, nonce, supply, height, p).Ok?
    ensures TokensBalanced(ApplyCreate(env, rows, sender, nonce, supply, height, p).value)
  {
    hide Circulating, Holders, SetToken, CreditToken, TokenBalance, GetToken;
    var symbol := env.normalizeSymbol(p.value.symbol).value;
    var id := env.tokenId(sender, nonce, symbol);
    var token := Token(id, symbol, env.trim(p.value.name), p.value.decimals, 0, sender, p.value.mintable, height, 0);
    var rows1 := SetToken(rows, token);
    forall x
      ensures Balanced(rows1, x)
    {
      assert Balanced(rows, x);
      SetTokenMoves(rows, token, x);
    }
    SetTokenMoves(rows, token, id);
    if supply > 0 {
      CreditKeepsBalanced(rows1, id, sender, supply);
    }
  }

  lemma TransferKeepsBalanced(rows: Rows, sender: Bytes, to: Bytes, amount: nat, p: Option<Payload>)
    requires TokensBalanced(rows) && amount > 0 && ApplyTokenTransfer(rows, sender, to, amount, p).Ok?
    ensures TokensBalanced(ApplyTokenTransfer(rows, sender, to, amount, p).value)
  {
    hide CreditToken, DebitToken, GetToken;
    var t := GetToken(rows, p.value.token).value;
    assert Balanced(rows, p.value.token);
    if sender != to {
      DebitKeepsBalanced(rows, t.id, sender, amount);
      CreditKeepsBalanced(DebitToken(rows, t.id, sender, amount).value, t.id, to, amount);
    }
  }

  lemma MintKeepsBalanced(rows: Rows, sender: Bytes, to: Bytes, amount: nat, p: Option<Payload>)
    requires TokensBalanced(rows) && ApplyMint(rows, sender, to, amount, p).Ok?
    ensures TokensBalanced(ApplyMint(rows, sender, to, amount, p).value)
  {
    hide CreditToken, GetToken;
    assert Balanced(rows, p.value.token);
    CreditKeepsBalanced(rows, GetToken(rows, p.value.token).value.id, to, amount);
  }

  lemma BurnKeepsBalanced(rows: Rows, sender: Bytes, amount: nat, p: Option<Payload>)
    requires TokensBalanced(rows) && amount > 0 && ApplyBurn(rows, sender, amount, p).Ok?
    ensures TokensBalanced(ApplyBurn(rows, sender, amount, p).value)
  {
    hide DebitToken, GetToken;
    DebitKeepsBalanced(rows, GetToken(rows, p.value.token).value.id, sender, amount);
  }

  lemma TxKeepsBalanced(env: Env, rows: Rows, tx: Transaction, height: nat)
    requires TokensBalanced(rows) && ApplyTx(env, rows, tx, height).Ok?
    ensures TokensBalanced(ApplyTx(env, rows, tx, height).value.0)
  {
    hide Frame, SetAccount, GetAccount, Debit, Collected, TokensBalanced, Credit, ApplyReport, ApplyUnjail,
         ApplyCreate, ApplyMint, ApplyTokenTransfer, ApplyBurn, ApplyDeploy, ApplyCall, ApplyShielded, CheckReport;
    FrameApplyTx(env, rows, tx, height);
    var rows' := ApplyTx(env, rows, tx, height).value.0;
    var sender := env.crypto.addressOf(tx.fromPubkey).value;
    var charged := Charged(GetAccount(rows, sender), Debit(tx));
    var rows1 := SetAccount(rows, sender, charged);
    FrameSetAccount(rows, sender, charged, {Accounts});
    FrameKeepsBalanced(rows, rows1, {Accounts});
    match tx.kind
    case CreateToken => CreateKeepsBalanced(env, rows1, sender, tx.nonce, tx.amount, height, tx.payload);
    case MintToken => MintKeepsBalanced(rows1, sender, tx.to, tx.amount, tx.payload);
    case TokenTransfer => TransferKeepsBalanced(rows1, sender, tx.to, tx.amount, tx.payload);
    case BurnToken => BurnKeepsBalanced(rows1, sender, tx.amount, tx.payload);
    case _ => FrameKeepsBalanced(rows, rows', TouchedBy(tx.kind));
  }

  lemma {:induction false} TxsKeepBalanced(env: Env, rows: Rows, txs: seq<Transaction>, height: nat)
    requires TokensBalanced(rows) && ApplyTxs(env, rows, txs, height).Ok?
    ensures TokensBalanced(ApplyTxs(env, rows, txs, height).value.0)
  {
    hide TokensBalanced, ApplyTx;
    if txs != [] {
      var last := |txs| - 1;
      TxsKeepBalanced(env, rows, txs[..last], height);
      TxKeepsBalanced(env, ApplyTxs(env, rows, txs[..last], height).value.0, txs[last], height);
    }
  }

  lemma {:induction false} RunKeepsBalanced(env: Env, rows: Rows, blocks: seq<Block>)
    requires TokensBalanced(rows) && RunBlocks(env, rows, blocks).Ok?
    ensures TokensBalanced(RunBlocks(env, rows, blocks).value)
  {
    hide TokensBalanced, ApplyTxs, FinishBlock, StoreBlock, Frame;
    if blocks != [] {
      var last := |blocks| - 1;
      var b := blocks[last];
      RunKeepsBalanced(env, rows, blocks[..last]);
      var rows1 := RunBlocks(env, rows, blocks[..last]).value;
      TxsKeepBalanced(env, rows1, b.transactions, b.header.height);
      var (rows2, fees) := ApplyTxs(env, rows1, b.transactions, b.header.height).value;
      FrameFinishBlock(env, rows2, b.header.height, b.header.parentHash, b.header.producer, fees);
      var rows3 := FinishBlock(env, rows2, b.header.height, b.header.parentHash, b.header.producer, fees);
      FrameKeepsBalanced(rows2, rows3, FINISH);
      FrameStoreBlock(env, rows3, b);
      FrameKeepsBalanced(rows3, StoreBlock(env, rows3, b), {Blocks, Frames.Tip, BaseFees});
    }
  }

  lemma NoTokensAtGenesis(env: Env, alloc: seq<Alloc>, genesis: Block)
    ensures TokensBalanced(Genesis(env, alloc, genesis))
  {
    hide Frame, PutBlock, GenesisAccounts, TokensBalanced;
    NothingBalanced();
    FrameGenesisAccounts(alloc);
    FrameKeepsBalanced(map[], GenesisAccounts(alloc), {Accounts});
    FramePutBlock(GenesisAccounts(alloc), env.txHash, genesis);
    FrameKeepsBalanced(GenesisAccounts(alloc), Genesis(env, alloc, genesis), {Blocks, Frames.Tip});
  }

  lemma NothingBalanced()
    ensures TokensBalanced(map[])
  {
    forall id
      ensures Balanced(map[], id)
    {
      SumOfZeros<Key, Value>(map[], BalanceOf(id));
      SumOfZeros<Key, Value>(map[], HolderOf(id));
    }
  }

  /** On every chain, each token's recorded supply is the sum of its balances and its
      holder count the number of non-zero ones. */
  lemma TokensBalanceOnEveryRun(env: Env, alloc: seq<Alloc>, genesis: Block, blocks: seq<Block>)
    requires RunBlocks(env, Genesis(env, alloc, genesis), blocks).Ok?
    ensures TokensBalanced(RunBlocks(env, Genesis(env, alloc, genesis), blocks).value)
  {
    hide TokensBalanced, RunBlocks, Genesis;
    NoTokensAtGenesis(env, alloc, genesis);
    RunKeepsBalanced(env, Genesis(env, alloc, genesis), blocks);
  }
}
