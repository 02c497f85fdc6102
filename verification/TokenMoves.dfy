/** Who may move native tokens, and where they go (src/tokens.rs). */
module TokenMoves {
  import opened Base
  import opened Types
  import opened Tables
  import opened Ledger
  import opened Frames
  import opened Books
  import opened TokenBooks

  // ---- what a transaction says ----

  function TokenOf(tx: Transaction): Option<Bytes> {
    match tx.payload
    case None => None
    case Some(p) => Some(p.token)
  }

  /** The token a creation makes. */
  function CreatedId(env: Env, tx: Transaction, sender: Bytes): Option<Bytes> {
    match tx.payload
    case None => None
    case Some(p) =>
      match env.normalizeSymbol(p.symbol)
      case None => None
      case Some(symbol) => Some(env.tokenId(sender, tx.nonce, symbol))
  }

  function UnitsIn(env: Env, tx: Transaction, sender: Bytes, id: Bytes, a: Bytes): nat {
    match tx.kind
    case CreateToken => if CreatedId(env, tx, sender) == Some(id) && a == sender then tx.amount else 0
    case MintToken => if TokenOf(tx) == Some(id) && a == tx.to then tx.amount else 0
    case TokenTransfer => if TokenOf(tx) == Some(id) && a == tx.to then tx.amount else 0
    case _ => 0
  }

  function UnitsOut(tx: Transaction, sender: Bytes, id: Bytes, a: Bytes): nat {
    match tx.kind
    case TokenTransfer => if TokenOf(tx) == Some(id) && a == sender then tx.amount else 0
    case BurnToken => if TokenOf(tx) == Some(id) && a == sender then tx.amount else 0
    case _ => 0
  }

  function Supply(rows: Rows, id: Bytes): nat {
    match GetToken(rows, id)
    case None => 0
    case Some(t) => t.supply
  }

  /** A registry entry but for what circulation changes. */
  function Terms(t: Token): Token {
    t.(supply := 0, holders := 0)
  }

  function TermsOf(rows: Rows, id: Bytes): Option<Token> {
    match GetToken(rows, id)
    case None => None
    case Some(t) => Some(Terms(t))
  }

  // ---- one credit or debit ----

  lemma CreditMoves(rows: Rows, id: Bytes, to: Bytes, amount: nat, x: Bytes, a: Bytes)
    requires TokensBalanced(rows) && GetToken(rows, id).Some? && CreditToken(rows, id, to, amount).Ok?
    ensures var rows' := CreditToken(rows, id, to, amount).value;
      && TokenBalance(rows', x, a) == TokenBalance(rows, x, a) + (if x == id && a == to then amount else 0)
      && Supply(rows', x) == Supply(rows, x) + (if x == id then amount else 0)
      && TermsOf(rows', x) == TermsOf(rows, x)
  {
    hide Circulating, Holders;
    assert Balanced(rows, id);
  }

  lemma DebitMoves(rows: Rows, id: Bytes, from: Bytes, amount: nat, x: Bytes, a: Bytes)
    requires TokensBalanced(rows) && GetToken(rows, id).Some? && DebitToken(rows, id, from, amount).Ok?
    ensures var rows' := DebitToken(rows, id, from, amount).value;
      && TokenBalance(rows', x, a) + (if x == id && a == from then amount else 0) == TokenBalance(rows, x, a)
      && Supply(rows', x) + (if x == id then amount else 0) == Supply(rows, x)
      && TermsOf(rows', x) == TermsOf(rows, x)
  {
    hide Circulating, Holders;
    assert Balanced(rows, id);
    BalanceWithinSupply(rows, id, from);
  }

  // ---- one transaction ----

  /** Token `id` and its balance at `a` before and after. */
  ghost predicate UnitsMove(env: Env, tx: Transaction, sender: Bytes, height: nat, rows: Rows, rows': Rows, id: Bytes, a: Bytes) {
    && TokenBalance(rows', id, a) + UnitsOut(tx, sender, id, a)
       == TokenBalance(rows, id, a) + UnitsIn(env, tx, sender, id, a)
    && Supply(rows', id) + (if tx.kind.BurnToken? && TokenOf(tx) == Some(id) then tx.amount else 0)
       == Supply(rows, id) + (if (tx.kind.MintToken? && TokenOf(tx) == Some(id))
                                 || (tx.kind.CreateToken? && CreatedId(env, tx, sender) == Some(id)) then tx.amount else 0)
    && (tx.kind.MintToken? && TokenOf(tx) == Some(id) ==>
          GetToken(rows, id).Some? && GetToken(rows, id).value.creator == sender && GetToken(rows, id).value.mintable)
    && (if tx.kind.CreateToken? && CreatedId(env, tx, sender) == Some(id) then
          && GetToken(rows, id).None? && TermsOf(rows', id).Some?
          && var t := TermsOf(rows', id).value;
             && t.id == id && t.creator == sender && t.createdHeight == height
             && t.mintable == tx.payload.value.mintable && t.decimals == tx.payload.value.decimals
             && Some(t.symbol) == env.normalizeSymbol(tx.payload.value.symbol) && t.name == env.trim(tx.payload.value.name)
        else TermsOf(rows', id) == TermsOf(rows, id))
  }

  lemma CreateMoves(env: Env, rows: Rows, sender: Bytes, tx: Transaction, height: nat, id: Bytes, a: Bytes)
    requires TokensBalanced(rows) && tx.kind.CreateToken?
    requires ApplyCreate(env, rows, sender, tx.nonce, tx.amount, height, tx.payload).Ok?
    ensures UnitsMove(env, tx, sender, height, rows,
                      ApplyCreate(env, rows, sender, tx.nonce, tx.amount, height, tx.payload).value, id, a)
  {
    hide Circulating, Holders, CreditToken;
    var p := tx.payload.value;
    var symbol := env.normalizeSymbol(p.symbol).value;
    var made := env.tokenId(sender, tx.nonce, symbol);
    var token := Token(made, symbol, env.trim(p.name), p.decimals, 0, sender, p.mintable, height, 0);
    var rows1 := SetToken(rows, token);
    RegisteredStaysBalanced(rows, token);
    assert TermsOf(rows1, id) == if id == made then Some(token) else TermsOf(rows, id);
    assert Supply(rows1, id) == if id == made then 0 else Supply(rows, id);
    if tx.amount > 0 {
      CreditMoves(rows1, made, sender, tx.amount, id, a);
    }
  }

  lemma RegisteredStaysBalanced(rows: Rows, t: Token)
    requires TokensBalanced(rows) && GetToken(rows, t.id).None? && t.supply == 0 && t.holders == 0
    ensures TokensBalanced(SetToken(rows, t))
  {
    hide Circulating, Holders, SetToken, TokenBalance, GetToken;
    forall x
      ensures Balanced(SetToken(rows, t), x)
    {
      assert Balanced(rows, x);
      SetTokenMoves(rows, t, x);
    }
  }

  lemma TransferMoves(env: Env, rows: Rows, sender: Bytes, tx: Transaction, height: nat, id: Bytes, a: Bytes)
    requires TokensBalanced(rows) && tx.kind.TokenTransfer? && tx.amount > 0
    requires ApplyTokenTransfer(rows, sender, tx.to, tx.amount, tx.payload).Ok?
    ensures UnitsMove(env, tx, sender, height, rows, ApplyTokenTransfer(rows, sender, tx.to, tx.amount, tx.payload).value, id, a)
  {
    hide Circulating, Holders, CreditToken, DebitToken, TokenBalance, GetToken;
    assert Balanced(rows, tx.payload.value.token);
    var t := GetToken(rows, tx.payload.value.token).value;
    if sender != tx.to {
      DebitMoves(rows, t.id, sender, tx.amount, id, a);
      DebitKeepsBalanced(rows, t.id, sender, tx.amount);
      CreditMoves(DebitToken(rows, t.id, sender, tx.amount).value, t.id, tx.to, tx.amount, id, a);
    }
  }

  lemma MintMoves(env: Env, rows: Rows, sender: Bytes, tx: Transaction, height: nat, id: Bytes, a: Bytes)
    requires TokensBalanced(rows) && tx.kind.MintToken? && ApplyMint(rows, sender, tx.to, tx.amount, tx.payload).Ok?
    ensures UnitsMove(env, tx, sender, height, rows, ApplyMint(rows, sender, tx.to, tx.amount, tx.payload).value, id, a)
  {
    hide Circulating, Holders, CreditToken, TokenBalance, GetToken;
    assert Balanced(rows, tx.payload.value.token);
    var t := GetToken(rows, tx.payload.value.token).value;
    CreditMoves(rows, t.id, tx.to, tx.amount, id, a);
  }

  lemma BurnMoves(env: Env, rows: Rows, sender: Bytes, tx: Transaction, height: nat, id: Bytes, a: Bytes)
    requires TokensBalanced(rows) && tx.kind.BurnToken? && ApplyBurn(rows, sender, tx.amount, tx.payload).Ok?
    ensures UnitsMove(env, tx, sender, height, rows, ApplyBurn(rows, sender, tx.amount, tx.payload).value, id, a)
  {
    hide Circulating, Holders, DebitToken, TokenBalance, GetToken;
    assert Balanced(rows, tx.payload.value.token);
    var t := GetToken(rows, tx.payload.value.token).value;
    DebitMoves(rows, t.id, sender, tx.amount, id, a);
  }

  lemma UnitsSame(
      env: Env, tx: Transaction, sender: Bytes, height: nat, rows: Rows, rows1: Rows, rows': Rows, id: Bytes, a: Bytes)
    requires UnitsMove(env, tx, sender, height, rows1, rows', id, a)
    requires GetToken(rows1, id) == GetToken(rows, id) && TokenBalance(rows1, id, a) == TokenBalance(rows, id, a)
    ensures UnitsMove(env, tx, sender, height, rows, rows', id, a)
  {
  }

  /** In tables whose books balance, an accepted transaction moves every token balance and
      every supply as it says. Only a creation makes a token, and it is the sender's; only the
      creator of a mintable token adds to its supply; nothing changes a token's terms. */
  lemma TxMovesTokens(env: Env, rows: Rows, tx: Transaction, height: nat, id: Bytes, a: Bytes)
    requires TokensBalanced(rows) && ApplyTx(env, rows, tx, height).Ok?
    ensures SenderOf(env, tx).Some?
    ensures UnitsMove(env, tx, SenderOf(env, tx).value, height, rows, ApplyTx(env, rows, tx, height).value.0, id, a)
  {
    hide Frame, SetAccount, GetAccount, Debit, Collected, TokensBalanced, Credit, ApplyReport, ApplyUnjail,
         ApplyCreate, ApplyMint, ApplyTokenTransfer, ApplyBurn, ApplyDeploy, ApplyCall, ApplyShielded, CheckReport,
         UnitsMove, TokenBalance, GetToken;
    var rows' := ApplyTx(env, rows, tx, height).value.0;
    var sender := SenderOf(env, tx).value;
    var charged := Charged(GetAccount(rows, sender), Debit(tx));
    var rows1 := SetAccount(rows, sender, charged);
    FrameSetAccount(rows, sender, charged, {Accounts});
    FrameKeepsBalanced(rows, rows1, {Accounts});
    match tx.kind
    case CreateToken =>
      CreateMoves(env, rows1, sender, tx, height, id, a);
      UnitsSame(env, tx, sender, height, rows, rows1, rows', id, a);
    case MintToken =>
      MintMoves(env, rows1, sender, tx, height, id, a);
      UnitsSame(env, tx, sender, height, rows, rows1, rows', id, a);
    case TokenTransfer =>
      TransferMoves(env, rows1, sender, tx, height, id, a);
      UnitsSame(env, tx, sender, height, rows, rows1, rows', id, a);
    case BurnToken =>
      BurnMoves(env, rows1, sender, tx, height, id, a);
      UnitsSame(env, tx, sender, height, rows, rows1, rows', id, a);
    case _ =>
      FrameApplyTx(env, rows, tx, height);
      FrameKeepsBalanced(rows, rows', TouchedBy(tx.kind));
      NoUnitsMove(env, tx, sender, height, rows, rows', id, a);
  }

  lemma NoUnitsMove(env: Env, tx: Transaction, sender: Bytes, height: nat, rows: Rows, rows': Rows, id: Bytes, a: Bytes)
    requires !tx.kind.CreateToken? && !tx.kind.MintToken? && !tx.kind.TokenTransfer? && !tx.kind.BurnToken?
    requires GetToken(rows', id) == GetToken(rows, id) && TokenBalance(rows', id, a) == TokenBalance(rows, id, a)
    ensures UnitsMove(env, tx, sender, height, rows, rows', id, a)
  {
  }

  // ---- over whole chains ----

  /** What the creator of `id`, and only its creator, minted. */
  function MintedBy(env: Env, txs: seq<Transaction>, id: Bytes, creator: Bytes): nat {
    if txs == [] then 0 else
      var tx := txs[|txs| - 1];
      MintedBy(env, txs[..|txs| - 1], id, creator) +
      if tx.kind.MintToken? && TokenOf(tx) == Some(id) && SenderOf(env, tx) == Some(creator) then tx.amount else 0
  }

  function BurnedUnits(txs: seq<Transaction>, id: Bytes): nat {
    if txs == [] then 0 else
      var tx := txs[|txs| - 1];
      BurnedUnits(txs[..|txs| - 1], id) + if tx.kind.BurnToken? && TokenOf(tx) == Some(id) then tx.amount else 0
  }

  /** The token keeps its terms, and its supply is what it was plus what its creator minted,
      which is nothing if it is not mintable, minus what was burned. */
  ghost predicate SupplyFollows(env: Env, rows': Rows, txs: seq<Transaction>, id: Bytes, t: Token) {
    && TermsOf(rows', id) == Some(Terms(t))
    && Supply(rows', id) + BurnedUnits(txs, id) == t.supply + MintedBy(env, txs, id, t.creator)
    && (!t.mintable ==> MintedBy(env, txs, id, t.creator) == 0)
  }

  lemma TxSupplyFollows(env: Env, rows: Rows, txs: seq<Transaction>, tx: Transaction, height: nat, id: Bytes, t: Token)
    requires TokensBalanced(rows) && SupplyFollows(env, rows, txs, id, t) && ApplyTx(env, rows, tx, height).Ok?
    ensures SupplyFollows(env, ApplyTx(env, rows, tx, height).value.0, txs + [tx], id, t)
  {
    hide ApplyTx, TokensBalanced, TokenBalance;
    TxMovesTokens(env, rows, tx, height, id, "");
    assert (txs + [tx])[..|txs|] == txs;
  }

  lemma {:induction false} TxsSupplyFollows(
      env: Env, rows: Rows, past: seq<Transaction>, txs: seq<Transaction>, height: nat, id: Bytes, t: Token)
    requires TokensBalanced(rows) && SupplyFollows(env, rows, past, id, t) && ApplyTxs(env, rows, txs, height).Ok?
    ensures SupplyFollows(env, ApplyTxs(env, rows, txs, height).value.0, past + txs, id, t)
  {
    hide ApplyTx, TokensBalanced, SupplyFollows;
    if txs == [] {
      assert past + txs == past;
    } else {
      var last := |txs| - 1;
      TxsSupplyFollows(env, rows, past, txs[..last], height, id, t);
      TxsKeepBalanced(env, rows, txs[..last], height);
      TxSupplyFollows(env, ApplyTxs(env, rows, txs[..last], height).value.0, past + txs[..last], txs[last], height, id, t);
      assert past + txs == (past + txs[..last]) + [txs[last]];
    }
  }

  lemma FrameSupplyFollows(
      env: Env, rows: Rows, rows': Rows, touched: set<Table>, txs: seq<Transaction>, id: Bytes, t: Token)
    requires SupplyFollows(env, rows, txs, id, t) && Frame(rows, rows', touched) && Tokens !in touched
    ensures SupplyFollows(env, rows', txs, id, t)
  {
    FrameSame(rows, rows', touched, TokenK(id));
  }

  /** Over every run of blocks a token keeps its terms, and its supply changes only by its
      own creator's mints and by burns; a fixed supply never grows. */
  lemma {:induction false} SupplyIsItsCreators(env: Env, rows: Rows, blocks: seq<Block>, id: Bytes)
    requires TokensBalanced(rows) && GetToken(rows, id).Some? && RunBlocks(env, rows, blocks).Ok?
    ensures SupplyFollows(env, RunBlocks(env, rows, blocks).value, AllTxs(blocks), id, GetToken(rows, id).value)
  {
    hide TokensBalanced, ApplyTxs, FinishBlock, StoreBlock, Frame, SupplyFollows;
    var t := GetToken(rows, id).value;
    if blocks == [] {
      assert SupplyFollows(env, rows, [], id, t) by { NothingFollows(env, rows, id); }
    } else {
      var last := |blocks| - 1;
      var b := blocks[last];
      SupplyIsItsCreators(env, rows, blocks[..last], id);
      RunKeepsBalanced(env, rows, blocks[..last]);
      var rows1, past := RunBlocks(env, rows, blocks[..last]).value, AllTxs(blocks[..last]);
      TxsSupplyFollows(env, rows1, past, b.transactions, b.header.height, id, t);
      var (rows2, fees) := ApplyTxs(env, rows1, b.transactions, b.header.height).value;
      FrameFinishBlock(env, rows2, b.header.height, b.header.parentHash, b.header.producer, fees);
      var rows3 := FinishBlock(env, rows2, b.header.height, b.header.parentHash, b.header.producer, fees);
      FrameSupplyFollows(env, rows2, rows3, FINISH, past + b.transactions, id, t);
      FrameStoreBlock(env, rows3, b);
      FrameSupplyFollows(env, rows3, StoreBlock(env, rows3, b), {Blocks, Frames.Tip, BaseFees}, past + b.transactions, id, t);
    }
  }

  lemma NothingFollows(env: Env, rows: Rows, id: Bytes)
    requires GetToken(rows, id).Some?
    ensures SupplyFollows(env, rows, [], id, GetToken(rows, id).value)
  {
  }
}
