/** The store's tables as one map of rows, and the accessors of src/state.rs.

    A key names its table and the key inside it; a value is the decoded row.
    Accessors answer with the source's default when a row is missing. */
module Tables {
  import opened Base
  import opened Types
  import opened Evidence
  import opened Order

  datatype Unbond = Unbond(amount: nat, releaseHeight: nat)

  datatype Penalties = Penalties(
    jailedUntil: nat, tombstoned: bool, slashed: nat, missedSlots: nat, missedStreak: nat,
    downtimeJails: nat, jailFault: bool, leaked: nat)

  datatype Account = Account(
    balance: nat, nonce: nat, staked: nat, unbonding: seq<Unbond>,
    rewards: nat, blocksProduced: nat, penalties: Penalties)

  const NO_PENALTIES := Penalties(0, false, 0, 0, 0, 0, false, 0)
  const NEW_ACCOUNT := Account(0, 0, 0, [], 0, 0, NO_PENALTIES)

  datatype Token = Token(
    id: Bytes, symbol: Bytes, name: Bytes, decimals: U8, supply: nat, creator: Bytes,
    mintable: bool, createdHeight: nat, holders: nat)

  datatype Contract = Contract(
    address: Bytes, codeHash: Bytes, codeSize: nat, creator: Bytes, createdHeight: nat, calls: nat)

  datatype Receipt = Receipt(contract: Bytes, caller: Bytes, ok: bool, height: nat)

  datatype SlashRecord = SlashRecord(
    id: Bytes, offence: Bytes, offender: Bytes, offenceHeight: nat, appliedHeight: nat,
    burned: nat, bounty: nat, reporter: Bytes, tombstoned: bool, jailedUntil: nat)

  datatype Block = Block(header: Header, transactions: seq<Transaction>)

  datatype Key =
    | AccountK(address: Bytes)
    | StakerK(address: Bytes)
    | TokenK(id: Bytes)
    | BalanceK(token: Bytes, address: Bytes)
    | ContractK(address: Bytes)
    | CodeK(hash: Bytes)
    | StorageK(address: Bytes, slot: Bytes)
    | ReceiptK(hash: Bytes)
    | SlashK(id: Bytes)
    | LeafK(position: nat)
    | NullifierK(nullifier: Bytes)
    | RootK(root: Bytes)
    | BlockK(height: nat)
    | TxK(hash: Bytes)
    | TipHeightK | TipHashK | BaseFeeK | PoolK | VerifyingKeyK | SealedCountK | FinalizedK
    // What the Merkle tree holds under its three shielded leaves.
    | SealK

  datatype Value =
    | AccountV(account: Account)
    | MarkV
    | TokenV(token: Token)
    | AmountV(amount: nat)
    | ContractV(contract: Contract)
    | BytesV(bytes: Bytes)
    | ReceiptV(receipt: Receipt)
    | SlashV(slash: SlashRecord)
    | BlockV(block: Block)
    | SealV(root: Bytes, pool: nat, nulls: Bytes)

  type Rows = map<Key, Value>

  /** Both hold the same row under `k`, or neither does. */
  ghost predicate Same(rows: Rows, rows': Rows, k: Key) {
    (k in rows <==> k in rows') && (k in rows ==> rows[k] == rows'[k])
  }

  // ---- accounts ----

  function GetAccount(rows: Rows, a: Bytes): Account {
    if AccountK(a) in rows && rows[AccountK(a)].AccountV? then rows[AccountK(a)].account else NEW_ACCOUNT
  }

  predicate Bonded(acct: Account) {
    acct.staked > 0 || acct.unbonding != []
  }

  function SetAccount(rows: Rows, a: Bytes, acct: Account): Rows {
    var written := rows[AccountK(a) := AccountV(acct)];
    if Bonded(acct) then written[StakerK(a) := MarkV] else written - {StakerK(a)}
  }

  function UnbondingTotal(us: seq<Unbond>): nat {
    if us == [] then 0 else us[0].amount + UnbondingTotal(us[1..])
  }

  lemma {:induction false} UnbondingSnoc(us: seq<Unbond>)
    requires us != []
    ensures UnbondingTotal(us) == UnbondingTotal(us[..|us| - 1]) + us[|us| - 1].amount
  {
    if |us| > 1 {
      UnbondingSnoc(us[1..]);
      assert us[1..][..|us| - 2] == us[..|us| - 1][1..];
    } else {
      assert us[1..] == [] && us[..0] == [];
    }
  }

  lemma UnbondingAppend(us: seq<Unbond>, u: Unbond)
    ensures UnbondingTotal(us + [u]) == UnbondingTotal(us) + u.amount
  {
    UnbondingSnoc(us + [u]);
    assert (us + [u])[..|us|] == us;
  }

  function Stakers(rows: Rows): set<Bytes> {
    set k | k in rows && k.StakerK? :: k.address
  }

  ghost function StakerList(rows: Rows): seq<Bytes> {
    SortedKeys(Stakers(rows))
  }

  // ---- tokens ----

  function GetToken(rows: Rows, id: Bytes): Option<Token> {
    if TokenK(id) in rows && rows[TokenK(id)].TokenV? then Some(rows[TokenK(id)].token) else None
  }

  function SetToken(rows: Rows, t: Token): Rows {
    rows[TokenK(t.id) := TokenV(t)]
  }

  function GetAmount(rows: Rows, k: Key): nat {
    if k in rows && rows[k].AmountV? then rows[k].amount else 0
  }

  function TokenBalance(rows: Rows, token: Bytes, a: Bytes): nat {
    GetAmount(rows, BalanceK(token, a))
  }

  function SetTokenBalance(rows: Rows, token: Bytes, a: Bytes, amount: nat): Rows {
    if amount == 0 then rows - {BalanceK(token, a)} else rows[BalanceK(token, a) := AmountV(amount)]
  }

  /** Balance, supply and holder count after `amount` units appear at `a`; both additions are checked. */
  function CreditToken(rows: Rows, id: Bytes, a: Bytes, amount: nat): Result<Rows> {
    var before := TokenBalance(rows, id, a);
    if before + amount > U128_MAX then Err("token balance overflow") else
      match GetToken(rows, id)
      case None => Ok(SetTokenBalance(rows, id, a, before + amount))
      case Some(t) =>
        if t.supply + amount > U128_MAX then Err("token supply overflow") else
          var holders := if before == 0 && amount > 0 then t.holders + 1 else t.holders;
          Ok(SetTokenBalance(SetToken(rows, t.(supply := t.supply + amount, holders := holders)),
                             id, a, before + amount))
  }

  function Minus(x: nat, y: nat): nat {
    if y <= x then x - y else 0
  }

  /** Balance, supply and holder count after `amount` units disappear from `a`. */
  function DebitToken(rows: Rows, id: Bytes, a: Bytes, amount: nat): Result<Rows> {
    var before := TokenBalance(rows, id, a);
    if before < amount then Err("insufficient token balance") else
      var debited := SetTokenBalance(rows, id, a, before - amount);
      match GetToken(debited, id)
      case None => Ok(debited)
      case Some(t) =>
        var holders := if before == amount then Minus(t.holders, 1) else t.holders;
        Ok(SetToken(debited, t.(supply := Minus(t.supply, amount), holders := holders)))
  }

  // ---- contracts ----

  function GetContract(rows: Rows, a: Bytes): Option<Contract> {
    if ContractK(a) in rows && rows[ContractK(a)].ContractV? then Some(rows[ContractK(a)].contract) else None
  }

  function SetContract(rows: Rows, c: Contract): Rows {
    rows[ContractK(c.address) := ContractV(c)]
  }

  function GetBytes(rows: Rows, k: Key): Option<Bytes> {
    if k in rows && rows[k].BytesV? then Some(rows[k].bytes) else None
  }

  /** The storage of one contract, by slot. */
  function ContractStorage(rows: Rows, a: Bytes): map<Bytes, Bytes> {
    map k | k in rows && k.StorageK? && k.address == a && rows[k].BytesV? :: k.slot := rows[k].bytes
  }

  function SetStorage(rows: Rows, a: Bytes, slot: Bytes, value: Option<Bytes>): Rows {
    match value
    case None => rows - {StorageK(a, slot)}
    case Some(v) => rows[StorageK(a, slot) := BytesV(v)]
  }

  // ---- slashes ----

  predicate SlashKnown(rows: Rows, id: Bytes) {
    SlashK(id) in rows && rows[SlashK(id)].SlashV?
  }

  function PutSlash(rows: Rows, r: SlashRecord): Rows {
    rows[SlashK(r.id) := SlashV(r)]
  }

  // ---- shielded pool ----

  function LeafKeys(rows: Rows): set<Key> {
    set k | k in rows && k.LeafK?
  }

  /** The next leaf's position is the number of leaves stored. */
  function LeafCount(rows: Rows): nat {
    |LeafKeys(rows)|
  }

  function AppendLeaf(rows: Rows, commitment: Bytes): Rows {
    rows[LeafK(LeafCount(rows)) := BytesV(commitment)]
  }

  function CommitmentAt(rows: Rows, i: nat): Bytes {
    match GetBytes(rows, LeafK(i))
    case None => ""
    case Some(c) => c
  }

  /** All commitments, in position order. */
  function ShieldedLeaves(rows: Rows): seq<Bytes> {
    seq(LeafCount(rows), (i: int) requires 0 <= i => CommitmentAt(rows, i))
  }

  predicate NullifierSeen(rows: Rows, nf: Bytes) {
    NullifierK(nf) in rows
  }

  function BurnNullifier(rows: Rows, nf: Bytes, height: nat): Rows {
    rows[NullifierK(nf) := AmountV(height)]
  }

  function Nullifiers(rows: Rows): map<Bytes, nat> {
    map k | k in rows && k.NullifierK? && rows[k].AmountV? :: k.nullifier := rows[k].amount
  }

  predicate RootKnown(rows: Rows, root: Bytes) {
    RootK(root) in rows
  }

  function PoolBalance(rows: Rows): nat {
    GetAmount(rows, PoolK)
  }

  // ---- chain ----

  function Tip(rows: Rows): Option<nat> {
    if TipHeightK in rows && rows[TipHeightK].AmountV? then Some(rows[TipHeightK].amount) else None
  }

  function TipHash(rows: Rows): Bytes {
    match GetBytes(rows, TipHashK)
    case None => ""
    case Some(h) => h
  }

  /** Height of the block being executed on top of the tip. */
  function NextHeight(rows: Rows): nat {
    match Tip(rows)
    case None => 1
    case Some(h) => h + 1
  }

  function IndexTxs(rows: Rows, txHash: Transaction -> Bytes, txs: seq<Transaction>, height: nat): Rows {
    if txs == [] then rows else
      var last := |txs| - 1;
      IndexTxs(rows, txHash, txs[..last], height)[TxK(txHash(txs[last])) := AmountV(height)]
  }

  function PutBlock(rows: Rows, txHash: Transaction -> Bytes, b: Block): Rows {
    var h := b.header.height;
    var indexed := IndexTxs(rows[BlockK(h) := BlockV(b)], txHash, b.transactions, h);
    indexed[TipHeightK := AmountV(h)][TipHashK := BytesV(b.header.hash)]
  }
}
