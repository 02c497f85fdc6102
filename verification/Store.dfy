/** The chain database (src/state.rs): tables and Merkle nodes written through one
    journal, so a savepoint covers both. */
module Store {
  import opened Base
  import opened Journal
  import opened Order
  import opened SparseTree
  import opened Types
  import opened Tables
  import opened MerkleState

  const STATE_ROOT_V2_ACTIVATION_HEIGHT: nat := 200_000

  /** A root as text, never empty. */
  type RootText = s: Bytes | s != "" witness "0"

  /** SHA-256, its hex spelling, and the full-state digest of pre-upgrade history. */
  datatype Hashing = Hashing(sha: Sha, hex: Digest -> RootText, digest: (Rows, nat) -> RootText)

  /** The rows the full-state digest covers, besides the pool balance. */
  function Digested(rows: Rows): Rows {
    map k | k in rows && ((HasLeaf(k) && k != SealK) || k.LeafK? || k.NullifierK?) :: rows[k]
  }

  function LegacyRoot(h: Hashing, rows: Rows): RootText {
    h.digest(Digested(rows), PoolBalance(rows))
  }

  /** The state root of these tables at `height`, computed from scratch. */
  ghost function StateRootAt(h: Hashing, rows: Rows, height: nat): RootText {
    if height < STATE_ROOT_V2_ACTIVATION_HEIGHT then LegacyRoot(h, rows) else h.hex(TableRoot(h.sha, rows))
  }

  /** The node table is the tree of `leaves`, and the leaves, but for the `late` ones,
      are those of the rows unless two of the leaves ever written share a path. */
  ghost predicate Pending(sha: Sha, rows: Rows, nodes: Nodes, leaves: Leaves, names: set<LeafName>, late: set<LeafName>) {
    TreeOk(sha, nodes, leaves) && (NoClash(sha, names) ==> Tracks(sha, rows, leaves, names, late))
  }

  ghost predicate Consistent(sha: Sha, rows: Rows, nodes: Nodes, leaves: Leaves, names: set<LeafName>) {
    Pending(sha, rows, nodes, leaves, names, {})
  }

  function Written(rows: Rows, k: Key, v: Option<Value>): Rows {
    match v
    case None => rows - {k}
    case Some(value) => rows[k := value]
  }

  lemma ConsistentWider(sha: Sha, rows: Rows, nodes: Nodes, leaves: Leaves, names: set<LeafName>, more: set<LeafName>)
    requires Consistent(sha, rows, nodes, leaves, names) && names <= more
    requires forall x :: x in more ==> Proper(x)
    ensures Consistent(sha, rows, nodes, leaves, more)
  {
    hide TreeOk, Tracks, Proper;
    if NoClash(sha, more) {
      NoClashSubset(sha, names, more);
      TracksWider(sha, rows, leaves, names, more);
    }
  }

  lemma RowPending(sha: Sha, rows: Rows, k: Key, v: Option<Value>, nodes: Nodes, leaves: Leaves, names: set<LeafName>)
    requires Consistent(sha, rows, nodes, leaves, names)
    ensures Pending(sha, Written(rows, k, v), nodes, leaves, names, NameSet(k))
  {
    hide TreeOk, Tracks;
    if NoClash(sha, names) {
      assert Written(rows, k, v) - {k} == rows - {k};
      RowWritten(sha, rows, Written(rows, k, v), k, leaves, names);
    }
  }

  lemma LeafPending(sha: Sha, rows: Rows, nodes: Nodes, leaves: Leaves, names: set<LeafName>, late: set<LeafName>, x: LeafName)
    requires Pending(sha, rows, nodes, leaves, names, late) && x in late && Proper(x)
    ensures var path, hash := NamePath(sha, x), NameHash(sha, rows, x);
            Pending(sha, rows, SetLeaf(sha, nodes, path, hash), leaves[path := hash], names + {x}, late - {x})
  {
    hide TreeOk, Tracks, Proper, NamePath, NameHash, SetLeaf;
    SetLeafOk(sha, nodes, leaves, NamePath(sha, x), NameHash(sha, rows, x));
    if NoClash(sha, names + {x}) {
      NoClashSubset(sha, names, names + {x});
      LeafSet(sha, rows, leaves, names, late, x);
    }
  }

  ghost function Rest(todo: seq<LeafName>, i: nat): set<LeafName>
    requires i <= |todo|
  {
    set x | x in todo[i..]
  }

  lemma RestStep(k: Key, i: nat)
    requires i < |NamesOf(k)|
    ensures NamesOf(k)[i] in Rest(NamesOf(k), i) && Proper(NamesOf(k)[i])
    ensures Rest(NamesOf(k), i + 1) == Rest(NamesOf(k), i) - {NamesOf(k)[i]}
  {
    var todo := NamesOf(k);
    assert todo[i..] == [todo[i]] + todo[i + 1..];
    assert todo[i] !in todo[i + 1..];
  }

  /** The open savepoints: what each would restore, innermost last. */
  type Stack = (seq<Rows>, seq<Nodes>, seq<Leaves>)

  ghost function Pushed(s: Stack, rows: Rows, nodes: Nodes, leaves: Leaves): Stack {
    (s.0 + [rows], s.1 + [nodes], s.2 + [leaves])
  }

  ghost function DropLast<T>(s: seq<T>): seq<T> {
    if s == [] then [] else s[..|s| - 1]
  }

  ghost function Popped(s: Stack): Stack {
    (DropLast(s.0), DropLast(s.1), DropLast(s.2))
  }

  /** What closing the innermost savepoint by rollback brings back. */
  ghost function Top(s: Stack): (Rows, Nodes, Leaves)
    requires s.0 != [] && s.1 != [] && s.2 != []
  {
    (s.0[|s.0| - 1], s.1[|s.1| - 1], s.2[|s.2| - 1])
  }

  lemma PushThenPop(s: Stack, rows: Rows, nodes: Nodes, leaves: Leaves)
    ensures var s' := Pushed(s, rows, nodes, leaves);
            Popped(s') == s && Top(s') == (rows, nodes, leaves)
  {
  }

  // ---- rebuilding ----

  ghost function LeavesOf(keys: set<Key>): set<LeafName> {
    set k, x | k in keys && x in NamesOf(k) :: x
  }

  lemma LeavesOfOne(keys: set<Key>, k: Key)
    requires k in keys && HasLeaf(k) && k != SealK
    ensures LeafName(k, 0) in LeavesOf(keys) && Proper(LeafName(k, 0))
    ensures LeavesOf(keys - {k}) == LeavesOf(keys) - {LeafName(k, 0)}
  {
    assert NamesOf(k) == [LeafName(k, 0)] && LeafName(k, 0) in NamesOf(k);
  }

  lemma NoLeaves()
    ensures LeavesOf({}) == {}
  {
  }

  lemma LeavesOfAll(rows: Rows)
    ensures LeavesOf(set k | k in rows && HasLeaf(k)) == LiveNames(rows)
  {
  }

  /** Over a cleared tree every live leaf is late. */
  lemma StartPending(sha: Sha, rows: Rows)
    ensures Pending(sha, rows, map[], map[], {}, LiveNames(rows))
  {
    EmptyTreeOk(sha);
    forall x | Proper(x) && x !in LiveNames(rows)
      ensures x.key !in rows
    {
      assert x in NamesOf(x.key);
    }
  }

  class Database {
    const hashing: Hashing
    const rows: Journaled<Key, Value>
    const nodes: Journaled<NodeKey, Digest>
    /** The leaves the node table hashes, now and at each open savepoint. */
    ghost var leaves: Leaves
    ghost var saved: seq<Leaves>
    /** Every leaf ever written; a rollback does not shrink it. */
    ghost var names: set<LeafName>

    ghost predicate Valid()
      reads this, rows, nodes
    {
      && rows as object != nodes as object
      && rows.Valid() && nodes.Valid()
      && |rows.copies| == |saved| && |nodes.copies| == |saved|
      && (forall x :: x in names ==> Proper(x))
      && Consistent(hashing.sha, rows.table, nodes.table, leaves, names)
      && forall i :: 0 <= i < |saved| ==> Consistent(hashing.sha, rows.copies[i], nodes.copies[i], saved[i], names)
    }

    ghost function Savepoints(): Stack
      reads this, rows, nodes
    {
      (rows.copies, nodes.copies, saved)
    }

    constructor (hashing: Hashing)
      ensures Valid() && fresh(rows) && fresh(nodes) && this.hashing == hashing
      ensures rows.table == map[] && saved == [] && names == {}
    {
      this.hashing := hashing;
      rows := new Journaled();
      nodes := new Journaled();
      leaves, saved, names := map[], [], {};
      new;
      EmptyTreeOk(hashing.sha);
    }

    method Begin()
      requires Valid()
      modifies this`saved, rows, nodes
      ensures Valid() && rows.table == old(rows.table) && nodes.table == old(nodes.table)
      ensures Savepoints() == Pushed(old(Savepoints()), rows.table, nodes.table, leaves)
    {
      hide Pending, Proper;
      rows.BeginFrame();
      nodes.BeginFrame();
      saved := saved + [leaves];
    }

    method Commit()
      requires Valid() && saved != []
      modifies this`saved, rows, nodes
      ensures Valid() && rows.table == old(rows.table) && nodes.table == old(nodes.table)
      ensures Savepoints() == Popped(old(Savepoints()))
    {
      hide Pending, Proper;
      rows.CommitFrame();
      nodes.CommitFrame();
      saved := saved[..|saved| - 1];
    }

    method Abort()
      requires Valid() && rows.copies != [] && nodes.copies != [] && saved != []
      modifies this`saved, this`leaves, rows, nodes
      ensures Valid() && Savepoints() == Popped(old(Savepoints()))
      ensures (rows.table, nodes.table, leaves) == Top(old(Savepoints()))
    {
      hide Pending, Proper;
      rows.RollbackFrame();
      nodes.RollbackFrame();
      leaves := saved[|saved| - 1];
      saved := saved[..|saved| - 1];
    }

    /** Recompute one leaf from the tables. */
    method Refresh(x: LeafName, ghost late: set<LeafName>)
      requires nodes.Valid() && rows as object != nodes as object && x in late && Proper(x)
      requires Pending(hashing.sha, rows.table, nodes.table, leaves, names, late)
      modifies this`leaves, this`names, nodes`table, nodes`frames
      ensures nodes.Valid() && |nodes.frames| == |old(nodes.frames)| && names == old(names) + {x}
      ensures Pending(hashing.sha, rows.table, nodes.table, leaves, names, late - {x})
    {
      hide Pending, Proper, NamePath, NameHash, SetLeaf, Refines;
      var path, hash := NamePath(hashing.sha, x), NameHash(hashing.sha, rows.table, x);
      LeafPending(hashing.sha, rows.table, nodes.table, leaves, names, late, x);
      Set(hashing.sha, nodes, path, hash);
      leaves, names := leaves[path := hash], names + {x};
    }

    /** Journal one row write and bring the leaves it feeds up to date. */
    method Write(k: Key, v: Option<Value>)
      requires Valid()
      modifies this`leaves, this`names, rows`table, rows`frames, nodes`table, nodes`frames
      ensures Valid() && rows.table == Written(old(rows.table), k, v)
      ensures names == old(names) + NameSet(k)
    {
      hide Pending, Proper, NamesOf, Refines;
      match v {
        case None => rows.Remove(k);
        case Some(value) => rows.Insert(k, value);
      }
      RowPending(hashing.sha, old(rows.table), k, v, nodes.table, leaves, names);
      var todo := NamesOf(k);
      assert Rest(todo, 0) == NameSet(k);
      for i := 0 to |todo|
        invariant rows.table == Written(old(rows.table), k, v) && rows.Valid() && nodes.Valid()
        invariant Pending(hashing.sha, rows.table, nodes.table, leaves, names, Rest(todo, i))
        invariant names + Rest(todo, i) == old(names) + NameSet(k) && old(names) <= names
        invariant forall x :: x in names ==> Proper(x)
      {
        RestStep(k, i);
        Refresh(todo[i], Rest(todo, i));
      }
      assert Rest(todo, |todo|) == {};
      forall i | 0 <= i < |saved|
        ensures Consistent(hashing.sha, rows.copies[i], nodes.copies[i], saved[i], names)
      {
        ConsistentWider(hashing.sha, rows.copies[i], nodes.copies[i], saved[i], old(names), names);
      }
    }

    // ---- accounts ----

    method SetAccount(a: Bytes, acct: Account)
      requires Valid()
      modifies this`leaves, this`names, rows`table, rows`frames, nodes`table, nodes`frames
      ensures Valid() && rows.table == Tables.SetAccount(old(rows.table), a, acct)
    {
      hide Valid;
      Write(AccountK(a), Some(AccountV(acct)));
      if acct.staked > 0 || acct.unbonding != [] {
        Write(StakerK(a), Some(MarkV));
      } else {
        Write(StakerK(a), None);
      }
    }

    // ---- tokens ----

    method SetTokenBalance(token: Bytes, a: Bytes, amount: nat)
      requires Valid()
      modifies this`leaves, this`names, rows`table, rows`frames, nodes`table, nodes`frames
      ensures Valid() && rows.table == Tables.SetTokenBalance(old(rows.table), token, a, amount)
    {
      hide Valid;
      if amount == 0 {
        Write(BalanceK(token, a), None);
      } else {
        Write(BalanceK(token, a), Some(AmountV(amount)));
      }
    }

    method CreditToken(id: Bytes, a: Bytes, amount: nat) returns (r: Result<()>)
      requires Valid()
      modifies this`leaves, this`names, rows`table, rows`frames, nodes`table, nodes`frames
      ensures Valid()
      ensures var spec := Tables.CreditToken(old(rows.table), id, a, amount);
              r.Ok? == spec.Ok? && (r.Ok? ==> rows.table == spec.value)
    {
      hide Valid;
      var before := TokenBalance(rows.table, id, a);
      var after := before + amount;
      if after > U128_MAX {
        return Err("token balance overflow");
      }
      var token := GetToken(rows.table, id);
      if token.Some? {
        var t := token.value;
        if t.supply + amount > U128_MAX {
          return Err("token supply overflow");
        }
        t := t.(supply := t.supply + amount);
        if before == 0 && amount > 0 {
          t := t.(holders := t.holders + 1);
        }
        Write(TokenK(t.id), Some(TokenV(t)));
      }
      SetTokenBalance(id, a, after);
      r := Ok(());
    }

    method DebitToken(id: Bytes, a: Bytes, amount: nat) returns (r: Result<()>)
      requires Valid()
      modifies this`leaves, this`names, rows`table, rows`frames, nodes`table, nodes`frames
      ensures Valid()
      ensures var spec := Tables.DebitToken(old(rows.table), id, a, amount);
              r.Ok? == spec.Ok? && (r.Ok? ==> rows.table == spec.value)
    {
      hide Valid;
      var before := TokenBalance(rows.table, id, a);
      if before < amount {
        return Err("insufficient token balance");
      }
      var after := before - amount;
      SetTokenBalance(id, a, after);
      var token := GetToken(rows.table, id);
      if token.Some? {
        var t := token.value;
        t := t.(supply := Minus(t.supply, amount));
        if after == 0 {
          t := t.(holders := Minus(t.holders, 1));
        }
        Write(TokenK(t.id), Some(TokenV(t)));
      }
      r := Ok(());
    }

    // ---- contracts ----

    method SetStorage(a: Bytes, slot: Bytes, value: Option<Bytes>)
      requires Valid()
      modifies this`leaves, this`names, rows`table, rows`frames, nodes`table, nodes`frames
      ensures Valid() && rows.table == Tables.SetStorage(old(rows.table), a, slot, value)
    {
      hide Valid;
      match value {
        case Some(v) => Write(StorageK(a, slot), Some(BytesV(v)));
        case None => Write(StorageK(a, slot), None);
      }
    }

    // ---- shielded pool ----

    method AppendLeaf(commitment: Bytes)
      requires Valid()
      modifies this`leaves, this`names, rows`table, rows`frames, nodes`table, nodes`frames
      ensures Valid() && rows.table == Tables.AppendLeaf(old(rows.table), commitment)
    {
      hide Valid;
      Write(LeafK(LeafCount(rows.table)), Some(BytesV(commitment)));
    }

    /** Record a nullifier unless it is known; says whether it was new. */
    method BurnNullifier(nf: Bytes, height: nat) returns (unspent: bool)
      requires Valid()
      modifies this`leaves, this`names, rows`table, rows`frames, nodes`table, nodes`frames
      ensures Valid() && unspent == !NullifierSeen(old(rows.table), nf)
      ensures rows.table == if unspent then Tables.BurnNullifier(old(rows.table), nf, height) else old(rows.table)
    {
      hide Valid;
      if NullifierSeen(rows.table, nf) {
        return false;
      }
      Write(NullifierK(nf), Some(AmountV(height)));
      unspent := true;
    }

    // ---- blocks ----

    method PutBlock(txHash: Transaction -> Bytes, b: Block)
      requires Valid()
      modifies this`leaves, this`names, rows`table, rows`frames, nodes`table, nodes`frames
      ensures Valid() && rows.table == Tables.PutBlock(old(rows.table), txHash, b) && names == old(names)
    {
      hide Valid;
      var h := b.header.height;
      Write(BlockK(h), Some(BlockV(b)));
      ghost var start := rows.table;
      for i := 0 to |b.transactions|
        invariant Valid() && rows.table == IndexTxs(start, txHash, b.transactions[..i], h) && names == old(names)
      {
        assert b.transactions[..i + 1][..i] == b.transactions[..i];
        Write(TxK(txHash(b.transactions[i])), Some(AmountV(h)));
      }
      assert b.transactions[..|b.transactions|] == b.transactions;
      Write(TipHeightK, Some(AmountV(h)));
      Write(TipHashK, Some(BytesV(b.header.hash)));
    }

    // ---- outside every savepoint: wiping and rebuilding ----

    /** No savepoint is open; the tree need not match the tables. */
    ghost predicate Loading()
      reads this, rows, nodes
    {
      rows as object != nodes as object && rows.Valid() && nodes.Valid()
      && rows.frames == [] && nodes.frames == [] && rows.copies == [] && nodes.copies == [] && saved == []
    }

    lemma NoSavepoints()
      requires Loading()
      ensures rows.copies == [] && nodes.copies == [] && saved == []
    {
    }

    lemma Settled()
      requires Valid() && rows.copies == [] && nodes.copies == [] && saved == []
      ensures Loading()
    {
    }

    /** Recompute the leaves of these rows, in whatever order they are met. */
    method RefreshAll(keys: set<Key>)
      requires nodes.Valid() && rows as object != nodes as object
      requires forall k :: k in keys ==> HasLeaf(k) && k != SealK
      requires Pending(hashing.sha, rows.table, nodes.table, leaves, names, LeavesOf(keys))
      requires forall x :: x in names ==> Proper(x)
      modifies this`leaves, this`names, nodes`table, nodes`frames
      ensures nodes.Valid() && |nodes.frames| == |old(nodes.frames)| && names == old(names) + LeavesOf(keys)
      ensures Consistent(hashing.sha, rows.table, nodes.table, leaves, names)
      ensures forall x :: x in names ==> Proper(x)
    {
      hide Pending, Proper, LeavesOf, Refines;
      var todo := keys;
      while todo != {}
        invariant nodes.Valid() && |nodes.frames| == |old(nodes.frames)| && todo <= keys
        invariant Pending(hashing.sha, rows.table, nodes.table, leaves, names, LeavesOf(todo))
        invariant names + LeavesOf(todo) == old(names) + LeavesOf(keys)
        invariant forall x :: x in names ==> Proper(x)
        decreases todo
      {
        var k :| k in todo;
        LeavesOfOne(todo, k);
        Refresh(LeafName(k, 0), LeavesOf(todo));
        todo := todo - {k};
      }
      NoLeaves();
    }

    /** Rebuild the tree from the account, token and contract tables. */
    method Rebuild()
      requires Loading()
      modifies this`leaves, this`names, rows`table, rows`frames, nodes`table, nodes`frames
      ensures Valid() && Loading() && rows.copies == [] && nodes.copies == [] && saved == []
      ensures rows.table == old(rows.table) - {SealK} && names == LiveNames(rows.table)
    {
      hide Pending, Proper, LiveNames, LeavesOf, NamesOf, Refines, HasLeaf;
      rows.Remove(SealK);
      nodes.Keep(map[]);
      leaves, names := map[], {};
      StartPending(hashing.sha, rows.table);
      LeavesOfAll(rows.table);
      RefreshAll(set k | k in rows.table && HasLeaf(k));
    }

    // ---- reading the stake index and the root ----

    /** The staker index as a sorted list. */
    method StakeAccounts() returns (list: seq<Bytes>)
      ensures list == StakerList(rows.table)
    {
      list := ListKeys(Stakers(rows.table));
    }

    lemma LiveNamesCovered()
      requires Valid() && NoClash(hashing.sha, names)
      ensures LiveNames(rows.table) <= names && NoClash(hashing.sha, LiveNames(rows.table))
    {
      hide TreeOk, NoClash, NamePath;
      forall x | x in LiveNames(rows.table)
        ensures x in names
      {
        LiveNameIff(rows.table, x);
        assert Proper(x);
      }
      NoClashSubset(hashing.sha, LiveNames(rows.table), names);
    }

    method RootAt(height: nat) returns (root: RootText)
      requires Valid()
      ensures height < STATE_ROOT_V2_ACTIVATION_HEIGHT || NoClash(hashing.sha, names) ==>
                root == StateRootAt(hashing, rows.table, height)
    {
      hide TreeOk, Tracks, NoClash, TableRoot, LegacyRoot;
      if height < STATE_ROOT_V2_ACTIVATION_HEIGHT {
        return LegacyRoot(hashing, rows.table);
      }
      if NoClash(hashing.sha, names) {
        TrackingTreeHasTableRoot(hashing.sha, rows.table, nodes.table, leaves, names);
      }
      root := hashing.hex(RootOf(hashing.sha, nodes.table));
    }
  }
}
