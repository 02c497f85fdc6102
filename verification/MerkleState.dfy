/** How table rows become leaves of the sparse Merkle tree (src/state.rs), and why
    the root is a function of the rows alone. */
module MerkleState {
  import opened Base
  import opened Decimal
  import opened Tables
  import opened SparseTree

  /** One leaf: the row it is cut from, and which part of it. */
  datatype LeafName = LeafName(key: Key, part: nat)

  predicate HasLeaf(k: Key) {
    k.AccountK? || k.TokenK? || k.BalanceK? || k.ContractK? || k.StorageK? || k.SealK?
  }

  /** The leaves a row is responsible for; the shielded seal fills three. */
  function NamesOf(k: Key): seq<LeafName> {
    if !HasLeaf(k) then []
    else if k.SealK? then [LeafName(k, 0), LeafName(k, 1), LeafName(k, 2)]
    else [LeafName(k, 0)]
  }

  function Domain(name: LeafName): Bytes {
    match name.key
    case AccountK(_) => "acct"
    case TokenK(_) => "token"
    case BalanceK(_, _) => "tokenbal"
    case ContractK(_) => "contract"
    case StorageK(_, _) => "cstorage"
    case _ => "shielded"
  }

  function KeyBytes(name: LeafName): Bytes {
    match name.key
    case AccountK(a) => a
    case TokenK(id) => id
    case BalanceK(token, a) => token + ":" + a
    case ContractK(a) => a
    case StorageK(a, slot) => a + ":" + slot
    case _ => if name.part == 0 then "root" else if name.part == 1 then "pool" else "nulls"
  }

  function AccountLeaf(acct: Account): Bytes {
    Dec(acct.balance) + "|" + Dec(acct.nonce) + "|" + Dec(acct.staked) + "|"
    + Dec(UnbondingTotal(acct.unbonding)) + "|" + Dec(acct.rewards)
  }

  function TokenLeaf(t: Token): Bytes {
    t.symbol + "|" + Dec(t.decimals) + "|" + Dec(t.supply) + "|" + t.creator + "|" + if t.mintable then "true" else "false"
  }

  function ContractLeaf(c: Contract): Bytes {
    c.codeHash + "|" + c.creator + "|" + Dec(c.createdHeight)
  }

  function LeafBytes(v: Value, part: nat): Bytes {
    match v
    case AccountV(acct) => AccountLeaf(acct)
    case TokenV(t) => TokenLeaf(t)
    case AmountV(n) => Dec(n)
    case ContractV(c) => ContractLeaf(c)
    case BytesV(b) => b
    case SealV(root, pool, nulls) => if part == 0 then root else if part == 1 then Dec(pool) else nulls
    case _ => ""
  }

  function LeafValue(rows: Rows, name: LeafName): Option<Bytes> {
    if name.key in rows then Some(LeafBytes(rows[name.key], name.part)) else None
  }

  function NameKey(sha: Sha, name: LeafName): Digest {
    LeafKey(sha, Domain(name), KeyBytes(name))
  }

  function NamePath(sha: Sha, name: LeafName): Path {
    PathOf(NameKey(sha, name))
  }

  /** The hash the tree should hold for `name`. */
  function NameHash(sha: Sha, rows: Rows, name: LeafName): Digest {
    LeafHash(sha, NameKey(sha, name), LeafValue(rows, name))
  }

  /** No two of these leaves share a 128-bit path. */
  ghost predicate NoClash(sha: Sha, names: set<LeafName>) {
    forall x, y :: x in names && y in names && NamePath(sha, x) == NamePath(sha, y) ==> x == y
  }

  // ---- two leaves that share a path collide ----

  /** What is hashed to place a leaf. */
  function Preimage(name: LeafName): Bytes {
    Domain(name) + ['|'] + KeyBytes(name)
  }

  /** The part before the colon, where there is one, holds no colon itself. */
  predicate PlainParts(name: LeafName) {
    match name.key
    case BalanceK(token, _) => ':' !in token
    case StorageK(a, _) => ':' !in a
    case _ => true
  }

  lemma SplitAtFirst(c: char, a: Bytes, b: Bytes, x: Bytes, y: Bytes)
    requires a + [c] + b == x + [c] + y && c !in a && c !in x
    ensures a == x && b == y
  {
    var s := a + [c] + b;
    assert s[|a|] == c && s[|x|] == c;
    assert forall i :: 0 <= i < |a| ==> s[i] == a[i] && s[i] != c;
    assert forall i :: 0 <= i < |x| ==> s[i] == x[i] && s[i] != c;
    assert a == s[..|a|] && x == s[..|x|];
    assert b == s[|a| + 1..] && y == s[|x| + 1..];
  }

  lemma DomainHasNoBar(name: LeafName)
    ensures '|' !in Domain(name)
  {
  }

  lemma DomainNamesTable(x: LeafName, y: LeafName)
    requires Proper(x) && Proper(y) && Domain(x) == Domain(y)
    ensures x.key.AccountK? == y.key.AccountK? && x.key.TokenK? == y.key.TokenK? && x.key.BalanceK? == y.key.BalanceK?
    ensures x.key.ContractK? == y.key.ContractK? && x.key.StorageK? == y.key.StorageK? && x.key.SealK? == y.key.SealK?
  {
    assert |Domain(x)| == |Domain(y)| && Domain(x)[0] == Domain(y)[0];
    assert |Domain(x)| == 8 ==> Domain(x)[1] == Domain(y)[1];
  }

  /** Different leaves hash different strings. */
  lemma PreimageInjective(x: LeafName, y: LeafName)
    requires Proper(x) && Proper(y) && PlainParts(x) && PlainParts(y) && Preimage(x) == Preimage(y)
    ensures x == y
  {
    DomainHasNoBar(x);
    DomainHasNoBar(y);
    SplitAtFirst('|', Domain(x), KeyBytes(x), Domain(y), KeyBytes(y));
    DomainNamesTable(x, y);
    if x.key.BalanceK? {
      assert ":" == [':'];
      SplitAtFirst(':', x.key.token, x.key.address, y.key.token, y.key.address);
    } else if x.key.StorageK? {
      assert ":" == [':'];
      SplitAtFirst(':', x.key.address, x.key.slot, y.key.address, y.key.slot);
    } else if x.key.SealK? {
      assert |KeyBytes(x)| == |KeyBytes(y)| && KeyBytes(x)[0] == KeyBytes(y)[0];
    }
  }

  lemma NameKeyIsHash(sha: Sha, name: LeafName)
    ensures NameKey(sha, name) == sha(Preimage(name))
  {
  }

  /** If the premise on paths fails for such leaves, two of these leaves hash different
      strings to the same first 128 bits. */
  lemma ClashIsCollision(sha: Sha, names: set<LeafName>)
    requires !NoClash(sha, names) && forall x :: x in names ==> Proper(x) && PlainParts(x)
    ensures exists x, y :: x in names && y in names && Preimage(x) != Preimage(y)
                           && PathOf(sha(Preimage(x))) == PathOf(sha(Preimage(y)))
  {
    hide PathOf, Preimage, NameKey, Proper, PlainParts;
    var x, y :| x in names && y in names && NamePath(sha, x) == NamePath(sha, y) && x != y;
    NameKeyIsHash(sha, x);
    NameKeyIsHash(sha, y);
    if Preimage(x) == Preimage(y) {
      PreimageInjective(x, y);
    }
    assert PathOf(sha(Preimage(x))) == PathOf(sha(Preimage(y)));
  }

  ghost predicate IsPathOf(sha: Sha, names: set<LeafName>, p: seq<bool>) {
    exists x :: x in names && NamePath(sha, x) == p
  }

  predicate Proper(name: LeafName) {
    name in NamesOf(name.key)
  }

  /** `leaves` holds exactly what the rows say, for every leaf in `names`, which
      covers all live rows; `late` are leaves whose update is still due. */
  ghost predicate Tracks(sha: Sha, rows: Rows, leaves: Leaves, names: set<LeafName>, late: set<LeafName>) {
    && (forall x :: x in names ==> Proper(x))
    && (forall x :: x in names && x !in late ==> LeafAt(sha, leaves, NamePath(sha, x)) == NameHash(sha, rows, x))
    && (forall x :: Proper(x) && x !in names && x !in late ==> x.key !in rows)
    && (forall p: Path :: !IsPathOf(sha, names, p) ==> LeafAt(sha, leaves, p) == EmptyAt(sha, DEPTH))
  }

  ghost function NameSet(k: Key): set<LeafName> {
    set x | x in NamesOf(k)
  }

  lemma NoClashSubset(sha: Sha, small: set<LeafName>, large: set<LeafName>)
    requires NoClash(sha, large) && small <= large
    ensures NoClash(sha, small)
  {
  }

  lemma PathOfMore(sha: Sha, names: set<LeafName>, more: set<LeafName>, p: Path)
    requires names <= more && IsPathOf(sha, names, p)
    ensures IsPathOf(sha, more, p)
  {
    hide NamePath;
    var x :| x in names && NamePath(sha, x) == p;
    assert x in more;
  }

  /** More names may be counted in, as long as their rows are empty. */
  lemma TracksWider(sha: Sha, rows: Rows, leaves: Leaves, names: set<LeafName>, more: set<LeafName>)
    requires Tracks(sha, rows, leaves, names, {}) && names <= more && NoClash(sha, more)
    requires forall x :: x in more ==> Proper(x)
    ensures Tracks(sha, rows, leaves, more, {})
  {
    hide LeafAt, NamePath, NameKey, Proper;
    forall x | x in more
      ensures LeafAt(sha, leaves, NamePath(sha, x)) == NameHash(sha, rows, x)
    {
      if x !in names {
        assert !IsPathOf(sha, names, NamePath(sha, x));
        assert x.key !in rows;
      }
    }
    forall p: Path | !IsPathOf(sha, more, p)
      ensures !IsPathOf(sha, names, p)
    {
      if IsPathOf(sha, names, p) {
        PathOfMore(sha, names, more, p);
      }
    }
  }

  /** Writing a row makes exactly its own leaves late. */
  lemma RowWritten(sha: Sha, rows: Rows, rows': Rows, k: Key, leaves: Leaves, names: set<LeafName>)
    requires Tracks(sha, rows, leaves, names, {}) && rows' - {k} == rows - {k}
    ensures Tracks(sha, rows', leaves, names, NameSet(k))
  {
    hide LeafAt, NamePath, NameKey;
    var late := NameSet(k);
    forall x | x !in late && Proper(x)
      ensures LeafValue(rows', x) == LeafValue(rows, x)
    {
      assert x.key != k;
      assert x.key in rows <==> x.key in rows - {k};
      assert x.key in rows' <==> x.key in rows' - {k};
      assert x.key in rows ==> rows[x.key] == (rows - {k})[x.key];
      assert x.key in rows' ==> rows'[x.key] == (rows' - {k})[x.key];
    }
    assert forall x :: x !in late && Proper(x) && x.key !in rows ==> LeafValue(rows', x) == None;
  }

  /** Bringing one late leaf up to date. */
  lemma LeafSet(sha: Sha, rows: Rows, leaves: Leaves, names: set<LeafName>, late: set<LeafName>, x: LeafName)
    requires Tracks(sha, rows, leaves, names, late) && x in late && Proper(x) && NoClash(sha, names + {x})
    ensures Tracks(sha, rows, leaves[NamePath(sha, x) := NameHash(sha, rows, x)], names + {x}, late - {x})
  {
    hide NamePath, NameHash, Proper;
    var leaves' := leaves[NamePath(sha, x) := NameHash(sha, rows, x)];
    forall p: Path | !IsPathOf(sha, names + {x}, p)
      ensures LeafAt(sha, leaves', p) == EmptyAt(sha, DEPTH)
    {
      assert x in names + {x};
      if IsPathOf(sha, names, p) {
        PathOfMore(sha, names, names + {x}, p);
      }
    }
  }

  /** Two trees that track the same rows agree on every leaf. */
  lemma SameRowsSameLeaf(sha: Sha, rows: Rows, a: Leaves, b: Leaves, names: set<LeafName>, p: Path)
    requires NoClash(sha, names) && Tracks(sha, rows, a, names, {}) && Tracks(sha, rows, b, names, {})
    ensures LeafAt(sha, a, p) == LeafAt(sha, b, p)
  {
    hide LeafAt, NamePath, NameHash, Proper;
    if IsPathOf(sha, names, p) {
      var x :| x in names && NamePath(sha, x) == p;
    }
  }

  // ---- the root of the tables, computed from scratch ----

  function LiveNames(rows: Rows): set<LeafName> {
    set k, x | k in rows && x in NamesOf(k) :: x
  }

  ghost function NameAt(sha: Sha, names: set<LeafName>, p: seq<bool>): LeafName
    requires IsPathOf(sha, names, p)
  {
    var x :| x in names && NamePath(sha, x) == p;
    x
  }

  ghost function TableLeaves(sha: Sha, rows: Rows): Leaves {
    map p | p in (set x | x in LiveNames(rows) :: NamePath(sha, x)) && IsPathOf(sha, LiveNames(rows), p) ::
      NameHash(sha, rows, NameAt(sha, LiveNames(rows), p))
  }

  /** The Merkle root of the tables as they stand, whatever their history. */
  ghost function TableRoot(sha: Sha, rows: Rows): Digest {
    Ref(sha, TableLeaves(sha, rows), [])
  }

  lemma LiveNamesTracked(sha: Sha, rows: Rows)
    requires NoClash(sha, LiveNames(rows))
    ensures Tracks(sha, rows, TableLeaves(sha, rows), LiveNames(rows), {})
  {
    hide NamePath, NameHash;
    var names, leaves := LiveNames(rows), TableLeaves(sha, rows);
    forall x | x in names
      ensures Proper(x) && LeafAt(sha, leaves, NamePath(sha, x)) == NameHash(sha, rows, x)
    {
      assert IsPathOf(sha, names, NamePath(sha, x));
    }
    forall x | Proper(x) && x !in names
      ensures x.key !in rows
    {
      assert x in NamesOf(x.key);
    }
  }

  /** A tree that tracks the rows has the root of the tables: order, overwrites,
      deletions and rollbacks leave no trace. */
  lemma TrackingTreeHasTableRoot(sha: Sha, rows: Rows, nodes: Nodes, leaves: Leaves, names: set<LeafName>)
    requires NoClash(sha, names) && TreeOk(sha, nodes, leaves) && Tracks(sha, rows, leaves, names, {})
    ensures RootOf(sha, nodes) == TableRoot(sha, rows)
  {
    hide TreeOk, LeafAt, NamePath, NameHash, RootOf, TableLeaves;
    var live, b := LiveNames(rows), TableLeaves(sha, rows);
    forall x | x in live
      ensures x in names
    {
      assert Proper(x) && x.key in rows;
    }
    NoClashSubset(sha, live, names);
    LiveNamesTracked(sha, rows);
    TracksWider(sha, rows, b, live, names);
    forall p: Path
      ensures LeafAt(sha, leaves, p) == LeafAt(sha, b, p)
    {
      SameRowsSameLeaf(sha, rows, leaves, b, names, p);
    }
    RefDependsOnLeavesBelow(sha, leaves, b, []);
    RootIsRef(sha, nodes, leaves);
  }

  lemma LiveNameIff(rows: Rows, x: LeafName)
    ensures x in LiveNames(rows) <==> x.key in rows && x in NamesOf(x.key)
    ensures x in NamesOf(x.key) ==> HasLeaf(x.key)
  {
  }

  ghost predicate SameLeafRows(rows: Rows, rows': Rows) {
    forall k :: HasLeaf(k) ==> Same(rows, rows', k)
  }

  lemma SameLiveNames(rows: Rows, rows': Rows)
    requires SameLeafRows(rows, rows')
    ensures LiveNames(rows) == LiveNames(rows')
  {
    hide LiveNames, NamesOf, HasLeaf;
    forall x
      ensures x in LiveNames(rows) <==> x in LiveNames(rows')
    {
      LiveNameIff(rows, x);
      LiveNameIff(rows', x);
    }
  }

  /** Rows without leaves do not reach the root. */
  lemma TableRootDependsOnLeafRows(sha: Sha, rows: Rows, rows': Rows)
    requires SameLeafRows(rows, rows')
    ensures TableRoot(sha, rows) == TableRoot(sha, rows') && LiveNames(rows) == LiveNames(rows')
  {
    hide NamePath, NameKey, LeafHash, LiveNames, NamesOf, HasLeaf, LeafBytes;
    SameLiveNames(rows, rows');
    forall x | x in LiveNames(rows)
      ensures NameHash(sha, rows, x) == NameHash(sha, rows', x)
    {
      LiveNameIff(rows, x);
    }
    assert TableLeaves(sha, rows) == TableLeaves(sha, rows');
  }
}
