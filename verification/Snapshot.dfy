/** State snapshots (src/snapshot.rs, src/state.rs): export at the tip, import into
    another store, and the root check in between. */
module Snapshot {
  import opened Base
  import opened Evidence
  import Journal
  import Types
  import opened SparseTree
  import opened Tables
  import opened Ledger
  import opened MerkleState
  import opened Store
  import opened Chain

  const SNAPSHOT_FORMAT: nat := 2

  datatype TableName =
    | Accounts | Stakers | Tokens | TokenBalances | Contracts | ContractCode | ContractStorage
    | Slashes | NoteLeaves | NoteNullifiers | NoteRoots | Receipts

  predicate InTable(k: Key, name: TableName) {
    match name
    case Accounts => k.AccountK?
    case Stakers => k.StakerK?
    case Tokens => k.TokenK?
    case TokenBalances => k.BalanceK?
    case Contracts => k.ContractK?
    case ContractCode => k.CodeK?
    case ContractStorage => k.StorageK?
    case Slashes => k.SlashK?
    case NoteLeaves => k.LeafK?
    case NoteNullifiers => k.NullifierK?
    case NoteRoots => k.RootK?
    case Receipts => k.ReceiptK?
  }

  /** The tables a snapshot carries: state, not history. */
  const SNAPSHOT_TABLES: seq<TableName> :=
    [Accounts, Stakers, Tokens, TokenBalances, Contracts, ContractCode, ContractStorage,
     Slashes, NoteLeaves, NoteNullifiers, NoteRoots]

  /** One table in the file: `name` is unknown or `decodes` false when it is damaged. */
  datatype Part = Part(name: Option<TableName>, decodes: bool, entries: Rows)

  /** `key` is empty when no verifying key was installed. */
  datatype Snap = Snap(
    format: nat, chainId: nat, height: nat, blockHash: Bytes, stateRoot: Bytes, atRestRoot: Bytes,
    baseFee: nat, pool: nat, sealed: nat, key: Bytes, block: Block, parts: seq<Part>)

  function Dump(rows: Rows, name: TableName): Rows {
    map k | k in rows && InTable(k, name) :: rows[k]
  }

  function Others(rows: Rows, name: TableName): Rows {
    map k | k in rows && !InTable(k, name) :: rows[k]
  }

  function Restore(rows: Rows, name: TableName, entries: Rows): Rows {
    Others(rows, name) + Dump(entries, name)
  }

  function Finalized(rows: Rows): nat {
    GetAmount(rows, FinalizedK)
  }

  function SetFinalized(rows: Rows, height: nat): Rows {
    if height <= Finalized(rows) then rows else rows[FinalizedK := AmountV(height)]
  }

  /** What wiping the chain keeps: contract code, the base fee and the finalized floor. */
  predicate WipeKeeps(k: Key) {
    k.CodeK? || k == BaseFeeK || k == FinalizedK
  }

  function Wiped(rows: Rows): Rows {
    map k | k in rows && WipeKeeps(k) :: rows[k]
  }

  // ---- export ----

  function SnapshotHeight(rows: Rows): nat {
    if Finalized(rows) > 0 then Finalized(rows) else
      match Tip(rows)
      case None => 0
      case Some(h) => h
  }

  function StoredBlock(rows: Rows, height: nat): Option<Block> {
    if BlockK(height) in rows && rows[BlockK(height)].BlockV? then Some(rows[BlockK(height)].block) else None
  }

  function StoredKey(rows: Rows): Bytes {
    match GetBytes(rows, VerifyingKeyK)
    case None => ""
    case Some(key) => key
  }

  function DumpAll(rows: Rows): (parts: seq<Part>)
    ensures |parts| == |SNAPSHOT_TABLES|
  {
    seq(|SNAPSHOT_TABLES|, (i: int) requires 0 <= i < |SNAPSHOT_TABLES| =>
      Part(Some(SNAPSHOT_TABLES[i]), true, Dump(rows, SNAPSHOT_TABLES[i])))
  }

  /** The block is stored, and the height and digest this node recorded after its last
      block, if they are for this height, match the tables. */
  predicate Exportable(h: Hashing, rows: Rows, checkpoint: Option<(nat, Bytes)>) {
    && StoredBlock(rows, SnapshotHeight(rows)).Some?
    && (checkpoint.Some? && checkpoint.value.0 == SnapshotHeight(rows) ==> checkpoint.value.1 == LegacyRoot(h, rows))
  }

  /** The node can tell the root of these tables at this height: it is the legacy digest,
      or no two leaves ever written share a path. */
  ghost predicate RootIsKnown(sha: Sha, names: set<LeafName>, height: nat) {
    height < STATE_ROOT_V2_ACTIVATION_HEIGHT || NoClash(sha, names)
  }

  method Export(db: Database, chainId: nat, checkpoint: Option<(nat, Bytes)>) returns (r: Result<Snap>)
    requires db.Valid()
    ensures var rows := db.rows.table; var height := SnapshotHeight(rows);
      && (r.Ok? <==> Exportable(db.hashing, rows, checkpoint))
      && (r.Ok? ==>
            var b := StoredBlock(rows, height).value;
            && r.value == Snap(SNAPSHOT_FORMAT, chainId, height, b.header.hash, b.header.stateRoot, r.value.atRestRoot,
                               BaseFee(rows), PoolBalance(rows), GetAmount(rows, SealedCountK), StoredKey(rows), b,
                               DumpAll(rows))
            && r.value.atRestRoot != ""
            && (RootIsKnown(db.hashing.sha, db.names, height) ==> r.value.atRestRoot == StateRootAt(db.hashing, rows, height)))
  {
    hide db.Valid, NoClash, StateRootAt, LegacyRoot;
    var rows := db.rows.table;
    var height := SnapshotHeight(rows);
    var block := StoredBlock(rows, height);
    if block.None? {
      return Err("block is not stored");
    }
    var atRest := db.RootAt(height);
    if checkpoint.Some? && checkpoint.value.0 == height && checkpoint.value.1 != LegacyRoot(db.hashing, rows) {
      return Err("state at rest does not match this node's checkpoint");
    }
    r := Ok(Snap(SNAPSHOT_FORMAT, chainId, height, block.value.header.hash, block.value.header.stateRoot, atRest,
                 BaseFee(rows), PoolBalance(rows), GetAmount(rows, SealedCountK), StoredKey(rows), block.value,
                 DumpAll(rows)));
  }

  // ---- import ----

  predicate HeaderOk(c: Crypto, snap: Snap, chainId: nat) {
    && (snap.format == SNAPSHOT_FORMAT || snap.format == 1)
    && snap.chainId == chainId
    && snap.block.header.height == snap.height
    && HeaderHash(c, snap.block.header) == snap.block.header.hash && snap.block.header.hash == snap.blockHash
    && snap.block.header.stateRoot == snap.stateRoot
  }

  /** Files that carry no at-rest root were made to match the header's. */
  function ExpectedRoot(snap: Snap): Bytes {
    if snap.atRestRoot == "" then snap.stateRoot else snap.atRestRoot
  }

  predicate PartOk(p: Part) {
    p.decodes && p.name.Some?
  }

  /** How many tables load before the first damaged one. */
  function Readable(parts: seq<Part>): (n: nat)
    ensures n <= |parts| && PartsOk(parts[..n]) && (n < |parts| ==> !PartOk(parts[n]))
  {
    if parts == [] then 0
    else if PartOk(parts[0]) then
      var n := Readable(parts[1..]);
      assert parts[..n + 1] == [parts[0]] + parts[1..][..n];
      n + 1
    else 0
  }

  ghost predicate PartsOk(parts: seq<Part>) {
    forall i :: 0 <= i < |parts| ==> PartOk(parts[i])
  }

  ghost function RestoreAll(rows: Rows, parts: seq<Part>): Rows
    requires PartsOk(parts)
  {
    if parts == [] then rows else
      var last := |parts| - 1;
      Restore(RestoreAll(rows, parts[..last]), parts[last].name.value, parts[last].entries)
  }

  function WithMeta(rows: Rows, snap: Snap): Rows {
    var rows1 := rows[BaseFeeK := AmountV(snap.baseFee)][PoolK := AmountV(snap.pool)][SealedCountK := AmountV(snap.sealed)];
    if snap.key == "" then rows1 else rows1[VerifyingKeyK := BytesV(snap.key)]
  }

  /** The tables whose root is checked. */
  ghost function Loaded(env: Env, rows: Rows, snap: Snap): Rows
    requires PartsOk(snap.parts)
  {
    Rebuilt(env, WithMeta(RestoreAll(Wiped(rows), snap.parts), snap), snap.height)
  }

  ghost function Installed(env: Env, rows: Rows, snap: Snap): Rows
    requires PartsOk(snap.parts)
  {
    SetFinalized(PutBlock(Loaded(env, rows, snap), env.txHash, snap.block), snap.height)
  }

  // ---- what a failed import leaves behind ----

  /** Some table other than contract code, as its last listing has it, is not empty. */
  ghost predicate Residue(parts: seq<Part>)
    requires PartsOk(parts)
  {
    exists i :: 0 <= i < |parts| && LastListing(parts, i) && parts[i].name.value != ContractCode
             && Dump(parts[i].entries, parts[i].name.value) != map[]
  }

  ghost predicate LastListing(parts: seq<Part>, i: nat)
    requires PartsOk(parts) && i < |parts|
  {
    forall j :: i < j < |parts| ==> parts[j].name != parts[i].name
  }

  ghost predicate Listed(parts: seq<Part>, i: nat, k: Key)
    requires PartsOk(parts)
  {
    i < |parts| && LastListing(parts, i) && InTable(k, parts[i].name.value) && k in parts[i].entries
  }

  lemma OneTable(k: Key, m: TableName, n: TableName)
    requires InTable(k, m) && InTable(k, n)
    ensures m == n
  {
  }

  lemma {:induction false} ListedStays(rows: Rows, parts: seq<Part>, i: nat, k: Key)
    requires PartsOk(parts) && Listed(parts, i, k)
    ensures k in RestoreAll(rows, parts)
  {
    hide InTable;
    var last := |parts| - 1;
    if i < last {
      ListedStays(rows, parts[..last], i, k);
      if InTable(k, parts[last].name.value) {
        OneTable(k, parts[last].name.value, parts[i].name.value);
      }
    }
  }

  lemma {:induction false} LoadedIsListed(rows: Rows, parts: seq<Part>, k: Key)
    requires PartsOk(parts) && k in RestoreAll(rows, parts)
    ensures k in rows || exists i: nat :: Listed(parts, i, k)
  {
    hide InTable;
    if parts != [] {
      var last := |parts| - 1;
      if InTable(k, parts[last].name.value) {
        assert Listed(parts, last, k);
      } else {
        LoadedIsListed(rows, parts[..last], k);
        if k !in rows {
          var i: nat :| Listed(parts[..last], i, k);
          assert parts[i].name.value != parts[last].name.value;
          assert Listed(parts, i, k);
        }
      }
    }
  }

  lemma WipedIff(rows: Rows)
    ensures Wiped(rows) == rows <==> forall k :: k in rows ==> WipeKeeps(k)
  {
    if forall k :: k in rows ==> WipeKeeps(k) {
      assert Wiped(rows) == rows;
    } else {
      var k :| k in rows && !WipeKeeps(k);
      assert k !in Wiped(rows);
    }
  }

  lemma OnlyCodeIsKept(k: Key, name: TableName)
    requires InTable(k, name)
    ensures WipeKeeps(k) <==> name == ContractCode
  {
  }

  /** Tables loaded into a wiped store are still in wiped form exactly when nothing but
      contract code ends up in them. */
  lemma LoadedIsWipedIff(rows: Rows, parts: seq<Part>)
    requires PartsOk(parts)
    ensures var loaded := RestoreAll(Wiped(rows), parts);
            Wiped(loaded) == loaded <==> !Residue(parts)
  {
    hide InTable, RestoreAll;
    var start := Wiped(rows);
    var loaded := RestoreAll(start, parts);
    WipedIff(loaded);
    WipedTwice(rows);
    WipedIff(start);
    if Residue(parts) {
      var i :| 0 <= i < |parts| && LastListing(parts, i) && parts[i].name.value != ContractCode
            && Dump(parts[i].entries, parts[i].name.value) != map[];
      var k :| k in Dump(parts[i].entries, parts[i].name.value);
      ListedStays(start, parts, i, k);
      OnlyCodeIsKept(k, parts[i].name.value);
    } else {
      forall k | k in loaded
        ensures WipeKeeps(k)
      {
        LoadedIsListed(start, parts, k);
        if k !in start {
          var i: nat :| Listed(parts, i, k);
          OnlyCodeIsKept(k, parts[i].name.value);
          assert k in Dump(parts[i].entries, parts[i].name.value);
        }
      }
    }
  }

  lemma WipedTwice(rows: Rows)
    ensures Wiped(Wiped(rows)) == Wiped(rows)
  {
  }

  /** A file that fails after the header checks leaves the store wiped if and only if
      the first damaged table decodes, or there is none, or the tables before it hold
      nothing but contract code. */
  ghost predicate FailsClean(parts: seq<Part>) {
    var n := Readable(parts);
    n == |parts| || parts[n].decodes || !Residue(parts[..n])
  }

  // One readable account, then a table that does not decode.
  const DAMAGED: seq<Part> :=
    [Part(Some(Accounts), true, map[AccountK("a") := AccountV(NEW_ACCOUNT)]), Part(Some(Tokens), false, map[])]

  lemma DamagedFileLeavesAnAccount(rows: Rows)
    ensures Readable(DAMAGED) == 1 && !FailsClean(DAMAGED)
    ensures AccountK("a") in RestoreAll(Wiped(rows), DAMAGED[..1])
  {
    var parts := DAMAGED[..1];
    assert Readable(DAMAGED[1..]) == 0;
    assert parts == [DAMAGED[0]];
    assert AccountK("a") in Dump(parts[0].entries, Accounts);
    assert LastListing(parts, 0) && Residue(parts);
    assert Listed(parts, 0, AccountK("a"));
    ListedStays(Wiped(rows), parts, 0, AccountK("a"));
  }

  /** Empty the chain tables and the tree, outside every savepoint. */
  method ResetChain(db: Database)
    requires db.Loading()
    modifies db`leaves, db`names, db.rows`table, db.nodes`table
    ensures db.Loading() && db.Valid() && db.rows.table == Wiped(old(db.rows.table))
  {
    hide Pending, Journal.Undo;
    var rows := db.rows.table;
    db.rows.Keep(Wiped(rows));
    db.nodes.Keep(map[]);
    db.leaves, db.names := map[], {};
    WipedIsConsistent(db.hashing.sha, rows);
  }

  lemma WipedIsConsistent(sha: Sha, rows: Rows)
    ensures Consistent(sha, Wiped(rows), map[], map[], {})
  {
    EmptyTreeOk(sha);
  }

  lemma InsertMore(table: Rows, todo: Rows, k: Key)
    requires k in todo
    ensures table[k := todo[k]] + (todo - {k}) == table + todo
  {
  }

  /** Replace one table wholesale. */
  method RawRestore(db: Database, name: TableName, entries: Rows)
    requires db.Loading()
    modifies db.rows`table, db.rows`frames
    ensures db.Loading() && db.rows.table == Restore(old(db.rows.table), name, entries)
  {
    hide Others, Dump, Journal.Undo;
    var cleared := Others(db.rows.table, name);
    db.rows.Keep(cleared);
    var todo := Dump(entries, name);
    while todo != map[]
      invariant db.Loading() && db.rows.table + todo == cleared + Dump(entries, name)
      decreases todo.Keys
    {
      var k :| k in todo;
      InsertMore(db.rows.table, todo, k);
      db.rows.Insert(k, todo[k]);
      todo := todo - {k};
    }
    assert db.rows.table + map[] == db.rows.table;
  }

  /** Load tables until one is damaged. An undecodable table stops the import where it
      is; an unknown one wipes the store first. */
  method LoadParts(db: Database, parts: seq<Part>) returns (r: Result<()>)
    requires db.Loading()
    modifies db`leaves, db`names, db.rows`table, db.rows`frames, db.nodes`table
    ensures db.Loading()
    ensures var n := Readable(parts); var loaded := RestoreAll(old(db.rows.table), parts[..n]);
      && (r.Ok? <==> n == |parts|)
      && (r.Ok? || !parts[n].decodes ==> db.rows.table == loaded)
      && (r.Err? && parts[n].decodes ==> db.rows.table == Wiped(loaded) && db.Valid())
  {
    hide db.Loading, db.Valid, Wiped, Restore;
    ghost var start := db.rows.table;
    for i := 0 to |parts|
      invariant db.Loading() && i <= Readable(parts) && PartsOk(parts[..i])
      invariant db.rows.table == RestoreAll(start, parts[..i])
    {
      ReadableFrom(parts, i);
      if !parts[i].decodes {
        return Err("bad entry");
      }
      if parts[i].name.None? {
        ResetChain(db);
        return Err("unknown table");
      }
      RawRestore(db, parts[i].name.value, parts[i].entries);
      assert parts[..i + 1][..i] == parts[..i];
    }
    r := Ok(());
  }

  lemma {:induction false} ReadableFrom(parts: seq<Part>, i: nat)
    requires i < |parts| && i <= Readable(parts)
    ensures PartOk(parts[i]) ==> i + 1 <= Readable(parts)
    ensures !PartOk(parts[i]) ==> i == Readable(parts)
  {
    if i > 0 {
      ReadableFrom(parts[1..], i - 1);
    }
  }

  method PutMeta(db: Database, snap: Snap)
    requires db.Loading()
    modifies db.rows`table, db.rows`frames
    ensures db.Loading() && db.rows.table == WithMeta(old(db.rows.table), snap)
  {
    hide Journal.Undo;
    db.rows.Insert(BaseFeeK, AmountV(snap.baseFee));
    db.rows.Insert(PoolK, AmountV(snap.pool));
    db.rows.Insert(SealedCountK, AmountV(snap.sealed));
    if snap.key != "" {
      db.rows.Insert(VerifyingKeyK, BytesV(snap.key));
    }
  }

  /** Install a snapshot and verify it. Every failure past the header checks wipes the
      store, except that an undecodable entry leaves the tables loaded before it. */
  method Import(env: Env, db: Database, snap: Snap, chainId: nat) returns (r: Result<nat>)
    requires db.Loading()
    modifies db`leaves, db`names, db.rows`table, db.rows`frames, db.nodes`table, db.nodes`frames
    ensures db.Loading()
    ensures !HeaderOk(env.crypto, snap, chainId) ==> r.Err? && db.rows.table == old(db.rows.table)
    ensures HeaderOk(env.crypto, snap, chainId) && r.Err? ==>
      (Wiped(db.rows.table) == db.rows.table <==> FailsClean(snap.parts))
    ensures HeaderOk(env.crypto, snap, chainId) ==>
      var n := Readable(snap.parts);
      if n < |snap.parts| && !snap.parts[n].decodes then
        r.Err? && db.rows.table == RestoreAll(Wiped(old(db.rows.table)), snap.parts[..n])
      else if n < |snap.parts| then
        r.Err? && db.Valid() && db.rows.table == Wiped(RestoreAll(Wiped(old(db.rows.table)), snap.parts[..n]))
      else
        && PartsOk(snap.parts) && db.Valid()
        && (r.Ok? ==> r.value == snap.height && db.rows.table == Installed(env, old(db.rows.table), snap))
        && (r.Err? ==> db.rows.table == Wiped(Loaded(env, old(db.rows.table), snap)))
        && var loaded := Loaded(env, old(db.rows.table), snap);
           (RootIsKnown(db.hashing.sha, LiveNames(loaded), snap.height) ==>
             (r.Ok? <==> StateRootAt(db.hashing, loaded, snap.height) == ExpectedRoot(snap)))
  {
    hide db.Loading, db.Valid, Wiped, Residue, RestoreAll, Rebuilt, WithMeta, SetFinalized, PutBlock, StateRootAt,
         NoClash, LiveNames;
    if !HeaderOk(env.crypto, snap, chainId) {
      return Err("snapshot does not match its block");
    }
    ghost var before := db.rows.table;
    ResetChain(db);
    ghost var n := Readable(snap.parts);
    LoadedIsWipedIff(before, snap.parts[..n]);
    WipedTwice(RestoreAll(Wiped(before), snap.parts[..n]));
    var loaded := LoadParts(db, snap.parts);
    assert snap.parts[..|snap.parts|] == snap.parts;
    if loaded.Err? {
      return Err(loaded.error);
    }
    WipedTwice(Loaded(env, before, snap));
    r := CheckAndSeal(env, db, snap);
  }

  /** Build the tree over the loaded tables, check the root and store the block. */
  method CheckAndSeal(env: Env, db: Database, snap: Snap) returns (r: Result<nat>)
    requires db.Loading()
    modifies db`leaves, db`names, db.rows`table, db.rows`frames, db.nodes`table, db.nodes`frames
    ensures db.Loading() && db.Valid()
    ensures var loaded := Rebuilt(env, WithMeta(old(db.rows.table), snap), snap.height);
      && (r.Ok? ==> r.value == snap.height
                    && db.rows.table == SetFinalized(PutBlock(loaded, env.txHash, snap.block), snap.height))
      && (r.Err? ==> db.rows.table == Wiped(loaded))
      && (RootIsKnown(db.hashing.sha, LiveNames(loaded), snap.height) ==>
            (r.Ok? <==> StateRootAt(db.hashing, loaded, snap.height) == ExpectedRoot(snap)))
  {
    hide db.Loading, db.Valid, Wiped, Rebuilt, PutBlock, StateRootAt, NoClash, LiveNames, WithMeta;
    db.NoSavepoints();
    PutMeta(db, snap);
    BuildMerkleState(env, db, snap.height);
    var root := db.RootAt(snap.height);
    if root != ExpectedRoot(snap) {
      ResetChain(db);
      return Err("snapshot state root mismatch");
    }
    db.PutBlock(env.txHash, snap.block);
    if snap.height > Finalized(db.rows.table) {
      db.Write(FinalizedK, Some(AmountV(snap.height)));
    }
    db.Settled();
    r := Ok(snap.height);
  }

  // ---- the round trip ----

  predicate Carried(k: Key) {
    k.AccountK? || k.StakerK? || k.TokenK? || k.BalanceK? || k.ContractK? || k.CodeK? || k.StorageK?
    || k.SlashK? || k.LeafK? || k.NullifierK? || k.RootK?
  }

  ghost predicate CarriedBy(k: Key, n: nat) {
    exists i :: 0 <= i < n && i < |SNAPSHOT_TABLES| && InTable(k, SNAPSHOT_TABLES[i])
  }

  lemma DumpAllOk(src: Rows)
    ensures PartsOk(DumpAll(src)) && Readable(DumpAll(src)) == |DumpAll(src)|
  {
    var parts := DumpAll(src);
    assert forall i :: 0 <= i < |parts| ==> PartOk(parts[i]);
  }

  lemma RestoreOne(rows: Rows, src: Rows, name: TableName, k: Key)
    ensures Same(Restore(rows, name, Dump(src, name)), if InTable(k, name) then src else rows, k)
  {
    hide InTable;
  }

  lemma CarriedByMore(k: Key, n: nat)
    requires 0 < n <= |SNAPSHOT_TABLES|
    ensures CarriedBy(k, n) <==> CarriedBy(k, n - 1) || InTable(k, SNAPSHOT_TABLES[n - 1])
  {
    hide InTable;
  }

  lemma DumpPrefix(src: Rows, n: nat)
    requires 0 < n <= |SNAPSHOT_TABLES|
    ensures DumpAll(src)[..n][..n - 1] == DumpAll(src)[..n - 1] && PartsOk(DumpAll(src)[..n])
    ensures DumpAll(src)[..n][n - 1] == Part(Some(SNAPSHOT_TABLES[n - 1]), true, Dump(src, SNAPSHOT_TABLES[n - 1]))
  {
    hide InTable;
  }

  /** After restoring the first `n` tables, their rows are the source's. */
  lemma {:induction false} RestoredPrefix(rows: Rows, src: Rows, n: nat, k: Key)
    requires n <= |SNAPSHOT_TABLES|
    ensures PartsOk(DumpAll(src)[..n])
    ensures Same(RestoreAll(rows, DumpAll(src)[..n]), if CarriedBy(k, n) then src else rows, k)
  {
    hide InTable, DumpAll, Dump, Restore, CarriedBy;
    if n == 0 {
      NothingCarried(src, k);
    } else {
      DumpPrefix(src, n);
      RestoredPrefix(rows, src, n - 1, k);
      CarriedByMore(k, n);
      RestoreOne(RestoreAll(rows, DumpAll(src)[..n - 1]), src, SNAPSHOT_TABLES[n - 1], k);
    }
  }

  lemma NothingCarried(src: Rows, k: Key)
    ensures !CarriedBy(k, 0) && DumpAll(src)[..0] == []
  {
  }

  lemma CarriedIsCarriedBy(k: Key)
    ensures CarriedBy(k, |SNAPSHOT_TABLES|) <==> Carried(k)
  {
    var t := SNAPSHOT_TABLES;
    if Carried(k) {
      var name := OnlyTable(k);
      var i :| 0 <= i < |t| && t[i] == name;
    } else {
      assert forall i :: 0 <= i < |t| ==> !InTable(k, t[i]);
    }
  }

  function OnlyTable(k: Key): (name: TableName)
    requires Carried(k)
    ensures InTable(k, name) && name in SNAPSHOT_TABLES
  {
    match k
    case AccountK(_) => Accounts
    case StakerK(_) => Stakers
    case TokenK(_) => Tokens
    case BalanceK(_, _) => TokenBalances
    case ContractK(_) => Contracts
    case CodeK(_) => ContractCode
    case StorageK(_, _) => ContractStorage
    case SlashK(_) => Slashes
    case LeafK(_) => NoteLeaves
    case NullifierK(_) => NoteNullifiers
    case RootK(_) => NoteRoots
  }

  lemma Restored(rows: Rows, src: Rows, k: Key)
    ensures PartsOk(DumpAll(src))
    ensures Same(RestoreAll(rows, DumpAll(src)), if Carried(k) then src else rows, k)
  {
    hide InTable, Carried;
    RestoredPrefix(rows, src, |SNAPSHOT_TABLES|, k);
    CarriedIsCarriedBy(k);
    assert DumpAll(src)[..|SNAPSHOT_TABLES|] == DumpAll(src);
  }

  /** Same state: every carried table, the shielded leaves of the tree and the metadata. */
  ghost predicate SameState(src: Rows, dst: Rows) {
    && (forall k :: Carried(k) || k == SealK ==> Same(src, dst, k))
    && BaseFee(src) == BaseFee(dst) && PoolBalance(src) == PoolBalance(dst)
    && GetAmount(src, SealedCountK) == GetAmount(dst, SealedCountK) && StoredKey(src) == StoredKey(dst)
  }

  ghost predicate Exported(src: Rows, snap: Snap) {
    && snap.parts == DumpAll(src) && snap.baseFee == BaseFee(src) && snap.pool == PoolBalance(src)
    && snap.sealed == GetAmount(src, SealedCountK) && snap.key == StoredKey(src)
  }

  lemma MetaRestored(rows: Rows, src: Rows, snap: Snap, k: Key)
    requires Exported(src, snap)
    ensures PartsOk(DumpAll(src))
    ensures Carried(k) ==> Same(src, WithMeta(RestoreAll(Wiped(rows), DumpAll(src)), snap), k)
  {
    hide RestoreAll, DumpAll;
    Restored(Wiped(rows), src, k);
  }

  lemma MetaFields(rows: Rows, src: Rows, snap: Snap)
    requires Exported(src, snap)
    ensures PartsOk(DumpAll(src))
    ensures var dst := WithMeta(RestoreAll(Wiped(rows), DumpAll(src)), snap);
      && BaseFee(src) == BaseFee(dst) && PoolBalance(src) == PoolBalance(dst)
      && GetAmount(src, SealedCountK) == GetAmount(dst, SealedCountK) && StoredKey(src) == StoredKey(dst)
  {
    hide RestoreAll, DumpAll;
    Restored(Wiped(rows), src, VerifyingKeyK);
  }

  /** Loading an export gives the state a rebuild of the exporter's tables would give. */
  lemma LoadedIsRebuilt(env: Env, rows: Rows, src: Rows, snap: Snap)
    requires Exported(src, snap)
    ensures PartsOk(snap.parts) && SameState(Rebuilt(env, src, snap.height), Loaded(env, rows, snap))
  {
    hide RestoreAll, DumpAll, Carried, CurrentSeal, WithMeta, BaseFee, StoredKey;
    MetaFields(rows, src, snap);
    var met := WithMeta(RestoreAll(Wiped(rows), DumpAll(src)), snap);
    var dst, rebuilt := Rebuilt(env, met, snap.height), Rebuilt(env, src, snap.height);
    forall k | Carried(k)
      ensures Same(src, met, k) && Same(rebuilt, dst, k)
    {
      MetaRestored(rows, src, snap, k);
      NotCarried();
    }
    assert SamePool(src, met) by { PoolIsCarried(); }
    PoolRowsDecideSeal(env, src, met);
    MetaUnderSeal(met, dst, env, snap.height);
    MetaUnderSeal(src, rebuilt, env, snap.height);
  }

  lemma NotCarried()
    ensures !Carried(SealK)
  {
  }

  lemma PoolIsCarried()
    ensures forall k: Key :: k.LeafK? || k.NullifierK? ==> Carried(k)
  {
  }

  lemma MetaUnderSeal(met: Rows, dst: Rows, env: Env, height: nat)
    requires dst == Rebuilt(env, met, height)
    ensures BaseFee(dst) == BaseFee(met) && PoolBalance(dst) == PoolBalance(met)
    ensures GetAmount(dst, SealedCountK) == GetAmount(met, SealedCountK) && StoredKey(dst) == StoredKey(met)
  {
    hide CurrentSeal;
  }

  /** The same state has the same root, before and after the root upgrade. */
  lemma SameStateSameRoot(h: Hashing, src: Rows, dst: Rows, height: nat)
    requires SameState(src, dst)
    ensures StateRootAt(h, src, height) == StateRootAt(h, dst, height) && LiveNames(src) == LiveNames(dst)
  {
    hide TableRoot, LiveNames;
    assert SameLeafRows(src, dst) by {
      forall k | HasLeaf(k)
        ensures Same(src, dst, k)
      {
        assert Carried(k) || k == SealK;
      }
    }
    TableRootDependsOnLeafRows(h.sha, src, dst);
    SameDigest(src, dst);
  }

  lemma SameDigest(src: Rows, dst: Rows)
    requires SameState(src, dst)
    ensures Digested(src) == Digested(dst)
  {
    forall k | (HasLeaf(k) && k != SealK) || k.LeafK? || k.NullifierK?
      ensures Same(src, dst, k)
    {
      assert Carried(k);
    }
  }

  lemma InstalledKeepsState(env: Env, rows: Rows, snap: Snap, src: Rows)
    requires PartsOk(snap.parts) && SameState(src, Loaded(env, rows, snap))
    ensures var dst := Installed(env, rows, snap);
      && SameState(src, dst) && Tip(dst) == Some(snap.block.header.height) && TipHash(dst) == snap.block.header.hash
      && Finalized(dst) >= snap.height
  {
    hide Loaded, Carried;
    var loaded := Loaded(env, rows, snap);
    var stored := PutBlock(loaded, env.txHash, snap.block);
    forall k: Key | !k.BlockK? && !k.TxK? && k != TipHeightK && k != TipHashK
      ensures Same(loaded, stored, k)
    {
      IndexAgrees(loaded[BlockK(snap.block.header.height) := BlockV(snap.block)], env, snap.block, k);
    }
    StateRows();
    assert Same(loaded, stored, BaseFeeK) && Same(loaded, stored, PoolK) && Same(loaded, stored, SealedCountK)
        && Same(loaded, stored, VerifyingKeyK);
  }

  lemma StateRows()
    ensures forall k: Key :: Carried(k) || k == SealK ==>
      !k.BlockK? && !k.TxK? && k != TipHeightK && k != TipHashK && k != FinalizedK
  {
  }

  lemma IndexAgrees(rows: Rows, env: Env, b: Block, k: Key)
    requires !k.TxK?
    ensures Same(rows, IndexTxs(rows, env.txHash, b.transactions, b.header.height), k)
  {
    IndexOnlyTxs(rows, env, b.transactions, b.header.height, k);
  }

  lemma {:induction false} IndexOnlyTxs(rows: Rows, env: Env, txs: seq<Types.Transaction>, height: nat, k: Key)
    requires !k.TxK?
    ensures Same(rows, IndexTxs(rows, env.txHash, txs, height), k)
  {
    if txs != [] {
      IndexOnlyTxs(rows, env, txs[..|txs| - 1], height, k);
    }
  }

  /** Export, then import into any other store, the stored block being in order: the root
      check passes exactly when rebuilding the shielded leaves does not change the root of
      the exporter's tables, and then the rebuilt state is installed under the snapshot's
      height. */
  method ExportThenImport(env: Env, src: Database, dst: Database, chainId: nat, checkpoint: Option<(nat, Bytes)>)
    returns (snap: Result<Snap>, r: Result<nat>)
    requires src.Valid() && dst.Loading() && src.hashing == dst.hashing
    requires {src, src.rows, src.nodes} !! {dst, dst.rows, dst.nodes}
    modifies dst`leaves, dst`names, dst.rows`table, dst.rows`frames, dst.nodes`table, dst.nodes`frames
    ensures dst.Loading()
    ensures snap.Ok? <==> Exportable(src.hashing, src.rows.table, checkpoint)
    ensures snap.Ok? ==>
      var b := StoredBlock(src.rows.table, SnapshotHeight(src.rows.table)).value;
      && snap.value.format == SNAPSHOT_FORMAT && snap.value.chainId == chainId
      && snap.value.height == SnapshotHeight(src.rows.table) && snap.value.block == b
      && snap.value.blockHash == b.header.hash && snap.value.stateRoot == b.header.stateRoot
    ensures r.Ok? ==> snap.Ok?
    ensures snap.Ok? && HeaderOk(env.crypto, snap.value, chainId) ==>
      var rows, height := src.rows.table, SnapshotHeight(src.rows.table);
      var rebuilt := Rebuilt(env, rows, height);
      && (RootIsKnown(src.hashing.sha, src.names + LiveNames(rebuilt), height) ==>
            (r.Ok? <==> StateRootAt(src.hashing, rebuilt, height) == StateRootAt(src.hashing, rows, height)))
      && (r.Ok? ==> r == Ok(height) && dst.Valid() && SameState(rebuilt, dst.rows.table) && Tip(dst.rows.table) == Some(height))
  {
    hide Database.Loading, Database.Valid, HeaderOk, NoClash, Rebuilt, SameState, StateRootAt, LegacyRoot, Installed,
         Loaded, LiveNames, DumpAll, Readable, PartsOk, Wiped, RestoreAll, BaseFee, PoolBalance, StoredKey;
    snap := Export(src, chainId, checkpoint);
    if snap.Err? {
      return snap, Err("nothing to import");
    }
    ghost var rows, start := src.rows.table, dst.rows.table;
    ghost var s := snap.value;
    ghost var rebuilt := Rebuilt(env, rows, s.height);
    DumpAllOk(rows);
    assert Exported(rows, s);
    LoadedIsRebuilt(env, start, rows, s);
    SameStateSameRoot(src.hashing, rebuilt, Loaded(env, start, s), s.height);
    InstalledKeepsState(env, start, s, rebuilt);
    if NoClash(src.hashing.sha, src.names + LiveNames(rebuilt)) {
      NoClashSubset(src.hashing.sha, src.names, src.names + LiveNames(rebuilt));
      NoClashSubset(src.hashing.sha, LiveNames(rebuilt), src.names + LiveNames(rebuilt));
    }
    if HeaderOk(env.crypto, s, chainId) {
      HeaderHeight(env.crypto, s, chainId);
    }
    r := Import(env, dst, snap.value, chainId);
  }

  lemma HeaderHeight(c: Crypto, snap: Snap, chainId: nat)
    requires HeaderOk(c, snap, chainId)
    ensures snap.block.header.height == snap.height
  {
  }
}
