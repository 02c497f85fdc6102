/** The sparse Merkle tree behind the state root (src/smt.rs).

    A path is its 128 bits, most significant first. `sha` stands for SHA-256: every result
    holds for any function into 32-byte digests, and soundness names the two
    inputs that would have to collide. */
module SparseTree {
  import opened Base
  import opened Journal

  type Digest = d: Bytes | |d| == 32 witness ZERO_DIGEST
  type Sha = Bytes -> Digest
  type Path = p: seq<bool> | |p| == DEPTH witness seq(DEPTH, _ => false)

  const DEPTH: nat := 128
  const ZERO_DIGEST: string := seq(32, _ => '\0')

  /** Hash of an all-empty subtree whose root sits at `depth`. */
  function EmptyAt(sha: Sha, depth: nat): Digest
    requires depth <= DEPTH
    decreases DEPTH - depth
  {
    if depth == DEPTH then ZERO_DIGEST else sha(EmptyAt(sha, depth + 1) + EmptyAt(sha, depth + 1))
  }

  /** Domain-separated leaf key: its first 128 bits are the path. */
  function LeafKey(sha: Sha, domain: Bytes, key: Bytes): Digest {
    sha(domain + "|" + key)
  }

  function Bit(byte: char, j: nat): bool
    requires j < 8
  {
    (byte as int / Pow2(7 - j)) % 2 == 1
  }

  function PathOf(leafKey: Digest): Path {
    seq(DEPTH, (i: int) requires 0 <= i < DEPTH => Bit(leafKey[i / 8], i % 8))
  }

  function Flip(path: Path, index: nat): Path
    requires index < DEPTH
  {
    path[index := !path[index]]
  }

  /** Names a node: how deep it sits, and its prefix padded with zeros to full length. */
  datatype NodeKey = NodeKey(depth: nat, masked: seq<bool>)

  type Nodes = map<NodeKey, Digest>

  function NodeId(depth: nat, path: Path): NodeKey
    requires depth <= DEPTH
  {
    NodeKey(depth, seq(DEPTH, (i: int) requires 0 <= i < DEPTH => i < depth && path[i]))
  }

  /** A masked prefix is never confused with another prefix. */
  lemma NodeIdInjective(d: nat, p: Path, e: nat, q: Path)
    requires d <= DEPTH && e <= DEPTH
    ensures NodeId(d, p) == NodeId(e, q) <==> d == e && p[..d] == q[..e]
  {
    if d == e && p[..d] == q[..e] {
      forall i | 0 <= i < d
        ensures p[i] == q[i]
      {
        assert p[i] == p[..d][i] && q[i] == q[..e][i];
      }
      assert NodeId(d, p).masked == NodeId(e, q).masked;
    } else if NodeId(d, p) == NodeId(e, q) {
      forall i | 0 <= i < d
        ensures p[i] == q[i]
      {
        assert NodeId(d, p).masked[i] == NodeId(e, q).masked[i];
      }
    }
  }

  function Parent(sha: Sha, left: Digest, right: Digest): Digest {
    sha(left + right)
  }

  function LeafInput(leafKey: Digest, value: Bytes): Bytes {
    "inzleaf|" + leafKey + "|" + value
  }

  /** Hash stored at a leaf; a cleared entry collapses to the empty leaf. */
  function LeafHash(sha: Sha, leafKey: Digest, value: Option<Bytes>): Digest {
    match value
    case None => EmptyAt(sha, DEPTH)
    case Some(v) => sha(LeafInput(leafKey, v))
  }

  function GetNode(sha: Sha, nodes: Nodes, depth: nat, path: Path): Digest
    requires depth <= DEPTH
  {
    var id := NodeId(depth, path);
    if id in nodes then nodes[id] else EmptyAt(sha, depth)
  }

  function PutNode(sha: Sha, nodes: Nodes, depth: nat, path: Path, hash: Digest): Nodes
    requires depth <= DEPTH
  {
    var id := NodeId(depth, path);
    if hash == EmptyAt(sha, depth) then nodes - {id} else nodes[id := hash]
  }

  lemma PutThenGet(sha: Sha, nodes: Nodes, d: nat, p: Path, hash: Digest, e: nat, q: Path)
    requires d <= DEPTH && e <= DEPTH
    ensures GetNode(sha, PutNode(sha, nodes, d, p, hash), e, q)
         == if d == e && p[..d] == q[..e] then hash else GetNode(sha, nodes, e, q)
  {
    NodeIdInjective(d, p, e, q);
  }

  function Combine(sha: Sha, right: bool, own: Digest, sibling: Digest): Digest {
    if right then Parent(sha, sibling, own) else Parent(sha, own, sibling)
  }

  /** Rebuild the path upwards from depth `d`, whose node already holds `cur`. */
  function Rebuild(sha: Sha, nodes: Nodes, path: Path, cur: Digest, d: nat): Nodes
    requires d <= DEPTH
    decreases d
  {
    if d == 0 then nodes else
      var idx := d - 1;
      var up := Combine(sha, path[idx], cur, GetNode(sha, nodes, d, Flip(path, idx)));
      Rebuild(sha, PutNode(sha, nodes, idx, path, up), path, up, idx)
  }

  /** The node table after writing `leaf` at `path`. */
  function SetLeaf(sha: Sha, nodes: Nodes, path: Path, leaf: Digest): Nodes {
    Rebuild(sha, PutNode(sha, nodes, DEPTH, path, leaf), path, leaf, DEPTH)
  }

  function RootOf(sha: Sha, nodes: Nodes): Digest {
    GetNode(sha, nodes, 0, seq(DEPTH, _ => false))
  }

  // ---- reference: the tree computed from scratch ----

  type Leaves = map<seq<bool>, Digest>

  function LeafAt(sha: Sha, leaves: Leaves, path: seq<bool>): Digest {
    if path in leaves then leaves[path] else EmptyAt(sha, DEPTH)
  }

  /** Hash of the subtree under `prefix`, from the leaf map alone. */
  function Ref(sha: Sha, leaves: Leaves, prefix: seq<bool>): Digest
    requires |prefix| <= DEPTH
    decreases DEPTH - |prefix|
  {
    if |prefix| == DEPTH then LeafAt(sha, leaves, prefix)
    else Parent(sha, Ref(sha, leaves, prefix + [false]), Ref(sha, leaves, prefix + [true]))
  }

  lemma {:induction false} RefDependsOnLeavesBelow(sha: Sha, a: Leaves, b: Leaves, prefix: seq<bool>)
    requires |prefix| <= DEPTH
    requires forall p: Path :: prefix <= p ==> LeafAt(sha, a, p) == LeafAt(sha, b, p)
    ensures Ref(sha, a, prefix) == Ref(sha, b, prefix)
    decreases DEPTH - |prefix|
  {
    if |prefix| == DEPTH {
      var p: Path := prefix;
      assert prefix <= p;
    } else {
      forall bit: bool, p: Path | prefix + [bit] <= p
        ensures LeafAt(sha, a, p) == LeafAt(sha, b, p)
      {
        assert prefix <= p;
      }
      RefDependsOnLeavesBelow(sha, a, b, prefix + [false]);
      RefDependsOnLeavesBelow(sha, a, b, prefix + [true]);
    }
  }

  lemma {:induction false} RefOfNothing(sha: Sha, prefix: seq<bool>)
    requires |prefix| <= DEPTH
    ensures Ref(sha, map[], prefix) == EmptyAt(sha, |prefix|)
    decreases DEPTH - |prefix|
  {
    if |prefix| < DEPTH {
      RefOfNothing(sha, prefix + [false]);
      RefOfNothing(sha, prefix + [true]);
    }
  }

  // ---- the node table always equals the reference ----

  /** Node `d` above `path`, stored or defaulted, is the reference hash. */
  ghost predicate NodeOk(sha: Sha, nodes: Nodes, leaves: Leaves, d: nat, path: Path)
    requires d <= DEPTH
  {
    GetNode(sha, nodes, d, path) == Ref(sha, leaves, path[..d])
  }

  ghost predicate TreeOk(sha: Sha, nodes: Nodes, leaves: Leaves) {
    forall d: nat, path: Path :: d <= DEPTH ==> NodeOk(sha, nodes, leaves, d, path)
  }

  /** All nodes are right except those above depth `done` on the way to `path`. */
  ghost predicate OkExceptAbove(sha: Sha, nodes: Nodes, leaves: Leaves, path: Path, done: nat)
    requires done <= DEPTH
  {
    forall d: nat, q: Path :: d <= DEPTH && (d >= done || q[..d] != path[..d]) ==> NodeOk(sha, nodes, leaves, d, q)
  }

  lemma EmptyTreeOk(sha: Sha)
    ensures TreeOk(sha, map[], map[])
  {
    forall d: nat, path: Path | d <= DEPTH
      ensures NodeOk(sha, map[], map[], d, path)
    {
      RefOfNothing(sha, path[..d]);
    }
  }

  lemma LeafWritten(sha: Sha, nodes: Nodes, leaves: Leaves, path: Path, leaf: Digest)
    requires TreeOk(sha, nodes, leaves)
    ensures OkExceptAbove(sha, PutNode(sha, nodes, DEPTH, path, leaf), leaves[path := leaf], path, DEPTH)
  {
    var nodes', leaves' := PutNode(sha, nodes, DEPTH, path, leaf), leaves[path := leaf];
    forall d: nat, q: Path | d <= DEPTH && (d >= DEPTH || q[..d] != path[..d])
      ensures NodeOk(sha, nodes', leaves', d, q)
    {
      PutThenGet(sha, nodes, DEPTH, path, leaf, d, q);
      assert NodeOk(sha, nodes, leaves, d, q);
      if q[..d] == path[..d] {
        assert q[..d] == q && path[..d] == path;
      } else {
        forall p: Path | q[..d] <= p
          ensures LeafAt(sha, leaves, p) == LeafAt(sha, leaves', p)
        {
          assert p[..d] == q[..d];
        }
        RefDependsOnLeavesBelow(sha, leaves, leaves', q[..d]);
      }
    }
  }

  lemma LevelCombines(sha: Sha, leaves: Leaves, path: Path, d: nat)
    requires 0 < d <= DEPTH
    ensures Ref(sha, leaves, path[..d - 1])
         == Combine(sha, path[d - 1], Ref(sha, leaves, path[..d]), Ref(sha, leaves, Flip(path, d - 1)[..d]))
  {
    var prefix := path[..d - 1];
    assert path[..d] == prefix + [path[d - 1]];
    assert Flip(path, d - 1)[..d] == prefix + [!path[d - 1]];
  }

  lemma {:induction false} RebuildOk(sha: Sha, nodes: Nodes, leaves: Leaves, path: Path, cur: Digest, d: nat)
    requires d <= DEPTH && OkExceptAbove(sha, nodes, leaves, path, d)
    requires cur == Ref(sha, leaves, path[..d])
    ensures TreeOk(sha, Rebuild(sha, nodes, path, cur, d), leaves)
    decreases d
  {
    hide Combine, GetNode, PutNode;
    if d > 0 {
      var idx := d - 1;
      var sibling := Flip(path, idx);
      assert NodeOk(sha, nodes, leaves, d, sibling);
      var up := Combine(sha, path[idx], cur, GetNode(sha, nodes, d, sibling));
      LevelCombines(sha, leaves, path, d);
      var nodes' := PutNode(sha, nodes, idx, path, up);
      forall e: nat, q: Path | e <= DEPTH && (e >= idx || q[..e] != path[..e])
        ensures NodeOk(sha, nodes', leaves, e, q)
      {
        PutThenGet(sha, nodes, idx, path, up, e, q);
        if e != idx || q[..e] != path[..e] {
          assert NodeOk(sha, nodes, leaves, e, q);
        }
      }
      RebuildOk(sha, nodes', leaves, path, up, idx);
    }
  }

  /** Writing one leaf keeps every node equal to the from-scratch hash. */
  lemma SetLeafOk(sha: Sha, nodes: Nodes, leaves: Leaves, path: Path, leaf: Digest)
    requires TreeOk(sha, nodes, leaves)
    ensures TreeOk(sha, SetLeaf(sha, nodes, path, leaf), leaves[path := leaf])
  {
    LeafWritten(sha, nodes, leaves, path, leaf);
    assert path[..DEPTH] == path;
    RebuildOk(sha, PutNode(sha, nodes, DEPTH, path, leaf), leaves[path := leaf], path, leaf, DEPTH);
  }

  // ---- whole histories of writes and deletes ----

  datatype Write = Write(path: Path, leaf: Digest)

  function ApplyWrites(sha: Sha, nodes: Nodes, writes: seq<Write>): Nodes {
    if writes == [] then nodes else
      var last := |writes| - 1;
      SetLeaf(sha, ApplyWrites(sha, nodes, writes[..last]), writes[last].path, writes[last].leaf)
  }

  function ApplyLeaves(leaves: Leaves, writes: seq<Write>): Leaves {
    if writes == [] then leaves else
      var last := |writes| - 1;
      ApplyLeaves(leaves, writes[..last])[writes[last].path := writes[last].leaf]
  }

  lemma {:induction false} HistoryOk(sha: Sha, writes: seq<Write>)
    ensures TreeOk(sha, ApplyWrites(sha, map[], writes), ApplyLeaves(map[], writes))
  {
    if writes == [] {
      EmptyTreeOk(sha);
    } else {
      var last := |writes| - 1;
      HistoryOk(sha, writes[..last]);
      SetLeafOk(sha, ApplyWrites(sha, map[], writes[..last]), ApplyLeaves(map[], writes[..last]),
                writes[last].path, writes[last].leaf);
    }
  }

  lemma RootIsRef(sha: Sha, nodes: Nodes, leaves: Leaves)
    requires TreeOk(sha, nodes, leaves)
    ensures RootOf(sha, nodes) == Ref(sha, leaves, [])
  {
    var zero: Path := seq(DEPTH, _ => false);
    assert NodeOk(sha, nodes, leaves, 0, zero) && zero[..0] == [];
  }

  /** Two histories that leave the same live leaves have the same root: order,
      overwrites and deleted entries leave no trace. */
  lemma RootDependsOnlyOnLiveLeaves(sha: Sha, a: seq<Write>, b: seq<Write>)
    requires forall p: Path :: LeafAt(sha, ApplyLeaves(map[], a), p) == LeafAt(sha, ApplyLeaves(map[], b), p)
    ensures RootOf(sha, ApplyWrites(sha, map[], a)) == RootOf(sha, ApplyWrites(sha, map[], b))
  {
    HistoryOk(sha, a);
    HistoryOk(sha, b);
    RootIsRef(sha, ApplyWrites(sha, map[], a), ApplyLeaves(map[], a));
    RootIsRef(sha, ApplyWrites(sha, map[], b), ApplyLeaves(map[], b));
    RefDependsOnLeavesBelow(sha, ApplyLeaves(map[], a), ApplyLeaves(map[], b), []);
  }

  /** The history with every write to `path` left out. */
  function Erased(history: seq<Write>, path: Path): seq<Write> {
    if history == [] then [] else
      var last := |history| - 1;
      Erased(history[..last], path) + if history[last].path == path then [] else [history[last]]
  }

  lemma {:induction false} ErasedLeaf(sha: Sha, history: seq<Write>, path: Path, p: Path)
    ensures LeafAt(sha, ApplyLeaves(map[], Erased(history, path)), p)
         == if p == path then EmptyAt(sha, DEPTH) else LeafAt(sha, ApplyLeaves(map[], history), p)
  {
    if history != [] {
      var last := |history| - 1;
      var before := Erased(history[..last], path);
      ErasedLeaf(sha, history[..last], path, p);
      assert (before + [history[last]])[..|before|] == before && before + [] == before;
    }
  }

  /** Clearing a key after any history gives the root of the history that never wrote it. */
  lemma DeleteUndoesInsert(sha: Sha, history: seq<Write>, path: Path)
    ensures RootOf(sha, ApplyWrites(sha, map[], history + [Write(path, EmptyAt(sha, DEPTH))]))
         == RootOf(sha, ApplyWrites(sha, map[], Erased(history, path)))
  {
    hide ApplyWrites, RootOf, Erased;
    var cleared := history + [Write(path, EmptyAt(sha, DEPTH))];
    assert cleared[..|history|] == history;
    forall p: Path
      ensures LeafAt(sha, ApplyLeaves(map[], cleared), p) == LeafAt(sha, ApplyLeaves(map[], Erased(history, path)), p)
    {
      ErasedLeaf(sha, history, path, p);
    }
    RootDependsOnlyOnLiveLeaves(sha, cleared, Erased(history, path));
  }

  // ---- the in-place update ----

  method StoreNode(sha: Sha, nodes: Journaled<NodeKey, Digest>, depth: nat, path: Path, hash: Digest)
    requires depth <= DEPTH && nodes.Valid()
    modifies nodes`table, nodes`frames
    ensures nodes.Valid() && nodes.table == PutNode(sha, old(nodes.table), depth, path, hash)
    ensures |nodes.frames| == |old(nodes.frames)|
  {
    var id := NodeId(depth, path);
    if hash == EmptyAt(sha, depth) {
      nodes.Remove(id);
    } else {
      nodes.Insert(id, hash);
    }
  }

  /** Store a leaf hash and recompute its ancestors bottom-up, in place. */
  method Set(sha: Sha, nodes: Journaled<NodeKey, Digest>, path: Path, leaf: Digest)
    requires nodes.Valid()
    modifies nodes`table, nodes`frames
    ensures nodes.Valid() && nodes.table == SetLeaf(sha, old(nodes.table), path, leaf)
    ensures |nodes.frames| == |old(nodes.frames)|
  {
    hide PutNode, GetNode, Combine;
    var cur := leaf;
    StoreNode(sha, nodes, DEPTH, path, cur);
    var depth := DEPTH;
    while depth > 0
      invariant 0 <= depth <= DEPTH && nodes.Valid()
      invariant Rebuild(sha, nodes.table, path, cur, depth) == SetLeaf(sha, old(nodes.table), path, leaf)
      invariant |nodes.frames| == |old(nodes.frames)|
    {
      var idx := depth - 1;
      var sib := GetNode(sha, nodes.table, depth, Flip(path, idx));
      cur := Combine(sha, path[idx], cur, sib);
      StoreNode(sha, nodes, idx, path, cur);
      depth := idx;
    }
  }
}
