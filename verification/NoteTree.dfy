/** The shielded note commitment tree (src/shielded.rs): a depth-32 binary tree
    over an append-only leaf list, padded with zero subtrees.

    `hash2` stands for Poseidon. Every result below holds for any two-argument
    hash; soundness is stated by naming the two hash inputs that would collide. */
module NoteTree {
  import opened Base

  type Fr = nat
  type Hash2 = (Fr, Fr) -> Fr

  const TREE_DEPTH: nat := 32

  // ---- reference definition ----

  /** Root of an all-zero subtree of height `d`. */
  function ZeroRoot(h: Hash2, d: nat): Fr {
    if d == 0 then 0 else h(ZeroRoot(h, d - 1), ZeroRoot(h, d - 1))
  }

  /** Node `i` (from the left) at height `d` of the full tree whose leaves are
      `leaves` followed by zeros forever. */
  function Node(h: Hash2, leaves: seq<Fr>, d: nat, i: nat): Fr
    decreases d
  {
    if d == 0 then
      if i < |leaves| then leaves[i] else 0
    else
      h(Node(h, leaves, d - 1, 2 * i), Node(h, leaves, d - 1, 2 * i + 1))
  }

  function Root(h: Hash2, leaves: seq<Fr>): Fr {
    Node(h, leaves, TREE_DEPTH, 0)
  }

  // ---- building the root level by level ----

  /** `level` holds height `d` of the tree; everything to its right is zero. */
  ghost predicate Covers(h: Hash2, leaves: seq<Fr>, d: nat, level: seq<Fr>) {
    forall i: nat :: Node(h, leaves, d, i) == if i < |level| then level[i] else ZeroRoot(h, d)
  }

  function Get(level: seq<Fr>, i: nat, default: Fr): Fr {
    if i < |level| then level[i] else default
  }

  /** One level up: neighbours hashed pairwise, a lone last node against zero. */
  ghost predicate IsParentLevel(h: Hash2, d: nat, level: seq<Fr>, next: seq<Fr>) {
    && |next| == (|level| + 1) / 2
    && forall i: nat :: i < |next| ==> next[i] == h(level[2 * i], Get(level, 2 * i + 1, ZeroRoot(h, d)))
  }

  lemma CoversParent(h: Hash2, leaves: seq<Fr>, d: nat, level: seq<Fr>, next: seq<Fr>)
    requires Covers(h, leaves, d, level) && IsParentLevel(h, d, level, next)
    ensures Covers(h, leaves, d + 1, next)
  {
    forall i: nat
      ensures Node(h, leaves, d + 1, i) == if i < |next| then next[i] else ZeroRoot(h, d + 1)
    {
      assert Node(h, leaves, d, 2 * i) == Get(level, 2 * i, ZeroRoot(h, d));
      assert Node(h, leaves, d, 2 * i + 1) == Get(level, 2 * i + 1, ZeroRoot(h, d));
    }
  }

  method ZeroSubtreeRoot(h: Hash2, depth: nat) returns (z: Fr)
    ensures z == ZeroRoot(h, depth)
  {
    z := 0;
    for k := 0 to depth
      invariant z == ZeroRoot(h, k)
    {
      z := h(z, z);
    }
  }

  method ParentLevel(h: Hash2, d: nat, level: seq<Fr>) returns (next: seq<Fr>)
    ensures IsParentLevel(h, d, level, next)
  {
    var zero := ZeroSubtreeRoot(h, d);
    next := [];
    var i := 0;
    while i < |level|
      invariant i == 2 * |next| && |next| <= (|level| + 1) / 2
      invariant forall k: nat :: k < |next| ==>
        next[k] == h(level[2 * k], Get(level, 2 * k + 1, ZeroRoot(h, d)))
    {
      var r := if i + 1 < |level| then level[i + 1] else zero;
      next := next + [h(level[i], r)];
      i := i + 2;
    }
  }

  /** A lone node rides up the left edge against zero subtrees. */
  method RideUp(h: Hash2, leaves: seq<Fr>, d: nat, level: seq<Fr>) returns (cur: Fr)
    requires d <= TREE_DEPTH && |level| <= 1 && Covers(h, leaves, d, level)
    ensures cur == Root(h, leaves)
  {
    hide Node, Covers, ZeroRoot, Root;
    var zero := ZeroSubtreeRoot(h, d);
    cur := if |level| == 1 then level[0] else zero;
    ghost var lone := [cur];
    LoneCovers(h, leaves, d, level);
    for dd := d to TREE_DEPTH
      invariant lone == [cur] && Covers(h, leaves, dd, lone)
    {
      var z := ZeroSubtreeRoot(h, dd);
      ghost var next := [h(cur, z)];
      CoversParent(h, leaves, dd, lone, next);
      cur := h(cur, z);
      lone := next;
    }
    TopCovers(h, leaves, lone);
  }

  lemma LoneCovers(h: Hash2, leaves: seq<Fr>, d: nat, level: seq<Fr>)
    requires |level| <= 1 && Covers(h, leaves, d, level)
    ensures Covers(h, leaves, d, [if |level| == 1 then level[0] else ZeroRoot(h, d)])
  {
    hide Node, ZeroRoot;
  }

  lemma TopCovers(h: Hash2, leaves: seq<Fr>, level: seq<Fr>)
    requires level != [] && Covers(h, leaves, TREE_DEPTH, level)
    ensures Root(h, leaves) == level[0]
  {
    hide Node, ZeroRoot;
  }

  method RootFromLeaves(h: Hash2, leaves: seq<Fr>) returns (root: Fr)
    ensures root == Root(h, leaves)
  {
    hide Root;
    var level := leaves;
    for d := 0 to TREE_DEPTH
      invariant Covers(h, leaves, d, level)
      invariant d > 0 ==> |level| >= 1
    {
      if |level| <= 1 {
        root := RideUp(h, leaves, d, level);
        return;
      }
      var next := ParentLevel(h, d, level);
      CoversParent(h, leaves, d, level, next);
      level := next;
    }
    TopCovers(h, leaves, level);
    root := level[0];
  }

  // ---- authentication paths ----

  /** Position, at height `d`, of the node above leaf `pos`. */
  function Ancestor(pos: nat, d: nat): nat {
    if d == 0 then pos else Ancestor(pos, d - 1) / 2
  }

  function Sibling(i: nat): nat {
    if i % 2 == 0 then i + 1 else i - 1
  }

  function Ordered(i: nat, own: Fr, sibling: Fr): (Fr, Fr) {
    if i % 2 == 1 then (sibling, own) else (own, sibling)
  }

  /** What the verifier has computed after `d` levels. */
  function Climb(h: Hash2, leaf: Fr, pos: nat, path: seq<Fr>, d: nat): Fr
    requires d <= |path|
    decreases d, 0
  {
    if d == 0 then leaf else
      var input := VerifierInput(h, leaf, pos, path, d - 1);
      h(input.0, input.1)
  }

  /** The pair the verifier hashes at level `d`. */
  function VerifierInput(h: Hash2, leaf: Fr, pos: nat, path: seq<Fr>, d: nat): (Fr, Fr)
    requires d < |path|
    decreases d, 1
  {
    Ordered(Ancestor(pos, d), Climb(h, leaf, pos, path, d), path[d])
  }

  /** The pair the tree itself hashes at level `d` above leaf `pos`. */
  function TreeInput(h: Hash2, leaves: seq<Fr>, pos: nat, d: nat): (Fr, Fr) {
    var i := Ancestor(pos, d);
    Ordered(i, Node(h, leaves, d, i), Node(h, leaves, d, Sibling(i)))
  }

  ghost predicate IsAuthPath(h: Hash2, leaves: seq<Fr>, pos: nat, path: seq<Fr>) {
    forall d: nat :: d < |path| ==> path[d] == Node(h, leaves, d, Sibling(Ancestor(pos, d)))
  }

  method MerklePath(h: Hash2, leaves: seq<Fr>, pos: nat) returns (r: Result<seq<Fr>>)
    ensures r.Ok? <==> pos < |leaves|
    ensures r.Ok? ==> |r.value| == TREE_DEPTH && IsAuthPath(h, leaves, pos, r.value)
  {
    if pos >= |leaves| {
      return Err("leaf index out of range");
    }
    var path := [];
    var level := leaves;
    var idx := pos;
    for d := 0 to TREE_DEPTH
      invariant |path| == d && IsAuthPath(h, leaves, pos, path)
      invariant idx == Ancestor(pos, d) < |level|
      invariant Covers(h, leaves, d, level)
    {
      var zero := ZeroSubtreeRoot(h, d);
      var sibling := if idx % 2 == 0 then Get(level, idx + 1, zero) else level[idx - 1];
      assert sibling == Node(h, leaves, d, Sibling(idx));
      path := path + [sibling];
      if |level| <= 1 {
        path := ZeroTail(h, leaves, pos, d + 1, path, level);
        return Ok(path);
      }
      var next := ParentLevel(h, d, level);
      CoversParent(h, leaves, d, level, next);
      level := next;
      idx := idx / 2;
    }
    r := Ok(path);
  }

  lemma ZeroBesideLone(h: Hash2, leaves: seq<Fr>, d: nat, lone: seq<Fr>)
    requires |lone| == 1 && Covers(h, leaves, d, lone)
    ensures Node(h, leaves, d, 1) == ZeroRoot(h, d)
  {
  }

  /** Above a lone node every remaining sibling is a zero subtree. */
  method ZeroTail(h: Hash2, leaves: seq<Fr>, pos: nat, from: nat, path: seq<Fr>, ghost level: seq<Fr>)
      returns (full: seq<Fr>)
    requires 1 <= from <= TREE_DEPTH && |path| == from && IsAuthPath(h, leaves, pos, path)
    requires |level| == 1 && Ancestor(pos, from - 1) == 0 && Covers(h, leaves, from - 1, level)
    ensures |full| == TREE_DEPTH && IsAuthPath(h, leaves, pos, full)
  {
    hide Node, Covers, ZeroRoot;
    full := path;
    ghost var lone := level;
    for dd := from to TREE_DEPTH
      invariant |full| == dd && IsAuthPath(h, leaves, pos, full)
      invariant |lone| == 1 && Ancestor(pos, dd - 1) == 0 && Covers(h, leaves, dd - 1, lone)
    {
      ghost var next := [h(lone[0], ZeroRoot(h, dd - 1))];
      CoversParent(h, leaves, dd - 1, lone, next);
      lone := next;
      var z := ZeroSubtreeRoot(h, dd);
      ZeroBesideLone(h, leaves, dd, lone);
      full := full + [z];
    }
  }

  method VerifyPath(h: Hash2, leaf: Fr, pos: nat, path: seq<Fr>, root: Fr) returns (ok: bool)
    ensures ok <==> |path| == TREE_DEPTH && Climb(h, leaf, pos, path, TREE_DEPTH) == root
  {
    if |path| != TREE_DEPTH {
      return false;
    }
    var cur, i := leaf, pos;
    for level := 0 to |path|
      invariant cur == Climb(h, leaf, pos, path, level) && i == Ancestor(pos, level)
    {
      cur := if i % 2 == 1 then h(path[level], cur) else h(cur, path[level]);
      i := i / 2;
    }
    ok := cur == root;
  }

  // ---- completeness ----

  lemma {:induction false} AncestorBelow(pos: nat, d: nat, n: nat)
    requires pos < Pow2(d + n)
    ensures Ancestor(pos, d) < Pow2(n)
  {
    if d > 0 {
      AncestorBelow(pos, d - 1, n + 1);
    }
  }

  lemma AncestorIsRoot(pos: nat)
    requires pos < Pow2(TREE_DEPTH)
    ensures Ancestor(pos, TREE_DEPTH) == 0
  {
    AncestorBelow(pos, TREE_DEPTH, 0);
  }

  lemma NodeIsHashOfInput(h: Hash2, leaves: seq<Fr>, pos: nat, d: nat)
    ensures var input := TreeInput(h, leaves, pos, d);
            Node(h, leaves, d + 1, Ancestor(pos, d + 1)) == h(input.0, input.1)
  {
    var i := Ancestor(pos, d);
    assert Ancestor(pos, d + 1) == i / 2;
    assert if i % 2 == 0 then i == 2 * (i / 2) else i == 2 * (i / 2) + 1;
  }

  lemma {:induction false} ClimbFollowsTree(h: Hash2, leaves: seq<Fr>, pos: nat, path: seq<Fr>, d: nat)
    requires d <= |path| && IsAuthPath(h, leaves, pos, path)
    ensures Climb(h, Get(leaves, pos, 0), pos, path, d) == Node(h, leaves, d, Ancestor(pos, d))
  {
    if d > 0 {
      ClimbFollowsTree(h, leaves, pos, path, d - 1);
      NodeIsHashOfInput(h, leaves, pos, d - 1);
    }
  }

  /** The honest path of any position below 2^32 leads to the root of the whole list. */
  lemma PathsVerify(h: Hash2, leaves: seq<Fr>, pos: nat, path: seq<Fr>)
    requires pos < Pow2(TREE_DEPTH)
    requires |path| == TREE_DEPTH && IsAuthPath(h, leaves, pos, path)
    ensures Climb(h, Get(leaves, pos, 0), pos, path, TREE_DEPTH) == Root(h, leaves)
  {
    ClimbFollowsTree(h, leaves, pos, path, TREE_DEPTH);
    AncestorIsRoot(pos);
  }

  /** Prove a position and check the proof: accepted for every leaf of every list of at
      most 2^32 leaves. */
  method ProveThenVerify(h: Hash2, leaves: seq<Fr>, pos: nat) returns (r: Result<bool>)
    requires |leaves| <= Pow2(TREE_DEPTH)
    ensures if pos < |leaves| then r == Ok(true) else r.Err?
  {
    hide Pow2;
    var path :- MerklePath(h, leaves, pos);
    var root := RootFromLeaves(h, leaves);
    var ok := VerifyPath(h, leaves[pos], pos, path, root);
    PathsVerify(h, leaves, pos, path);
    r := Ok(ok);
  }

  // ---- soundness ----

  /** The verifier and the tree hash different pairs at level `d` and get the same digest. */
  predicate CollidesAt(h: Hash2, leaves: seq<Fr>, leaf: Fr, pos: nat, path: seq<Fr>, d: nat)
    requires d < |path|
  {
    var x, y := VerifierInput(h, leaf, pos, path, d), TreeInput(h, leaves, pos, d);
    x != y && h(x.0, x.1) == h(y.0, y.1)
  }

  lemma {:induction false} DivergenceStopsAtCollision(
      h: Hash2, leaves: seq<Fr>, leaf: Fr, pos: nat, path: seq<Fr>, d: nat) returns (at: nat)
    requires d <= |path|
    requires Climb(h, leaf, pos, path, d) == Node(h, leaves, d, Ancestor(pos, d))
    requires leaf != Get(leaves, pos, 0)
    ensures at < d && CollidesAt(h, leaves, leaf, pos, path, at)
  {
    NodeIsHashOfInput(h, leaves, pos, d - 1);
    if Climb(h, leaf, pos, path, d - 1) == Node(h, leaves, d - 1, Ancestor(pos, d - 1)) {
      at := DivergenceStopsAtCollision(h, leaves, leaf, pos, path, d - 1);
    } else {
      at := d - 1;
    }
  }

  /** A leaf that is not the one at `pos`, accepted under the list's root, exhibits
      a hash collision at a level of its own path. */
  lemma WrongLeafCollides(h: Hash2, leaves: seq<Fr>, leaf: Fr, pos: nat, path: seq<Fr>)
    requires pos < Pow2(TREE_DEPTH)
    requires |path| == TREE_DEPTH && Climb(h, leaf, pos, path, TREE_DEPTH) == Root(h, leaves)
    requires leaf != Get(leaves, pos, 0)
    ensures exists at: nat :: at < TREE_DEPTH && CollidesAt(h, leaves, leaf, pos, path, at)
  {
    AncestorIsRoot(pos);
    var at := DivergenceStopsAtCollision(h, leaves, leaf, pos, path, TREE_DEPTH);
  }
}
