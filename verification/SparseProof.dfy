/** Compressed inclusion proofs of the sparse Merkle tree (src/smt.rs): empty
    siblings are left out and marked in a bitmap. */
module SparseProof {
  import opened Base
  import opened SparseTree

  /** The sibling at every level, position `i` holding the one at depth `i + 1`. */
  type Siblings = s: seq<Digest> | |s| == DEPTH witness seq(DEPTH, _ => ZERO_DIGEST)

  // ---- what the verifier computes ----

  /** Put the left-out siblings back, level `d` first; fails on too few or too many. */
  function Decompress(sha: Sha, given: seq<Digest>, bitmap: seq<bool>, d: nat): Option<seq<Digest>>
    requires d <= DEPTH && |bitmap| == DEPTH
    ensures Decompress(sha, given, bitmap, d).Some? ==> |Decompress(sha, given, bitmap, d).value| == d
    decreases d
  {
    if d == 0 then
      if given == [] then Some([]) else None
    else if bitmap[d - 1] then
      if given == [] then None else
        match Decompress(sha, given[1..], bitmap, d - 1)
        case None => None
        case Some(low) => Some(low + [given[0]])
    else
      match Decompress(sha, given, bitmap, d - 1)
      case None => None
      case Some(low) => Some(low + [EmptyAt(sha, d)])
  }

  /** The pair the verifier hashes to get the node at depth `d`. */
  function VerifierInput(sha: Sha, leaf: Digest, path: Path, sibs: Siblings, d: nat): (Digest, Digest)
    requires d < DEPTH
    decreases DEPTH - d, 0
  {
    var own := Climb(sha, leaf, path, sibs, d + 1);
    if path[d] then (sibs[d], own) else (own, sibs[d])
  }

  /** The verifier's node at depth `d` above `path`. */
  function Climb(sha: Sha, leaf: Digest, path: Path, sibs: Siblings, d: nat): Digest
    requires d <= DEPTH
    decreases DEPTH - d, 1
  {
    if d == DEPTH then leaf else
      var input := VerifierInput(sha, leaf, path, sibs, d);
      Parent(sha, input.0, input.1)
  }

  /** Every part has the right length and the bitmap asks for exactly the siblings given. */
  predicate WellFormed(sha: Sha, given: seq<Bytes>, bitmap: seq<bool>) {
    && |bitmap| == DEPTH
    && (forall s :: s in given ==> |s| == 32)
    && Decompress(sha, given, bitmap, DEPTH).Some?
  }

  function Full(sha: Sha, given: seq<Bytes>, bitmap: seq<bool>): Siblings
    requires WellFormed(sha, given, bitmap)
  {
    Decompress(sha, given, bitmap, DEPTH).value
  }

  predicate Accepts(sha: Sha, root: Digest, leafKey: Digest, value: Option<Bytes>,
                    given: seq<Bytes>, bitmap: seq<bool>)
  {
    && WellFormed(sha, given, bitmap)
    && Climb(sha, LeafHash(sha, leafKey, value), PathOf(leafKey), Full(sha, given, bitmap), 0) == root
  }

  method VerifyProof(sha: Sha, root: Digest, domain: Bytes, key: Bytes, value: Option<Bytes>,
                     given: seq<Bytes>, bitmap: seq<bool>) returns (ok: bool)
    ensures ok <==> Accepts(sha, root, LeafKey(sha, domain, key), value, given, bitmap)
  {
    if |bitmap| != DEPTH {
      return false;
    }
    for i := 0 to |given|
      invariant forall k :: 0 <= k < i ==> |given[k]| == 32
    {
      if |given[i]| != 32 {
        return false;
      }
    }
    var lk := LeafKey(sha, domain, key);
    ok := Walk(sha, given, bitmap, LeafHash(sha, lk, value), PathOf(lk), root);
  }

  /** Recompute the root from the leaf, taking or defaulting one sibling per level. */
  method Walk(sha: Sha, given: seq<Digest>, bitmap: seq<bool>, leaf: Digest, path: Path, root: Digest)
      returns (ok: bool)
    requires |bitmap| == DEPTH
    ensures ok <==> && Decompress(sha, given, bitmap, DEPTH).Some?
                    && Climb(sha, leaf, path, Decompress(sha, given, bitmap, DEPTH).value, 0) == root
  {
    hide Climb, Combine, EmptyAt;
    var cur, next, d := leaf, 0, DEPTH;
    ghost var high: seq<Digest> := [];
    AppendNothing(Decompress(sha, given, bitmap, DEPTH));
    ClimbFromLeaf(sha, leaf, path);
    while d > 0
      invariant 0 <= d <= DEPTH && 0 <= next <= |given| && |high| == DEPTH - d
      invariant Decompress(sha, given, bitmap, DEPTH)
             == Append(Decompress(sha, given[next..], bitmap, d), high)
      invariant Climbed(sha, leaf, path, cur, high, d)
    {
      var idx := d - 1;
      var sib: Digest;
      ghost var rest := given[next..];
      if bitmap[idx] {
        if next >= |given| {
          return false;
        }
        sib := given[next];
        next := next + 1;
        assert rest[1..] == given[next..] && rest == [sib] + given[next..];
      } else {
        sib := EmptyAt(sha, d);
      }
      DecompressOne(sha, given[next..], bitmap, sib, d);
      AppendTwice(Decompress(sha, given[next..], bitmap, idx), sib, high);
      ClimbStep(sha, leaf, path, cur, sib, high, d);
      cur := Combine(sha, path[idx], cur, sib);
      high := [sib] + high;
      d := idx;
    }
    ok := next == |given| && cur == root;
    assert [] + high == high;
  }

  /** `cur` is the verifier's node at depth `d`, whatever siblings lie above. */
  ghost predicate Climbed(sha: Sha, leaf: Digest, path: Path, cur: Digest, high: seq<Digest>, d: nat)
    requires d <= DEPTH && |high| == DEPTH - d
  {
    forall low: seq<Digest> :: |low| == d ==> cur == Climb(sha, leaf, path, low + high, d)
  }

  lemma ClimbFromLeaf(sha: Sha, leaf: Digest, path: Path)
    ensures Climbed(sha, leaf, path, leaf, [], DEPTH)
  {
  }

  function Append(low: Option<seq<Digest>>, high: seq<Digest>): Option<seq<Digest>> {
    match low
    case None => None
    case Some(l) => Some(l + high)
  }

  lemma AppendNothing(low: Option<seq<Digest>>)
    ensures Append(low, []) == low
  {
    if low.Some? {
      assert low.value + [] == low.value;
    }
  }

  lemma ClimbStep(sha: Sha, leaf: Digest, path: Path, cur: Digest, sib: Digest, high: seq<Digest>, d: nat)
    requires 0 < d <= DEPTH && |high| == DEPTH - d
    requires Climbed(sha, leaf, path, cur, high, d)
    ensures Climbed(sha, leaf, path, Combine(sha, path[d - 1], cur, sib), [sib] + high, d - 1)
  {
    forall low: seq<Digest> | |low| == d - 1
      ensures Combine(sha, path[d - 1], cur, sib) == Climb(sha, leaf, path, low + ([sib] + high), d - 1)
    {
      var low' := low + [sib];
      assert low' + high == low + ([sib] + high);
      assert cur == Climb(sha, leaf, path, low' + high, d);
    }
  }

  // ---- what the tree hands out ----

  function TrueSibling(sha: Sha, leaves: Leaves, path: Path, i: nat): Digest
    requires i < DEPTH
  {
    Ref(sha, leaves, Flip(path, i)[..i + 1])
  }

  function TrueSiblings(sha: Sha, leaves: Leaves, path: Path): Siblings {
    seq(DEPTH, (i: int) requires 0 <= i < DEPTH => TrueSibling(sha, leaves, path, i))
  }

  /** The levels from the leaf down to depth `d + 1` are encoded, whatever follows. */
  ghost predicate Emitted(sha: Sha, siblings: seq<Digest>, bitmap: seq<bool>, all: Siblings, d: nat)
    requires d <= DEPTH && |bitmap| == DEPTH
  {
    forall rest: seq<Digest>, bm: seq<bool> :: |bm| == DEPTH && bm[d..] == bitmap[d..] ==>
      Decompress(sha, siblings + rest, bm, DEPTH) == Append(Decompress(sha, rest, bm, d), all[d..])
  }

  lemma EmittedNext(sha: Sha, siblings: seq<Digest>, bitmap: seq<bool>, all: Siblings, d: nat,
                    siblings': seq<Digest>, bitmap': seq<bool>)
    requires 0 < d <= DEPTH && |bitmap| == DEPTH && Emitted(sha, siblings, bitmap, all, d)
    requires var present := all[d - 1] != EmptyAt(sha, d);
             && bitmap' == bitmap[d - 1 := present]
             && siblings' == if present then siblings + [all[d - 1]] else siblings
    ensures Emitted(sha, siblings', bitmap', all, d - 1)
  {
    hide Decompress, EmptyAt;
    forall rest: seq<Digest>, bm: seq<bool> | |bm| == DEPTH && bm[d - 1..] == bitmap'[d - 1..]
      ensures Decompress(sha, siblings' + rest, bm, DEPTH) == Append(Decompress(sha, rest, bm, d - 1), all[d - 1..])
    {
      assert bm[d..] == bm[d - 1..][1..] == bitmap'[d - 1..][1..] == bitmap[d..];
      assert bm[d - 1] == bm[d - 1..][0] == bitmap'[d - 1..][0];
      assert [all[d - 1]] + all[d..] == all[d - 1..];
      var rest' := if bm[d - 1] then [all[d - 1]] + rest else rest;
      assert siblings' + rest == siblings + rest';
      assert Decompress(sha, siblings + rest', bm, DEPTH) == Append(Decompress(sha, rest', bm, d), all[d..]);
      DecompressOne(sha, rest, bm, all[d - 1], d);
      AppendTwice(Decompress(sha, rest, bm, d - 1), all[d - 1], all[d..]);
    }
  }

  lemma DecompressOne(sha: Sha, rest: seq<Digest>, bm: seq<bool>, sib: Digest, d: nat)
    requires 0 < d <= DEPTH && |bm| == DEPTH && (!bm[d - 1] ==> sib == EmptyAt(sha, d))
    ensures Decompress(sha, if bm[d - 1] then [sib] + rest else rest, bm, d)
         == Append(Decompress(sha, rest, bm, d - 1), [sib])
  {
    assert ([sib] + rest)[1..] == rest;
  }

  lemma AppendTwice(low: Option<seq<Digest>>, sib: Digest, high: seq<Digest>)
    ensures Append(Append(low, [sib]), high) == Append(low, [sib] + high)
  {
    if low.Some? {
      assert (low.value + [sib]) + high == low.value + ([sib] + high);
    }
  }

  /** The proof for `path` read off the node table: non-empty siblings from the leaf up. */
  method Proof(sha: Sha, nodes: Nodes, path: Path, ghost leaves: Leaves)
      returns (siblings: seq<Digest>, bitmap: seq<bool>)
    requires TreeOk(sha, nodes, leaves)
    ensures |bitmap| == DEPTH
    ensures Decompress(sha, siblings, bitmap, DEPTH) == Some(TrueSiblings(sha, leaves, path))
  {
    hide GetNode, Flip, Ref, EmptyAt, Emitted;
    bitmap := seq(DEPTH, _ => false);
    siblings := [];
    ghost var all := TrueSiblings(sha, leaves, path);
    EmittedNothing(sha, bitmap, all);
    var depth := DEPTH;
    while depth > 0
      invariant 0 <= depth <= DEPTH && |bitmap| == DEPTH
      invariant forall i :: 0 <= i < depth ==> !bitmap[i]
      invariant Emitted(sha, siblings, bitmap, all, depth)
    {
      var idx := depth - 1;
      var sib := GetNode(sha, nodes, depth, Flip(path, idx));
      assert NodeOk(sha, nodes, leaves, depth, Flip(path, idx));
      assert sib == all[idx];
      ghost var siblings0, bitmap0 := siblings, bitmap;
      if sib != EmptyAt(sha, depth) {
        bitmap := bitmap[idx := true];
        siblings := siblings + [sib];
      }
      EmittedNext(sha, siblings0, bitmap0, all, depth, siblings, bitmap);
      depth := idx;
    }
    EmittedAll(sha, siblings, bitmap, all);
  }

  lemma EmittedAll(sha: Sha, siblings: seq<Digest>, bitmap: seq<bool>, all: Siblings)
    requires |bitmap| == DEPTH && Emitted(sha, siblings, bitmap, all, 0)
    ensures Decompress(sha, siblings, bitmap, DEPTH) == Some(all)
  {
    assert siblings + [] == siblings && all[0..] == all && [] + all == all;
    assert Decompress(sha, siblings + [], bitmap, DEPTH) == Append(Decompress(sha, [], bitmap, 0), all[0..]);
  }

  lemma EmittedNothing(sha: Sha, bitmap: seq<bool>, all: Siblings)
    requires |bitmap| == DEPTH
    ensures Emitted(sha, [], bitmap, all, DEPTH)
  {
    forall rest: seq<Digest>, bm: seq<bool> | |bm| == DEPTH
      ensures Decompress(sha, [] + rest, bm, DEPTH) == Append(Decompress(sha, rest, bm, DEPTH), all[DEPTH..])
    {
      assert [] + rest == rest && all[DEPTH..] == [];
      AppendNothing(Decompress(sha, rest, bm, DEPTH));
    }
  }

  // ---- completeness ----

  lemma {:induction false} ClimbFollowsTree(sha: Sha, leaves: Leaves, path: Path, d: nat)
    requires d <= DEPTH
    ensures Climb(sha, LeafAt(sha, leaves, path), path, TrueSiblings(sha, leaves, path), d)
         == Ref(sha, leaves, path[..d])
    decreases DEPTH - d
  {
    if d == DEPTH {
      assert path[..d] == path;
    } else {
      ClimbFollowsTree(sha, leaves, path, d + 1);
      LevelCombines(sha, leaves, path, d + 1);
    }
  }

  /** The tree's own proof convinces the verifier of the current value, or of absence. */
  lemma ProofsVerify(sha: Sha, nodes: Nodes, leaves: Leaves, leafKey: Digest, value: Option<Bytes>,
                     siblings: seq<Digest>, bitmap: seq<bool>)
    requires TreeOk(sha, nodes, leaves)
    requires LeafAt(sha, leaves, PathOf(leafKey)) == LeafHash(sha, leafKey, value)
    requires |bitmap| == DEPTH
    requires Decompress(sha, siblings, bitmap, DEPTH) == Some(TrueSiblings(sha, leaves, PathOf(leafKey)))
    ensures Accepts(sha, RootOf(sha, nodes), leafKey, value, siblings, bitmap)
  {
    ClimbFollowsTree(sha, leaves, PathOf(leafKey), 0);
    RootIsRef(sha, nodes, leaves);
    assert PathOf(leafKey)[..0] == [];
  }

  /** Prove a key and check the proof against the root: accepted with the key's current
      value, or with absence, for every reachable tree. */
  method ProveThenVerify(sha: Sha, nodes: Nodes, domain: Bytes, key: Bytes, value: Option<Bytes>, ghost leaves: Leaves)
    returns (ok: bool)
    requires TreeOk(sha, nodes, leaves)
    requires LeafAt(sha, leaves, PathOf(LeafKey(sha, domain, key))) == LeafHash(sha, LeafKey(sha, domain, key), value)
    ensures ok
  {
    hide TreeOk, LeafAt, LeafHash, PathOf, RootOf, Accepts, Decompress;
    var leafKey := LeafKey(sha, domain, key);
    var siblings, bitmap := Proof(sha, nodes, PathOf(leafKey), leaves);
    ProofsVerify(sha, nodes, leaves, leafKey, value, siblings, bitmap);
    ok := VerifyProof(sha, RootOf(sha, nodes), domain, key, value, siblings, bitmap);
  }

  // ---- soundness ----

  /** The pair the tree hashes to get the node at depth `d` above `path`. */
  function TreeInput(sha: Sha, leaves: Leaves, path: Path, d: nat): (Digest, Digest)
    requires d < DEPTH
  {
    var own, sib := Ref(sha, leaves, path[..d + 1]), TrueSibling(sha, leaves, path, d);
    if path[d] then (sib, own) else (own, sib)
  }

  /** Verifier and tree hash different 64-byte inputs at depth `d` to one digest. */
  predicate NodeCollision(sha: Sha, leaves: Leaves, leaf: Digest, path: Path, sibs: Siblings, d: nat)
    requires d < DEPTH
  {
    var x, y := VerifierInput(sha, leaf, path, sibs, d), TreeInput(sha, leaves, path, d);
    x.0 + x.1 != y.0 + y.1 && sha(x.0 + x.1) == sha(y.0 + y.1)
  }

  /** Two leaf encodings collide, or one of them hashes to the empty leaf. */
  predicate LeafCollision(sha: Sha, leafKey: Digest, a: Option<Bytes>, b: Option<Bytes>) {
    match (a, b)
    case (Some(v), Some(w)) =>
      LeafInput(leafKey, v) != LeafInput(leafKey, w) && sha(LeafInput(leafKey, v)) == sha(LeafInput(leafKey, w))
    case (Some(v), None) => sha(LeafInput(leafKey, v)) == ZERO_DIGEST
    case (None, Some(w)) => sha(LeafInput(leafKey, w)) == ZERO_DIGEST
    case (None, None) => false
  }

  lemma SameConcat(a: Digest, b: Digest, c: Digest, d: Digest)
    requires a + b == c + d
    ensures a == c && b == d
  {
    assert a == (a + b)[..32] && c == (c + d)[..32];
    assert b == (a + b)[32..] && d == (c + d)[32..];
  }

  lemma {:induction false} DivergenceStopsAtCollision(
      sha: Sha, leaves: Leaves, leaf: Digest, path: Path, sibs: Siblings, d: nat) returns (at: nat)
    requires d <= DEPTH && leaf != LeafAt(sha, leaves, path)
    requires Climb(sha, leaf, path, sibs, d) == Ref(sha, leaves, path[..d])
    ensures at < DEPTH && NodeCollision(sha, leaves, leaf, path, sibs, at)
    decreases DEPTH - d
  {
    assert path[..DEPTH] == path;
    assert d < DEPTH;
    if Climb(sha, leaf, path, sibs, d + 1) == Ref(sha, leaves, path[..d + 1]) {
      at := DivergenceStopsAtCollision(sha, leaves, leaf, path, sibs, d + 1);
    } else {
      LevelCombines(sha, leaves, path, d + 1);
      var x, y := VerifierInput(sha, leaf, path, sibs, d), TreeInput(sha, leaves, path, d);
      if x.0 + x.1 == y.0 + y.1 {
        SameConcat(x.0, x.1, y.0, y.1);
      }
      at := d;
    }
  }

  lemma DifferentValuesSameLeaf(sha: Sha, leafKey: Digest, a: Option<Bytes>, b: Option<Bytes>)
    requires a != b && LeafHash(sha, leafKey, a) == LeafHash(sha, leafKey, b)
    ensures LeafCollision(sha, leafKey, a, b)
  {
    if a.Some? && b.Some? {
      var x, y := LeafInput(leafKey, a.value), LeafInput(leafKey, b.value);
      var n := |"inzleaf|"| + 32 + 1;
      assert x[n..] == a.value && y[n..] == b.value;
    }
  }

  /** Any other value accepted under the tree's root exhibits a hash collision, or a
      preimage of the empty leaf. */
  lemma WrongValueCollides(sha: Sha, nodes: Nodes, leaves: Leaves, leafKey: Digest,
                           current: Option<Bytes>, claimed: Option<Bytes>, given: seq<Bytes>, bitmap: seq<bool>)
    requires TreeOk(sha, nodes, leaves)
    requires LeafAt(sha, leaves, PathOf(leafKey)) == LeafHash(sha, leafKey, current)
    requires claimed != current
    requires Accepts(sha, RootOf(sha, nodes), leafKey, claimed, given, bitmap)
    ensures
      || LeafCollision(sha, leafKey, claimed, current)
      || exists d: nat :: d < DEPTH &&
           NodeCollision(sha, leaves, LeafHash(sha, leafKey, claimed), PathOf(leafKey),
                         Full(sha, given, bitmap), d)
  {
    hide WellFormed, Full, LeafHash, TreeOk, PathOf, NodeCollision, LeafCollision;
    var leaf, path := LeafHash(sha, leafKey, claimed), PathOf(leafKey);
    if leaf == LeafHash(sha, leafKey, current) {
      DifferentValuesSameLeaf(sha, leafKey, claimed, current);
    } else {
      RootIsRef(sha, nodes, leaves);
      assert path[..0] == [];
      var at := DivergenceStopsAtCollision(
        sha, leaves, leaf, path, Full(sha, given, bitmap), 0);
    }
  }
}
