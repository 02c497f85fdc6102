/** What a state root says of the tables behind it (src/merkle_state.rs, src/smt.rs). */
module RootBinding {
  import opened Base
  import opened Tables
  import opened SparseTree
  import opened SparseProof
  import opened MerkleState

  /** Two different inputs, named by the leaf `x` of the two tables, with one hash: two
      encodings of that leaf, one of them and the empty leaf, or two nodes above it. */
  ghost predicate RootCollision(sha: Sha, a: Rows, b: Rows, x: LeafName) {
    || LeafCollision(sha, NameKey(sha, x), LeafValue(b, x), LeafValue(a, x))
    || exists d: nat :: d < DEPTH &&
         NodeCollision(sha, TableLeaves(sha, a), NameHash(sha, b, x), NamePath(sha, x),
                       TrueSiblings(sha, TableLeaves(sha, b), NamePath(sha, x)), d)
  }

  lemma LeafOfTable(sha: Sha, rows: Rows, names: set<LeafName>, x: LeafName)
    requires NoClash(sha, names) && LiveNames(rows) <= names && x in names && forall y :: y in names ==> Proper(y)
    ensures LeafAt(sha, TableLeaves(sha, rows), NamePath(sha, x)) == NameHash(sha, rows, x)
  {
    hide LeafAt, NamePath, NameHash, TableLeaves, LiveNames, NoClash, Proper;
    NoClashSubset(sha, LiveNames(rows), names);
    LiveNamesTracked(sha, rows);
    TracksWider(sha, rows, TableLeaves(sha, rows), LiveNames(rows), names);
  }

  /** Tables with one root hold the same bytes under every leaf, or show a collision. */
  lemma RootBindsLeaf(sha: Sha, a: Rows, b: Rows, names: set<LeafName>, x: LeafName)
    requires NoClash(sha, names) && LiveNames(a) + LiveNames(b) <= names && x in names
    requires forall y :: y in names ==> Proper(y)
    requires TableRoot(sha, a) == TableRoot(sha, b)
    ensures LeafValue(a, x) == LeafValue(b, x) || RootCollision(sha, a, b, x)
  {
    hide LeafAt, NameKey, LeafHash, LiveNames, TableLeaves, NoClash, Proper, PathOf, LeafCollision, NodeCollision,
         LeafValue, Climb, Ref, TrueSiblings;
    var path := NamePath(sha, x);
    LeafOfTable(sha, a, names, x);
    LeafOfTable(sha, b, names, x);
    if LeafValue(a, x) != LeafValue(b, x) {
      if NameHash(sha, a, x) == NameHash(sha, b, x) {
        DifferentValuesSameLeaf(sha, NameKey(sha, x), LeafValue(b, x), LeafValue(a, x));
      } else {
        ClimbFollowsTree(sha, TableLeaves(sha, b), path, 0);
        assert path[..0] == [];
        var at := DivergenceStopsAtCollision(
          sha, TableLeaves(sha, a), NameHash(sha, b, x), path, TrueSiblings(sha, TableLeaves(sha, b), path), 0);
      }
    }
  }

  /** So a root determines the bytes of every leaf, up to a collision it names. */
  lemma RootDeterminesLeaves(sha: Sha, a: Rows, b: Rows, names: set<LeafName>)
    requires NoClash(sha, names) && LiveNames(a) + LiveNames(b) <= names && forall y :: y in names ==> Proper(y)
    requires forall x :: x in names ==> !RootCollision(sha, a, b, x)
    ensures TableRoot(sha, a) == TableRoot(sha, b) <==> forall x :: x in names ==> LeafValue(a, x) == LeafValue(b, x)
  {
    hide NoClash, LiveNames, TableRoot, RootCollision, LeafValue, Proper;
    if TableRoot(sha, a) == TableRoot(sha, b) {
      forall x | x in names
        ensures LeafValue(a, x) == LeafValue(b, x)
      {
        RootBindsLeaf(sha, a, b, names, x);
      }
    } else if forall x :: x in names ==> LeafValue(a, x) == LeafValue(b, x) {
      SameLeavesSameRoot(sha, a, b, names);
    }
  }

  lemma SameLeavesSameRoot(sha: Sha, a: Rows, b: Rows, names: set<LeafName>)
    requires NoClash(sha, names) && LiveNames(a) + LiveNames(b) <= names && forall y :: y in names ==> Proper(y)
    requires forall x :: x in names ==> LeafValue(a, x) == LeafValue(b, x)
    ensures TableRoot(sha, a) == TableRoot(sha, b)
  {
    hide LeafAt, NameKey, LeafHash, LiveNames, TableLeaves, NoClash, Proper, NamePath, Ref;
    var s, t := TableLeaves(sha, a), TableLeaves(sha, b);
    forall p: Path
      ensures LeafAt(sha, s, p) == LeafAt(sha, t, p)
    {
      if IsPathOf(sha, names, p) {
        var x :| x in names && NamePath(sha, x) == p;
        LeafOfTable(sha, a, names, x);
        LeafOfTable(sha, b, names, x);
      } else {
        NoLeafElsewhere(sha, a, names, p);
        NoLeafElsewhere(sha, b, names, p);
      }
    }
    RefDependsOnLeavesBelow(sha, s, t, []);
  }

  lemma NoLeafElsewhere(sha: Sha, rows: Rows, names: set<LeafName>, p: Path)
    requires LiveNames(rows) <= names && !IsPathOf(sha, names, p)
    ensures LeafAt(sha, TableLeaves(sha, rows), p) == EmptyAt(sha, DEPTH)
  {
    hide NamePath, NameHash, EmptyAt, LiveNames;
  }
}
