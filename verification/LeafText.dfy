/** What the bytes of a state leaf record (src/state.rs): every field can be read back. */
module LeafText {
  import opened Base
  import opened Decimal
  import opened Signing
  import opened Tables
  import opened MerkleState

  lemma JoinThree(a: Bytes, b: Bytes, c: Bytes)
    ensures a + "|" + b + "|" + c == Join([a, b, c])
  {
    assert [a, b, c][1..] == [b, c] && [b, c][1..] == [c];
    assert Join([b, c]) == b + "|" + c;
    assert Join([a, b, c]) == a + "|" + (b + "|" + c);
  }

  lemma JoinFive(a: Bytes, b: Bytes, c: Bytes, d: Bytes, e: Bytes)
    ensures a + "|" + b + "|" + c + "|" + d + "|" + e == Join([a, b, c, d, e])
  {
    JoinThree(c, d, e);
    assert [a, b, c, d, e][1..] == [b, c, d, e] && [b, c, d, e][1..] == [c, d, e];
    assert Join([b, c, d, e]) == b + "|" + Join([c, d, e]);
    assert Join([a, b, c, d, e]) == a + "|" + (b + "|" + (c + "|" + d + "|" + e));
  }

  /** An account leaf records balance, nonce, stake, unbonding total and rewards. */
  lemma AccountLeafReads(x: Account, y: Account)
    requires AccountLeaf(x) == AccountLeaf(y)
    ensures x.balance == y.balance && x.nonce == y.nonce && x.staked == y.staked && x.rewards == y.rewards
    ensures UnbondingTotal(x.unbonding) == UnbondingTotal(y.unbonding)
  {
    hide Dec, UnbondingTotal, Join;
    var u, w := UnbondingTotal(x.unbonding), UnbondingTotal(y.unbonding);
    var xs := [Dec(x.balance), Dec(x.nonce), Dec(x.staked), Dec(u), Dec(x.rewards)];
    var ys := [Dec(y.balance), Dec(y.nonce), Dec(y.staked), Dec(w), Dec(y.rewards)];
    JoinFive(xs[0], xs[1], xs[2], xs[3], xs[4]);
    JoinFive(ys[0], ys[1], ys[2], ys[3], ys[4]);
    DecsAreFields(xs, [x.balance, x.nonce, x.staked, u, x.rewards]);
    DecsAreFields(ys, [y.balance, y.nonce, y.staked, w, y.rewards]);
    JoinInjective(xs, ys);
    DecInjective(x.balance, y.balance);
    DecInjective(x.nonce, y.nonce);
    DecInjective(x.staked, y.staked);
    DecInjective(u, w);
    DecInjective(x.rewards, y.rewards);
  }

  lemma DecsAreFields(fields: seq<Bytes>, ns: seq<nat>)
    requires |fields| == |ns| && forall i :: 0 <= i < |ns| ==> fields[i] == Dec(ns[i])
    ensures forall f :: f in fields ==> DelimiterFree(f)
  {
    hide Dec, DelimiterFree;
    forall f | f in fields
      ensures DelimiterFree(f)
    {
      var i :| 0 <= i < |fields| && fields[i] == f;
      DecDelimiterFree(ns[i]);
    }
  }

  /** Text that can stand between bars. */
  predicate PlainToken(t: Token) {
    DelimiterFree(t.symbol) && DelimiterFree(t.creator)
  }

  predicate PlainContract(c: Contract) {
    DelimiterFree(c.codeHash) && DelimiterFree(c.creator)
  }

  /** A token leaf records symbol, decimals, supply, creator and whether it is mintable. */
  lemma TokenLeafReads(x: Token, y: Token)
    requires PlainToken(x) && PlainToken(y) && TokenLeaf(x) == TokenLeaf(y)
    ensures x.symbol == y.symbol && x.decimals == y.decimals && x.supply == y.supply && x.creator == y.creator
    ensures x.mintable == y.mintable
  {
    hide Dec, Join;
    var xs := [x.symbol, Dec(x.decimals), Dec(x.supply), x.creator, Bool(x.mintable)];
    var ys := [y.symbol, Dec(y.decimals), Dec(y.supply), y.creator, Bool(y.mintable)];
    JoinFive(xs[0], xs[1], xs[2], xs[3], xs[4]);
    JoinFive(ys[0], ys[1], ys[2], ys[3], ys[4]);
    DecDelimiterFree(x.decimals);
    DecDelimiterFree(y.decimals);
    DecDelimiterFree(x.supply);
    DecDelimiterFree(y.supply);
    JoinInjective(xs, ys);
    DecInjective(x.decimals, y.decimals);
    DecInjective(x.supply, y.supply);
    assert |Bool(true)| != |Bool(false)|;
  }

  /** A contract leaf records code hash, creator and height of creation. */
  lemma ContractLeafReads(x: Contract, y: Contract)
    requires PlainContract(x) && PlainContract(y) && ContractLeaf(x) == ContractLeaf(y)
    ensures x.codeHash == y.codeHash && x.creator == y.creator && x.createdHeight == y.createdHeight
  {
    hide Dec, Join;
    var xs, ys := [x.codeHash, x.creator, Dec(x.createdHeight)], [y.codeHash, y.creator, Dec(y.createdHeight)];
    JoinThree(xs[0], xs[1], xs[2]);
    JoinThree(ys[0], ys[1], ys[2]);
    DecDelimiterFree(x.createdHeight);
    DecDelimiterFree(y.createdHeight);
    JoinInjective(xs, ys);
    DecInjective(x.createdHeight, y.createdHeight);
  }
}
