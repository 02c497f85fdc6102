/** Nobody is slashed for equivocation without having signed twice (src/slashing.rs). */
module Guilt {
  import opened Base
  import opened Types
  import opened Decimal
  import opened Evidence
  import opened Tables
  import opened Ledger
  import opened Frames
  import opened Books
  import opened Effects
  import Calls
  import EndOfBlock
  import LeafText
  import MerkleState
  import Order
  import Signing

  // ---- what a proof shows ----

  /** A key of `who` signs the headers of two different blocks at one height above genesis.
      The hash covers the signature, so one header signed in two ways counts as two. */
  predicate SealsTwice(c: Crypto, who: Bytes, x: Header, y: Header) {
    && x.height == y.height && x.height > 0 && x.producerPubkey == y.producerPubkey
    && c.addressOf(x.producerPubkey) == Some(who)
    && c.verify(x.producerPubkey, HeaderBytes(x), x.signature) && c.verify(x.producerPubkey, HeaderBytes(y), y.signature)
    && c.hashHex(HeaderBytes(x) + x.signature) != c.hashHex(HeaderBytes(y) + y.signature)
  }

  /** A key of `who` signs votes for two hashes at one height above genesis. */
  predicate VotesTwice(c: Crypto, who: Bytes, v: Vote, w: Vote) {
    && v.height == w.height && v.height > 0 && v.voterPubkey == w.voterPubkey && v.hash != w.hash
    && c.addressOf(v.voterPubkey) == Some(who)
    && c.verify(v.voterPubkey, VoteBytes(v), v.signature) && c.verify(v.voterPubkey, VoteBytes(w), w.signature)
    && '|' !in v.hash && '|' !in w.hash && '|' !in v.voterPubkey
  }

  /** A block proof stands exactly when it holds two headers its producer's key signed, under
      their own hashes and in the producer's name; a vote proof exactly when it holds two
      votes the voter's key signed. */
  lemma VerifyIff(c: Crypto, e: Evidence, who: Bytes)
    ensures Verify(c, e) == Ok(who) <==>
      match e
      case BlockEvidence(x, y) =>
        && SealsTwice(c, who, x, y) && x.producer == who && y.producer == who
        && x.hash == c.hashHex(HeaderBytes(x) + x.signature) && y.hash == c.hashHex(HeaderBytes(y) + y.signature)
      case VoteEvidence(v, w) => VotesTwice(c, who, v, w)
  {
    hide HeaderBytes, VoteBytes;
  }

  ghost predicate Guilty(c: Crypto, who: Bytes) {
    (exists x, y :: SealsTwice(c, who, x, y)) || (exists v, w :: VotesTwice(c, who, v, w))
  }

  lemma ProofMeansGuilt(c: Crypto, e: Evidence)
    requires Verify(c, e).Ok?
    ensures Guilty(c, Verify(c, e).value)
  {
    hide SealsTwice, VotesTwice, Verify;
    VerifyIff(c, e, Verify(c, e).value);
  }

  // ---- what a signature and an id cover ----

  predicate PlainHeader(h: Header) {
    && '|' !in h.parentHash && '|' !in h.stateRoot && '|' !in h.txsRoot && '|' !in h.producer && '|' !in h.producerPubkey
  }

  function HeaderFields(h: Header): seq<Bytes> {
    ["inazuma-block", Dec(CHAIN_ID), Dec(h.height), h.parentHash, Dec(h.timestampMs), h.stateRoot, h.txsRoot, h.producer,
     h.producerPubkey]
  }

  lemma JoinStep(f: seq<Bytes>, i: nat)
    requires i + 1 < |f|
    ensures Signing.Join(f[i..]) == f[i] + "|" + Signing.Join(f[i + 1..])
  {
    assert f[i..][1..] == f[i + 1..];
  }

  lemma TailGroups(p: Bytes, a: Bytes, b: Bytes, c: Bytes, d: Bytes, e: Bytes)
    ensures p + a + "|" + b + "|" + c + "|" + d + "|" + e == p + (a + "|" + b + "|" + c + "|" + d + "|" + e)
  {
  }

  lemma HeadGroups(a: Bytes, b: Bytes, c: Bytes, d: Bytes, t: Bytes)
    ensures a + "|" + b + "|" + c + "|" + d + "|" + t == a + "|" + (b + "|" + (c + "|" + (d + "|" + t)))
  {
  }

  lemma HeaderIsJoined(h: Header)
    ensures HeaderBytes(h) == Signing.Join(HeaderFields(h))
  {
    hide Dec, Signing.Join;
    var f := HeaderFields(h);
    var head := "inazuma-block" + "|" + f[1] + "|" + f[2] + "|" + f[3] + "|";
    var tail := f[4] + "|" + f[5] + "|" + f[6] + "|" + f[7] + "|" + f[8];
    assert "inazuma-block" + "|" == "inazuma-block|";
    TailGroups(head, f[4], f[5], f[6], f[7], f[8]);
    assert HeaderBytes(h) == head + tail;
    HeadGroups(f[0], f[1], f[2], f[3], tail);
    LeafText.JoinFive(f[4], f[5], f[6], f[7], f[8]);
    assert f[4..] == [f[4], f[5], f[6], f[7], f[8]] && f[0..] == f;
    JoinStep(f, 0);
    JoinStep(f, 1);
    JoinStep(f, 2);
    JoinStep(f, 3);
  }

  /** A signature over one header covers no other height, parent, time, root or producer. */
  lemma HeaderBytesInjective(x: Header, y: Header)
    requires PlainHeader(x) && PlainHeader(y) && HeaderBytes(x) == HeaderBytes(y)
    ensures x == y.(signature := x.signature, hash := x.hash)
  {
    hide Dec, HeaderBytes, Signing.Join;
    HeaderIsJoined(x);
    HeaderIsJoined(y);
    Signing.DecDelimiterFree(CHAIN_ID);
    Signing.DecDelimiterFree(x.height);
    Signing.DecDelimiterFree(y.height);
    Signing.DecDelimiterFree(x.timestampMs);
    Signing.DecDelimiterFree(y.timestampMs);
    Signing.JoinInjective(HeaderFields(x), HeaderFields(y));
    assert HeaderFields(x)[2] == HeaderFields(y)[2] && HeaderFields(x)[3] == HeaderFields(y)[3];
    assert HeaderFields(x)[4] == HeaderFields(y)[4] && HeaderFields(x)[5] == HeaderFields(y)[5];
    assert HeaderFields(x)[6] == HeaderFields(y)[6] && HeaderFields(x)[7] == HeaderFields(y)[7];
    assert HeaderFields(x)[8] == HeaderFields(y)[8];
    DecInjective(x.height, y.height);
    DecInjective(x.timestampMs, y.timestampMs);
  }

  function Hashes(e: Evidence): (Bytes, Bytes) {
    match e
    case BlockEvidence(a, b) => (a.hash, b.hash)
    case VoteEvidence(a, b) => (a.hash, b.hash)
  }

  function Accused(c: Crypto, e: Evidence): Bytes {
    match e
    case BlockEvidence(a, _) => a.producer
    case VoteEvidence(a, _) => (match Voter(c, a) case None => "" case Some(v) => v)
  }

  predicate PlainProof(c: Crypto, e: Evidence) {
    ':' !in Accused(c, e) && '+' !in Hashes(e).0 && '+' !in Hashes(e).1
  }

  function Pair(x: Bytes, y: Bytes): Bytes {
    if Order.Le(x, y) then x + "+" + y else y + "+" + x
  }

  lemma IdParts(c: Crypto, e: Evidence)
    ensures EvidenceId(c, e)
         == e.Label() + [':'] + (Dec(e.Height()) + [':'] + (Accused(c, e) + [':'] + Pair(Hashes(e).0, Hashes(e).1)))
  {
    hide Dec, Order.Le;
  }

  lemma LabelsDiffer(x: Evidence, y: Evidence)
    ensures x.Label() == y.Label() <==> x.BlockEvidence? == y.BlockEvidence?
    ensures ':' !in x.Label()
  {
    assert |"double-sign"| == |"double-vote"| && "double-sign"[7] != "double-vote"[7];
  }

  /** Proofs filed under one id are of one kind, against one validator, at one height, and
      about the same two hashes. */
  lemma IdNamesOffence(c: Crypto, x: Evidence, y: Evidence)
    requires PlainProof(c, x) && PlainProof(c, y) && EvidenceId(c, x) == EvidenceId(c, y)
    ensures x.BlockEvidence? == y.BlockEvidence? && x.Height() == y.Height() && Accused(c, x) == Accused(c, y)
    ensures Hashes(x) == Hashes(y) || Hashes(x) == (Hashes(y).1, Hashes(y).0)
  {
    hide Dec, EvidenceId, Order.Le, Accused, Hashes;
    IdParts(c, x);
    IdParts(c, y);
    LabelsDiffer(x, y);
    LabelsDiffer(y, x);
    var p, q := Pair(Hashes(x).0, Hashes(x).1), Pair(Hashes(y).0, Hashes(y).1);
    MerkleState.SplitAtFirst(':', x.Label(), Dec(x.Height()) + [':'] + (Accused(c, x) + [':'] + p),
                             y.Label(), Dec(y.Height()) + [':'] + (Accused(c, y) + [':'] + q));
    NoColonInDec(x.Height());
    NoColonInDec(y.Height());
    MerkleState.SplitAtFirst(':', Dec(x.Height()), Accused(c, x) + [':'] + p, Dec(y.Height()), Accused(c, y) + [':'] + q);
    DecInjective(x.Height(), y.Height());
    MerkleState.SplitAtFirst(':', Accused(c, x), p, Accused(c, y), q);
    assert "+" == ['+'];
    var (a, b) := if Order.Le(Hashes(x).0, Hashes(x).1) then Hashes(x) else (Hashes(x).1, Hashes(x).0);
    var (d, e) := if Order.Le(Hashes(y).0, Hashes(y).1) then Hashes(y) else (Hashes(y).1, Hashes(y).0);
    MerkleState.SplitAtFirst('+', a, b, d, e);
  }

  lemma NoColonInDec(n: nat)
    ensures ':' !in Dec(n)
  {
    if ':' in Dec(n) {
      DecIsDigits(n, ':');
    }
  }

  // ---- a validator that signs once ----

  /** Every key of `who` signs at most one header text per height, in one way, and votes for
      at most one hash per height. */
  ghost predicate SignsOnce(c: Crypto, who: Bytes) {
    && (forall x: Header, y: Header ::
          && x.height == y.height && x.height > 0 && x.producerPubkey == y.producerPubkey && c.addressOf(x.producerPubkey) == Some(who)
          && c.verify(x.producerPubkey, HeaderBytes(x), x.signature) && c.verify(x.producerPubkey, HeaderBytes(y), y.signature)
          ==> HeaderBytes(x) == HeaderBytes(y) && x.signature == y.signature)
    && (forall v: Vote, w: Vote ::
          && v.height == w.height && v.height > 0 && v.voterPubkey == w.voterPubkey && c.addressOf(v.voterPubkey) == Some(who)
          && c.verify(v.voterPubkey, VoteBytes(v), v.signature) && c.verify(v.voterPubkey, VoteBytes(w), w.signature)
          ==> VoteBytes(v) == VoteBytes(w))
  }

  lemma OnceIsInnocent(c: Crypto, who: Bytes)
    requires SignsOnce(c, who)
    ensures !Guilty(c, who)
  {
    hide HeaderBytes, VoteBytes;
    forall v, w | VotesTwice(c, who, v, w)
      ensures false
    {
      VoteBytesInjective(v, w);
    }
  }

  /** Two votes that convict are two different signed messages. Two headers that convict are
      two different messages unless the key signed one message in two ways. */
  lemma GuiltIsTwoMessages(c: Crypto, who: Bytes)
    ensures forall v, w :: VotesTwice(c, who, v, w) ==> VoteBytes(v) != VoteBytes(w)
    ensures forall x, y :: SealsTwice(c, who, x, y) ==> HeaderBytes(x) != HeaderBytes(y) || x.signature != y.signature
  {
    hide HeaderBytes, VoteBytes;
    forall v, w | VotesTwice(c, who, v, w)
      ensures VoteBytes(v) != VoteBytes(w)
    {
      if VoteBytes(v) == VoteBytes(w) {
        VoteBytesInjective(v, w);
      }
    }
  }

  /** One header signed in two ways is taken as proof exactly when both signatures verify
      and the two hashes differ. */
  lemma OneHeaderSignedTwiceIff(c: Crypto, x: Header, signature: Bytes)
    requires x.height > 0 && x.hash == HeaderHash(c, x)
    ensures var y := x.(signature := signature, hash := HeaderHash(c, x.(signature := signature)));
            Verify(c, BlockEvidence(x, y)).Ok? <==>
            && c.addressOf(x.producerPubkey) == Some(x.producer) && y.hash != x.hash
            && c.verify(x.producerPubkey, HeaderBytes(x), x.signature) && c.verify(x.producerPubkey, HeaderBytes(x), signature)
  {
    var y := x.(signature := signature, hash := HeaderHash(c, x.(signature := signature)));
    assert HeaderBytes(y) == HeaderBytes(x);
  }

  // ---- over whole chains ----

  /** Whoever carries the mark of a proven fault signed twice. */
  ghost predicate MarkedAreGuilty(c: Crypto, rows: Rows) {
    forall a :: GetAccount(rows, a).penalties.tombstoned ==> Guilty(c, a)
  }

  lemma TxMarksOnlyGuilty(env: Env, rows: Rows, tx: Transaction, height: nat, a: Bytes)
    requires StakersExact(rows) && ApplyTx(env, rows, tx, height).Ok?
    ensures var x, y := GetAccount(rows, a).penalties, GetAccount(ApplyTx(env, rows, tx, height).value.0, a).penalties;
            y.tombstoned ==> x.tombstoned || Guilty(env.crypto, a)
  {
    hide ApplyTx, GetAccount, Guilty, Verify, StakersExact, Received, Cost, EvidenceId, Confiscated, BurnPct;
    if tx.kind.ReportEquivocation? {
      ReportMoves(env, rows, tx, height, a);
      ProofMeansGuilt(env.crypto, env.decodeEvidence(tx.payload).value);
    } else if tx.kind.CallContract? {
      CallMarksNobody(env, rows, tx, height, a);
    } else {
      TxMoves(env, rows, tx, height, a);
    }
  }

  lemma CallMarksNobody(env: Env, rows: Rows, tx: Transaction, height: nat, a: Bytes)
    requires tx.kind.CallContract? && ApplyTx(env, rows, tx, height).Ok?
    ensures GetAccount(ApplyTx(env, rows, tx, height).value.0, a).penalties == GetAccount(rows, a).penalties
  {
    hide ApplyTx, GetAccount, Cost, Calls.CallInput, Calls.ChargedFor, Calls.InPlace, Calls.RanOk;
    Calls.CallMoves(env, rows, tx, height);
    var sender := SenderOf(env, tx).value;
    var input := Calls.CallInput(env, Calls.ChargedFor(rows, sender, tx), sender, tx, height).value;
    assert Calls.CallPays(env, tx, input, sender, a, GetAccount(rows, a), GetAccount(ApplyTx(env, rows, tx, height).value.0, a));
  }

  lemma {:induction false} TxsMarkOnlyGuilty(env: Env, rows: Rows, txs: seq<Transaction>, height: nat)
    requires StakersExact(rows) && MarkedAreGuilty(env.crypto, rows) && ApplyTxs(env, rows, txs, height).Ok?
    ensures StakersExact(ApplyTxs(env, rows, txs, height).value.0)
    ensures MarkedAreGuilty(env.crypto, ApplyTxs(env, rows, txs, height).value.0)
  {
    hide ApplyTx, GetAccount, Guilty, StakersExact, Frame;
    if txs != [] {
      var last := |txs| - 1;
      TxsMarkOnlyGuilty(env, rows, txs[..last], height);
      var rows1 := ApplyTxs(env, rows, txs[..last], height).value.0;
      var rows2 := ApplyTx(env, rows1, txs[last], height).value.0;
      FrameApplyTx(env, rows1, txs[last], height);
      StakersStayExact(rows1, rows2, TouchedBy(txs[last].kind));
      forall a | GetAccount(rows2, a).penalties.tombstoned
        ensures Guilty(env.crypto, a)
      {
        TxMarksOnlyGuilty(env, rows1, txs[last], height, a);
      }
    }
  }

  lemma BlockMarksOnlyGuilty(env: Env, rows: Rows, b: Block)
    requires StakersExact(rows) && MarkedAreGuilty(env.crypto, rows) && ExecBlock(env, rows, b).Ok?
    ensures MarkedAreGuilty(env.crypto, ExecBlock(env, rows, b).value)
  {
    hide ApplyTxs, FinishBlock, StoreBlock, GetAccount, Guilty, StakersExact, Frame;
    var h := b.header;
    TxsMarkOnlyGuilty(env, rows, b.transactions, h.height);
    var (rows1, fees) := ApplyTxs(env, rows, b.transactions, h.height).value;
    var rows2 := FinishBlock(env, rows1, h.height, h.parentHash, h.producer, fees);
    FrameStoreBlock(env, rows2, b);
    forall a | GetAccount(StoreBlock(env, rows2, b), a).penalties.tombstoned
      ensures Guilty(env.crypto, a)
    {
      EndOfBlock.FinishPays(env, rows1, h.height, h.parentHash, h.producer, fees, a);
      AccountsOutside(rows2, StoreBlock(env, rows2, b), {Blocks, Frames.Tip, BaseFees}, a);
    }
  }

  /** On every chain from genesis, an account is tombstoned only if one of its keys signed
      two different blocks, or votes for two different blocks, at one height. */
  lemma {:induction false} TombstonedAreGuilty(env: Env, alloc: seq<Alloc>, genesis: Block, blocks: seq<Block>)
    requires RunBlocks(env, Genesis(env, alloc, genesis), blocks).Ok?
    ensures MarkedAreGuilty(env.crypto, RunBlocks(env, Genesis(env, alloc, genesis), blocks).value)
  {
    hide ExecBlock, PutBlock, GenesisAccounts, Guilty, StakersExact, GetAccount, Frame;
    if blocks == [] {
      FramePutBlock(GenesisAccounts(alloc), env.txHash, genesis);
      forall a
        ensures !GetAccount(Genesis(env, alloc, genesis), a).penalties.tombstoned
      {
        GenesisFunds(alloc, a);
        AccountsOutside(GenesisAccounts(alloc), Genesis(env, alloc, genesis), {Blocks, Frames.Tip}, a);
      }
    } else {
      var last := |blocks| - 1;
      TombstonedAreGuilty(env, alloc, genesis, blocks[..last]);
      StakersExactOnEveryRun(env, alloc, genesis, blocks[..last]);
      BlockMarksOnlyGuilty(env, RunBlocks(env, Genesis(env, alloc, genesis), blocks[..last]).value, blocks[last]);
    }
  }

  /** So a validator that signs one header and one vote per height is never tombstoned, and
      no report against it is ever taken. */
  lemma HonestAreNeverSlashed(env: Env, alloc: seq<Alloc>, genesis: Block, blocks: seq<Block>, who: Bytes)
    requires RunBlocks(env, Genesis(env, alloc, genesis), blocks).Ok? && SignsOnce(env.crypto, who)
    ensures !GetAccount(RunBlocks(env, Genesis(env, alloc, genesis), blocks).value, who).penalties.tombstoned
    ensures forall e :: Verify(env.crypto, e) != Ok(who)
  {
    hide RunBlocks, Genesis, GetAccount, Guilty, SignsOnce, Verify;
    TombstonedAreGuilty(env, alloc, genesis, blocks);
    OnceIsInnocent(env.crypto, who);
    forall e
      ensures Verify(env.crypto, e) != Ok(who)
    {
      if Verify(env.crypto, e) == Ok(who) {
        ProofMeansGuilt(env.crypto, e);
      }
    }
  }
}
