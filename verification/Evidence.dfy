/** Votes, block headers, and pairs of them that prove their signer dishonest
    (src/consensus.rs, src/slashing.rs, src/types.rs). */
module Evidence {
  import opened Base
  import opened Decimal
  import opened Order
  import Signing

  const CHAIN_ID: nat := 7777

  /** Keys, signatures and hashes, as functions the model knows nothing about. */
  datatype Crypto = Crypto(
    addressOf: Bytes -> Option<Bytes>,
    verify: (Bytes, Bytes, Bytes) -> bool,
    hashHex: Bytes -> Bytes)

  datatype Vote = Vote(height: nat, hash: Bytes, voterPubkey: Bytes, signature: Bytes)

  function VoteBytes(v: Vote): Bytes {
    "inazuma-vote|" + Dec(CHAIN_ID) + "|" + Dec(v.height) + "|" + v.hash
  }

  function Voter(c: Crypto, v: Vote): Option<Bytes> {
    c.addressOf(v.voterPubkey)
  }

  predicate VoteSigned(c: Crypto, v: Vote) {
    && Signing.DelimiterFree(v.hash)
    && Signing.DelimiterFree(v.voterPubkey)
    && c.verify(v.voterPubkey, VoteBytes(v), v.signature)
  }

  datatype Header = Header(
    height: nat, parentHash: Bytes, timestampMs: nat, stateRoot: Bytes, txsRoot: Bytes,
    producer: Bytes, producerPubkey: Bytes, signature: Bytes, hash: Bytes)

  function HeaderBytes(h: Header): Bytes {
    "inazuma-block|" + Dec(CHAIN_ID) + "|" + Dec(h.height) + "|" + h.parentHash + "|" + Dec(h.timestampMs)
    + "|" + h.stateRoot + "|" + h.txsRoot + "|" + h.producer + "|" + h.producerPubkey
  }

  function HeaderHash(c: Crypto, h: Header): Bytes {
    c.hashHex(HeaderBytes(h) + h.signature)
  }

  /** Address, hash and signature of the header all follow from one key. */
  predicate Authentic(c: Crypto, h: Header) {
    && c.addressOf(h.producerPubkey) == Some(h.producer)
    && h.hash == HeaderHash(c, h)
    && c.verify(h.producerPubkey, HeaderBytes(h), h.signature)
  }

  datatype Evidence =
    | BlockEvidence(headA: Header, headB: Header)
    | VoteEvidence(voteA: Vote, voteB: Vote)
  {
    function Label(): Bytes {
      if BlockEvidence? then "double-sign" else "double-vote"
    }

    function Height(): nat {
      if BlockEvidence? then headA.height else voteA.height
    }

    function Swapped(): Evidence {
      match this
      case BlockEvidence(a, b) => BlockEvidence(b, a)
      case VoteEvidence(a, b) => VoteEvidence(b, a)
    }
  }

  /** Deterministic id, so one offence is slashed once. */
  function EvidenceId(c: Crypto, e: Evidence): Bytes {
    var offender :=
      match e
      case BlockEvidence(a, _) => a.producer
      case VoteEvidence(a, _) => (match Voter(c, a) case None => "" case Some(v) => v);
    var (x, y) :=
      match e
      case BlockEvidence(a, b) => (a.hash, b.hash)
      case VoteEvidence(a, b) => (a.hash, b.hash);
    e.Label() + ":" + Dec(e.Height()) + ":" + offender + ":" + if Le(x, y) then x + "+" + y else y + "+" + x
  }

  /** Check that a proof stands on its own; the result is the offender. */
  function Verify(c: Crypto, e: Evidence): Result<Bytes> {
    match e
    case BlockEvidence(a, b) =>
      if a.height != b.height then Err("evidence heights differ")
      else if a.height == 0 then Err("genesis cannot equivocate")
      else if a.hash == b.hash then Err("both headers are the same block")
      else if a.producer != b.producer || a.producerPubkey != b.producerPubkey then
        Err("headers were sealed by different validators")
      else if !Authentic(c, a) || !Authentic(c, b) then Err("header signature does not verify")
      else Ok(a.producer)
    case VoteEvidence(a, b) =>
      if a.height != b.height then Err("evidence heights differ")
      else if a.height == 0 then Err("no votes at genesis")
      else if a.hash == b.hash then Err("both votes cover the same block")
      else if a.voterPubkey != b.voterPubkey then Err("votes came from different validators")
      else if !VoteSigned(c, a) || !VoteSigned(c, b) then Err("vote signature does not verify")
      else
        match Voter(c, a)
        case None => Err("invalid voter public key")
        case Some(voter) => Ok(voter)
  }

  /** Which half comes first changes neither the verdict nor the id it is filed under. */
  lemma EvidenceIsSymmetric(c: Crypto, e: Evidence)
    requires Verify(c, e).Ok?
    ensures Verify(c, e.Swapped()) == Verify(c, e)
    ensures EvidenceId(c, e.Swapped()) == EvidenceId(c, e)
  {
    var (x, y) :=
      match e
      case BlockEvidence(a, b) => (a.hash, b.hash)
      case VoteEvidence(a, b) => (a.hash, b.hash);
    LeTotal(x, y);
    if Le(x, y) && Le(y, x) {
      LeAntisymmetric(x, y);
    }
  }

  /** A signature over one vote covers no other height or hash. */
  lemma VoteBytesInjective(v: Vote, w: Vote)
    requires Signing.DelimiterFree(v.hash) && Signing.DelimiterFree(w.hash)
    requires VoteBytes(v) == VoteBytes(w)
    ensures v.height == w.height && v.hash == w.hash
  {
    hide Dec;
    var head := "inazuma-vote|" + Dec(CHAIN_ID) + "|";
    var x, y := Dec(v.height) + ("|" + v.hash), Dec(w.height) + ("|" + w.hash);
    assert VoteBytes(v) == head + x && VoteBytes(w) == head + y;
    Signing.SamePrefix(head, x, head, y);
    Signing.DecDelimiterFree(v.height);
    Signing.DecDelimiterFree(w.height);
    Signing.FirstField(Dec(v.height), "|" + v.hash, Dec(w.height), "|" + w.hash);
    DecInjective(v.height, w.height);
    Signing.SamePrefix("|", v.hash, "|", w.hash);
  }
}
