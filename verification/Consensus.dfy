/** Finality votes (src/consensus.rs): a tracker of stake-weighted precommits with a
    pending buffer, replay, retention and equivocation evidence. */
module Consensus {
  import opened Base
  import opened Election
  import opened Evidence
  import opened Order

  const VOTE_RETENTION_HEIGHTS: nat := 64
  const MAX_EVIDENCE: nat := 64
  const PENDING_PER_VALIDATOR: nat := 512
  const PENDING_MAX: nat := 8_192

  /** Votes counted by height and voter, votes ahead of their block, proofs waiting to
      be reported; and what the store says: the hash stored at each height from genesis
      on, and the finalized height. */
  datatype State = State(
    inner: map<nat, map<Bytes, Vote>>, pending: seq<Vote>, evidence: seq<Evidence>,
    blocks: seq<Bytes>, finalized: nat)

  datatype Outcome = Outcome(isNew: bool, finalized: Option<nat>)

  function CountedAt(s: State, h: nat): map<Bytes, Vote> {
    if h in s.inner then s.inner[h] else map[]
  }

  predicate IsValidator(vals: seq<Validator>, a: Bytes) {
    exists i :: 0 <= i < |vals| && vals[i].address == a
  }

  /** Stake of the validators listed in `who`. */
  function StakeOf(vals: seq<Validator>, who: set<Bytes>): nat {
    if vals == [] then 0 else
      var last := |vals| - 1;
      StakeOf(vals[..last], who) + if vals[last].address in who then vals[last].stake else 0
  }

  /** `who` outweighs two thirds of the set. */
  predicate Quorum(vals: seq<Validator>, who: set<Bytes>) {
    StakeOf(vals, who) * 3 > TotalStake(vals) * 2
  }

  /** The test the tracker makes: the same comparison in plain u128 arithmetic. */
  predicate Reached(vals: seq<Validator>, who: set<Bytes>) {
    var voted, total := Wrap(StakeOf(vals, who)), Wrap(TotalStake(vals));
    total > 0 && Mul128(voted, 3) > Mul128(total, 2)
  }

  predicate SameSlot(v: Vote, w: Vote) {
    v.height == w.height && v.voterPubkey == w.voterPubkey
  }

  function Cap(vals: seq<Validator>): nat {
    var n := if |vals| == 0 then 1 else |vals|;
    if n * PENDING_PER_VALIDATOR < PENDING_MAX then n * PENDING_PER_VALIDATOR else PENDING_MAX
  }

  function PushEvidence(c: Crypto, queue: seq<Evidence>, e: Evidence): seq<Evidence> {
    if exists i :: 0 <= i < |queue| && EvidenceId(c, queue[i]) == EvidenceId(c, e) then queue
    else (if |queue| > MAX_EVIDENCE then queue[1..] else queue) + [e]
  }

  function Buffer(vals: seq<Validator>, s: State, v: Vote): (State, Result<Outcome>) {
    if exists i :: 0 <= i < |s.pending| && SameSlot(s.pending[i], v) then (s, Ok(Outcome(false, None)))
    else
      var kept := if |s.pending| >= Cap(vals) then s.pending[1..] else s.pending;
      (s.(pending := kept + [v]), Ok(Outcome(true, None)))
  }

  function Count(vals: seq<Validator>, s: State, v: Vote, voter: Bytes): (State, Result<Outcome>) {
    var at := CountedAt(s, v.height);
    var isNew := voter !in at;
    var inner := s.inner[v.height := at[voter := v]];
    if Reached(vals, at.Keys + {voter}) then
      var kept := map h | h in inner && h + VOTE_RETENTION_HEIGHTS > v.height :: inner[h];
      (s.(inner := kept, finalized := v.height), Ok(Outcome(isNew, Some(v.height))))
    else (s.(inner := inner), Ok(Outcome(isNew, None)))
  }

  /** Record one precommit. */
  function Add(c: Crypto, vals: seq<Validator>, s: State, v: Vote): (State, Result<Outcome>) {
    if !VoteSigned(c, v) then (s, Err("invalid vote signature")) else
      match Voter(c, v)
      case None => (s, Err("invalid voter public key"))
      case Some(voter) =>
        var at := CountedAt(s, v.height);
        if voter in at && at[voter].hash != v.hash then
          (s.(evidence := PushEvidence(c, s.evidence, VoteEvidence(at[voter], v))), Err("equivocating vote"))
        else if v.height <= s.finalized then (s, Ok(Outcome(false, None)))
        else if v.height < |s.blocks| && s.blocks[v.height] != v.hash then (s, Err("vote for a different block"))
        else if !IsValidator(vals, voter) then (s, Err("voter is not a bonded validator"))
        else if v.height < |s.blocks| then Count(vals, s, v, voter)
        else Buffer(vals, s, v)
  }

  function AtHeight(vs: seq<Vote>, h: nat): seq<Vote> {
    if vs == [] then [] else
      var last := |vs| - 1;
      AtHeight(vs[..last], h) + if vs[last].height == h then [vs[last]] else []
  }

  function StillAhead(vs: seq<Vote>, h: nat, finalized: nat): seq<Vote> {
    if vs == [] then [] else
      var last := |vs| - 1;
      StillAhead(vs[..last], h, finalized) + if vs[last].height != h && vs[last].height > finalized then [vs[last]] else []
  }

  function AddAll(c: Crypto, vals: seq<Validator>, s: State, vs: seq<Vote>): State
    decreases |vs|
  {
    if vs == [] then s else AddAll(c, vals, Add(c, vals, s, vs[0]).0, vs[1..])
  }

  /** Count the buffered votes of a height that just landed. */
  function Replay(c: Crypto, vals: seq<Validator>, s: State, h: nat): State {
    AddAll(c, vals, s.(pending := StillAhead(s.pending, h, s.finalized)), AtHeight(s.pending, h))
  }

  // ---- stake arithmetic ----

  lemma {:induction false} StakeOfSplits(vals: seq<Validator>, a: set<Bytes>, b: set<Bytes>)
    ensures StakeOf(vals, a) + StakeOf(vals, b) == StakeOf(vals, a + b) + StakeOf(vals, a * b)
  {
    if vals != [] {
      StakeOfSplits(vals[..|vals| - 1], a, b);
    }
  }

  lemma {:induction false} StakeOfBounded(vals: seq<Validator>, who: set<Bytes>)
    ensures StakeOf(vals, who) <= TotalStake(vals)
  {
    if vals != [] {
      var last := |vals| - 1;
      StakeOfBounded(vals[..last], who);
      PrefixStake(vals, last);
      assert vals[..last + 1] == vals;
    }
  }

  lemma {:induction false} StakeOfMonotone(vals: seq<Validator>, a: set<Bytes>, b: set<Bytes>)
    requires forall i :: 0 <= i < |vals| && vals[i].address in a ==> vals[i].address in b
    ensures StakeOf(vals, a) <= StakeOf(vals, b)
  {
    if vals != [] {
      var last := |vals| - 1;
      forall i | 0 <= i < last && vals[..last][i].address in a
        ensures vals[..last][i].address in b
      {
        assert vals[..last][i] == vals[i];
      }
      StakeOfMonotone(vals[..last], a, b);
    }
  }

  /** Two quorums share more than a third of the stake. */
  lemma QuorumsOverlap(vals: seq<Validator>, a: set<Bytes>, b: set<Bytes>)
    requires Quorum(vals, a) && Quorum(vals, b)
    ensures StakeOf(vals, a * b) * 3 > TotalStake(vals)
  {
    StakeOfSplits(vals, a, b);
    StakeOfBounded(vals, a + b);
  }

  // ---- when 128-bit arithmetic decides like the integers ----

  lemma ReachedMeansQuorum(vals: seq<Validator>, who: set<Bytes>)
    requires TotalStake(vals) * 2 <= U128_MAX && Reached(vals, who)
    ensures Quorum(vals, who)
  {
    StakeOfBounded(vals, who);
  }

  lemma ReachedIsQuorum(vals: seq<Validator>, who: set<Bytes>)
    requires TotalStake(vals) * 3 <= U128_MAX
    ensures Reached(vals, who) <==> Quorum(vals, who)
  {
    StakeOfBounded(vals, who);
  }

  ghost predicate SafeTotal(total: nat) {
    forall vals, who :: TotalStake(vals) == total && Reached(vals, who) ==> Quorum(vals, who)
  }

  // One validator with just enough stake to pass the wrapped test.
  function Few(total: nat): nat
    requires U128_MAX < total * 2
  {
    (total * 2 - U128_MAX - 1) / 3 + 1
  }

  lemma StakeOfTwo(a: nat, b: nat)
    ensures var vals := [Validator("few", a), Validator("rest", b)];
            TotalStake(vals) == a + b && StakeOf(vals, {"few"}) == a
  {
    var x, y := Validator("few", a), Validator("rest", b);
    assert [x, y][1..] == [y] && [y][1..] == [];
    assert TotalStake([y]) == b;
    assert [x, y][..1] == [x] && [x][..0] == [];
    assert |y.address| != |"few"|;
    assert StakeOf([x], {"few"}) == a;
  }

  lemma WrappedMinority(total: nat)
    requires U128_MAX < total * 2 && total < U128_MAX
    ensures var vals := [Validator("few", Few(total)), Validator("rest", total - Few(total))];
            TotalStake(vals) == total && Reached(vals, {"few"}) && !Quorum(vals, {"few"})
  {
    var x := Few(total);
    var vals := [Validator("few", x), Validator("rest", total - x)];
    StakeOfTwo(x, total - x);
    assert Mul128(total, 2) == total * 2 - (U128_MAX + 1);
    assert Mul128(x, 3) == x * 3;
  }

  /** The test can be trusted for every validator set of a given total exactly when
      twice that total fits in 128 bits; above that, a minority can pass it. */
  lemma TrustworthyIff(total: nat)
    requires total < U128_MAX
    ensures SafeTotal(total) <==> total * 2 <= U128_MAX
  {
    hide Reached, Quorum;
    if total * 2 <= U128_MAX {
      forall vals, who | TotalStake(vals) == total && Reached(vals, who)
        ensures Quorum(vals, who)
      {
        ReachedMeansQuorum(vals, who);
      }
    } else {
      WrappedMinority(total);
    }
  }

  lemma {:induction false} StakeOfAll(vals: seq<Validator>, who: set<Bytes>)
    requires forall i :: 0 <= i < |vals| ==> vals[i].address in who
    ensures StakeOf(vals, who) == TotalStake(vals)
  {
    if vals != [] {
      var last := |vals| - 1;
      forall i | 0 <= i < last
        ensures vals[..last][i].address in who
      {
        assert vals[..last][i] == vals[i];
      }
      StakeOfAll(vals[..last], who);
      PrefixStake(vals, last);
      assert vals[..last + 1] == vals;
    }
  }

  /** Where twice the stake fits in 128 bits and three times it does not, even a vote of
      every validator fails the test. */
  lemma UnanimityFails(vals: seq<Validator>, who: set<Bytes>)
    requires TotalStake(vals) * 2 <= U128_MAX < TotalStake(vals) * 3
    requires forall i :: 0 <= i < |vals| ==> vals[i].address in who
    ensures Quorum(vals, who) && !Reached(vals, who)
  {
    StakeOfAll(vals, who);
    assert Mul128(TotalStake(vals), 3) == TotalStake(vals) * 3 - (U128_MAX + 1);
  }

  ghost predicate ExactTotal(total: nat) {
    forall vals, who :: TotalStake(vals) == total ==> (Reached(vals, who) <==> Quorum(vals, who))
  }

  lemma StakeOfOne(total: nat)
    ensures TotalStake([Validator("one", total)]) == total
  {
    assert [Validator("one", total)][1..] == [];
  }

  /** The test decides by two thirds for every validator set of a given total exactly
      when three times that total fits in 128 bits. */
  lemma ExactIff(total: nat)
    requires total < U128_MAX
    ensures ExactTotal(total) <==> total * 3 <= U128_MAX
  {
    hide Reached, Quorum;
    if total * 3 <= U128_MAX {
      forall vals, who | TotalStake(vals) == total
        ensures Reached(vals, who) <==> Quorum(vals, who)
      {
        ReachedIsQuorum(vals, who);
      }
    } else if total * 2 <= U128_MAX {
      StakeOfOne(total);
      UnanimityFails([Validator("one", total)], {"one"});
    } else {
      WrappedMinority(total);
    }
  }

  // ---- accountable finality ----

  /** A signed vote by `voter` for `hash` at `h`. */
  predicate VotesFor(c: Crypto, v: Vote, voter: Bytes, h: nat, hash: Bytes) {
    VoteSigned(c, v) && Voter(c, v) == Some(voter) && v.height == h && v.hash == hash
  }

  /** Every counted vote is a signed vote by its voter for the stored block. */
  ghost predicate CountsStored(c: Crypto, s: State) {
    forall h, w :: h in s.inner && w in s.inner[h] ==>
      0 < h < |s.blocks| && VotesFor(c, s.inner[h][w], w, h, s.blocks[h])
  }

  /** A proof holds two signed votes of one voter for different hashes at one height. */
  predicate Conflict(c: Crypto, e: Evidence) {
    && e.VoteEvidence? && VoteSigned(c, e.voteA) && VoteSigned(c, e.voteB)
    && Voter(c, e.voteA).Some? && Voter(c, e.voteA) == Voter(c, e.voteB)
    && e.voteA.height == e.voteB.height && e.voteA.height > 0 && e.voteA.hash != e.voteB.hash
  }

  ghost predicate ProofsConflict(c: Crypto, s: State) {
    forall e :: e in s.evidence ==> Conflict(c, e)
  }

  ghost predicate Sound(c: Crypto, s: State) {
    CountsStored(c, s) && ProofsConflict(c, s) && s.blocks != []
  }

  lemma AddIsSound(c: Crypto, vals: seq<Validator>, s: State, v: Vote)
    requires Sound(c, s)
    ensures Sound(c, Add(c, vals, s, v).0)
  {
    hide VoteSigned, Reached, IsValidator, EvidenceId;
  }

  lemma {:induction false} AddAllIsSound(c: Crypto, vals: seq<Validator>, s: State, vs: seq<Vote>)
    requires Sound(c, s)
    ensures Sound(c, AddAll(c, vals, s, vs))
    decreases |vs|
  {
    hide Add, Sound;
    if vs != [] {
      AddIsSound(c, vals, s, vs[0]);
      AddAllIsSound(c, vals, Add(c, vals, s, vs[0]).0, vs[1..]);
    }
  }

  datatype Event = Deliver(vote: Vote) | Arrive(hash: Bytes)

  /** A vote arrives from a peer, or the next block is stored and its votes replayed. */
  function Step(c: Crypto, vals: seq<Validator>, s: State, e: Event): State {
    match e
    case Deliver(v) => Add(c, vals, s, v).0
    case Arrive(hash) => Replay(c, vals, s.(blocks := s.blocks + [hash]), |s.blocks|)
  }

  lemma StepIsSound(c: Crypto, vals: seq<Validator>, s: State, e: Event)
    requires Sound(c, s)
    ensures Sound(c, Step(c, vals, s, e))
  {
    hide Add, VotesFor, Conflict;
    match e
    case Deliver(v) => AddIsSound(c, vals, s, v);
    case Arrive(hash) =>
      var s1 := s.(blocks := s.blocks + [hash], pending := StillAhead(s.pending, |s.blocks|, s.finalized));
      AddAllIsSound(c, vals, s1, AtHeight(s.pending, |s.blocks|));
  }

  function Start(genesis: Bytes): State {
    State(map[], [], [], [genesis], 0)
  }

  /** A run under a validator set that may change at every step. */
  function RunWith(c: Crypto, s: State, steps: seq<(Event, seq<Validator>)>): State {
    if steps == [] then s else
      var last := |steps| - 1;
      Step(c, steps[last].1, RunWith(c, s, steps[..last]), steps[last].0)
  }

  /** On every run each counted vote is a signed vote for the stored block, and each
      queued proof is two signed, conflicting votes of one voter. */
  lemma {:induction false} SoundOnEveryRun(c: Crypto, genesis: Bytes, steps: seq<(Event, seq<Validator>)>)
    ensures Sound(c, RunWith(c, Start(genesis), steps))
  {
    hide Step, Sound;
    if steps == [] {
      assert Sound(c, Start(genesis)) by { StartIsSound(c, genesis); }
    } else {
      var last := |steps| - 1;
      SoundOnEveryRun(c, genesis, steps[..last]);
      StepIsSound(c, steps[last].1, RunWith(c, Start(genesis), steps[..last]), steps[last].0);
    }
  }

  lemma StartIsSound(c: Crypto, genesis: Bytes)
    ensures Sound(c, Start(genesis))
  {
  }

  /** A height reported final has a quorum of counted votes, all for the stored block,
      as long as twice the stake fits in 128 bits. */
  lemma FinalMeansQuorum(c: Crypto, vals: seq<Validator>, s: State, v: Vote, h: nat)
    requires TotalStake(vals) * 2 <= U128_MAX
    requires Sound(c, s) && Add(c, vals, s, v).1.Ok? && Add(c, vals, s, v).1.value.finalized == Some(h)
    ensures var s' := Add(c, vals, s, v).0; var at := CountedAt(s', h);
            && s.finalized < h < |s.blocks| && s'.finalized == h && s'.blocks == s.blocks
            && Quorum(vals, at.Keys) && forall w :: w in at ==> VotesFor(c, at[w], w, h, s.blocks[h])
  {
    hide VoteSigned, Quorum, Reached, IsValidator;
    var s' := Add(c, vals, s, v).0;
    AddIsSound(c, vals, s, v);
    var voter := Voter(c, v).value;
    ReachedMeansQuorum(vals, CountedAt(s, h).Keys + {voter});
    assert CountedAt(s', h) == CountedAt(s, h)[voter := v];
    assert CountedAt(s', h).Keys == CountedAt(s, h).Keys + {voter};
  }

  /** If two trackers finalize different blocks at one height under one validator set,
      validators holding more than a third of the stake signed both, and the two votes
      of each are the proof. */
  lemma ConflictingFinalityIsAccountable(c: Crypto, vals: seq<Validator>, s: State, v: Vote, t: State, w: Vote, h: nat)
    requires TotalStake(vals) * 2 <= U128_MAX
    requires Sound(c, s) && Add(c, vals, s, v).1.Ok? && Add(c, vals, s, v).1.value.finalized == Some(h)
    requires Sound(c, t) && Add(c, vals, t, w).1.Ok? && Add(c, vals, t, w).1.value.finalized == Some(h)
    requires h < |s.blocks| && h < |t.blocks| && s.blocks[h] != t.blocks[h]
    ensures var a, b := CountedAt(Add(c, vals, s, v).0, h), CountedAt(Add(c, vals, t, w).0, h);
            && StakeOf(vals, a.Keys * b.Keys) * 3 > TotalStake(vals)
            && forall x :: x in a.Keys * b.Keys ==> Voter(c, a[x]) == Some(x) && Conflict(c, VoteEvidence(a[x], b[x]))
  {
    hide Add, Quorum, VoteSigned;
    FinalMeansQuorum(c, vals, s, v, h);
    FinalMeansQuorum(c, vals, t, w, h);
    QuorumsOverlap(vals, CountedAt(Add(c, vals, s, v).0, h).Keys, CountedAt(Add(c, vals, t, w).0, h).Keys);
  }

  /** `voter` never signs two hashes at one height. */
  ghost predicate SignsOnce(c: Crypto, voter: Bytes) {
    forall a: Vote, b: Vote :: VotesFor(c, a, voter, a.height, a.hash) && VotesFor(c, b, voter, a.height, b.hash) ==> a.hash == b.hash
  }

  lemma ProofsNeverNameTheHonest(c: Crypto, genesis: Bytes, steps: seq<(Event, seq<Validator>)>, voter: Bytes, e: Evidence)
    requires SignsOnce(c, voter) && e in RunWith(c, Start(genesis), steps).evidence
    ensures e.VoteEvidence? && Voter(c, e.voteA) != Some(voter)
  {
    hide RunWith, VoteSigned;
    SoundOnEveryRun(c, genesis, steps);
  }

  lemma ConflictVerifiesIff(c: Crypto, e: Evidence)
    requires Conflict(c, e)
    ensures Verify(c, e).Ok? <==> e.voteA.voterPubkey == e.voteB.voterPubkey
    ensures Verify(c, e).Ok? ==> Some(Verify(c, e).value) == Voter(c, e.voteA)
  {
  }

  /** On every run, a queued proof stands on its own exactly when both votes spell the
      public key alike; then it names their voter. */
  lemma ProofVerifiesIff(c: Crypto, genesis: Bytes, steps: seq<(Event, seq<Validator>)>, e: Evidence)
    requires e in RunWith(c, Start(genesis), steps).evidence
    ensures e.VoteEvidence?
    ensures Verify(c, e).Ok? <==> e.voteA.voterPubkey == e.voteB.voterPubkey
    ensures Verify(c, e).Ok? ==> Some(Verify(c, e).value) == Voter(c, e.voteA)
  {
    hide RunWith, Verify, Conflict;
    SoundOnEveryRun(c, genesis, steps);
    assert Conflict(c, e);
    assert e.VoteEvidence? by { IsVoteEvidence(c, e); }
    ConflictVerifiesIff(c, e);
  }

  lemma IsVoteEvidence(c: Crypto, e: Evidence)
    requires Conflict(c, e)
    ensures e.VoteEvidence?
  {
  }

  // One key, spelled in two letter cases.
  const ONE_KEY: Crypto := Crypto((k: Bytes) => Some("v"), (k: Bytes, m: Bytes, sig: Bytes) => true, (m: Bytes) => m)
  const ONE_VALIDATOR: seq<Validator> := [Validator("v", 1)]
  const LOWER_VOTE: Vote := Vote(1, "x", "ab", "")
  const UPPER_VOTE: Vote := Vote(1, "y", "AB", "")

  lemma SpelledTwice()
    ensures Conflict(ONE_KEY, VoteEvidence(LOWER_VOTE, UPPER_VOTE)) && LOWER_VOTE.voterPubkey != UPPER_VOTE.voterPubkey
  {
  }

  /** `h` blocks arrive, the last of them `hash`. */
  function Arriving(vals: seq<Validator>, h: nat, hash: Bytes): seq<(Event, seq<Validator>)> {
    if h == 0 then [] else Arriving(vals, h - 1, hash) + [(Arrive(hash), vals)]
  }

  lemma {:induction false} RunSnoc(c: Crypto, s: State, steps: seq<(Event, seq<Validator>)>, e: Event, vals: seq<Validator>)
    ensures RunWith(c, s, steps + [(e, vals)]) == Step(c, vals, RunWith(c, s, steps), e)
  {
    hide Step;
    assert (steps + [(e, vals)])[..|steps|] == steps;
  }

  lemma RunNothing(c: Crypto, s: State)
    ensures RunWith(c, s, []) == s
  {
  }

  lemma {:induction false} RunArriving(c: Crypto, vals: seq<Validator>, h: nat, hash: Bytes)
    ensures var s := RunWith(c, Start("g"), Arriving(vals, h, hash));
            && s == State(map[], [], [], s.blocks, 0) && |s.blocks| == h + 1
            && (h > 0 ==> s.blocks[h] == hash)
  {
    hide RunWith, Add;
    if h == 0 {
      RunNothing(c, Start("g"));
    } else {
      RunArriving(c, vals, h - 1, hash);
      RunSnoc(c, Start("g"), Arriving(vals, h - 1, hash), Arrive(hash), vals);
    }
  }

  lemma FirstVoteCounts(c: Crypto, voter: Bytes, s: State, v: Vote)
    requires s == State(map[], [], [], s.blocks, 0) && 0 < v.height < |s.blocks| && s.blocks[v.height] == v.hash
    requires VoteSigned(c, v) && Voter(c, v) == Some(voter)
    ensures var s' := Add(c, [Validator(voter, 1)], s, v).0;
            CountedAt(s', v.height) == map[voter := v] && s'.evidence == []
  {
    hide VoteSigned;
    var vals := [Validator(voter, 1)];
    assert vals[0].address == voter && IsValidator(vals, voter);
  }

  lemma SecondVoteConflicts(c: Crypto, vals: seq<Validator>, voter: Bytes, s: State, v: Vote, w: Vote)
    requires CountedAt(s, v.height) == map[voter := v] && s.evidence == []
    requires VoteSigned(c, w) && Voter(c, w) == Some(voter) && w.height == v.height && w.hash != v.hash
    ensures VoteEvidence(v, w) in Add(c, vals, s, w).0.evidence
  {
    hide VoteSigned, EvidenceId;
  }

  /** Every two conflicting votes of one voter are queued as a proof by some run. */
  lemma ConflictIsQueued(c: Crypto, a: Vote, b: Vote)
    requires Conflict(c, VoteEvidence(a, b))
    ensures exists genesis, steps :: VoteEvidence(a, b) in RunWith(c, Start(genesis), steps).evidence
  {
    hide Add, RunWith, VoteSigned, Arriving;
    var voter := Voter(c, a).value;
    var vals := [Validator(voter, 1)];
    var steps := Arriving(vals, a.height, a.hash);
    RunArriving(c, vals, a.height, a.hash);
    var s := RunWith(c, Start("g"), steps);
    FirstVoteCounts(c, voter, s, a);
    SecondVoteConflicts(c, vals, voter, Add(c, vals, s, a).0, a, b);
    RunSnoc(c, Start("g"), steps, Deliver(a), vals);
    RunSnoc(c, Start("g"), steps + [(Deliver(a), vals)], Deliver(b), vals);
    assert VoteEvidence(a, b) in RunWith(c, Start("g"), steps + [(Deliver(a), vals)] + [(Deliver(b), vals)]).evidence;
  }

  /** Whenever one voter's two conflicting votes spell its key in two ways, some run
      queues them as a proof that can never be reported. */
  lemma SpellingDefeatsProof(c: Crypto, a: Vote, b: Vote)
    requires Conflict(c, VoteEvidence(a, b)) && a.voterPubkey != b.voterPubkey
    ensures Verify(c, VoteEvidence(a, b)).Err?
    ensures exists genesis, steps :: VoteEvidence(a, b) in RunWith(c, Start(genesis), steps).evidence
  {
    hide RunWith, Verify;
    ConflictVerifiesIff(c, VoteEvidence(a, b));
    ConflictIsQueued(c, a, b);
  }
}
