/** What the vote tracker keeps, and for how long (src/consensus.rs): its queues stay
    bounded, and a second vote is caught as long as the first is remembered. */
module Watch {
  import opened Base
  import opened Evidence
  import opened Election
  import opened Consensus
  import Convergence

  // ---- bounded queues ----

  ghost predicate DistinctIds(c: Crypto, queue: seq<Evidence>) {
    forall i, j :: 0 <= i < j < |queue| ==> EvidenceId(c, queue[i]) != EvidenceId(c, queue[j])
  }

  /** Few proofs, no two of one offence; few buffered votes, no two for one slot. */
  ghost predicate Bounded(c: Crypto, s: State) {
    && |s.evidence| <= MAX_EVIDENCE + 1 && DistinctIds(c, s.evidence)
    && |s.pending| <= PENDING_MAX && Convergence.OnePerSlot(s.pending)
  }

  lemma PushStaysBounded(c: Crypto, queue: seq<Evidence>, e: Evidence)
    requires |queue| <= MAX_EVIDENCE + 1 && DistinctIds(c, queue)
    ensures var queue' := PushEvidence(c, queue, e);
      && |queue'| <= MAX_EVIDENCE + 1 && DistinctIds(c, queue')
      && exists i :: 0 <= i < |queue'| && EvidenceId(c, queue'[i]) == EvidenceId(c, e)
  {
    hide EvidenceId;
    var queue' := PushEvidence(c, queue, e);
    if exists i :: 0 <= i < |queue| && EvidenceId(c, queue[i]) == EvidenceId(c, e) {
      assert queue' == queue;
    } else {
      assert queue'[|queue'| - 1] == e;
    }
  }

  lemma BufferStaysBounded(vals: seq<Validator>, s: State, v: Vote)
    requires |s.pending| <= PENDING_MAX && Convergence.OnePerSlot(s.pending)
    ensures var s' := Buffer(vals, s, v).0;
      |s'.pending| <= PENDING_MAX && Convergence.OnePerSlot(s'.pending) && s'.evidence == s.evidence
  {
  }

  lemma AddStaysBounded(c: Crypto, vals: seq<Validator>, s: State, v: Vote)
    requires Bounded(c, s)
    ensures Bounded(c, Add(c, vals, s, v).0)
  {
    hide VoteSigned, EvidenceId, PushEvidence, Buffer, Reached, IsValidator, DistinctIds, Convergence.OnePerSlot;
    BufferStaysBounded(vals, s, v);
    if Voter(c, v).Some? && Voter(c, v).value in CountedAt(s, v.height) {
      PushStaysBounded(c, s.evidence, VoteEvidence(CountedAt(s, v.height)[Voter(c, v).value], v));
    }
  }

  lemma {:induction false} AddAllStaysBounded(c: Crypto, vals: seq<Validator>, s: State, vs: seq<Vote>)
    requires Bounded(c, s)
    ensures Bounded(c, AddAll(c, vals, s, vs))
    decreases |vs|
  {
    hide Add, Bounded;
    if vs != [] {
      AddStaysBounded(c, vals, s, vs[0]);
      AddAllStaysBounded(c, vals, Add(c, vals, s, vs[0]).0, vs[1..]);
    }
  }

  lemma {:induction false} FewerAhead(vs: seq<Vote>, h: nat, finalized: nat)
    ensures |StillAhead(vs, h, finalized)| <= |vs|
  {
    if vs != [] {
      FewerAhead(vs[..|vs| - 1], h, finalized);
    }
  }

  /** On every run, under changing validator sets, the tracker's queues stay bounded. */
  lemma {:induction false} BoundedOnEveryRun(c: Crypto, genesis: Bytes, steps: seq<(Event, seq<Validator>)>)
    ensures Bounded(c, RunWith(c, Start(genesis), steps))
  {
    hide Add, AddAll, Convergence.OnePerSlot, DistinctIds, StillAhead;
    if steps == [] {
      StartsBounded(c, genesis);
    } else {
      var last := |steps| - 1;
      BoundedOnEveryRun(c, genesis, steps[..last]);
      var s := RunWith(c, Start(genesis), steps[..last]);
      var (e, vals) := steps[last];
      match e
      case Deliver(v) => AddStaysBounded(c, vals, s, v);
      case Arrive(hash) =>
        FewerAhead(s.pending, |s.blocks|, s.finalized);
        Convergence.StillOnePerSlot(s.pending, |s.blocks|, s.finalized);
        var s1 := s.(blocks := s.blocks + [hash], pending := StillAhead(s.pending, |s.blocks|, s.finalized));
        AddAllStaysBounded(c, vals, s1, AtHeight(s.pending, |s.blocks|));
    }
  }

  lemma StartsBounded(c: Crypto, genesis: Bytes)
    ensures Bounded(c, Start(genesis))
  {
  }

  // ---- how long a counted vote is remembered ----

  /** `w`'s vote at `h` is still counted for `hash`, or the tracker has finalized a height
      64 above it. */
  ghost predicate Remembered(s: State, h: nat, w: Bytes, hash: Bytes) {
    (w in CountedAt(s, h) && CountedAt(s, h)[w].hash == hash) || h + VOTE_RETENTION_HEIGHTS <= s.finalized
  }

  lemma AddRemembers(c: Crypto, vals: seq<Validator>, s: State, v: Vote, h: nat, w: Bytes, hash: Bytes)
    requires Remembered(s, h, w, hash)
    ensures Remembered(Add(c, vals, s, v).0, h, w, hash) && s.finalized <= Add(c, vals, s, v).0.finalized
  {
    hide VoteSigned, PushEvidence, Reached, IsValidator;
  }

  lemma {:induction false} AddAllRemembers(c: Crypto, vals: seq<Validator>, s: State, vs: seq<Vote>, h: nat, w: Bytes, hash: Bytes)
    requires Remembered(s, h, w, hash)
    ensures Remembered(AddAll(c, vals, s, vs), h, w, hash)
    decreases |vs|
  {
    hide Add, Remembered;
    if vs != [] {
      AddRemembers(c, vals, s, vs[0], h, w, hash);
      AddAllRemembers(c, vals, Add(c, vals, s, vs[0]).0, vs[1..], h, w, hash);
    }
  }

  lemma StepRemembers(c: Crypto, vals: seq<Validator>, s: State, e: Event, h: nat, w: Bytes, hash: Bytes)
    requires Remembered(s, h, w, hash)
    ensures Remembered(Step(c, vals, s, e), h, w, hash)
  {
    hide Add, AddAll;
    match e
    case Deliver(v) => AddRemembers(c, vals, s, v, h, w, hash);
    case Arrive(x) =>
      var n := |s.blocks|;
      var s1 := s.(blocks := s.blocks + [x], pending := StillAhead(s.pending, n, s.finalized));
      AddAllRemembers(c, vals, s1, AtHeight(s.pending, n), h, w, hash);
  }

  lemma {:induction false} RunRemembers(
      c: Crypto, s: State, steps: seq<(Event, seq<Validator>)>, n: nat, h: nat, w: Bytes, hash: Bytes)
    requires n <= |steps| && Remembered(RunWith(c, s, steps[..n]), h, w, hash)
    ensures Remembered(RunWith(c, s, steps), h, w, hash)
  {
    hide Step, Remembered;
    if n == |steps| {
      assert steps[..n] == steps;
    } else {
      var last := |steps| - 1;
      assert steps[..last][..n] == steps[..n];
      RunRemembers(c, s, steps[..last], n, h, w, hash);
      StepRemembers(c, steps[last].1, RunWith(c, s, steps[..last]), steps[last].0, h, w, hash);
    }
  }

  /** A proof of this offence is queued. */
  ghost predicate Caught(c: Crypto, s: State, w: Bytes, h: nat, hash: Bytes, v: Vote) {
    exists e: Evidence :: e in s.evidence && exists first: Vote ::
      first.hash == hash && EvidenceId(c, e) == EvidenceId(c, VoteEvidence(first, v)) && VotesFor(c, first, w, h, hash)
  }

  /** On every run: once a validator's vote for one hash was counted at a height, its signed
      vote for another hash there is caught, whenever and however often anything was
      delivered in between, until a height 64 above is final. */
  lemma SecondVoteIsCaught(
      c: Crypto, genesis: Bytes, steps: seq<(Event, seq<Validator>)>, n: nat, vals: seq<Validator>, v: Vote, w: Bytes)
    requires n <= |steps| && VoteSigned(c, v) && Voter(c, v) == Some(w)
    requires var early := RunWith(c, Start(genesis), steps[..n]);
             w in CountedAt(early, v.height) && CountedAt(early, v.height)[w].hash != v.hash
    ensures var first := CountedAt(RunWith(c, Start(genesis), steps[..n]), v.height)[w];
            var s := RunWith(c, Start(genesis), steps);
            s.finalized < v.height + VOTE_RETENTION_HEIGHTS ==> Caught(c, Add(c, vals, s, v).0, w, v.height, first.hash, v)
  {
    hide RunWith, VoteSigned, EvidenceId, PushEvidence, DistinctIds;
    var h := v.height;
    var first := CountedAt(RunWith(c, Start(genesis), steps[..n]), h)[w];
    var s := RunWith(c, Start(genesis), steps);
    RunRemembers(c, Start(genesis), steps, n, h, w, first.hash);
    if s.finalized < h + VOTE_RETENTION_HEIGHTS {
      var kept := CountedAt(s, h)[w];
      SoundOnEveryRun(c, genesis, steps);
      BoundedOnEveryRun(c, genesis, steps);
      assert VotesFor(c, kept, w, h, s.blocks[h]);
      PushStaysBounded(c, s.evidence, VoteEvidence(kept, v));
      var s' := Add(c, vals, s, v).0;
      var i :| 0 <= i < |s'.evidence| && EvidenceId(c, s'.evidence[i]) == EvidenceId(c, VoteEvidence(kept, v));
      assert s'.evidence[i] in s'.evidence;
      assert VotesFor(c, kept, w, h, first.hash);
    }
  }
}
