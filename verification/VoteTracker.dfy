/** The vote tracker in place (src/consensus.rs): its collections and the finalized
    height updated step by step, exactly as the transition functions say. */
module VoteTracker {
  import opened Base
  import opened Election
  import opened Evidence
  import opened Consensus

  method FindValidator(vals: seq<Validator>, a: Bytes) returns (found: bool)
    ensures found == IsValidator(vals, a)
  {
    for i := 0 to |vals|
      invariant forall j :: 0 <= j < i ==> vals[j].address != a
    {
      if vals[i].address == a {
        return true;
      }
    }
    found := false;
  }

  method SumVoted(vals: seq<Validator>, at: map<Bytes, Vote>) returns (voted: nat, total: nat)
    ensures voted == Wrap(StakeOf(vals, at.Keys)) && total == Wrap(TotalStake(vals))
  {
    hide Wrap;
    voted, total := 0, 0;
    for i := 0 to |vals|
      invariant voted == Wrap(StakeOf(vals[..i], at.Keys)) && total == Wrap(TotalStake(vals[..i]))
    {
      PrefixStake(vals, i);
      assert vals[..i + 1][..i] == vals[..i];
      WrapSum(TotalStake(vals[..i]), vals[i].stake);
      WrapSum(StakeOf(vals[..i], at.Keys), vals[i].stake);
      total := Wrap(total + vals[i].stake);
      if vals[i].address in at {
        voted := Wrap(voted + vals[i].stake);
      }
    }
    assert vals[..|vals|] == vals;
  }

  /** Keep a trailing window of heights. */
  method Retain(inner: map<nat, map<Bytes, Vote>>, height: nat) returns (kept: map<nat, map<Bytes, Vote>>)
    ensures kept == map h | h in inner && h + VOTE_RETENTION_HEIGHTS > height :: inner[h]
  {
    kept := map[];
    var todo := inner.Keys;
    while todo != {}
      invariant todo <= inner.Keys
      invariant kept == map h | h in inner && h !in todo && h + VOTE_RETENTION_HEIGHTS > height :: inner[h]
      decreases todo
    {
      var h :| h in todo;
      todo := todo - {h};
      if h + VOTE_RETENTION_HEIGHTS > height {
        kept := kept[h := inner[h]];
      }
    }
  }

  method Partition(vs: seq<Vote>, h: nat, finalized: nat) returns (ready: seq<Vote>, keep: seq<Vote>)
    ensures ready == AtHeight(vs, h) && keep == StillAhead(vs, h, finalized)
  {
    ready, keep := [], [];
    for i := 0 to |vs|
      invariant ready == AtHeight(vs[..i], h) && keep == StillAhead(vs[..i], h, finalized)
    {
      assert vs[..i + 1][..i] == vs[..i];
      if vs[i].height == h {
        ready := ready + [vs[i]];
      } else if vs[i].height > finalized {
        keep := keep + [vs[i]];
      }
    }
    assert vs[..|vs|] == vs;
  }

  ghost predicate ByHeight(vs: seq<Vote>) {
    forall i, j :: 0 <= i < j < |vs| ==> vs[i].height <= vs[j].height
  }

  ghost predicate Distinct(vs: seq<Vote>) {
    forall i, j :: 0 <= i < j < |vs| ==> vs[i] != vs[j]
  }

  lemma InsertedDistinct(vs: seq<Vote>, v: Vote, i: nat)
    requires i <= |vs| && Distinct(vs) && v !in vs
    ensures Distinct(vs[..i] + [v] + vs[i..])
  {
    var more := vs[..i] + [v] + vs[i..];
    forall a | 0 <= a < |more|
      ensures more[a] == if a < i then vs[a] else if a == i then v else vs[a - 1]
    {
    }
  }

  lemma Inserted(vs: seq<Vote>, v: Vote, i: nat)
    requires i <= |vs|
    ensures forall x :: x in vs[..i] + [v] + vs[i..] <==> x in vs || x == v
  {
    assert vs == vs[..i] + vs[i..];
  }

  method InsertByHeight(vs: seq<Vote>, v: Vote) returns (sorted: seq<Vote>)
    requires ByHeight(vs) && Distinct(vs) && v !in vs
    ensures ByHeight(sorted) && Distinct(sorted) && |sorted| == |vs| + 1
    ensures forall x :: x in sorted <==> x in vs || x == v
  {
    var i := 0;
    while i < |vs| && vs[i].height <= v.height
      invariant 0 <= i <= |vs| && forall j :: 0 <= j < i ==> vs[j].height <= v.height
    {
      i := i + 1;
    }
    sorted := vs[..i] + [v] + vs[i..];
    Inserted(vs, v, i);
    InsertedDistinct(vs, v, i);
  }

  function Above(inner: map<nat, map<Bytes, Vote>>, from: nat): set<Vote> {
    set h, w | h in inner && h > from && w in inner[h] :: inner[h][w]
  }

  method SortVotes(votes: set<Vote>) returns (all: seq<Vote>)
    ensures ByHeight(all) && Distinct(all) && forall v :: v in all <==> v in votes
  {
    all := [];
    var todo := votes;
    while todo != {}
      invariant ByHeight(all) && Distinct(all) && todo <= votes
      invariant forall v :: v in all <==> v in votes - todo
      decreases todo
    {
      var v :| v in todo;
      all := InsertByHeight(all, v);
      todo := todo - {v};
    }
  }

  /** Truncation drops only votes at least as high as every vote kept. */
  lemma Truncate(all: seq<Vote>, limit: nat)
    requires ByHeight(all) && Distinct(all)
    ensures var out := if |all| > limit then all[..limit] else all;
            && ByHeight(out) && Distinct(out) && (forall v :: v in out ==> v in all)
            && forall v :: v in all && v !in out ==> |out| == limit && forall u :: u in out ==> u.height <= v.height
  {
    var out := if |all| > limit then all[..limit] else all;
    forall v, u | v in all && v !in out && u in out
      ensures u.height <= v.height
    {
      assert forall k :: 0 <= k < |out| ==> out[k] == all[k] && out[k] != v;
      var j :| 0 <= j < |all| && all[j] == v;
      var i :| 0 <= i < |out| && out[i] == u;
    }
  }

  class Tracker {
    var inner: map<nat, map<Bytes, Vote>>
    var pending: seq<Vote>
    var evidence: seq<Evidence>
    // The store's side: block hashes by height, and the finalized height.
    var blocks: seq<Bytes>
    var finalized: nat

    ghost function View(): State
      reads this
    {
      State(inner, pending, evidence, blocks, finalized)
    }

    constructor (genesis: Bytes)
      ensures View() == Start(genesis)
    {
      inner, pending, evidence, blocks, finalized := map[], [], [], [genesis], 0;
    }

    method Push(c: Crypto, e: Evidence)
      modifies this`evidence
      ensures evidence == PushEvidence(c, old(evidence), e)
    {
      hide EvidenceId;
      for i := 0 to |evidence|
        invariant evidence == old(evidence)
        invariant forall j :: 0 <= j < i ==> EvidenceId(c, evidence[j]) != EvidenceId(c, e)
      {
        if EvidenceId(c, evidence[i]) == EvidenceId(c, e) {
          return;
        }
      }
      if |evidence| > MAX_EVIDENCE {
        evidence := evidence[1..];
      }
      evidence := evidence + [e];
    }

    /** Buffer a vote for a block still in flight. */
    method Hold(vals: seq<Validator>, v: Vote) returns (r: Result<Outcome>)
      modifies this`pending
      ensures (View(), r) == Buffer(vals, old(View()), v)
    {
      for i := 0 to |pending|
        invariant View() == old(View())
        invariant forall j :: 0 <= j < i ==> !SameSlot(pending[j], v)
      {
        if SameSlot(pending[i], v) {
          return Ok(Outcome(false, None));
        }
      }
      if |pending| >= Cap(vals) {
        pending := pending[1..];
      }
      pending := pending + [v];
      r := Ok(Outcome(true, None));
    }

    method Tally(vals: seq<Validator>, v: Vote, voter: Bytes) returns (r: Result<Outcome>)
      requires v.height > finalized
      modifies this`inner, this`finalized
      ensures (View(), r) == Count(vals, old(View()), v, voter)
    {
      var at := if v.height in inner then inner[v.height] else map[];
      var isNew := voter !in at;
      ghost var before := at.Keys;
      at := at[voter := v];
      assert at.Keys == before + {voter};
      inner := inner[v.height := at];
      var voted, total := SumVoted(vals, at);
      var final := None;
      if total > 0 && Mul128(voted, 3) > Mul128(total, 2) && v.height > finalized {
        finalized := v.height;
        final := Some(v.height);
        inner := Retain(inner, v.height);
      }
      r := Ok(Outcome(isNew, final));
    }

    method Add(c: Crypto, vals: seq<Validator>, v: Vote) returns (r: Result<Outcome>)
      modifies this
      ensures var spec := Consensus.Add(c, vals, old(View()), v);
              View() == spec.0 && r.Ok? == spec.1.Ok? && (r.Ok? ==> r == spec.1)
    {
      hide VoteSigned, PushEvidence, Count, Buffer;
      if !VoteSigned(c, v) {
        return Err("invalid vote signature");
      }
      var voter := Voter(c, v);
      if voter.None? {
        return Err("invalid voter public key");
      }
      if v.height in inner && voter.value in inner[v.height] && inner[v.height][voter.value].hash != v.hash {
        Push(c, VoteEvidence(inner[v.height][voter.value], v));
        return Err("equivocating vote: evidence recorded");
      }
      if v.height <= finalized {
        return Ok(Outcome(false, None));
      }
      if v.height < |blocks| && blocks[v.height] != v.hash {
        return Err("vote for a different block at this height");
      }
      var bonded := FindValidator(vals, voter.value);
      if !bonded {
        return Err("voter is not a bonded validator");
      }
      if v.height < |blocks| {
        r := Tally(vals, v, voter.value);
      } else {
        r := Hold(vals, v);
      }
    }

    /** Move the buffer's votes for `h` into the count, and drop those no longer ahead. */
    method ReplayPending(c: Crypto, vals: seq<Validator>, h: nat) returns (final: Option<nat>)
      modifies this
      ensures View() == Replay(c, vals, old(View()), h)
      ensures final.Some? ==> final.value == finalized
    {
      hide Consensus.Add;
      var ready, keep := Partition(pending, h, finalized);
      pending := keep;
      final := None;
      assert ready[0..] == ready;
      for i := 0 to |ready|
        invariant AddAll(c, vals, View(), ready[i..]) == Replay(c, vals, old(View()), h)
        invariant final.Some? ==> final.value == finalized
      {
        assert ready[i..][0] == ready[i] && ready[i..][1..] == ready[i + 1..];
        ghost var before := View();
        var outcome := Add(c, vals, ready[i]);
        OnlyReportsFinal(c, vals, before, ready[i]);
        if outcome.Ok? && outcome.value.finalized.Some? {
          final := outcome.value.finalized;
        }
      }
    }

    /** Counted votes above `from`, oldest first, for a peer whose finality lags: none
        invented or served twice, and none left out but the newest when there are more
        than `limit`. */
    method VotesAbove(from: nat, limit: nat) returns (out: seq<Vote>)
      ensures ByHeight(out) && Distinct(out) && |out| <= limit
      ensures forall v :: v in out ==> v in Above(inner, from)
      ensures forall v :: v in Above(inner, from) && v !in out ==> |out| == limit && forall u :: u in out ==> u.height <= v.height
    {
      hide ByHeight, Distinct, Above;
      var all := SortVotes(Above(inner, from));
      Truncate(all, limit);
      out := if |all| > limit then all[..limit] else all;
    }

    /** The next block is stored and its buffered votes counted. */
    method Arrived(c: Crypto, vals: seq<Validator>, hash: Bytes)
      modifies this
      ensures View() == Step(c, vals, old(View()), Arrive(hash))
    {
      hide Replay;
      blocks := blocks + [hash];
      var _ := ReplayPending(c, vals, |blocks| - 1);
    }
  }

  /** The finalized height moves only when the outcome says so, and to what it says. */
  lemma OnlyReportsFinal(c: Crypto, vals: seq<Validator>, s: State, v: Vote)
    ensures var (s', r) := Consensus.Add(c, vals, s, v);
            if r.Ok? && r.value.finalized.Some? then s'.finalized == r.value.finalized.value && s'.finalized > s.finalized
            else s'.finalized == s.finalized
  {
    hide VoteSigned, Reached, IsValidator, PushEvidence;
  }
}
