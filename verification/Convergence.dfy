/** Every interleaving of vote deliveries and in-order block arrivals ends at the same
    finalized height (src/consensus.rs). */
module Convergence {
  import opened Base
  import opened Election
  import opened Evidence
  import opened Consensus

  function Run(c: Crypto, vals: seq<Validator>, s: State, events: seq<Event>): State {
    if events == [] then s else
      var last := |events| - 1;
      Step(c, vals, Run(c, vals, s, events[..last]), events[last])
  }

  function Delivered(events: seq<Event>): set<Vote> {
    set e | e in events && e.Deliver? :: e.vote
  }

  function Arrivals(events: seq<Event>): seq<Bytes> {
    if events == [] then [] else
      var last := |events| - 1;
      Arrivals(events[..last]) + if events[last].Arrive? then [events[last].hash] else []
  }

  /** A vote that can count: signed by a bonded validator. */
  predicate Eligible(c: Crypto, vals: seq<Validator>, v: Vote) {
    VoteSigned(c, v) && Voter(c, v).Some? && IsValidator(vals, Voter(c, v).value)
  }

  function VoterOf(c: Crypto, v: Vote): Bytes {
    match Voter(c, v)
    case None => ""
    case Some(w) => w
  }

  /** Who voted for `hash` at `h` among the delivered votes. */
  ghost function VotersFor(c: Crypto, vals: seq<Validator>, d: set<Vote>, h: nat, hash: Bytes): set<Bytes> {
    set v | v in d && Eligible(c, vals, v) && v.height == h && v.hash == hash :: VoterOf(c, v)
  }

  /** Delivered votes for the block at `h` exceed two thirds of the stake. */
  ghost predicate Decided(c: Crypto, vals: seq<Validator>, d: set<Vote>, blocks: seq<Bytes>, h: nat)
    requires h < |blocks|
  {
    Quorum(vals, VotersFor(c, vals, d, h, blocks[h]))
  }

  predicate SamePoint(c: Crypto, a: Vote, b: Vote) {
    a.height == b.height && VoterOf(c, a) == VoterOf(c, b)
  }

  /** Validators vote for one hash per height. */
  ghost predicate OneVoteEach(c: Crypto, vals: seq<Validator>, d: set<Vote>) {
    forall a, b :: a in d && b in d && Eligible(c, vals, a) && Eligible(c, vals, b) && SamePoint(c, a, b) ==> a.hash == b.hash
  }

  function Slots(d: set<Vote>): set<(nat, Bytes)> {
    set v | v in d :: (v.height, v.voterPubkey)
  }

  ghost function VoteSet(vs: seq<Vote>): set<Vote> {
    set v | v in vs
  }

  // ---- the invariant ----

  /** Counted votes are delivered votes for the stored block. */
  ghost predicate CountedDelivered(c: Crypto, vals: seq<Validator>, s: State, d: set<Vote>) {
    forall h, w :: h in s.inner && w in s.inner[h] ==>
      h < |s.blocks| && w in VotersFor(c, vals, d, h, s.blocks[h])
      && s.inner[h][w].hash == s.blocks[h]
  }

  /** Above the finalized height nothing delivered is uncounted, except `todo`. */
  ghost predicate AllCounted(c: Crypto, vals: seq<Validator>, s: State, d: set<Vote>, todo: set<Vote>) {
    forall h :: s.finalized < h < |s.blocks| ==>
      VotersFor(c, vals, d, h, s.blocks[h])
      <= CountedAt(s, h).Keys + VotersFor(c, vals, todo, h, s.blocks[h])
  }

  ghost predicate OnePerSlot(vs: seq<Vote>) {
    forall i, j :: 0 <= i < j < |vs| ==> !SameSlot(vs[i], vs[j])
  }

  ghost predicate HasSlot(vs: seq<Vote>, v: Vote) {
    exists i :: 0 <= i < |vs| && SameSlot(vs[i], v)
  }

  predicate Ahead(c: Crypto, vals: seq<Validator>, v: Vote, height: nat) {
    Eligible(c, vals, v) && v.height >= height
  }

  /** The delivered votes that belong in the buffer while `height` is the next block. */
  function AheadOf(c: Crypto, vals: seq<Validator>, d: set<Vote>, height: nat): set<Vote> {
    set v | v in d && Ahead(c, vals, v, height)
  }

  /** The buffer holds delivered votes ahead of the tip, one per slot, and every slot voted. */
  ghost predicate Buffered(c: Crypto, vals: seq<Validator>, s: State, d: set<Vote>) {
    && (forall v :: v in s.pending ==> v in d && Ahead(c, vals, v, |s.blocks|))
    && OnePerSlot(s.pending)
    && (forall v :: v in d && Ahead(c, vals, v, |s.blocks|) ==> HasSlot(s.pending, v))
  }

  /** The finalized height is decided, and no counted height above it has a quorum. */
  ghost predicate Settled(c: Crypto, vals: seq<Validator>, s: State, d: set<Vote>) {
    && s.finalized < |s.blocks|
    && (s.finalized > 0 ==> Decided(c, vals, d, s.blocks, s.finalized))
    && (forall h :: h > s.finalized ==> !Quorum(vals, CountedAt(s, h).Keys))
  }

  ghost predicate Inv(c: Crypto, vals: seq<Validator>, s: State, d: set<Vote>, todo: set<Vote>) {
    && CountedDelivered(c, vals, s, d) && AllCounted(c, vals, s, d, todo)
    && Buffered(c, vals, s, d) && Settled(c, vals, s, d)
  }

  // ---- quorums grow ----

  lemma QuorumGrows(vals: seq<Validator>, a: set<Bytes>, b: set<Bytes>)
    requires Quorum(vals, a) && a <= b
    ensures Quorum(vals, b)
  {
    StakeOfMonotone(vals, a, b);
  }

  /** Under the invariant the finalized height is the greatest decided one. */
  lemma SettledIsGreatest(c: Crypto, vals: seq<Validator>, s: State, d: set<Vote>)
    requires Inv(c, vals, s, d, {})
    ensures s.finalized < |s.blocks|
    ensures s.finalized > 0 ==> Decided(c, vals, d, s.blocks, s.finalized)
    ensures forall h :: s.finalized < h < |s.blocks| ==> !Decided(c, vals, d, s.blocks, h)
  {
    hide Quorum, Eligible, VotersFor;
    forall h | s.finalized < h < |s.blocks|
      ensures !Decided(c, vals, d, s.blocks, h)
    {
      if Decided(c, vals, d, s.blocks, h) {
        assert VotersFor(c, vals, {}, h, s.blocks[h]) == {} by { NoVoters(c, vals, h, s.blocks[h]); }
        QuorumGrows(vals, VotersFor(c, vals, d, h, s.blocks[h]), CountedAt(s, h).Keys);
      }
    }
  }

  lemma NoVoters(c: Crypto, vals: seq<Validator>, h: nat, hash: Bytes)
    ensures VotersFor(c, vals, {}, h, hash) == {}
  {
  }

  // ---- counting one vote of a stored height ----

  lemma CountKeepsCounted(c: Crypto, vals: seq<Validator>, s: State, d: set<Vote>, v: Vote)
    requires CountedDelivered(c, vals, s, d) && v in d && Eligible(c, vals, v)
    requires v.height < |s.blocks| && s.blocks[v.height] == v.hash
    ensures CountedDelivered(c, vals, Count(vals, s, v, VoterOf(c, v)).0, d)
  {
    hide Reached, Eligible;
    assert VoterOf(c, v) in VotersFor(c, vals, d, v.height, v.hash);
  }

  lemma {:induction false} TodoShrinks(c: Crypto, vals: seq<Validator>, v: Vote, todo: set<Vote>, h: nat, hash: Bytes)
    ensures VotersFor(c, vals, todo + {v}, h, hash)
         <= VotersFor(c, vals, todo, h, hash)
            + if Eligible(c, vals, v) && v.height == h && v.hash == hash then {VoterOf(c, v)} else {}
  {
    hide Eligible;
  }

  lemma CountKeepsAll(c: Crypto, vals: seq<Validator>, s: State, d: set<Vote>, v: Vote, todo: set<Vote>)
    requires AllCounted(c, vals, s, d, todo + {v})
    requires s.finalized < v.height < |s.blocks| && s.blocks[v.height] == v.hash
    ensures AllCounted(c, vals, Count(vals, s, v, VoterOf(c, v)).0, d, todo)
  {
    hide Reached, Eligible, VotersFor, VoterOf;
    var s' := Count(vals, s, v, VoterOf(c, v)).0;
    forall h | s'.finalized < h < |s'.blocks|
      ensures VotersFor(c, vals, d, h, s.blocks[h])
           <= CountedAt(s', h).Keys + VotersFor(c, vals, todo, h, s.blocks[h])
    {
      TodoShrinks(c, vals, v, todo, h, s.blocks[h]);
      assert CountedAt(s, h).Keys <= CountedAt(s', h).Keys;
      assert h == v.height ==> VoterOf(c, v) in CountedAt(s', h).Keys;
    }
  }

  /** A vote that changes nothing because it counts nowhere. */
  lemma SkipKeepsAll(c: Crypto, vals: seq<Validator>, s: State, d: set<Vote>, v: Vote, todo: set<Vote>)
    requires AllCounted(c, vals, s, d, todo + {v})
    requires !Eligible(c, vals, v) || v.height <= s.finalized || v.height >= |s.blocks| || s.blocks[v.height] != v.hash
    ensures AllCounted(c, vals, s, d, todo)
  {
    hide Eligible, VotersFor, VoterOf;
    forall h | s.finalized < h < |s.blocks|
      ensures VotersFor(c, vals, d, h, s.blocks[h])
           <= CountedAt(s, h).Keys + VotersFor(c, vals, todo, h, s.blocks[h])
    {
      TodoShrinks(c, vals, v, todo, h, s.blocks[h]);
    }
  }

  lemma CountKeepsSettled(c: Crypto, vals: seq<Validator>, s: State, d: set<Vote>, v: Vote)
    requires TotalStake(vals) * 3 <= U128_MAX
    requires CountedDelivered(c, vals, s, d) && Settled(c, vals, s, d) && v in d && Eligible(c, vals, v)
    requires s.finalized < v.height < |s.blocks| && s.blocks[v.height] == v.hash
    ensures Settled(c, vals, Count(vals, s, v, VoterOf(c, v)).0, d)
  {
    hide Quorum, Reached, Eligible, VotersFor;
    var voter, h := VoterOf(c, v), v.height;
    var s' := Count(vals, s, v, voter).0;
    ReachedIsQuorum(vals, CountedAt(s, h).Keys + {voter});
    CountKeepsCounted(c, vals, s, d, v);
    assert CountedAt(s', h).Keys == CountedAt(s, h).Keys + {voter};
    if s'.finalized == h {
      forall w | w in CountedAt(s', h)
        ensures w in VotersFor(c, vals, d, h, s.blocks[h])
      {
      }
      QuorumGrows(vals, CountedAt(s', h).Keys, VotersFor(c, vals, d, h, s.blocks[h]));
    }
    forall k | k > s'.finalized
      ensures !Quorum(vals, CountedAt(s', k).Keys)
    {
      assert k != h ==> CountedAt(s', k) == CountedAt(s, k);
    }
  }

  lemma CountKeepsBuffered(c: Crypto, vals: seq<Validator>, s: State, s': State, d: set<Vote>)
    requires Buffered(c, vals, s, d) && s'.pending == s.pending && s'.blocks == s.blocks
    ensures Buffered(c, vals, s', d)
  {
  }

  /** A delivered vote never conflicts with the counted one. */
  lemma NoConflict(c: Crypto, vals: seq<Validator>, s: State, d: set<Vote>, v: Vote, voter: Bytes)
    requires CountedDelivered(c, vals, s, d) && OneVoteEach(c, vals, d) && v in d
    requires VoteSigned(c, v) && Voter(c, v) == Some(voter) && voter in CountedAt(s, v.height)
    ensures CountedAt(s, v.height)[voter].hash == v.hash
  {
    hide VoteSigned, IsValidator;
    var h := v.height;
    assert voter in VotersFor(c, vals, d, h, s.blocks[h]);
    var u :| u in d && Eligible(c, vals, u) && u.height == h && u.hash == s.blocks[h] && VoterOf(c, u) == voter;
    assert SamePoint(c, u, v) && Eligible(c, vals, v);
  }

  lemma AddStored(c: Crypto, vals: seq<Validator>, s: State, d: set<Vote>, v: Vote, todo: set<Vote>)
    requires TotalStake(vals) * 3 <= U128_MAX
    requires Inv(c, vals, s, d, todo + {v}) && OneVoteEach(c, vals, d) && v in d && v.height < |s.blocks|
    ensures var s' := Add(c, vals, s, v).0;
            Inv(c, vals, s', d, todo) && s'.blocks == s.blocks
  {
    hide VoteSigned, IsValidator, Quorum, Reached, CountedDelivered, AllCounted, Buffered, Settled, OneVoteEach;
    var s' := Add(c, vals, s, v).0;
    if VoteSigned(c, v) && Voter(c, v).Some? && VoterOf(c, v) in CountedAt(s, v.height) {
      NoConflict(c, vals, s, d, v, VoterOf(c, v));
    }
    if Eligible(c, vals, v) && s.finalized < v.height && s.blocks[v.height] == v.hash {
      assert s' == Count(vals, s, v, VoterOf(c, v)).0;
      CountKeepsCounted(c, vals, s, d, v);
      CountKeepsAll(c, vals, s, d, v, todo);
      CountKeepsSettled(c, vals, s, d, v);
      CountKeepsBuffered(c, vals, s, s', d);
    } else {
      assert s' == s;
      SkipKeepsAll(c, vals, s, d, v, todo);
    }
  }

  lemma {:induction false} AddAllStored(c: Crypto, vals: seq<Validator>, s: State, d: set<Vote>, vs: seq<Vote>)
    requires TotalStake(vals) * 3 <= U128_MAX
    requires Inv(c, vals, s, d, VoteSet(vs)) && OneVoteEach(c, vals, d)
    requires forall v :: v in vs ==> v in d && v.height < |s.blocks|
    ensures var s' := AddAll(c, vals, s, vs);
            Inv(c, vals, s', d, {}) && s'.blocks == s.blocks
    decreases |vs|
  {
    hide Add, Inv, OneVoteEach;
    if vs == [] {
      assert VoteSet(vs) == {};
    } else {
      var rest := VoteSet(vs[1..]);
      assert VoteSet(vs) == rest + {vs[0]} by { assert vs == [vs[0]] + vs[1..]; }
      AddStored(c, vals, s, d, vs[0], rest);
      AddAllStored(c, vals, Add(c, vals, s, vs[0]).0, d, vs[1..]);
    }
  }

  // ---- delivering a vote ----

  lemma VotersOfMore(c: Crypto, vals: seq<Validator>, d: set<Vote>, v: Vote, h: nat, hash: Bytes)
    ensures VotersFor(c, vals, d + {v}, h, hash) == VotersFor(c, vals, d, h, hash) + VotersFor(c, vals, {v}, h, hash)
    ensures v.height != h ==> VotersFor(c, vals, {v}, h, hash) == {}
  {
    hide Eligible;
  }

  lemma DeliveredMore(c: Crypto, vals: seq<Validator>, s: State, d: set<Vote>, v: Vote)
    requires CountedDelivered(c, vals, s, d) && AllCounted(c, vals, s, d, {}) && Settled(c, vals, s, d)
    ensures CountedDelivered(c, vals, s, d + {v}) && AllCounted(c, vals, s, d + {v}, {v}) && Settled(c, vals, s, d + {v})
  {
    hide Eligible, VotersFor, Quorum, CountedAt;
    forall h: nat | h < |s.blocks|
      ensures VotersFor(c, vals, d, h, s.blocks[h]) <= VotersFor(c, vals, d + {v}, h, s.blocks[h])
      ensures VotersFor(c, vals, d + {v}, h, s.blocks[h])
           <= VotersFor(c, vals, d, h, s.blocks[h]) + VotersFor(c, vals, {v}, h, s.blocks[h])
      ensures VotersFor(c, vals, {}, h, s.blocks[h]) == {}
    {
      VotersOfMore(c, vals, d, v, h, s.blocks[h]);
      NoVoters(c, vals, h, s.blocks[h]);
    }
    if s.finalized > 0 {
      QuorumGrows(vals, VotersFor(c, vals, d, s.finalized, s.blocks[s.finalized]),
                  VotersFor(c, vals, d + {v}, s.finalized, s.blocks[s.finalized]));
    }
  }

  lemma DeliverStored(c: Crypto, vals: seq<Validator>, s: State, d: set<Vote>, v: Vote)
    requires TotalStake(vals) * 3 <= U128_MAX
    requires Inv(c, vals, s, d, {}) && OneVoteEach(c, vals, d + {v}) && v.height < |s.blocks|
    ensures var s' := Add(c, vals, s, v).0;
            Inv(c, vals, s', d + {v}, {}) && s'.blocks == s.blocks
  {
    hide Add, CountedDelivered, AllCounted, Settled, OneVoteEach, Eligible;
    DeliveredMore(c, vals, s, d, v);
    assert {} + {v} == {v};
    AddStored(c, vals, s, d + {v}, v, {});
  }

  lemma {:induction false} DistinctSlots(vs: seq<Vote>, d: set<Vote>)
    requires forall v :: v in vs ==> v in d
    requires OnePerSlot(vs)
    ensures |SlotsOf(vs)| == |vs| && SlotsOf(vs) <= Slots(d)
  {
    if vs != [] {
      var last := |vs| - 1;
      DistinctSlots(vs[..last], d);
      assert SlotsOf(vs) == SlotsOf(vs[..last]) + {(vs[last].height, vs[last].voterPubkey)};
      assert forall i :: 0 <= i < last ==> !SameSlot(vs[i], vs[last]);
      assert vs[last] in d;
    }
  }

  ghost function SlotsOf(vs: seq<Vote>): set<(nat, Bytes)> {
    set i | 0 <= i < |vs| :: (vs[i].height, vs[i].voterPubkey)
  }

  lemma SubsetSize<T>(a: set<T>, b: set<T>)
    requires a <= b
    ensures |a| <= |b|
  {
    if a != {} {
      var x :| x in a;
      SubsetSize(a - {x}, b - {x});
    }
  }

  /** With room for every slot ahead of the tip the buffer never evicts. */
  lemma RoomToBuffer(c: Crypto, vals: seq<Validator>, s: State, d: set<Vote>, v: Vote)
    requires Buffered(c, vals, s, d) && Ahead(c, vals, v, |s.blocks|) && !HasSlot(s.pending, v)
    requires |Slots(AheadOf(c, vals, d + {v}, |s.blocks|))| <= Cap(vals)
    ensures |s.pending| < Cap(vals) && OnePerSlot(s.pending + [v])
  {
    hide Cap, Ahead, Slots;
    var vs, ahead := s.pending + [v], AheadOf(c, vals, d + {v}, |s.blocks|);
    DistinctSlots(vs, ahead);
    SubsetSize(SlotsOf(vs), Slots(ahead));
  }

  lemma SlotsGrow(vs: seq<Vote>, v: Vote, w: Vote)
    requires HasSlot(vs, w) || w == v
    ensures HasSlot(vs + [v], w)
  {
    if w == v {
      assert (vs + [v])[|vs|] == v;
    } else {
      var i :| 0 <= i < |vs| && SameSlot(vs[i], w);
      assert (vs + [v])[i] == vs[i];
    }
  }

  lemma BufferKeeps(c: Crypto, vals: seq<Validator>, s: State, d: set<Vote>, v: Vote)
    requires Buffered(c, vals, s, d) && Ahead(c, vals, v, |s.blocks|)
    requires |Slots(AheadOf(c, vals, d + {v}, |s.blocks|))| <= Cap(vals)
    ensures var s' := Buffer(vals, s, v).0;
            Buffered(c, vals, s', d + {v}) && s' == s.(pending := s'.pending)
  {
    hide Cap, Ahead, AheadOf, Slots, SameSlot, OnePerSlot;
    if !HasSlot(s.pending, v) {
      RoomToBuffer(c, vals, s, d, v);
      forall w | w in d + {v} && Ahead(c, vals, w, |s.blocks|)
        ensures HasSlot(s.pending + [v], w)
      {
        SlotsGrow(s.pending, v, w);
      }
    }
  }

  lemma PoolRebuffers(c: Crypto, vals: seq<Validator>, s: State, s': State, d: set<Vote>, todo: set<Vote>)
    requires CountedDelivered(c, vals, s, d) && AllCounted(c, vals, s, d, todo) && Settled(c, vals, s, d)
    requires s' == s.(pending := s'.pending) && Buffered(c, vals, s', d)
    ensures Inv(c, vals, s', d, todo)
  {
    hide VotersFor, Buffered, Quorum;
    assert forall h :: CountedAt(s', h) == CountedAt(s, h);
  }

  lemma DeliverAhead(c: Crypto, vals: seq<Validator>, s: State, d: set<Vote>, v: Vote)
    requires Inv(c, vals, s, d, {}) && v.height >= |s.blocks|
    requires |Slots(AheadOf(c, vals, d + {v}, |s.blocks|))| <= Cap(vals)
    ensures var s' := Add(c, vals, s, v).0;
            Inv(c, vals, s', d + {v}, {}) && s'.blocks == s.blocks
  {
    hide VoteSigned, IsValidator, Quorum, Reached, AllCounted, Settled, VotersFor, AheadOf, Slots, Cap, Buffer,
         HasSlot, OnePerSlot;
    DeliveredMore(c, vals, s, d, v);
    assert {} + {v} == {v};
    SkipKeepsAll(c, vals, s, d + {v}, v, {});
    assert s.finalized < |s.blocks| by { TipAboveFinal(c, vals, s, d); }
    CountedBelowTip(c, vals, s, d, v.height);
    var s' := Add(c, vals, s, v).0;
    if Eligible(c, vals, v) {
      assert s' == Buffer(vals, s, v).0;
      BufferKeeps(c, vals, s, d, v);
    }
    PoolRebuffers(c, vals, s, s', d + {v}, {});
  }

  lemma TipAboveFinal(c: Crypto, vals: seq<Validator>, s: State, d: set<Vote>)
    requires Settled(c, vals, s, d)
    ensures s.finalized < |s.blocks|
  {
  }

  lemma CountedBelowTip(c: Crypto, vals: seq<Validator>, s: State, d: set<Vote>, h: nat)
    requires CountedDelivered(c, vals, s, d) && h >= |s.blocks|
    ensures CountedAt(s, h) == map[]
  {
  }

  // ---- a block arriving ----

  lemma {:induction false} AtHeightIs(vs: seq<Vote>, h: nat, v: Vote)
    ensures v in AtHeight(vs, h) <==> v in vs && v.height == h
  {
    if vs != [] {
      AtHeightIs(vs[..|vs| - 1], h, v);
      assert vs == vs[..|vs| - 1] + [vs[|vs| - 1]];
    }
  }

  lemma {:induction false} StillAheadIs(vs: seq<Vote>, h: nat, finalized: nat, v: Vote)
    ensures v in StillAhead(vs, h, finalized) <==> v in vs && v.height != h && v.height > finalized
  {
    if vs != [] {
      StillAheadIs(vs[..|vs| - 1], h, finalized, v);
      assert vs == vs[..|vs| - 1] + [vs[|vs| - 1]];
    }
  }

  lemma {:induction false} StillOnePerSlot(vs: seq<Vote>, h: nat, finalized: nat)
    requires OnePerSlot(vs)
    ensures OnePerSlot(StillAhead(vs, h, finalized))
  {
    if vs != [] {
      var last := |vs| - 1;
      var kept := StillAhead(vs[..last], h, finalized);
      StillOnePerSlot(vs[..last], h, finalized);
      forall i | 0 <= i < |kept|
        ensures !SameSlot(kept[i], vs[last])
      {
        StillAheadIs(vs[..last], h, finalized, kept[i]);
        var k :| 0 <= k < last && vs[k] == kept[i];
      }
    }
  }

  lemma SlotKept(vs: seq<Vote>, h: nat, finalized: nat, v: Vote)
    requires HasSlot(vs, v) && v.height != h && v.height > finalized
    ensures HasSlot(StillAhead(vs, h, finalized), v)
  {
    var i :| 0 <= i < |vs| && SameSlot(vs[i], v);
    StillAheadIs(vs, h, finalized, vs[i]);
    var j :| 0 <= j < |StillAhead(vs, h, finalized)| && StillAhead(vs, h, finalized)[j] == vs[i];
  }

  lemma ArriveBuffered(c: Crypto, vals: seq<Validator>, s: State, d: set<Vote>, s1: State)
    requires Buffered(c, vals, s, d) && s.finalized < |s.blocks| && |s1.blocks| == |s.blocks| + 1
    requires s1.pending == StillAhead(s.pending, |s.blocks|, s.finalized)
    ensures Buffered(c, vals, s1, d)
  {
    hide Eligible, HasSlot, OnePerSlot, StillAhead;
    var n := |s.blocks|;
    StillOnePerSlot(s.pending, n, s.finalized);
    forall v | v in s1.pending
      ensures v in d && Ahead(c, vals, v, n + 1)
    {
      StillAheadIs(s.pending, n, s.finalized, v);
    }
    forall v | v in d && Ahead(c, vals, v, n + 1)
      ensures HasSlot(s1.pending, v)
    {
      SlotKept(s.pending, n, s.finalized, v);
    }
  }

  /** Everyone who voted for the arriving block has a matching vote in the buffer. */
  lemma ReadyCoversVoters(c: Crypto, vals: seq<Validator>, s: State, d: set<Vote>, hash: Bytes)
    requires Buffered(c, vals, s, d) && OneVoteEach(c, vals, d)
    ensures var n := |s.blocks|;
            VotersFor(c, vals, d, n, hash) <= VotersFor(c, vals, VoteSet(AtHeight(s.pending, n)), n, hash)
  {
    hide VoteSigned, IsValidator;
    var n := |s.blocks|;
    forall w | w in VotersFor(c, vals, d, n, hash)
      ensures w in VotersFor(c, vals, VoteSet(AtHeight(s.pending, n)), n, hash)
    {
      var v :| v in d && Eligible(c, vals, v) && v.height == n && v.hash == hash && VoterOf(c, v) == w;
      assert Ahead(c, vals, v, n) && HasSlot(s.pending, v);
      var i :| 0 <= i < |s.pending| && SameSlot(s.pending[i], v);
      var u := s.pending[i];
      assert u in s.pending && u in d && SamePoint(c, u, v);
      AtHeightIs(s.pending, n, u);
    }
  }

  lemma ArriveCounts(c: Crypto, vals: seq<Validator>, s: State, d: set<Vote>, hash: Bytes, s1: State)
    requires Inv(c, vals, s, d, {}) && OneVoteEach(c, vals, d)
    requires s1.blocks == s.blocks + [hash] && s1.inner == s.inner && s1.finalized == s.finalized
    ensures CountedDelivered(c, vals, s1, d) && Settled(c, vals, s1, d)
    ensures AllCounted(c, vals, s1, d, VoteSet(AtHeight(s.pending, |s.blocks|)))
  {
    hide VotersFor, Quorum, Buffered, OneVoteEach;
    var n := |s.blocks|;
    assert forall h :: CountedAt(s1, h) == CountedAt(s, h);
    forall h | s1.finalized < h < |s1.blocks|
      ensures VotersFor(c, vals, d, h, s1.blocks[h])
           <= CountedAt(s1, h).Keys + VotersFor(c, vals, VoteSet(AtHeight(s.pending, n)), h, s1.blocks[h])
    {
      if h == n {
        ReadyCoversVoters(c, vals, s, d, hash);
      } else {
        NoVoters(c, vals, h, s.blocks[h]);
      }
    }
  }

  lemma ArriveStep(c: Crypto, vals: seq<Validator>, s: State, d: set<Vote>, hash: Bytes)
    requires TotalStake(vals) * 3 <= U128_MAX
    requires Inv(c, vals, s, d, {}) && OneVoteEach(c, vals, d)
    ensures var s' := Step(c, vals, s, Arrive(hash));
            Inv(c, vals, s', d, {}) && s'.blocks == s.blocks + [hash]
  {
    hide CountedDelivered, AllCounted, Settled, OneVoteEach, AddAll, HasSlot, OnePerSlot;
    var n := |s.blocks|;
    var ready := AtHeight(s.pending, n);
    var s1 := s.(blocks := s.blocks + [hash], pending := StillAhead(s.pending, n, s.finalized));
    TipAboveFinal(c, vals, s, d);
    ArriveBuffered(c, vals, s, d, s1);
    ArriveCounts(c, vals, s, d, hash, s1);
    forall v | v in ready
      ensures v in d && v.height < |s1.blocks|
    {
      AtHeightIs(s.pending, n, v);
    }
    AddAllStored(c, vals, s1, d, ready);
  }

  // ---- whole runs ----

  lemma DeliveredSnoc(events: seq<Event>)
    requires events != []
    ensures var last := |events| - 1;
            Delivered(events) == Delivered(events[..last]) + if events[last].Deliver? then {events[last].vote} else {}
  {
    assert events == events[..|events| - 1] + [events[|events| - 1]];
  }

  /** At no point of the run do the slots voted ahead of the tip exceed the buffer. */
  ghost predicate HasRoom(c: Crypto, vals: seq<Validator>, events: seq<Event>) {
    forall n :: 0 <= n <= |events| ==> RoomAfter(c, vals, events[..n])
  }

  ghost predicate RoomAfter(c: Crypto, vals: seq<Validator>, events: seq<Event>) {
    |Slots(AheadOf(c, vals, Delivered(events), 1 + |Arrivals(events)|))| <= Cap(vals)
  }

  lemma RoomBefore(c: Crypto, vals: seq<Validator>, events: seq<Event>)
    requires HasRoom(c, vals, events)
    ensures RoomAfter(c, vals, events) && (events != [] ==> HasRoom(c, vals, events[..|events| - 1]))
  {
    hide RoomAfter;
    assert events[..|events|] == events;
    if events != [] {
      var before := events[..|events| - 1];
      forall n | 0 <= n <= |before|
        ensures RoomAfter(c, vals, before[..n])
      {
        assert before[..n] == events[..n];
      }
    }
  }

  lemma {:induction false} RunKeepsInv(c: Crypto, vals: seq<Validator>, genesis: Bytes, events: seq<Event>)
    requires TotalStake(vals) * 3 <= U128_MAX
    requires OneVoteEach(c, vals, Delivered(events)) && HasRoom(c, vals, events)
    ensures var s := Run(c, vals, Start(genesis), events);
            Inv(c, vals, s, Delivered(events), {}) && s.blocks == [genesis] + Arrivals(events)
  {
    hide Step, Inv, Cap, Slots, AheadOf, Delivered, HasRoom;
    if events == [] {
      StartInv(c, vals, genesis);
    } else {
      var last := |events| - 1;
      var before, e := events[..last], events[last];
      DeliveredSnoc(events);
      var d := Delivered(before);
      RoomBefore(c, vals, events);
      RunKeepsInv(c, vals, genesis, before);
      var s := Run(c, vals, Start(genesis), before);
      match e
      case Arrive(hash) =>
        assert Delivered(events) == d;
        ArriveStep(c, vals, s, d, hash);
        assert [genesis] + Arrivals(events) == [genesis] + Arrivals(before) + [hash];
      case Deliver(v) =>
        assert Arrivals(events) == Arrivals(before);
        DeliverStep(c, vals, s, d, v);
    }
  }

  lemma DeliverStep(c: Crypto, vals: seq<Validator>, s: State, d: set<Vote>, v: Vote)
    requires TotalStake(vals) * 3 <= U128_MAX
    requires Inv(c, vals, s, d, {}) && OneVoteEach(c, vals, d + {v})
    requires |Slots(AheadOf(c, vals, d + {v}, |s.blocks|))| <= Cap(vals)
    ensures var s' := Step(c, vals, s, Deliver(v));
            Inv(c, vals, s', d + {v}, {}) && s'.blocks == s.blocks
  {
    hide Inv, Add, OneVoteEach, AheadOf, Slots, Cap;
    if v.height < |s.blocks| {
      DeliverStored(c, vals, s, d, v);
    } else {
      DeliverAhead(c, vals, s, d, v);
    }
  }

  lemma StartInv(c: Crypto, vals: seq<Validator>, genesis: Bytes)
    ensures Inv(c, vals, Start(genesis), Delivered([]), {})
  {
    hide Eligible;
    NobodyStakes(vals);
    var none: map<Bytes, Vote> := map[];
    assert none.Keys == {};
  }

  lemma {:induction false} NobodyStakes(vals: seq<Validator>)
    ensures StakeOf(vals, {}) == 0
  {
    if vals != [] {
      NobodyStakes(vals[..|vals| - 1]);
    }
  }

  /** For a fixed validator set, three times whose stake fits in 128 bits, whose members
      vote once per height, and a buffer never asked to hold more than its cap: whatever
      the order of deliveries, duplicates and block arrivals, the finalized height is the
      greatest stored height whose delivered votes exceed two thirds of the stake, or zero. */
  lemma FinalizedIsGreatestDecided(c: Crypto, vals: seq<Validator>, genesis: Bytes, events: seq<Event>)
    requires TotalStake(vals) * 3 <= U128_MAX
    requires OneVoteEach(c, vals, Delivered(events)) && HasRoom(c, vals, events)
    ensures var s, d, blocks := Run(c, vals, Start(genesis), events), Delivered(events), [genesis] + Arrivals(events);
            && s.blocks == blocks && s.finalized < |blocks|
            && (s.finalized > 0 ==> Decided(c, vals, d, blocks, s.finalized))
            && forall h :: s.finalized < h < |blocks| ==> !Decided(c, vals, d, blocks, h)
  {
    hide Run, Inv, Decided, OneVoteEach, HasRoom;
    RunKeepsInv(c, vals, genesis, events);
    SettledIsGreatest(c, vals, Run(c, vals, Start(genesis), events), Delivered(events));
  }

  /** Two nodes that saw the same votes and blocks, in any order, agree on finality. */
  lemma Converge(c: Crypto, vals: seq<Validator>, genesis: Bytes, xs: seq<Event>, ys: seq<Event>)
    requires TotalStake(vals) * 3 <= U128_MAX
    requires Delivered(xs) == Delivered(ys) && Arrivals(xs) == Arrivals(ys)
    requires OneVoteEach(c, vals, Delivered(xs)) && HasRoom(c, vals, xs) && HasRoom(c, vals, ys)
    ensures Run(c, vals, Start(genesis), xs).finalized == Run(c, vals, Start(genesis), ys).finalized
  {
    hide Run, Decided, OneVoteEach, HasRoom;
    FinalizedIsGreatestDecided(c, vals, genesis, xs);
    FinalizedIsGreatestDecided(c, vals, genesis, ys);
  }
}
