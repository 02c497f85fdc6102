/** The transaction pool (src/mempool.rs): exact indexes, fee-ordered batches that
    keep each sender's nonces in order, and eviction that leaves no nonce gap. */
module Mempool {
  import opened Base
  import opened Types

  datatype PoolTx = PoolTx(tx: Transaction, hash: Bytes, sender: Bytes, arrival: nat)

  // ---- exact indexes ----

  function HashesOf(es: seq<PoolTx>): set<Bytes> {
    set e | e in es :: e.hash
  }

  function ArrivalsOf(es: seq<PoolTx>): set<nat> {
    set e | e in es :: e.arrival
  }

  function CountOf(es: seq<PoolTx>, sender: Bytes): nat {
    if es == [] then 0 else
      var last := |es| - 1;
      CountOf(es[..last], sender) + if es[last].sender == sender then 1 else 0
  }

  lemma {:induction false} CountSplits(a: seq<PoolTx>, b: seq<PoolTx>, sender: Bytes)
    ensures CountOf(a + b, sender) == CountOf(a, sender) + CountOf(b, sender)
  {
    if b == [] {
      assert a + b == a;
    } else {
      var last := |b| - 1;
      assert (a + b)[..|a + b| - 1] == a + b[..last];
      CountSplits(a, b[..last], sender);
    }
  }

  /** The hash set and the per-sender counters say exactly what is queued, and no
      hash or arrival number is queued twice. */
  ghost predicate Exact(es: seq<PoolTx>, hashes: set<Bytes>, perSender: map<Bytes, nat>) {
    && hashes == HashesOf(es) && |hashes| == |es| && |ArrivalsOf(es)| == |es|
    && (forall s :: s in perSender <==> CountOf(es, s) > 0)
    && (forall s :: s in perSender ==> perSender[s] == CountOf(es, s))
  }

  function Decremented(perSender: map<Bytes, nat>, sender: Bytes): map<Bytes, nat> {
    if sender !in perSender then perSender
    else if perSender[sender] <= 1 then perSender - {sender}
    else perSender[sender := perSender[sender] - 1]
  }

  lemma {:induction false} DistinctBound(es: seq<PoolTx>)
    ensures |HashesOf(es)| <= |es| && |ArrivalsOf(es)| <= |es|
  {
    if es != [] {
      var last := |es| - 1;
      DistinctBound(es[..last]);
      assert es == es[..last] + [es[last]];
      assert HashesOf(es) == HashesOf(es[..last]) + {es[last].hash};
      assert ArrivalsOf(es) == ArrivalsOf(es[..last]) + {es[last].arrival};
    }
  }

  lemma SplitSets(a: seq<PoolTx>, e: PoolTx, b: seq<PoolTx>)
    ensures HashesOf(a + [e] + b) == HashesOf(a + b) + {e.hash}
    ensures ArrivalsOf(a + [e] + b) == ArrivalsOf(a + b) + {e.arrival}
  {
    assert forall x :: x in a + [e] + b <==> x in a + b || x == e;
  }

  /** Dropping one entry and its index records keeps the indexes exact. */
  lemma DropKeepsExact(a: seq<PoolTx>, e: PoolTx, b: seq<PoolTx>, hashes: set<Bytes>, perSender: map<Bytes, nat>)
    requires Exact(a + [e] + b, hashes, perSender)
    ensures Exact(a + b, hashes - {e.hash}, Decremented(perSender, e.sender))
  {
    hide HashesOf, ArrivalsOf, CountOf;
    SplitSets(a, e, b);
    DistinctBound(a + b);
    forall s
      ensures CountOf(a + [e] + b, s) == CountOf(a + b, s) + if e.sender == s then 1 else 0
    {
      CountAround(a, e, b, s);
    }
    assert |HashesOf(a + b) + {e.hash}| == |a + b| + 1;
    assert |ArrivalsOf(a + b) + {e.arrival}| == |a + b| + 1;
    assert e.hash in HashesOf(a + b) ==> HashesOf(a + b) + {e.hash} == HashesOf(a + b);
    assert e.arrival in ArrivalsOf(a + b) ==> ArrivalsOf(a + b) + {e.arrival} == ArrivalsOf(a + b);
    assert hashes - {e.hash} == HashesOf(a + b);
  }

  lemma CountAround(a: seq<PoolTx>, e: PoolTx, b: seq<PoolTx>, s: Bytes)
    ensures CountOf(a + [e] + b, s) == CountOf(a + b, s) + if e.sender == s then 1 else 0
  {
    CountSplits(a + [e], b, s);
    CountSplits(a, [e], s);
    CountSplits(a, b, s);
    assert [e][..0] == [];
  }

  /** The indexes do not depend on storage order. */
  lemma SwapKeepsExact(a: seq<PoolTx>, b: seq<PoolTx>, e: PoolTx, hashes: set<Bytes>, perSender: map<Bytes, nat>)
    requires Exact(a + (b + [e]), hashes, perSender)
    ensures Exact(a + [e] + b, hashes, perSender)
  {
    hide CountOf;
    assert forall x :: x in a + [e] + b <==> x in a + (b + [e]);
    assert HashesOf(a + [e] + b) == HashesOf(a + (b + [e])) && ArrivalsOf(a + [e] + b) == ArrivalsOf(a + (b + [e]));
    forall s
      ensures CountOf(a + [e] + b, s) == CountOf(a + (b + [e]), s)
    {
      CountAround(a, e, b, s);
      CountSplits(a, b + [e], s);
      CountSplits(a, b, s);
      CountSplits(b, [e], s);
      OneCounts(e, s);
    }
  }

  lemma OneCounts(e: PoolTx, s: Bytes)
    ensures CountOf([e], s) == if e.sender == s then 1 else 0
  {
    assert [e][..0] == [];
  }

  lemma AddKeepsExact(es: seq<PoolTx>, e: PoolTx, hashes: set<Bytes>, perSender: map<Bytes, nat>, perSender': map<Bytes, nat>)
    requires Exact(es, hashes, perSender) && e.hash !in hashes && e.arrival !in ArrivalsOf(es)
    requires perSender' == perSender[e.sender := (if e.sender in perSender then perSender[e.sender] else 0) + 1]
    ensures Exact(es + [e], hashes + {e.hash}, perSender') && ArrivalsOf(es + [e]) == ArrivalsOf(es) + {e.arrival}
  {
    hide CountOf;
    SplitSets(es, e, []);
    assert es + [e] + [] == es + [e] && es + [] == es;
    forall s
      ensures CountOf(es + [e], s) == CountOf(es, s) + if e.sender == s then 1 else 0
    {
      CountAround(es, e, [], s);
    }
  }

  // ---- which entry pays better ----

  predicate Better(es: seq<PoolTx>, i: nat, j: nat)
    requires i < |es| && j < |es|
  {
    var x, y := es[i], es[j];
    x.tx.fee > y.tx.fee || (x.tx.fee == y.tx.fee &&
      (x.tx.nonce < y.tx.nonce || (x.tx.nonce == y.tx.nonce && x.arrival < y.arrival)))
  }

  ghost predicate InRange(es: seq<PoolTx>, xs: seq<nat>) {
    forall a :: 0 <= a < |xs| ==> xs[a] < |es|
  }

  /** Highest fee first, then lowest nonce, then oldest. */
  ghost predicate ByFee(es: seq<PoolTx>, order: seq<nat>)
    requires InRange(es, order)
  {
    forall a, b :: 0 <= a < b < |order| ==> Better(es, order[a], order[b])
  }

  lemma {:induction false} DistinctArrivals(es: seq<PoolTx>, i: nat, j: nat)
    requires |ArrivalsOf(es)| == |es| && i < j < |es|
    ensures es[i].arrival != es[j].arrival
  {
    var last := |es| - 1;
    assert es == es[..last] + [es[last]];
    assert ArrivalsOf(es) == ArrivalsOf(es[..last]) + {es[last].arrival};
    DistinctBound(es[..last]);
    var head, x := ArrivalsOf(es[..last]), es[last].arrival;
    assert x in head ==> head + {x} == head;
    if j < last {
      DistinctArrivals(es[..last], i, j);
    } else {
      assert es[i] in es[..last];
    }
  }

  lemma BetterTotal(es: seq<PoolTx>, i: nat, j: nat)
    requires |ArrivalsOf(es)| == |es| && i < |es| && j < |es| && i != j
    ensures Better(es, i, j) != Better(es, j, i)
  {
    if i < j {
      DistinctArrivals(es, i, j);
    } else {
      DistinctArrivals(es, j, i);
    }
  }

  lemma BetterTransitive(es: seq<PoolTx>, i: nat, j: nat, k: nat)
    requires i < |es| && j < |es| && k < |es| && Better(es, i, j) && Better(es, j, k)
    ensures Better(es, i, k)
  {
  }

  lemma InsertByFee(es: seq<PoolTx>, order: seq<nat>, n: nat, p: nat)
    requires InRange(es, order) && ByFee(es, order) && n < |es| && n !in order && p <= |order| && |ArrivalsOf(es)| == |es|
    requires forall a :: 0 <= a < p ==> Better(es, order[a], n)
    requires p < |order| ==> !Better(es, order[p], n)
    ensures InRange(es, order[..p] + [n] + order[p..]) && ByFee(es, order[..p] + [n] + order[p..])
  {
    hide Better;
    forall a | p <= a < |order|
      ensures Better(es, n, order[a])
    {
      BetterTotal(es, order[p], n);
      if p < a {
        BetterTransitive(es, n, order[p], order[a]);
      }
    }
  }

  method SortByFee(es: seq<PoolTx>) returns (order: seq<nat>)
    requires |ArrivalsOf(es)| == |es|
    ensures InRange(es, order) && ByFee(es, order) && forall i :: 0 <= i < |es| ==> i in order
  {
    hide Better, ArrivalsOf;
    order := [];
    for n := 0 to |es|
      invariant InRange(es, order) && ByFee(es, order)
      invariant forall i :: i in order <==> 0 <= i < n
    {
      var p := 0;
      while p < |order| && Better(es, order[p], n)
        invariant 0 <= p <= |order| && forall a :: 0 <= a < p ==> Better(es, order[a], n)
      {
        p := p + 1;
      }
      InsertByFee(es, order, n, p);
      ghost var before := order;
      order := order[..p] + [n] + order[p..];
      assert before == before[..p] + before[p..];
      assert forall i :: i in order <==> i in before || i == n;
    }
  }

  // ---- nonce runs ----

  /** The nonce that continues the sender's run, once it has started. */
  function Next(es: seq<PoolTx>, chosen: seq<nat>, sender: Bytes): Option<nat>
    requires forall a :: 0 <= a < |chosen| ==> chosen[a] < |es|
  {
    if chosen == [] then None else
      var last := |chosen| - 1;
      var e := es[chosen[last]];
      if e.sender == sender then Some(e.tx.nonce + 1) else Next(es, chosen[..last], sender)
  }

  /** `i` is its sender's best-paying entry. */
  ghost predicate BestOfSender(es: seq<PoolTx>, i: nat)
    requires i < |es|
  {
    forall j: nat :: j < |es| && j != i && es[j].sender == es[i].sender ==> Better(es, i, j)
  }

  /** `i` may be taken after `chosen`: it starts its sender's run with the best-paying
      entry, or continues it with the next nonce. */
  ghost predicate MayFollow(es: seq<PoolTx>, chosen: seq<nat>, i: nat)
    requires InRange(es, chosen) && i < |es|
  {
    match Next(es, chosen, es[i].sender)
    case None => BestOfSender(es, i)
    case Some(n) => es[i].tx.nonce == n
  }

  ghost predicate Runs(es: seq<PoolTx>, chosen: seq<nat>)
    requires InRange(es, chosen)
  {
    forall k :: 0 <= k < |chosen| ==> MayFollow(es, chosen[..k], chosen[k])
  }

  /** Nothing left out could be taken next. */
  ghost predicate Exhausted(es: seq<PoolTx>, chosen: seq<nat>, i: nat)
    requires InRange(es, chosen) && i < |es|
  {
    Next(es, chosen, es[i].sender).Some? && Next(es, chosen, es[i].sender) != Some(es[i].tx.nonce)
  }

  ghost predicate NoRepeats(xs: seq<nat>) {
    forall a, b :: 0 <= a < b < |xs| ==> xs[a] != xs[b]
  }

  /** A sender with nothing in the batch is outbid by every entry of it. */
  ghost predicate Outbids(es: seq<PoolTx>, chosen: seq<nat>)
    requires InRange(es, chosen)
  {
    forall i: nat, k :: i < |es| && 0 <= k < |chosen| && Next(es, chosen, es[i].sender).None? ==> Better(es, chosen[k], i)
  }

  /** Highest fee first: so it is at every point of the batch. */
  ghost predicate FeeFirst(es: seq<PoolTx>, chosen: seq<nat>)
    requires InRange(es, chosen)
  {
    forall n :: 0 <= n <= |chosen| ==> Outbids(es, chosen[..n])
  }

  lemma FeeFirstNow(es: seq<PoolTx>, chosen: seq<nat>)
    requires InRange(es, chosen) && FeeFirst(es, chosen)
    ensures Outbids(es, chosen)
  {
    hide Outbids;
    assert chosen[..|chosen|] == chosen;
  }

  lemma FeeFirstSnoc(es: seq<PoolTx>, chosen: seq<nat>, i: nat)
    requires InRange(es, chosen) && FeeFirst(es, chosen) && i < |es|
    requires InRange(es, chosen + [i]) && Outbids(es, chosen + [i])
    ensures FeeFirst(es, chosen + [i])
  {
    hide Outbids;
    var more := chosen + [i];
    forall n | 0 <= n <= |more|
      ensures Outbids(es, more[..n])
    {
      assert more[..n] == if n <= |chosen| then chosen[..n] else more;
    }
  }

  lemma NextSnoc(es: seq<PoolTx>, chosen: seq<nat>, i: nat, sender: Bytes)
    requires InRange(es, chosen) && i < |es|
    ensures InRange(es, chosen + [i])
    ensures Next(es, chosen + [i], sender)
         == if es[i].sender == sender then Some(es[i].tx.nonce + 1) else Next(es, chosen, sender)
  {
    assert (chosen + [i])[..|chosen|] == chosen;
  }

  lemma {:induction false} NextNone(es: seq<PoolTx>, chosen: seq<nat>, sender: Bytes, a: nat)
    requires InRange(es, chosen) && a < |chosen| && es[chosen[a]].sender == sender
    ensures Next(es, chosen, sender).Some?
  {
    var last := |chosen| - 1;
    if a < last {
      NextNone(es, chosen[..last], sender, a);
    }
  }

  lemma RunsSnoc(es: seq<PoolTx>, chosen: seq<nat>, i: nat)
    requires InRange(es, chosen) && Runs(es, chosen) && i < |es| && MayFollow(es, chosen, i)
    ensures InRange(es, chosen + [i]) && Runs(es, chosen + [i])
  {
    hide MayFollow;
    var more := chosen + [i];
    forall k | 0 <= k < |more|
      ensures MayFollow(es, more[..k], more[k])
    {
      assert more[..k] == chosen[..k];
      assert k == |chosen| ==> chosen[..k] == chosen;
    }
  }

  // ---- selecting a batch ----

  ghost predicate Tracked(es: seq<PoolTx>, chosen: seq<nat>, nextOk: map<Bytes, nat>)
    requires InRange(es, chosen)
  {
    forall s :: Next(es, chosen, s) == if s in nextOk then Some(nextOk[s]) else None
  }

  /** A well-formed selection: runs only, no entry twice, the map in step. */
  ghost predicate Selection(es: seq<PoolTx>, chosen: seq<nat>, nextOk: map<Bytes, nat>) {
    InRange(es, chosen) && NoRepeats(chosen) && Runs(es, chosen) && Tracked(es, chosen, nextOk)
  }

  lemma TakeKeepsSelection(es: seq<PoolTx>, chosen: seq<nat>, nextOk: map<Bytes, nat>, i: nat)
    requires Selection(es, chosen, nextOk) && i < |es| && i !in chosen && MayFollow(es, chosen, i)
    ensures Selection(es, chosen + [i], nextOk[es[i].sender := es[i].tx.nonce + 1])
  {
    hide MayFollow, Next;
    RunsSnoc(es, chosen, i);
    forall s
      ensures Next(es, chosen + [i], s) == if es[i].sender == s then Some(es[i].tx.nonce + 1) else Next(es, chosen, s)
    {
      NextSnoc(es, chosen, i, s);
    }
  }

  /** Entries whose sender has no run yet all lie ahead. */
  ghost predicate Passed(es: seq<PoolTx>, chosen: seq<nat>, still: seq<nat>, deferred: bool)
    requires InRange(es, chosen) && InRange(es, still)
  {
    forall a :: 0 <= a < |still| ==>
      && Next(es, chosen, es[still[a]].sender).Some?
      && (deferred || Exhausted(es, chosen, still[a]))
  }

  ghost predicate Covers(es: seq<PoolTx>, chosen: seq<nat>, rest: seq<nat>) {
    && (forall i: nat :: i < |es| ==> i in chosen || i in rest)
    && (forall i :: i in rest ==> i !in chosen)
    && NoRepeats(rest)
  }

  /** The first remaining entry of a sender with no run is that sender's best. */
  lemma FirstIsBest(es: seq<PoolTx>, chosen: seq<nat>, still: seq<nat>, rest: seq<nat>, deferred: bool)
    requires InRange(es, chosen) && InRange(es, still) && InRange(es, rest) && rest != []
    requires Covers(es, chosen, still + rest) && ByFee(es, rest) && Passed(es, chosen, still, deferred)
    requires Next(es, chosen, es[rest[0]].sender).None?
    ensures BestOfSender(es, rest[0])
  {
    hide Next, Better;
    var i := rest[0];
    forall j: nat | j < |es| && j != i && es[j].sender == es[i].sender
      ensures Better(es, i, j)
    {
      forall a | 0 <= a < |chosen|
        ensures chosen[a] != j
      {
        if chosen[a] == j {
          NextNone(es, chosen, es[j].sender, a);
        }
      }
      assert j !in still;
      assert j in still + rest;
      var b :| 0 <= b < |rest| && rest[b] == j;
    }
  }

  ghost predicate PassInv(es: seq<PoolTx>, chosen: seq<nat>, nextOk: map<Bytes, nat>, still: seq<nat>, rest: seq<nat>,
                          deferred: bool, max: nat)
  {
    && Selection(es, chosen, nextOk) && |chosen| <= max
    && InRange(es, still) && InRange(es, rest)
    && InRange(es, still + rest) && Covers(es, chosen, still + rest) && ByFee(es, still + rest)
    && (|chosen| < max ==> Passed(es, chosen, still, deferred))
    && FeeFirst(es, chosen)
  }

  lemma MoveOn(still: seq<nat>, rest: seq<nat>)
    requires rest != []
    ensures (still + [rest[0]]) + rest[1..] == still + rest
  {
  }

  lemma SkipStep(es: seq<PoolTx>, chosen: seq<nat>, nextOk: map<Bytes, nat>, still: seq<nat>, rest: seq<nat>,
                 deferred: bool, max: nat)
    requires PassInv(es, chosen, nextOk, still, rest, deferred, max) && rest != []
    requires |chosen| < max ==> rest[0] < |es| && Exhausted(es, chosen, rest[0])
    ensures PassInv(es, chosen, nextOk, still + [rest[0]], rest[1..], deferred, max)
  {
    hide Selection, Covers, ByFee, Next;
    MoveOn(still, rest);
  }

  lemma DropFirst(es: seq<PoolTx>, chosen: seq<nat>, still: seq<nat>, rest: seq<nat>)
    requires InRange(es, still + rest) && rest != [] && Covers(es, chosen, still + rest) && ByFee(es, still + rest)
    ensures InRange(es, still + rest[1..]) && ByFee(es, still + rest[1..]) && Covers(es, chosen + [rest[0]], still + rest[1..])
  {
    hide Better;
    var all, left := still + rest, still + rest[1..];
    forall a | 0 <= a < |left|
      ensures left[a] == all[if a < |still| then a else a + 1]
    {
    }
    assert all[|still|] == rest[0];
    forall i: nat | i < |es|
      ensures i in chosen + [rest[0]] || i in left
    {
      assert i in chosen || i in all;
      if i in all && i != rest[0] {
        var b :| 0 <= b < |all| && all[b] == i;
        assert left[if b < |still| then b else b - 1] == i;
      }
    }
    forall i | i in left
      ensures i !in chosen + [rest[0]]
    {
      var a :| 0 <= a < |left| && left[a] == i;
      assert i in all;
    }
  }

  /** Whoever has nothing yet lies behind the entry taken now. */
  lemma TakeOutbids(es: seq<PoolTx>, chosen: seq<nat>, still: seq<nat>, rest: seq<nat>, deferred: bool)
    requires InRange(es, chosen) && InRange(es, still) && InRange(es, rest) && rest != []
    requires Covers(es, chosen, still + rest) && ByFee(es, rest) && Passed(es, chosen, still, deferred)
    requires Outbids(es, chosen)
    ensures InRange(es, chosen + [rest[0]]) && Outbids(es, chosen + [rest[0]])
  {
    hide Next, Better;
    var more := chosen + [rest[0]];
    forall i: nat, k | i < |es| && 0 <= k < |more| && Next(es, more, es[i].sender).None?
      ensures Better(es, more[k], i)
    {
      NextSnoc(es, chosen, rest[0], es[i].sender);
      forall a | 0 <= a < |chosen|
        ensures chosen[a] != i
      {
        if chosen[a] == i {
          NextNone(es, chosen, es[i].sender, a);
        }
      }
      assert i !in still;
      assert i in still + rest;
      var b :| 0 <= b < |rest| && rest[b] == i;
    }
  }

  lemma TakeStep(es: seq<PoolTx>, chosen: seq<nat>, nextOk: map<Bytes, nat>, still: seq<nat>, rest: seq<nat>,
                 deferred: bool, max: nat, starts: bool)
    requires PassInv(es, chosen, nextOk, still, rest, deferred, max) && rest != [] && |chosen| < max && rest[0] < |es|
    requires Next(es, chosen, es[rest[0]].sender) == if starts then None else Some(es[rest[0]].tx.nonce)
    ensures var i := rest[0];
            PassInv(es, chosen + [i], nextOk[es[i].sender := es[i].tx.nonce + 1], still, rest[1..], deferred || !starts, max)
  {
    hide Next, Better, ByFee, Runs, Outbids, FeeFirst;
    var i := rest[0];
    assert ByFee(es, rest) by { TailByFee(es, still, rest); }
    if starts {
      FirstIsBest(es, chosen, still, rest, deferred);
    }
    assert i !in chosen by { assert i in still + rest; }
    TakeKeepsSelection(es, chosen, nextOk, i);
    FeeFirstNow(es, chosen);
    TakeOutbids(es, chosen, still, rest, deferred);
    FeeFirstSnoc(es, chosen, i);
    DropFirst(es, chosen, still, rest);
    forall a | 0 <= a < |still|
      ensures Next(es, chosen + [i], es[still[a]].sender).Some?
      ensures starts ==> Next(es, chosen + [i], es[still[a]].sender) == Next(es, chosen, es[still[a]].sender)
    {
      NextSnoc(es, chosen, i, es[still[a]].sender);
    }
  }

  lemma TailByFee(es: seq<PoolTx>, still: seq<nat>, rest: seq<nat>)
    requires InRange(es, still + rest) && InRange(es, rest) && ByFee(es, still + rest)
    ensures ByFee(es, rest)
  {
    hide Better;
    forall a, b | 0 <= a < b < |rest|
      ensures Better(es, rest[a], rest[b])
    {
      assert (still + rest)[|still| + a] == rest[a] && (still + rest)[|still| + b] == rest[b];
    }
  }

  /** One pass over the remaining entries in fee order. */
  method OnePass(es: seq<PoolTx>, taken: seq<nat>, before: map<Bytes, nat>, remaining: seq<nat>, max: nat)
    returns (chosen: seq<nat>, nextOk: map<Bytes, nat>, still: seq<nat>, deferred: bool)
    requires PassInv(es, taken, before, [], remaining, false, max)
    ensures PassInv(es, chosen, nextOk, still, [], deferred, max)
    ensures |taken| <= |chosen| && (deferred ==> |taken| < |chosen|)
  {
    hide PassInv, Next;
    chosen, nextOk, still, deferred := taken, before, [], false;
    assert remaining[0..] == remaining;
    for p := 0 to |remaining|
      invariant PassInv(es, chosen, nextOk, still, remaining[p..], deferred, max)
      invariant |taken| <= |chosen| && (deferred ==> |taken| < |chosen|)
    {
      var i, rest := remaining[p], remaining[p..];
      assert rest[1..] == remaining[p + 1..];
      PassFacts(es, chosen, nextOk, still, rest, deferred, max);
      if |chosen| >= max {
        SkipStep(es, chosen, nextOk, still, rest, deferred, max);
        still := still + [i];
      } else {
        var e := es[i];
        if e.sender !in nextOk {
          TakeStep(es, chosen, nextOk, still, rest, deferred, max, true);
          nextOk := nextOk[e.sender := e.tx.nonce + 1];
          chosen := chosen + [i];
        } else if nextOk[e.sender] == e.tx.nonce {
          TakeStep(es, chosen, nextOk, still, rest, deferred, max, false);
          nextOk := nextOk[e.sender := e.tx.nonce + 1];
          chosen := chosen + [i];
          deferred := true;
        } else {
          SkipStep(es, chosen, nextOk, still, rest, deferred, max);
          still := still + [i];
        }
      }
    }
  }

  lemma PassFacts(es: seq<PoolTx>, chosen: seq<nat>, nextOk: map<Bytes, nat>, still: seq<nat>, rest: seq<nat>,
                  deferred: bool, max: nat)
    requires PassInv(es, chosen, nextOk, still, rest, deferred, max) && rest != []
    ensures InRange(es, chosen) && |chosen| <= max && rest[0] < |es|
    ensures var e := es[rest[0]];
            Next(es, chosen, e.sender) == if e.sender in nextOk then Some(nextOk[e.sender]) else None
  {
  }

  /** Which entries the next block gets, in order: per sender consecutive nonces from its
      best-paying entry, senders by what that entry pays; and fewer than `max` only if nothing left continues a run. */
  method Select(es: seq<PoolTx>, max: nat) returns (chosen: seq<nat>)
    requires |ArrivalsOf(es)| == |es|
    ensures InRange(es, chosen) && NoRepeats(chosen) && |chosen| <= max && Runs(es, chosen) && FeeFirst(es, chosen)
    ensures |chosen| < max ==> forall i: nat :: i < |es| && i !in chosen ==> Exhausted(es, chosen, i)
  {
    hide PassInv, ByFee, Better, Next;
    var order := SortByFee(es);
    var nextOk: map<Bytes, nat>, deferred, remaining := map[], true, order;
    chosen := [];
    StartSelecting(es, order, max);
    while deferred && |chosen| < max
      invariant PassInv(es, chosen, nextOk, [], remaining, false, max) && |chosen| <= max
      invariant !deferred && |chosen| < max ==> AllExhausted(es, chosen, remaining)
      decreases max - |chosen|, deferred
    {
      var still;
      chosen, nextOk, still, deferred := OnePass(es, chosen, nextOk, remaining, max);
      Restart(es, chosen, nextOk, still, deferred, max);
      remaining := still;
    }
    Stopped(es, chosen, nextOk, remaining, max);
  }

  ghost predicate AllExhausted(es: seq<PoolTx>, chosen: seq<nat>, rest: seq<nat>) {
    InRange(es, chosen) && InRange(es, rest) && forall a :: 0 <= a < |rest| ==> Exhausted(es, chosen, rest[a])
  }

  lemma StartSelecting(es: seq<PoolTx>, order: seq<nat>, max: nat)
    requires InRange(es, order) && ByFee(es, order) && forall i :: 0 <= i < |es| ==> i in order
    ensures PassInv(es, [], map[], [], order, false, max)
  {
    assert [] + order == order;
    forall a, b | 0 <= a < b < |order|
      ensures order[a] != order[b]
    {
      assert Better(es, order[a], order[b]);
    }
  }

  lemma Restart(es: seq<PoolTx>, chosen: seq<nat>, nextOk: map<Bytes, nat>, still: seq<nat>, deferred: bool, max: nat)
    requires PassInv(es, chosen, nextOk, still, [], deferred, max)
    ensures PassInv(es, chosen, nextOk, [], still, false, max) && |chosen| <= max
    ensures !deferred && |chosen| < max ==> AllExhausted(es, chosen, still)
  {
    hide Runs, NoRepeats, Tracked, Covers, ByFee, Next;
    assert still + [] == [] + still;
  }

  lemma Stopped(es: seq<PoolTx>, chosen: seq<nat>, nextOk: map<Bytes, nat>, rest: seq<nat>, max: nat)
    requires PassInv(es, chosen, nextOk, [], rest, false, max)
    ensures InRange(es, chosen) && NoRepeats(chosen) && Runs(es, chosen) && FeeFirst(es, chosen)
    ensures AllExhausted(es, chosen, rest) ==> forall i: nat :: i < |es| && i !in chosen ==> Exhausted(es, chosen, i)
  {
    hide ByFee, Runs, Next;
    assert [] + rest == rest;
    if AllExhausted(es, chosen, rest) {
      forall i: nat | i < |es| && i !in chosen
        ensures Exhausted(es, chosen, i)
      {
        assert i in rest;
        var a :| 0 <= a < |rest| && rest[a] == i;
      }
    }
  }

  /** The sender's chosen entries, in the order taken. */
  function OfSender(es: seq<PoolTx>, chosen: seq<nat>, sender: Bytes): (mine: seq<nat>)
    requires forall a :: 0 <= a < |chosen| ==> chosen[a] < |es|
    ensures forall a :: 0 <= a < |mine| ==> mine[a] < |es|
  {
    if chosen == [] then [] else
      var last := |chosen| - 1;
      OfSender(es, chosen[..last], sender) + if es[chosen[last]].sender == sender then [chosen[last]] else []
  }

  /** `mine` is one unbroken run of nonces from the sender's best-paying entry. */
  ghost predicate OneRun(es: seq<PoolTx>, mine: seq<nat>, next: Option<nat>) {
    && InRange(es, mine)
    && (mine != [] ==> BestOfSender(es, mine[0]))
    && (forall a :: 0 <= a < |mine| ==> es[mine[a]].tx.nonce == es[mine[0]].tx.nonce + a)
    && next == if mine == [] then None else Some(es[mine[|mine| - 1]].tx.nonce + 1)
  }

  lemma OneRunGrows(es: seq<PoolTx>, mine: seq<nat>, next: Option<nat>, i: nat)
    requires OneRun(es, mine, next) && i < |es|
    requires if next.None? then BestOfSender(es, i) else es[i].tx.nonce == next.value
    ensures OneRun(es, mine + [i], Some(es[i].tx.nonce + 1))
  {
    hide BestOfSender;
  }

  /** A batch gives each sender one unbroken run of nonces in increasing order, from its
      best-paying entry on. */
  lemma {:induction false} BatchNoncesAreConsecutive(es: seq<PoolTx>, chosen: seq<nat>, sender: Bytes)
    requires InRange(es, chosen) && Runs(es, chosen)
    ensures OneRun(es, OfSender(es, chosen, sender), Next(es, chosen, sender))
  {
    hide BestOfSender, OneRun;
    if chosen == [] {
      assert OneRun(es, [], None) by { NoRun(es); }
    } else {
      var last := |chosen| - 1;
      forall k | 0 <= k < last
        ensures MayFollow(es, chosen[..last][..k], chosen[..last][k])
      {
        assert chosen[..last][..k] == chosen[..k];
      }
      BatchNoncesAreConsecutive(es, chosen[..last], sender);
      assert MayFollow(es, chosen[..last], chosen[last]);
      var mine := OfSender(es, chosen[..last], sender);
      if es[chosen[last]].sender == sender {
        OneRunGrows(es, mine, Next(es, chosen[..last], sender), chosen[last]);
      } else {
        assert mine + [] == mine;
      }
    }
  }

  lemma NoRun(es: seq<PoolTx>)
    ensures OneRun(es, [], None)
  {
  }

  /** A sender's queue is handed out from its lowest nonce exactly when no later nonce
      pays more. */
  lemma StartsAtLowestIff(es: seq<PoolTx>, chosen: seq<nat>, low: nat)
    requires InRange(es, chosen) && Runs(es, chosen) && low < |es|
    requires forall j: nat :: j < |es| && j != low && es[j].sender == es[low].sender ==> es[j].tx.nonce > es[low].tx.nonce
    requires OfSender(es, chosen, es[low].sender) != []
    ensures OfSender(es, chosen, es[low].sender)[0] == low <==>
            forall j: nat :: j < |es| && es[j].sender == es[low].sender ==> es[j].tx.fee <= es[low].tx.fee
  {
    BatchNoncesAreConsecutive(es, chosen, es[low].sender);
    var mine := OfSender(es, chosen, es[low].sender);
    OfSenderIs(es, chosen, es[low].sender, 0);
    assert BestOfSender(es, mine[0]);
  }

  lemma {:induction false} OfSenderIs(es: seq<PoolTx>, chosen: seq<nat>, sender: Bytes, a: nat)
    requires InRange(es, chosen) && a < |OfSender(es, chosen, sender)|
    ensures es[OfSender(es, chosen, sender)[a]].sender == sender
  {
    if chosen != [] {
      var last := |chosen| - 1;
      if a < |OfSender(es, chosen[..last], sender)| {
        OfSenderIs(es, chosen[..last], sender, a);
      }
    }
  }

  // Nonce 4 paying one, nonce 5 paying two.
  const EARLY: Transaction := Transaction(Transfer, "k", "b", 1, 1, 4, 7777, None, None, "")
  const TWO_FEES: seq<PoolTx> := [PoolTx(EARLY, "x", "a", 0), PoolTx(EARLY.(nonce := 5, fee := 2), "y", "a", 1)]

  /** Whatever `max`, every selection from this pool takes nonce 5 alone. */
  lemma LaterNonceAlone(chosen: seq<nat>, max: nat)
    requires 1 <= max && InRange(TWO_FEES, chosen) && |chosen| <= max && Runs(TWO_FEES, chosen)
    requires |chosen| < max ==> forall i: nat :: i < |TWO_FEES| && i !in chosen ==> Exhausted(TWO_FEES, chosen, i)
    ensures chosen == [1] && TWO_FEES[chosen[0]].tx.nonce == 5
  {
    var es := TWO_FEES;
    assert chosen == [] ==> Next(es, chosen, "a") == None;
    assert chosen != [] by {
      assert |chosen| < max ==> 0 in chosen || Exhausted(es, chosen, 0);
    }
    assert chosen[..0] == [] && MayFollow(es, chosen[..0], chosen[0]);
    assert BestOfSender(es, chosen[0]);
    assert Better(es, 1, 0) && !Better(es, 0, 1);
    assert chosen[0] == 1;
    assert chosen[..1] == [1];
    NothingFollows();
  }

  lemma NothingFollows()
    ensures forall i: nat :: i < |TWO_FEES| ==> !MayFollow(TWO_FEES, [1], i)
  {
    assert [1][..0] == [];
    assert Next(TWO_FEES, [1], "a") == Some(6);
  }

  // ---- the pool itself ----

  ghost function Without(es: seq<PoolTx>, gone: set<Bytes>): seq<PoolTx> {
    if es == [] then [] else
      var last := |es| - 1;
      Without(es[..last], gone) + if es[last].hash in gone then [] else [es[last]]
  }

  method Decrement(before: map<Bytes, nat>, sender: Bytes) returns (perSender: map<Bytes, nat>)
    ensures perSender == Decremented(before, sender)
  {
    perSender := before;
    if sender in perSender {
      var n := if perSender[sender] > 0 then perSender[sender] - 1 else 0;
      perSender := perSender[sender := n];
      if n == 0 {
        perSender := perSender - {sender};
      }
    }
  }

  lemma StripStep(kept: seq<PoolTx>, from: seq<PoolTx>, i: nat)
    requires i < |from|
    ensures kept + from[i..] == kept + [from[i]] + from[i + 1..]
  {
    assert from[i..] == [from[i]] + from[i + 1..];
  }

  /** Split off the entries in `gone`, dropping their index records one by one. */
  method Strip(from: seq<PoolTx>, gone: set<Bytes>, hashesBefore: set<Bytes>, before: map<Bytes, nat>)
    returns (kept: seq<PoolTx>, hashes: set<Bytes>, perSender: map<Bytes, nat>)
    requires Exact(from, hashesBefore, before)
    ensures kept == Without(from, gone) && Exact(kept, hashes, perSender)
  {
    hide Exact, Decremented;
    kept, hashes, perSender := [], hashesBefore, before;
    assert [] + from[0..] == from;
    for i := 0 to |from|
      invariant kept == Without(from[..i], gone) && Exact(kept + from[i..], hashes, perSender)
    {
      assert from[..i + 1][..i] == from[..i];
      StripStep(kept, from, i);
      if from[i].hash in gone {
        DropKeepsExact(kept, from[i], from[i + 1..], hashes, perSender);
        hashes := hashes - {from[i].hash};
        perSender := Decrement(perSender, from[i].sender);
      } else {
        kept := kept + [from[i]];
      }
    }
    assert kept + from[|from|..] == kept && from[..|from|] == from;
  }

  class Pool {
    var entries: seq<PoolTx>
    var hashes: set<Bytes>
    var perSender: map<Bytes, nat>
    var nextSeq: nat

    ghost predicate Valid()
      reads this
    {
      Exact(entries, hashes, perSender) && forall a :: a in ArrivalsOf(entries) ==> a < nextSeq
    }

    constructor ()
      ensures Valid() && entries == []
    {
      entries, hashes, perSender, nextSeq := [], {}, map[], 0;
    }

    method PendingFor(sender: Bytes) returns (n: nat)
      requires Valid()
      ensures n == CountOf(entries, sender)
    {
      n := if sender in perSender then perSender[sender] else 0;
    }

    method Insert(tx: Transaction, hash: Bytes, sender: Bytes)
      requires Valid() && hash !in hashes
      modifies this
      ensures Valid() && entries == old(entries) + [PoolTx(tx, hash, sender, old(nextSeq))]
    {
      var e := PoolTx(tx, hash, sender, nextSeq);
      ghost var per := perSender;
      var n := if sender in perSender then perSender[sender] else 0;
      AddKeepsExact(entries, e, hashes, per, per[sender := n + 1]);
      hashes := hashes + {hash};
      perSender := perSender[sender := n + 1];
      nextSeq := nextSeq + 1;
      entries := entries + [e];
    }

    /** Take entries out of the pool, keeping the rest in storage order. */
    method Remove(gone: set<Bytes>)
      requires Valid()
      modifies this`entries, this`hashes, this`perSender
      ensures Valid() && entries == Without(old(entries), gone)
    {
      hide Exact, Without;
      WithoutSubset(entries, gone);
      entries, hashes, perSender := Strip(entries, gone, hashes, perSender);
    }

    /** Forget entries by hash, as after an import. */
    method RemoveHashes(gone: set<Bytes>)
      requires Valid()
      modifies this`entries, this`hashes, this`perSender
      ensures Valid() && entries == Without(old(entries), gone)
    {
      if gone == {} {
        WithoutNothing(entries);
        return;
      }
      Remove(gone);
    }

    /** Hand out the next batch: nothing lost, nothing twice, in selection order. */
    method TakeBatch(max: nat) returns (batch: seq<Transaction>, ghost chosen: seq<nat>)
      requires Valid()
      modifies this`entries, this`hashes, this`perSender
      ensures Valid()
      ensures InRange(old(entries), chosen) && NoRepeats(chosen) && |batch| == |chosen| <= max
      ensures forall k :: 0 <= k < |batch| ==> batch[k] == old(entries)[chosen[k]].tx
      ensures Runs(old(entries), chosen) && FeeFirst(old(entries), chosen)
      ensures |batch| < max ==> forall i: nat :: i < |old(entries)| && i !in chosen ==> Exhausted(old(entries), chosen, i)
      ensures |entries| + |batch| == |old(entries)|
      ensures forall i: nat :: i < |old(entries)| ==> (old(entries)[i] in entries <==> i !in chosen)
    {
      hide Runs, Exhausted, FeeFirst;
      var es := entries;
      var picked := Select(es, max);
      chosen := picked;
      var gone: set<Bytes> := {};
      batch := [];
      for k := 0 to |picked|
        invariant entries == es && Valid()
        invariant |batch| == k && forall j :: 0 <= j < k ==> batch[j] == es[picked[j]].tx
        invariant gone == set j | 0 <= j < k :: es[picked[j]].hash
      {
        batch := batch + [es[picked[k]].tx];
        gone := gone + {es[picked[k]].hash};
      }
      TakenSplits(es, picked, gone);
      Remove(gone);
    }

    /** When the pool is full, drop the cheapest transaction that pays less than the
        newcomer, only ever a sender's last one. */
    method EvictCheapestBelow(incoming: nat) returns (evicted: Option<nat>, ghost victim: nat)
      requires Valid()
      modifies this`entries, this`hashes, this`perSender
      ensures Valid()
      ensures evicted.None? ==>
        && entries == old(entries)
        && forall j: nat :: j < |entries| && IsTail(entries, j) ==> entries[j].tx.fee >= incoming
      ensures evicted.Some? ==>
        && victim < |old(entries)| && IsTail(old(entries), victim) && CheapestTail(old(entries), victim)
        && evicted.value == old(entries)[victim].tx.fee < incoming
        && entries == SwapRemoved(old(entries), victim)
      ensures forall s, base :: Gapless(old(entries), s, base) ==> Gapless(entries, s, base)
    {
      hide Exact, IsTail, Gapless, SwapRemoved;
      var es := entries;
      ArrivalsDistinct(es, hashes, perSender);
      var tail := FindTails(es);
      var found := Cheapest(es, tail);
      victim := 0;
      if found.None? {
        return None, 0;
      }
      var v := found.value;
      victim := v;
      if es[v].tx.fee >= incoming {
        return None, v;
      }
      EvictKeeps(es, v, hashes, perSender);
      entries := SwapRemoved(es, v);
      hashes := hashes - {es[v].hash};
      perSender := Decrement(perSender, es[v].sender);
      evicted := Some(es[v].tx.fee);
    }

    method Clear()
      modifies this`entries, this`hashes, this`perSender
      ensures Valid() && entries == []
    {
      entries, hashes, perSender := [], {}, map[];
    }
  }

  lemma {:induction false} WithoutSubset(es: seq<PoolTx>, gone: set<Bytes>)
    ensures forall e :: e in Without(es, gone) <==> e in es && e.hash !in gone
    ensures ArrivalsOf(Without(es, gone)) <= ArrivalsOf(es)
  {
    if es != [] {
      WithoutSubset(es[..|es| - 1], gone);
      assert es == es[..|es| - 1] + [es[|es| - 1]];
    }
  }

  lemma {:induction false} WithoutNothing(es: seq<PoolTx>)
    ensures Without(es, {}) == es
  {
    if es != [] {
      WithoutNothing(es[..|es| - 1]);
    }
  }

  lemma ArrivalsDistinct(es: seq<PoolTx>, hashes: set<Bytes>, perSender: map<Bytes, nat>)
    requires Exact(es, hashes, perSender)
    ensures |ArrivalsOf(es)| == |es|
  {
  }

  // ---- taking a batch out ----

  lemma {:induction false} DistinctHashes(es: seq<PoolTx>, i: nat, j: nat)
    requires |HashesOf(es)| == |es| && i < j < |es|
    ensures es[i].hash != es[j].hash
  {
    var last := |es| - 1;
    assert es == es[..last] + [es[last]];
    assert HashesOf(es) == HashesOf(es[..last]) + {es[last].hash};
    DistinctBound(es[..last]);
    var head, x := HashesOf(es[..last]), es[last].hash;
    assert x in head ==> head + {x} == head;
    if j < last {
      DistinctHashes(es[..last], i, j);
    } else {
      assert es[i] in es[..last];
    }
  }

  lemma {:induction false} GoneCount(es: seq<PoolTx>, chosen: seq<nat>, n: nat)
    requires |HashesOf(es)| == |es| && InRange(es, chosen) && NoRepeats(chosen) && n <= |chosen|
    ensures |(set j | 0 <= j < n :: es[chosen[j]].hash)| == n
  {
    if n > 0 {
      GoneCount(es, chosen, n - 1);
      var before := set j | 0 <= j < n - 1 :: es[chosen[j]].hash;
      assert (set j | 0 <= j < n :: es[chosen[j]].hash) == before + {es[chosen[n - 1]].hash};
      forall j | 0 <= j < n - 1
        ensures es[chosen[j]].hash != es[chosen[n - 1]].hash
      {
        HashesApart(es, chosen[j], chosen[n - 1]);
      }
    }
  }

  lemma HashesApart(es: seq<PoolTx>, i: nat, j: nat)
    requires |HashesOf(es)| == |es| && i < |es| && j < |es| && i != j
    ensures es[i].hash != es[j].hash
  {
    if i < j {
      DistinctHashes(es, i, j);
    } else {
      DistinctHashes(es, j, i);
    }
  }

  lemma {:induction false} WithoutCount(es: seq<PoolTx>, gone: set<Bytes>)
    requires |HashesOf(es)| == |es|
    ensures |Without(es, gone)| == |HashesOf(es) - gone|
  {
    if es != [] {
      var last := |es| - 1;
      assert es == es[..last] + [es[last]];
      assert HashesOf(es) == HashesOf(es[..last]) + {es[last].hash};
      DistinctBound(es[..last]);
      WithoutCount(es[..last], gone);
      var head, x := HashesOf(es[..last]), es[last].hash;
      assert x in head ==> head + {x} == head;
      if x in gone {
        assert HashesOf(es) - gone == head - gone;
      } else {
        assert HashesOf(es) - gone == (head - gone) + {x};
      }
    }
  }

  lemma TakenSplits(es: seq<PoolTx>, chosen: seq<nat>, gone: set<Bytes>)
    requires |HashesOf(es)| == |es| && InRange(es, chosen) && NoRepeats(chosen)
    requires gone == set j | 0 <= j < |chosen| :: es[chosen[j]].hash
    ensures |Without(es, gone)| + |chosen| == |es|
    ensures forall i: nat :: i < |es| ==> (es[i] in Without(es, gone) <==> i !in chosen)
  {
    WithoutCount(es, gone);
    GoneCount(es, chosen, |chosen|);
    WithoutSubset(es, gone);
    forall j | 0 <= j < |chosen|
      ensures es[chosen[j]].hash in HashesOf(es)
    {
      assert es[chosen[j]] in es;
    }
    assert gone <= HashesOf(es);
    forall i: nat | i < |es|
      ensures es[i].hash in gone <==> i in chosen
    {
      if es[i].hash in gone {
        var j :| 0 <= j < |chosen| && es[chosen[j]].hash == es[i].hash;
        if chosen[j] != i {
          HashesApart(es, chosen[j], i);
        }
      }
    }
  }

  // ---- eviction ----

  /** The sender's highest queued nonce, the last such in storage order. */
  ghost predicate IsTail(es: seq<PoolTx>, i: nat)
    requires i < |es|
  {
    forall j: nat :: j < |es| && es[j].sender == es[i].sender ==>
      es[j].tx.nonce < es[i].tx.nonce || (es[j].tx.nonce == es[i].tx.nonce && j <= i)
  }

  /** Lower fee first, then newest. */
  predicate Cheaper(es: seq<PoolTx>, i: nat, j: nat)
    requires i < |es| && j < |es|
  {
    es[i].tx.fee < es[j].tx.fee || (es[i].tx.fee == es[j].tx.fee && es[i].arrival > es[j].arrival)
  }

  ghost predicate CheapestTail(es: seq<PoolTx>, i: nat)
    requires i < |es|
  {
    forall j: nat :: j < |es| && j != i && IsTail(es, j) ==> Cheaper(es, i, j)
  }

  ghost predicate TailSoFar(es: seq<PoolTx>, n: nat, s: Bytes, i: nat)
    requires n <= |es|
  {
    && i < n && es[i].sender == s
    && forall j: nat :: j < n && es[j].sender == s ==>
         es[j].tx.nonce < es[i].tx.nonce || (es[j].tx.nonce == es[i].tx.nonce && j <= i)
  }

  method FindTails(es: seq<PoolTx>) returns (tail: map<Bytes, nat>)
    ensures forall s :: s in tail ==> tail[s] < |es| && es[tail[s]].sender == s && IsTail(es, tail[s])
    ensures forall j: nat :: j < |es| ==> es[j].sender in tail && (IsTail(es, j) ==> tail[es[j].sender] == j)
  {
    tail := map[];
    for i := 0 to |es|
      invariant forall s :: s in tail ==> TailSoFar(es, i, s, tail[s])
      invariant forall j :: 0 <= j < i ==> es[j].sender in tail
    {
      var e := es[i];
      if e.sender !in tail || e.tx.nonce >= es[tail[e.sender]].tx.nonce {
        tail := tail[e.sender := i];
      }
    }
  }

  /** The cheapest tail; which order the tails are met in does not matter. */
  method Cheapest(es: seq<PoolTx>, tail: map<Bytes, nat>) returns (victim: Option<nat>)
    requires |ArrivalsOf(es)| == |es|
    requires forall s :: s in tail ==> tail[s] < |es| && es[tail[s]].sender == s && IsTail(es, tail[s])
    requires forall j: nat :: j < |es| ==> es[j].sender in tail && (IsTail(es, j) ==> tail[es[j].sender] == j)
    ensures victim.None? ==> es == []
    ensures victim.Some? ==> victim.value < |es| && IsTail(es, victim.value) && CheapestTail(es, victim.value)
  {
    hide IsTail;
    victim := None;
    var todo := tail.Keys;
    while todo != {}
      invariant todo <= tail.Keys
      invariant victim.None? ==> todo == tail.Keys
      invariant victim.Some? ==> exists s :: s in tail.Keys - todo && tail[s] == victim.value
      invariant victim.Some? ==> victim.value < |es| && IsTail(es, victim.value)
      invariant victim.Some? ==> forall s :: s in tail.Keys - todo && tail[s] != victim.value ==> Cheaper(es, victim.value, tail[s])
      decreases todo
    {
      var s :| s in todo;
      var i := tail[s];
      if victim.Some? && victim.value != i {
        CheaperTotal(es, victim.value, i);
      }
      if victim.None? || Cheaper(es, i, victim.value) {
        victim := Some(i);
      }
      todo := todo - {s};
    }
    if es != [] {
      assert es[0].sender in tail;
    }
  }

  lemma CheaperTotal(es: seq<PoolTx>, i: nat, j: nat)
    requires |ArrivalsOf(es)| == |es| && i < |es| && j < |es| && i != j
    ensures Cheaper(es, i, j) != Cheaper(es, j, i)
  {
    if i < j {
      DistinctArrivals(es, i, j);
    } else {
      DistinctArrivals(es, j, i);
    }
  }

  /** The last entry moves into the hole. */
  function SwapRemoved(es: seq<PoolTx>, i: nat): seq<PoolTx>
    requires i < |es|
  {
    var last := |es| - 1;
    if i == last then es[..last] else es[..i] + [es[last]] + es[i + 1..last]
  }

  function NoncesOf(es: seq<PoolTx>, sender: Bytes): set<nat> {
    set e | e in es && e.sender == sender :: e.tx.nonce
  }

  ghost function Span(base: nat, n: nat): (s: set<nat>)
    ensures |s| == n && forall k :: k in s <==> base <= k < base + n
  {
    if n == 0 then {} else Span(base, n - 1) + {base + n - 1}
  }

  /** The sender's queued nonces are exactly `base`, `base + 1`, ... with none repeated. */
  ghost predicate Gapless(es: seq<PoolTx>, sender: Bytes, base: nat) {
    NoncesOf(es, sender) == Span(base, CountOf(es, sender))
  }

  lemma {:induction false} NoncesBound(es: seq<PoolTx>, sender: Bytes)
    ensures |NoncesOf(es, sender)| <= CountOf(es, sender)
  {
    if es != [] {
      var last := |es| - 1;
      NoncesBound(es[..last], sender);
      assert es == es[..last] + [es[last]];
      var e := es[last];
      assert NoncesOf(es, sender) == NoncesOf(es[..last], sender) + if e.sender == sender then {e.tx.nonce} else {};
    }
  }

  /** Removing a sender's highest nonce shortens its span by one and touches no other. */
  lemma DropTailKeepsGapless(a: seq<PoolTx>, e: PoolTx, b: seq<PoolTx>, s: Bytes, base: nat)
    requires Gapless(a + [e] + b, s, base)
    requires forall x :: x in a + b && x.sender == e.sender ==> x.tx.nonce <= e.tx.nonce
    ensures Gapless(a + b, s, base)
  {
    hide CountOf;
    CountAround(a, e, b, s);
    assert forall x :: x in a + [e] + b <==> x in a + b || x == e;
    var left, n := NoncesOf(a + b, s), CountOf(a + b, s);
    if e.sender != s {
      assert NoncesOf(a + [e] + b, s) == left;
    } else {
      assert NoncesOf(a + [e] + b, s) == left + {e.tx.nonce};
      NoncesBound(a + b, s);
      assert e.tx.nonce in left ==> left + {e.tx.nonce} == left;
      assert base + n in Span(base, n + 1);
      assert e.tx.nonce in Span(base, n + 1);
      assert e.tx.nonce == base + n;
      assert left == Span(base, n + 1) - {base + n};
      assert Span(base, n) == Span(base, n + 1) - {base + n};
    }
  }

  lemma SwapKeepsGapless(a: seq<PoolTx>, b: seq<PoolTx>, e: PoolTx, s: Bytes, base: nat)
    requires Gapless(a + (b + [e]), s, base)
    ensures Gapless(a + [e] + b, s, base)
  {
    hide CountOf;
    assert forall x :: x in a + [e] + b <==> x in a + (b + [e]);
    assert NoncesOf(a + [e] + b, s) == NoncesOf(a + (b + [e]), s);
    CountAround(a, e, b, s);
    CountSplits(a, b + [e], s);
    CountSplits(a, b, s);
    CountSplits(b, [e], s);
    OneCounts(e, s);
  }

  lemma TailIsHighest(es: seq<PoolTx>, v: nat)
    requires v < |es| && IsTail(es, v)
    ensures forall x :: x in es[..v] + es[v + 1..] && x.sender == es[v].sender ==> x.tx.nonce <= es[v].tx.nonce
  {
    var rest := es[..v] + es[v + 1..];
    forall a | 0 <= a < |rest| && rest[a].sender == es[v].sender
      ensures rest[a].tx.nonce <= es[v].tx.nonce
    {
      assert rest[a] == es[if a < v then a else a + 1];
    }
  }

  /** Evicting a tail keeps the indexes exact and every gapless queue gapless. */
  lemma EvictKeeps(es: seq<PoolTx>, v: nat, hashes: set<Bytes>, perSender: map<Bytes, nat>)
    requires Exact(es, hashes, perSender) && v < |es| && IsTail(es, v)
    ensures Exact(SwapRemoved(es, v), hashes - {es[v].hash}, Decremented(perSender, es[v].sender))
    ensures ArrivalsOf(SwapRemoved(es, v)) <= ArrivalsOf(es)
    ensures forall s, base :: Gapless(es, s, base) ==> Gapless(SwapRemoved(es, v), s, base)
  {
    hide Exact, Gapless, IsTail, Decremented;
    var a, e, b, last := es[..v], es[v], es[v + 1..], |es| - 1;
    assert es == a + [e] + b;
    DropKeepsExact(a, e, b, hashes, perSender);
    TailIsHighest(es, v);
    forall s, base | Gapless(es, s, base)
      ensures Gapless(a + b, s, base)
    {
      DropTailKeepsGapless(a, e, b, s, base);
    }
    if v == last {
      assert a + b == SwapRemoved(es, v);
    } else {
      var mid, z := es[v + 1..last], es[last];
      assert b == mid + [z];
      SwapKeepsExact(a, mid, z, hashes - {e.hash}, Decremented(perSender, e.sender));
      forall s, base | Gapless(a + b, s, base)
        ensures Gapless(a + [z] + mid, s, base)
      {
        SwapKeepsGapless(a, mid, z, s, base);
      }
    }
  }
}
