/** The nested undo journal (src/journal.rs): a stack of first-write undo maps
    over the store's tables. A key stands for a (tree id, key bytes) pair. */
module Journal {
  import opened Base

  type Frame<!K, V> = map<K, Option<V>>

  /** The tables as one map, and the open savepoints, innermost last. */
  datatype State<!K, V> = State(table: map<K, V>, frames: seq<Frame<K, V>>)

  datatype Op<K, V> = Begin | Put(key: K, value: V) | Del(key: K) | Commit | Rollback

  function Lookup<K, V>(table: map<K, V>, k: K): Option<V> {
    if k in table then Some(table[k]) else None
  }

  /** `table` with every key in `frame` set back to what the frame remembers. */
  function Undo<K, V>(table: map<K, V>, frame: Frame<K, V>): map<K, V> {
    map k | k in table.Keys + frame.Keys && (k in frame ==> frame[k].Some?) ::
      if k in frame then frame[k].value else table[k]
  }

  /** Remember `k` in the innermost frame unless it is already there. */
  function Recorded<K, V>(s: State<K, V>, k: K): seq<Frame<K, V>> {
    if s.frames == [] then [] else
      var top := |s.frames| - 1;
      if k in s.frames[top] then s.frames
      else s.frames[top := s.frames[top][k := Lookup(s.table, k)]]
  }

  function Step<K, V>(s: State<K, V>, op: Op<K, V>): State<K, V> {
    match op
    case Begin => s.(frames := s.frames + [map[]])
    case Put(k, v) => State(s.table[k := v], Recorded(s, k))
    case Del(k) => State(s.table - {k}, Recorded(s, k))
    case Commit =>
      var n := |s.frames|;
      if n == 0 then s
      else if n == 1 then s.(frames := [])
      // Entries of the enclosing frame are older, so they win.
      else s.(frames := s.frames[..n - 2] + [s.frames[n - 1] + s.frames[n - 2]])
    case Rollback =>
      var n := |s.frames|;
      if n == 0 then s
      else State(Undo(s.table, s.frames[n - 1]), s.frames[..n - 1])
  }

  function Run<K, V>(s: State<K, V>, ops: seq<Op<K, V>>): State<K, V>
    decreases |ops|
  {
    if ops == [] then s else Run(Step(s, ops[0]), ops[1..])
  }

  // ---- the specification: savepoints as full copies ----

  datatype Copies<!K, V> = Copies(table: map<K, V>, stack: seq<map<K, V>>)

  function CopyStep<K, V>(c: Copies<K, V>, op: Op<K, V>): Copies<K, V> {
    var n := |c.stack|;
    match op
    case Begin => c.(stack := c.stack + [c.table])
    case Put(k, v) => c.(table := c.table[k := v])
    case Del(k) => c.(table := c.table - {k})
    case Commit => if n == 0 then c else c.(stack := c.stack[..n - 1])
    case Rollback => if n == 0 then c else Copies(c.stack[n - 1], c.stack[..n - 1])
  }

  function CopyRun<K, V>(c: Copies<K, V>, ops: seq<Op<K, V>>): Copies<K, V>
    decreases |ops|
  {
    if ops == [] then c else CopyRun(CopyStep(c, ops[0]), ops[1..])
  }

  /** The table just before frame `i + 1` opened, or now for the innermost frame. */
  function After<K, V>(c: Copies<K, V>, i: nat): map<K, V>
    requires i < |c.stack|
  {
    if i + 1 < |c.stack| then c.stack[i + 1] else c.table
  }

  ghost predicate Refines<K, V>(s: State<K, V>, c: Copies<K, V>) {
    && s.table == c.table
    && |s.frames| == |c.stack|
    && forall i: nat :: i < |c.stack| ==> Undo(After(c, i), s.frames[i]) == c.stack[i]
  }

  lemma UndoWrite<K, V>(table: map<K, V>, frame: Frame<K, V>, k: K, table': map<K, V>)
    requires table' - {k} == table - {k}
    ensures Undo(table', if k in frame then frame else frame[k := Lookup(table, k)]) == Undo(table, frame)
  {
    var frame' := if k in frame then frame else frame[k := Lookup(table, k)];
    forall x
      ensures Lookup(Undo(table', frame'), x) == Lookup(Undo(table, frame), x)
    {
      if x != k {
        assert x in table <==> x in table - {k};
        assert x in table' <==> x in table' - {k};
        assert x in table ==> table[x] == (table - {k})[x];
        assert x in table' ==> table'[x] == (table' - {k})[x];
      }
    }
    SameLookups(Undo(table', frame'), Undo(table, frame));
  }

  lemma SameLookups<K, V>(m: map<K, V>, n: map<K, V>)
    requires forall k :: Lookup(m, k) == Lookup(n, k)
    ensures m == n
  {
    forall k
      ensures k in m <==> k in n
      ensures k in m ==> m[k] == n[k]
    {
      assert Lookup(m, k) == Lookup(n, k);
    }
  }

  lemma UndoTwice<K, V>(table: map<K, V>, inner: Frame<K, V>, outer: Frame<K, V>)
    ensures Undo(table, inner + outer) == Undo(Undo(table, inner), outer)
  {
  }

  lemma WriteRefines<K, V>(s: State<K, V>, c: Copies<K, V>, k: K, table': map<K, V>)
    requires Refines(s, c) && table' - {k} == s.table - {k}
    ensures Refines(State(table', Recorded(s, k)), c.(table := table'))
  {
    if s.frames != [] {
      var top := |s.frames| - 1;
      UndoWrite(s.table, s.frames[top], k, table');
      var c' := c.(table := table');
      forall i: nat | i < |c.stack|
        ensures Undo(After(c', i), Recorded(s, k)[i]) == c.stack[i]
      {
        assert Undo(After(c, i), s.frames[i]) == c.stack[i];
      }
    }
  }

  lemma BeginRefines<K, V>(s: State<K, V>, c: Copies<K, V>)
    requires Refines(s, c)
    ensures Refines(Step(s, Begin), CopyStep(c, Begin))
  {
    var s', c' := Step(s, Begin), CopyStep(c, Begin);
    forall i: nat | i < |c'.stack|
      ensures Undo(After(c', i), s'.frames[i]) == c'.stack[i]
    {
      if i < |s.frames| {
        assert After(c', i) == After(c, i) && Undo(After(c, i), s.frames[i]) == c.stack[i];
      }
    }
  }

  lemma CommitRefines<K, V>(s: State<K, V>, c: Copies<K, V>)
    requires Refines(s, c)
    ensures Refines(Step(s, Commit), CopyStep(c, Commit))
  {
    hide Undo;
    var n := |s.frames|;
    if n >= 2 {
      assert Undo(After(c, n - 1), s.frames[n - 1]) == c.stack[n - 1];
      assert Undo(After(c, n - 2), s.frames[n - 2]) == c.stack[n - 2];
      UndoTwice(s.table, s.frames[n - 1], s.frames[n - 2]);
      var s', c' := Step(s, Commit), CopyStep(c, Commit);
      forall i: nat | i < |c'.stack|
        ensures Undo(After(c', i), s'.frames[i]) == c'.stack[i]
      {
        if i < n - 2 {
          assert After(c', i) == After(c, i) && Undo(After(c, i), s.frames[i]) == c.stack[i];
        }
      }
    }
  }

  lemma RollbackRefines<K, V>(s: State<K, V>, c: Copies<K, V>)
    requires Refines(s, c)
    ensures Refines(Step(s, Rollback), CopyStep(c, Rollback))
  {
    hide Undo;
    var n := |s.frames|;
    if n >= 1 {
      assert Undo(After(c, n - 1), s.frames[n - 1]) == c.stack[n - 1];
      var s', c' := Step(s, Rollback), CopyStep(c, Rollback);
      forall i: nat | i < |c'.stack|
        ensures Undo(After(c', i), s'.frames[i]) == c'.stack[i]
      {
        assert After(c', i) == After(c, i) && Undo(After(c, i), s.frames[i]) == c.stack[i];
      }
    }
  }

  /** One step of the undo stack is one step of the stack of copies. */
  lemma StepRefines<K, V>(s: State<K, V>, c: Copies<K, V>, op: Op<K, V>)
    requires Refines(s, c)
    ensures Refines(Step(s, op), CopyStep(c, op))
  {
    hide Undo;
    match op
    case Begin => BeginRefines(s, c);
    case Put(k, v) => WriteRefines(s, c, k, s.table[k := v]);
    case Del(k) => WriteRefines(s, c, k, s.table - {k});
    case Commit => CommitRefines(s, c);
    case Rollback => RollbackRefines(s, c);
  }

  /** Over every run, the undo maps refine a stack of full copies. */
  lemma {:induction false} RunRefines<K, V>(s: State<K, V>, c: Copies<K, V>, ops: seq<Op<K, V>>)
    requires Refines(s, c)
    ensures Refines(Run(s, ops), CopyRun(c, ops))
    decreases |ops|
  {
    if ops != [] {
      StepRefines(s, c, ops[0]);
      RunRefines(Step(s, ops[0]), CopyStep(c, ops[0]), ops[1..]);
    }
  }

  // ---- a savepoint leaves nothing behind ----

  /** `ops`, started `d` savepoints deep, closes exactly those and the ones it opens. */
  predicate Nested<K, V>(ops: seq<Op<K, V>>, d: nat)
    decreases |ops|
  {
    if ops == [] then d == 0 else
      match ops[0]
      case Begin => Nested(ops[1..], d + 1)
      case Put(_, _) => Nested(ops[1..], d)
      case Del(_) => Nested(ops[1..], d)
      case Commit => d > 0 && Nested(ops[1..], d - 1)
      case Rollback => d > 0 && Nested(ops[1..], d - 1)
  }

  lemma {:induction false} NestedKeepsOuter<K, V>(s: State<K, V>, c: Copies<K, V>, ops: seq<Op<K, V>>, d: nat)
    requires Nested(ops, d) && |s.frames| == |c.stack| && |s.frames| > d
    ensures var n := |s.frames| - d;
            && |Run(s, ops).frames| == n && Run(s, ops).frames[..n - 1] == s.frames[..n - 1]
            && CopyRun(c, ops).stack == c.stack[..n]
    decreases |ops|
  {
    if ops != [] {
      var n := |s.frames| - d;
      var s', c' := Step(s, ops[0]), CopyStep(c, ops[0]);
      assert s'.frames[..n - 1] == s.frames[..n - 1];
      assert c'.stack[..n] == c.stack[..n];
      var d' := |s'.frames| - n;
      NestedKeepsOuter(s', c', ops[1..], d');
    } else {
      assert c.stack[..|c.stack|] == c.stack;
    }
  }

  lemma {:induction false} RunConcat<K, V>(s: State<K, V>, a: seq<Op<K, V>>, b: seq<Op<K, V>>)
    ensures Run(s, a + b) == Run(Run(s, a), b)
    decreases |a|
  {
    if a == [] {
      assert a + b == b;
    } else {
      assert (a + b)[1..] == a[1..] + b;
      RunConcat(Step(s, a[0]), a[1..], b);
    }
  }

  lemma {:induction false} CopyRunConcat<K, V>(c: Copies<K, V>, a: seq<Op<K, V>>, b: seq<Op<K, V>>)
    ensures CopyRun(c, a + b) == CopyRun(CopyRun(c, a), b)
    decreases |a|
  {
    if a == [] {
      assert a + b == b;
    } else {
      assert (a + b)[1..] == a[1..] + b;
      CopyRunConcat(CopyStep(c, a[0]), a[1..], b);
    }
  }

  /** Begin, any well-nested work (inner commits included), rollback: the tables and
      every outer savepoint are exactly as before. */
  lemma RollbackRestoresBegin<K, V>(s: State<K, V>, c: Copies<K, V>, body: seq<Op<K, V>>)
    requires Refines(s, c) && Nested(body, 0)
    ensures Run(s, [Begin] + body + [Rollback]) == s
  {
    hide Undo, After, Nested;
    var s1, c1 := Step(s, Begin), CopyStep(c, Begin);
    StepRefines(s, c, Begin);
    NestedKeepsOuter(s1, c1, body, 0);
    RunRefines(s1, c1, body);
    var s2, c2 := Run(s1, body), CopyRun(c1, body);
    assert c1.stack[..|c1.stack|] == c1.stack;
    StepRefines(s2, c2, Rollback);
    assert ([Begin] + body + [Rollback])[1..] == body + [Rollback];
    RunConcat(s1, body, [Rollback]);
    assert Run(s2, [Rollback]) == Step(s2, Rollback);
    assert s2.frames[..|s.frames|] == s1.frames[..|s.frames|] == s.frames;
  }

  // ---- the journal itself ----

  lemma FoldOne<K, V>(todo: Frame<K, V>, merged: Frame<K, V>, key: K)
    requires key in todo
    ensures (todo - {key}) + (if key in merged then merged else merged[key := todo[key]]) == todo + merged
  {
  }

  lemma SetBackOne<K, V>(table: map<K, V>, todo: Frame<K, V>, key: K)
    requires key in todo
    ensures Undo(if todo[key].Some? then table[key := todo[key].value] else table - {key}, todo - {key})
         == Undo(table, todo)
  {
  }

  /** Fold the undo entries of a finished frame into its parent, keeping older ones. */
  method FoldInto<K(==), V>(done: Frame<K, V>, parent: Frame<K, V>) returns (merged: Frame<K, V>)
    ensures merged == done + parent
  {
    merged := parent;
    var todo := done;
    while todo != map[]
      invariant todo + merged == done + parent
      decreases todo.Keys
    {
      var key :| key in todo;
      FoldOne(todo, merged, key);
      if key !in merged {
        merged := merged[key := todo[key]];
      }
      todo := todo - {key};
    }
    assert todo + merged == merged;
  }

  /** Put back every remembered value, in whatever order the frame yields them. */
  method SetBack<K(==), V>(table: map<K, V>, frame: Frame<K, V>) returns (restored: map<K, V>)
    ensures restored == Undo(table, frame)
  {
    restored := table;
    var todo := frame;
    while todo != map[]
      invariant Undo(restored, todo) == Undo(table, frame)
      decreases todo.Keys
    {
      var key :| key in todo;
      SetBackOne(restored, todo, key);
      match todo[key] {
        case Some(v) => restored := restored[key := v];
        case None => restored := restored - {key};
      }
      todo := todo - {key};
    }
    assert Undo(restored, todo) == restored;
  }

  class Journaled<!K(==), V> {
    var table: map<K, V>
    var frames: seq<Frame<K, V>>
    /** What each open savepoint must restore. */
    ghost var copies: seq<map<K, V>>

    ghost function View(): State<K, V>
      reads this
    {
      State(table, frames)
    }

    ghost predicate Valid()
      reads this
    {
      Refines(View(), Copies(table, copies))
    }

    constructor ()
      ensures Valid() && table == map[] && frames == [] && copies == []
    {
      table, frames, copies := map[], [], [];
    }

    method BeginFrame()
      requires Valid()
      modifies this
      ensures Valid() && View() == Step(old(View()), Begin)
      ensures table == old(table) && copies == old(copies) + [table]
    {
      StepRefines(View(), Copies(table, copies), Begin);
      frames := frames + [map[]];
      copies := copies + [table];
    }

    method Record(k: K)
      requires Valid()
      modifies this`frames
      ensures Valid() && frames == Recorded(old(View()), k)
    {
      WriteRefines(View(), Copies(table, copies), k, table);
      if frames != [] {
        var top := |frames| - 1;
        if k !in frames[top] {
          var before := if k in table then Some(table[k]) else None;
          frames := frames[top := frames[top][k := before]];
        }
      }
    }

    method Insert(k: K, v: V)
      requires Valid()
      modifies this`table, this`frames
      ensures Valid() && View() == Step(old(View()), Put(k, v))
      ensures table == old(table)[k := v]
    {
      StepRefines(View(), Copies(table, copies), Put(k, v));
      Record(k);
      table := table[k := v];
    }

    method Remove(k: K)
      requires Valid()
      modifies this`table, this`frames
      ensures Valid() && View() == Step(old(View()), Del(k))
      ensures table == old(table) - {k}
    {
      StepRefines(View(), Copies(table, copies), Del(k));
      Record(k);
      table := table - {k};
    }

    /** Drop rows without recording them; only outside every savepoint. */
    method Keep(left: map<K, V>)
      requires Valid() && frames == []
      modifies this`table
      ensures Valid() && table == left
    {
      table := left;
    }

    /** Fold the innermost savepoint's undo entries into the enclosing one. */
    method CommitFrame()
      requires Valid()
      modifies this`frames, this`copies
      ensures Valid() && View() == Step(old(View()), Commit)
      ensures copies == if old(copies) == [] then [] else old(copies)[..|old(copies)| - 1]
    {
      StepRefines(View(), Copies(table, copies), Commit);
      if frames == [] {
        return;
      }
      var n := |frames|;
      var done := frames[n - 1];
      if n == 1 {
        frames := [];
      } else {
        var parent := FoldInto(done, frames[n - 2]);
        frames := frames[..n - 2] + [parent];
      }
      copies := copies[..n - 1];
    }

    /** Set back every key the innermost savepoint touched, in any order. */
    method RollbackFrame()
      requires Valid()
      modifies this
      ensures Valid() && View() == Step(old(View()), Rollback)
      ensures old(copies) == [] ==> table == old(table) && copies == []
      ensures old(copies) != [] ==>
        var n := |old(copies)| - 1; table == old(copies)[n] && copies == old(copies)[..n]
    {
      StepRefines(View(), Copies(table, copies), Rollback);
      if frames == [] {
        return;
      }
      var n := |frames|;
      table := SetBack(table, frames[n - 1]);
      frames := frames[..n - 1];
      copies := copies[..n - 1];
    }
  }
}
