/** Byte-string order and the sorted key listing every table iteration uses. */
module Order {
  import opened Base

  predicate Le(a: Bytes, b: Bytes) {
    if a == "" then true
    else if b == "" then false
    else a[0] < b[0] || (a[0] == b[0] && Le(a[1..], b[1..]))
  }

  lemma {:induction false} LeTotal(a: Bytes, b: Bytes)
    ensures Le(a, b) || Le(b, a)
  {
    if a != "" && b != "" {
      LeTotal(a[1..], b[1..]);
    }
  }

  lemma {:induction false} LeAntisymmetric(a: Bytes, b: Bytes)
    requires Le(a, b) && Le(b, a)
    ensures a == b
  {
    if a != "" && b != "" {
      LeAntisymmetric(a[1..], b[1..]);
      assert a == [a[0]] + a[1..] && b == [b[0]] + b[1..];
    }
  }

  lemma {:induction false} LeTransitive(a: Bytes, b: Bytes, c: Bytes)
    requires Le(a, b) && Le(b, c)
    ensures Le(a, c)
  {
    if a != "" && b != "" && c != "" && a[0] == b[0] == c[0] {
      LeTransitive(a[1..], b[1..], c[1..]);
    }
  }

  predicate Lt(a: Bytes, b: Bytes) {
    a != b && Le(a, b)
  }

  ghost predicate Ascending(s: seq<Bytes>) {
    forall i, j :: 0 <= i < j < |s| ==> Lt(s[i], s[j])
  }

  ghost function Elems(s: seq<Bytes>): set<Bytes> {
    set x | x in s
  }

  /** The listing of `keys` in ascending order. */
  ghost function SortedKeys(keys: set<Bytes>): (s: seq<Bytes>)
    ensures Ascending(s) && Elems(s) == keys
  {
    AscendingExists(keys);
    var s :| Ascending(s) && Elems(s) == keys;
    s
  }

  lemma {:induction false} AscendingExists(keys: set<Bytes>)
    ensures exists s :: Ascending(s) && Elems(s) == keys
  {
    if keys == {} {
      assert Ascending([]) && Elems([]) == {};
    } else {
      var k :| k in keys;
      AscendingExists(keys - {k});
      var s :| Ascending(s) && Elems(s) == keys - {k};
      var i := Rank(s, k);
      InsertElems(s, k, i);
    }
  }

  /** Where `k` belongs in an ascending list that does not hold it. */
  lemma {:induction false} Rank(s: seq<Bytes>, k: Bytes) returns (i: nat)
    requires Ascending(s) && k !in s
    ensures i <= |s| && Ascending(s[..i] + [k] + s[i..])
  {
    i := 0;
    while i < |s| && Le(s[i], k)
      invariant i <= |s|
      invariant forall j :: 0 <= j < i ==> Lt(s[j], k)
    {
      i := i + 1;
    }
    InsertKeepsOrder(s, k, i);
  }

  lemma InsertElems(s: seq<Bytes>, k: Bytes, i: nat)
    requires i <= |s|
    ensures Elems(s[..i] + [k] + s[i..]) == Elems(s) + {k}
  {
    assert s == s[..i] + s[i..];
  }

  /** A set has one ascending listing. */
  lemma {:induction false} AscendingUnique(s: seq<Bytes>, t: seq<Bytes>)
    requires Ascending(s) && Ascending(t) && Elems(s) == Elems(t)
    ensures s == t
  {
    assert t != [] ==> t[0] in Elems(t);
    if s != [] {
      assert s[0] in Elems(s) && s[0] in t;
      assert t != [] && t[0] in Elems(t) && t[0] in s;
      var i :| 0 <= i < |t| && t[i] == s[0];
      var j :| 0 <= j < |s| && s[j] == t[0];
      assert i > 0 ==> Lt(t[0], t[i]);
      assert j > 0 ==> Lt(s[0], s[j]);
      if s[0] != t[0] {
        LeAntisymmetric(s[0], t[0]);
      }
      assert Elems(s[1..]) == Elems(s) - {s[0]} by { TailElems(s); }
      assert Elems(t[1..]) == Elems(t) - {t[0]} by { TailElems(t); }
      AscendingUnique(s[1..], t[1..]);
      assert s == [s[0]] + s[1..] && t == [t[0]] + t[1..];
    }
  }

  lemma TailElems(s: seq<Bytes>)
    requires s != [] && Ascending(s)
    ensures Elems(s[1..]) == Elems(s) - {s[0]}
  {
    forall x
      ensures x in Elems(s[1..]) <==> x in Elems(s) - {s[0]}
    {
      if x in s && x != s[0] {
        var i :| 0 <= i < |s| && s[i] == x;
        assert s[1..][i - 1] == x;
      }
    }
  }

  /** List a table's keys in byte order, whatever order they are met in. */
  method ListKeys(keys: set<Bytes>) returns (s: seq<Bytes>)
    ensures s == SortedKeys(keys)
  {
    s := [];
    var todo := keys;
    while todo != {}
      invariant Ascending(s) && todo <= keys && Elems(s) == keys - todo
      decreases todo
    {
      var k :| k in todo;
      var i := 0;
      while i < |s| && Le(s[i], k)
        invariant 0 <= i <= |s|
        invariant forall j :: 0 <= j < i ==> Lt(s[j], k)
      {
        i := i + 1;
      }
      InsertKeepsOrder(s, k, i);
      InsertElems(s, k, i);
      s := s[..i] + [k] + s[i..];
      todo := todo - {k};
    }
    AscendingUnique(s, SortedKeys(keys));
  }

  lemma InsertKeepsOrder(s: seq<Bytes>, k: Bytes, i: nat)
    requires Ascending(s) && k !in s && i <= |s|
    requires forall j :: 0 <= j < i ==> Lt(s[j], k)
    requires i < |s| ==> !Le(s[i], k)
    ensures Ascending(s[..i] + [k] + s[i..])
  {
    if i < |s| {
      LeTotal(s[i], k);
      forall j | i <= j < |s|
        ensures Lt(k, s[j])
      {
        if i < j {
          assert Lt(s[i], s[j]);
          LeTransitive(k, s[i], s[j]);
        }
      }
    }
  }
}
