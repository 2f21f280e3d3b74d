/** Finite tables (maps from row ids to rows) and the folds over them that the other modules use. */
module Tables {

  datatype Option<+T> = None | Some(value: T)

  lemma Element<T>(s: set<T>) returns (x: T)
    requires s != {}
    ensures x in s
  {
    x :| x in s;
  }

  ghost function AnyOf<T>(s: set<T>): (x: T)
    requires s != {}
    ensures x in s
  {
    var x :| x in s; x
  }

  lemma SubsetSize<T>(a: set<T>, b: set<T>)
    requires a <= b
    ensures |a| <= |b|
    ensures |a| == |b| ==> a == b
  {
    assert b == a + (b - a);
  }

  method Least(s: set<int>) returns (least: int)
    requires s != {}
    ensures least in s && forall x :: x in s ==> least <= x
  {
    ghost var any := Element(s);
    least :| least in s;
    var todo := s - {least};
    while todo != {}
      invariant todo <= s && least in s
      invariant forall x :: x in s && x !in todo ==> least <= x
      decreases todo
    {
      any := Element(todo);
      var x :| x in todo;
      if x < least { least := x; }
      todo := todo - {x};
    }
  }

  ghost function AnyKey<K, V>(m: map<K, V>): (k: K)
    requires m != map[]
    ensures k in m
  {
    assert m.Keys != {};
    var k :| k in m.Keys; k
  }

  /** How many rows of a table are `v`: the table as a multiset, without its ids. */
  ghost function Copies<K, V>(m: map<K, V>, v: V): nat
  {
    if m == map[] then 0
    else
      var k := AnyKey(m);
      Copies(m - {k}, v) + if m[k] == v then 1 else 0
  }

  lemma {:induction false} CopiesRemove<K, V>(m: map<K, V>, k: K, v: V)
    requires k in m
    ensures Copies(m, v) == Copies(m - {k}, v) + if m[k] == v then 1 else 0
    decreases |m|
  {
    var j := AnyKey(m);
    if j == k {
    } else {
      CopiesRemove(m - {j}, k, v);
      CopiesRemove(m - {k}, j, v);
      assert m - {j} - {k} == m - {k} - {j};
    }
  }

  lemma CopiesInsert<K, V>(m: map<K, V>, k: K, row: V, v: V)
    requires k !in m
    ensures Copies(m[k := row], v) == Copies(m, v) + if row == v then 1 else 0
  {
    CopiesRemove(m[k := row], k, v);
    assert m[k := row] - {k} == m;
  }

  /** The sum of a measure over the rows of a table. */
  ghost function Total<K, V>(m: map<K, V>, f: V -> int): int
  {
    if m == map[] then 0
    else
      var k := AnyKey(m);
      f(m[k]) + Total(m - {k}, f)
  }

  lemma {:induction false} TotalRemove<K, V>(m: map<K, V>, k: K, f: V -> int)
    requires k in m
    ensures Total(m, f) == f(m[k]) + Total(m - {k}, f)
    decreases |m|
  {
    var j := AnyKey(m);
    if j == k {
    } else {
      TotalRemove(m - {j}, k, f);
      TotalRemove(m - {k}, j, f);
      assert m - {j} - {k} == m - {k} - {j};
    }
  }

  lemma TotalInsert<K, V>(m: map<K, V>, k: K, v: V, f: V -> int)
    requires k !in m
    ensures Total(m[k := v], f) == Total(m, f) + f(v)
  {
    TotalRemove(m[k := v], k, f);
    assert m[k := v] - {k} == m;
  }

  lemma TotalUpdate<K, V>(m: map<K, V>, k: K, v: V, f: V -> int)
    requires k in m
    ensures Total(m[k := v], f) == Total(m, f) - f(m[k]) + f(v)
  {
    TotalRemove(m, k, f);
    TotalRemove(m[k := v], k, f);
    assert m[k := v] - {k} == m - {k};
  }

  lemma KeyOf<K, V>(m: map<K, V>, v: V) returns (k: K)
    requires v in m.Values
    ensures k in m && m[k] == v
  {
    k :| k in m && m[k] == v;
  }

  /** A table whose values are pairwise different has as many values as keys. */
  lemma {:induction false} InjectiveSize<K, V>(m: map<K, V>)
    requires forall a, b :: a in m && b in m && m[a] == m[b] ==> a == b
    ensures |m.Keys| == |m.Values|
    decreases |m|
  {
    if m != map[] {
      var k := AnyKey(m);
      var rest := m - {k};
      InjectiveSize(rest);
      assert m.Keys == rest.Keys + {k};
      assert m.Values == rest.Values + {m[k]};
      assert m[k] !in rest.Values;
    } else {
      assert m.Keys == {} && m.Values == {};
    }
  }
}
