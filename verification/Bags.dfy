/** Tables as multisets of rows: selection, row-wise images and the union of a fleet's tables. */
module Bags {

  ghost function Filter<T(!new)>(m: multiset<T>, p: T -> bool): multiset<T>
    decreases |m|
  {
    if m == multiset{} then multiset{} else
      var x :| x in m;
      var rest := Filter(m - multiset{x}, p);
      if p(x) then rest + multiset{x} else rest
  }

  lemma FilterPick<T(!new)>(m: multiset<T>, p: T -> bool) returns (x: T)
    requires m != multiset{}
    ensures x in m && Filter(m, p) == Filter(m - multiset{x}, p) + if p(x) then multiset{x} else multiset{}
  {
    x :| x in m && Filter(m, p) == if p(x) then Filter(m - multiset{x}, p) + multiset{x} else Filter(m - multiset{x}, p);
  }

  /** A selection keeps all copies of the rows it keeps. */
  lemma {:induction false} FilterCount<T(!new)>(m: multiset<T>, p: T -> bool, x: T)
    ensures Filter(m, p)[x] == if p(x) then m[x] else 0
    decreases |m|
  {
    if m != multiset{} {
      var y := FilterPick(m, p);
      FilterCount(m - multiset{y}, p, x);
    }
  }

  /** The bag of f(x) for each x of the bag. */
  ghost function Image<T(!new), U>(m: multiset<T>, f: T -> U): multiset<U>
    decreases |m|
  {
    if m == multiset{} then multiset{} else
      var x :| x in m;
      Image(m - multiset{x}, f) + multiset{f(x)}
  }

  lemma FilterAdd<T(!new)>(a: multiset<T>, b: multiset<T>, p: T -> bool)
    ensures Filter(a + b, p) == Filter(a, p) + Filter(b, p)
  {
    forall x ensures Filter(a + b, p)[x] == (Filter(a, p) + Filter(b, p))[x] {
      FilterCount(a + b, p, x);
      FilterCount(a, p, x);
      FilterCount(b, p, x);
    }
  }

  lemma NoneMatch<T(!new)>(m: multiset<T>, p: T -> bool)
    requires forall x :: x in m ==> !p(x)
    ensures Filter(m, p) == multiset{}
  {
    forall x ensures Filter(m, p)[x] == 0 {
      FilterCount(m, p, x);
      assert m[x] > 0 ==> x in m;
    }
  }

  lemma Exchange<T>(a: multiset<T>, b: multiset<T>, c: multiset<T>)
    ensures (a + b) + c == (a + c) + b
  {
  }

  lemma Replaced<T>(m: multiset<T>, x: T, y: T)
    requires y in m && y != x
    ensures (m + multiset{x}) - multiset{y} == (m - multiset{y}) + multiset{x}
    ensures m == (m - multiset{y}) + multiset{y}
  {
  }

  lemma ImagePick<T(!new), U>(m: multiset<T>, f: T -> U) returns (x: T)
    requires m != multiset{}
    ensures x in m && Image(m, f) == Image(m - multiset{x}, f) + multiset{f(x)}
  {
    x :| x in m && Image(m, f) == Image(m - multiset{x}, f) + multiset{f(x)};
  }

  lemma {:induction false} ImageInsert<T(!new), U>(m: multiset<T>, x: T, f: T -> U)
    ensures Image(m + multiset{x}, f) == Image(m, f) + multiset{f(x)}
    decreases |m|
  {
    var all := m + multiset{x};
    assert x in all;
    var y := ImagePick(all, f);
    if y == x {
      assert all - multiset{y} == m;
    } else {
      var less := m - multiset{y};
      Replaced(m, x, y);
      ImageInsert(less, x, f);
      ImageInsert(less, y, f);
      Exchange(Image(less, f), multiset{f(x)}, multiset{f(y)});
    }
  }

  lemma {:induction false} ImageAdd<T(!new), U>(a: multiset<T>, b: multiset<T>, f: T -> U)
    ensures Image(a + b, f) == Image(a, f) + Image(b, f)
    decreases |b|
  {
    if b == multiset{} {
      assert a + b == a;
    } else {
      var x :| x in b;
      var less := b - multiset{x};
      assert b == less + multiset{x};
      assert a + b == (a + less) + multiset{x};
      ImageAdd(a, less, f);
      ImageInsert(a + less, x, f);
      ImageInsert(less, x, f);
    }
  }

  /** All rows of the first n tables. */
  ghost function Union<T>(tables: seq<multiset<T>>, n: nat): multiset<T>
    requires n <= |tables|
  {
    if n == 0 then multiset{} else Union(tables, n - 1) + tables[n - 1]
  }

  ghost function UnionAll<T>(tables: seq<multiset<T>>): multiset<T> {
    Union(tables, |tables|)
  }

  lemma {:induction false} UnionSame<T>(a: seq<multiset<T>>, b: seq<multiset<T>>, n: nat)
    requires n <= |a| && n <= |b| && forall i :: 0 <= i < n ==> a[i] == b[i]
    ensures Union(a, n) == Union(b, n)
  {
    if n > 0 {
      UnionSame(a, b, n - 1);
    }
  }

  /** Replacing one table changes the union by exactly that table. */
  lemma {:induction false} UnionUpdate<T>(tables: seq<multiset<T>>, b: nat, table: multiset<T>, n: nat)
    requires b < n <= |tables|
    ensures Union(tables[b := table], n) + tables[b] == Union(tables, n) + table
  {
    if b == n - 1 {
      UnionSame(tables, tables[b := table], b);
    } else {
      UnionUpdate(tables, b, table, n - 1);
      var last := tables[n - 1];
      Exchange(Union(tables[b := table], n - 1), last, tables[b]);
      Exchange(Union(tables, n - 1), last, table);
    }
  }

  ghost predicate NoneIn<T(!new)>(m: multiset<T>, p: T -> bool) {
    forall x :: x in m ==> !p(x)
  }

  lemma {:induction false} NoTableMatches<T(!new)>(tables: seq<multiset<T>>, p: T -> bool, n: nat)
    requires n <= |tables| && forall i :: 0 <= i < n ==> NoneIn(tables[i], p)
    ensures NoneIn(Union(tables, n), p)
  {
    if n > 0 {
      NoTableMatches(tables, p, n - 1);
      assert NoneIn(tables[n - 1], p);
    }
  }

  lemma MatchInOne<T(!new)>(a: multiset<T>, b: multiset<T>, p: T -> bool)
    requires NoneIn(b, p)
    ensures Filter(a + b, p) == Filter(a, p) && Filter(b + a, p) == Filter(a, p)
  {
    FilterAdd(a, b, p);
    NoneMatch(b, p);
    assert b + a == a + b;
  }

  /** When no other table has a matching row, selecting in table b is selecting everywhere. */
  lemma {:induction false} OneTableSuffices<T(!new)>(tables: seq<multiset<T>>, b: nat, p: T -> bool, n: nat)
    requires b < n <= |tables| && forall i :: 0 <= i < n && i != b ==> NoneIn(tables[i], p)
    ensures Filter(Union(tables, n), p) == Filter(tables[b], p)
  {
    if b == n - 1 {
      NoTableMatches(tables, p, n - 1);
      MatchInOne(tables[n - 1], Union(tables, n - 1), p);
    } else {
      MatchInOne(Union(tables, n - 1), tables[n - 1], p);
      OneTableSuffices(tables, b, p, n - 1);
    }
  }

  /** The bag of all that f makes of each x of the bag. */
  ghost function Produce<T(!new), U>(m: multiset<T>, f: T -> multiset<U>): multiset<U>
    decreases |m|
  {
    if m == multiset{} then multiset{} else
      var x :| x in m;
      Produce(m - multiset{x}, f) + f(x)
  }

  lemma ProducePick<T(!new), U>(m: multiset<T>, f: T -> multiset<U>) returns (x: T)
    requires m != multiset{}
    ensures x in m && Produce(m, f) == Produce(m - multiset{x}, f) + f(x)
  {
    x :| x in m && Produce(m, f) == Produce(m - multiset{x}, f) + f(x);
  }

  lemma {:induction false} ProduceInsert<T(!new), U>(m: multiset<T>, x: T, f: T -> multiset<U>)
    ensures Produce(m + multiset{x}, f) == Produce(m, f) + f(x)
    decreases |m|
  {
    var all := m + multiset{x};
    assert x in all;
    var y := ProducePick(all, f);
    if y == x {
      assert all - multiset{y} == m;
    } else {
      var less := m - multiset{y};
      Replaced(m, x, y);
      ProduceInsert(less, x, f);
      ProduceInsert(less, y, f);
      Exchange(Produce(less, f), f(x), f(y));
    }
  }

  lemma {:induction false} ProduceAdd<T(!new), U>(a: multiset<T>, b: multiset<T>, f: T -> multiset<U>)
    ensures Produce(a + b, f) == Produce(a, f) + Produce(b, f)
    decreases |b|
  {
    if b == multiset{} {
      assert a + b == a;
    } else {
      var x :| x in b;
      var less := b - multiset{x};
      assert b == less + multiset{x};
      assert a + b == (a + less) + multiset{x};
      ProduceAdd(a, less, f);
      ProduceInsert(a + less, x, f);
      ProduceInsert(less, x, f);
    }
  }

  lemma {:induction false} ProduceSame<T(!new), U>(m: multiset<T>, f: T -> multiset<U>, g: T -> multiset<U>)
    requires forall x :: f(x) == g(x)
    ensures Produce(m, f) == Produce(m, g)
    decreases |m|
  {
    if m != multiset{} {
      var x := ProducePick(m, f);
      var less := m - multiset{x};
      ProduceSame(less, f, g);
      assert m == less + multiset{x};
      ProduceInsert(less, x, g);
    }
  }

  /** What two functions make of a bag, put together. */
  lemma {:induction false} ProduceSum<T(!new), U>(
      m: multiset<T>, f: T -> multiset<U>, g: T -> multiset<U>, h: T -> multiset<U>)
    requires forall x :: h(x) == f(x) + g(x)
    ensures Produce(m, h) == Produce(m, f) + Produce(m, g)
    decreases |m|
  {
    if m != multiset{} {
      var x := ProducePick(m, h);
      var less := m - multiset{x};
      ProduceSum(less, f, g, h);
      assert m == less + multiset{x};
      ProduceInsert(less, x, f);
      ProduceInsert(less, x, g);
      Interleave(Produce(less, f), Produce(less, g), f(x), g(x));
    }
  }

  lemma Interleave<T>(a: multiset<T>, b: multiset<T>, c: multiset<T>, d: multiset<T>)
    ensures (a + b) + (c + d) == (a + c) + (b + d)
  {
  }

  /** Something comes of a bag if something comes of one of its members. */
  lemma ProduceSome<T(!new), U>(m: multiset<T>, f: T -> multiset<U>, x: T)
    requires x in m && f(x) != multiset{}
    ensures Produce(m, f) != multiset{}
  {
    assert m == (m - multiset{x}) + multiset{x};
    ProduceInsert(m - multiset{x}, x, f);
    var u :| u in f(x);
    assert u in Produce(m, f);
  }

  lemma DoubledIsEmpty<T>(m: multiset<T>)
    requires m == m + m
    ensures m == multiset{}
  {
    forall t ensures m[t] == 0 {
      assert m[t] == (m + m)[t];
    }
  }

  /** What f makes of each of the first n tables, appended. */
  ghost function Gather<T, U>(tables: seq<multiset<T>>, f: multiset<T> -> multiset<U>, n: nat): multiset<U>
    requires n <= |tables|
  {
    if n == 0 then multiset{} else Gather(tables, f, n - 1) + f(tables[n - 1])
  }

  /** What makes the same of two tables together as of each, makes the same of all of them. */
  lemma {:induction false} GatherAdds<T(!new), U>(tables: seq<multiset<T>>, f: multiset<T> -> multiset<U>, n: nat)
    requires n <= |tables| && forall a, b :: f(a + b) == f(a) + f(b)
    ensures Gather(tables, f, n) == f(Union(tables, n))
  {
    if n == 0 {
      var none := Union(tables, 0);
      assert none + none == none;
      DoubledIsEmpty(f(none));
    } else {
      GatherAdds(tables, f, n - 1);
    }
  }

  function Times(n: nat, k: nat): nat {
    if n == 0 then 0 else Times(n - 1, k) + k
  }

  lemma {:induction false} DifferentTimes(n: nat, k: nat)
    requires k > 0
    ensures n >= 1 ==> Times(n, k) >= k
    ensures n != 1 ==> Times(n, k) != k
  {
    if n > 1 {
      DifferentTimes(n - 1, k);
    }
  }

  lemma {:induction false} GatherSame<T, U>(tables: seq<multiset<T>>, f: multiset<T> -> multiset<U>, table: multiset<T>, n: nat)
    requires n <= |tables| && forall i :: 0 <= i < |tables| ==> tables[i] == table
    ensures |Gather(tables, f, n)| == Times(n, |f(table)|)
  {
    if n > 0 {
      GatherSame(tables, f, table, n - 1);
    }
  }

  lemma {:induction false} ImageMember<T(!new), U>(m: multiset<T>, f: T -> U, u: U) returns (x: T)
    requires u in Image(m, f)
    ensures x in m && f(x) == u
    decreases |m|
  {
    x := ImagePick(m, f);
    if f(x) != u {
      x := ImageMember(m - multiset{x}, f, u);
    }
  }

  lemma FilterMember<T(!new)>(m: multiset<T>, p: T -> bool, x: T)
    ensures x in Filter(m, p) <==> x in m && p(x)
  {
    FilterCount(m, p, x);
  }

  /** A selection and its complement make up the table. */
  lemma FilterSplits<T(!new)>(m: multiset<T>, p: T -> bool, q: T -> bool)
    requires forall x :: q(x) <==> !p(x)
    ensures Filter(m, p) + Filter(m, q) == m
  {
    forall x ensures (Filter(m, p) + Filter(m, q))[x] == m[x] {
      FilterCount(m, p, x);
      FilterCount(m, q, x);
    }
  }

  lemma Cancel<T>(x: multiset<T>, matched: multiset<T>, here: multiset<T>, elsewhere: multiset<T>, made: multiset<T>)
    requires x + (matched + here) == (matched + elsewhere) + (here + made)
    ensures x == elsewhere + made
  {
    forall t ensures x[t] == (elsewhere + made)[t] {
      assert (x + (matched + here))[t] == ((matched + elsewhere) + (here + made))[t];
    }
  }

  /** Replacing the matching rows of table b replaces them in the union, if only b has matching rows. */
  lemma ReplaceMatching<T(!new)>(tables: seq<multiset<T>>, b: nat, p: T -> bool, q: T -> bool, made: multiset<T>)
    requires b < |tables| && (forall x :: q(x) <==> !p(x))
    requires forall i :: 0 <= i < |tables| && i != b ==> NoneIn(tables[i], p)
    ensures UnionAll(tables[b := Filter(tables[b], q) + made]) == Filter(UnionAll(tables), q) + made
    ensures Filter(UnionAll(tables), p) == Filter(tables[b], p)
  {
    var all, here := UnionAll(tables), tables[b];
    OneTableSuffices(tables, b, p, |tables|);
    FilterSplits(all, p, q);
    FilterSplits(here, p, q);
    UnionUpdate(tables, b, Filter(here, q) + made, |tables|);
    Cancel(UnionAll(tables[b := Filter(here, q) + made]), Filter(here, p), Filter(here, q), Filter(all, q), made);
  }

  lemma UnionInsert<T>(tables: seq<multiset<T>>, b: nat, x: T)
    requires b < |tables|
    ensures UnionAll(tables[b := tables[b] + multiset{x}]) == UnionAll(tables) + multiset{x}
  {
    UnionUpdate(tables, b, tables[b] + multiset{x}, |tables|);
    Grown(UnionAll(tables[b := tables[b] + multiset{x}]), UnionAll(tables), tables[b], multiset{x});
  }

  lemma Grown<T>(after: multiset<T>, before: multiset<T>, table: multiset<T>, more: multiset<T>)
    requires after + table == before + (table + more)
    ensures after == before + more
  {
    forall t ensures after[t] == (before + more)[t] {
      assert (after + table)[t] == (before + (table + more))[t];
    }
  }
}
