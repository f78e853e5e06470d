/** What a FROM clause over one sharded table produces, and when that can be done Burrow by Burrow. */
module Joins {
  import opened Text
  import opened Router
  import opened Meaning
  import opened Analysis
  import opened Bags
  import opened LogicalTable

  /** One row per item, None where an outer join adds NULLs. */
  type Joined = seq<Option<Row>>

  /** What the functions in FROM return, given the rows to their left, and where the join conditions hold.
      Both are the same on every Burrow, and otherwise any functions at all. */
  datatype Sources = Sources(rows: (int, Joined) -> multiset<Row>, holds: (int, Joined) -> bool)

  function Leaves(item: FromItem): seq<Relation> {
    match item
    case Physical(relation) => [relation]
    case Function(_) => []
    case Joining(_, left, right, _) => Leaves(left) + Leaves(right)
  }

  predicate HasTable(item: FromItem) {
    Leaves(item) != []
  }

  function Width(item: FromItem): nat {
    match item case Joining(_, left, right, _) => Width(left) + Width(right) case _ => 1
  }

  /** Some outer join keeps every row of a side that is not the table's. */
  predicate Preserves(item: FromItem) {
    item.Joining? &&
    (Preserves(item.left) || Preserves(item.right)
     || (HasTable(item.right) && (item.kind.LeftOuter? || item.kind.FullOuter?))
     || (HasTable(item.left) && (item.kind.RightOuter? || item.kind.FullOuter?)))
  }

  /** A list of FROM items is a chain of unconditional joins. */
  function Tree(from: seq<FromItem>): FromItem
    requires from != []
  {
    if |from| == 1 then from[0] else Joining(Inner, Tree(from[..|from| - 1]), from[|from| - 1], None)
  }

  // ------------------------------------------------------------------------------------- rows

  function Nulls(n: nat): Joined {
    seq(n, _ => None)
  }

  function Holds(on: Option<int>, j: Joined, src: Sources): bool {
    match on case None => true case Some(id) => src.holds(id, j)
  }

  /** The pairs of one row of the left side, and of one of the right. */
  ghost function Pairs(a: Joined, bs: multiset<Joined>, on: Option<int>, outer: Joined, src: Sources): multiset<Joined> {
    Produce(bs, b => if Holds(on, outer + a + b, src) then multiset{a + b} else multiset{})
  }

  ghost function Partners(b: Joined, lefts: multiset<Joined>, on: Option<int>, outer: Joined, src: Sources): multiset<Joined> {
    Produce(lefts, a => if Holds(on, outer + a + b, src) then multiset{a + b} else multiset{})
  }

  ghost function OrElse(rows: multiset<Joined>, row: Joined): multiset<Joined> {
    if rows == multiset{} then multiset{row} else rows
  }

  /** What a row of the left side is joined to; the right side may look at it. */
  ghost function PerLeft(
      keep: bool, right: FromItem, on: Option<int>, outer: Joined, table: Table, src: Sources): Joined -> multiset<Joined>
    decreases right, 1
  {
    a =>
      var pairs := Pairs(a, FromRows(right, outer + a, table, src), on, outer, src);
      if keep then OrElse(pairs, a + Nulls(Width(right))) else pairs
  }

  /** What a row of the right side is joined to in a RIGHT JOIN. */
  ghost function PerRight(width: nat, lefts: multiset<Joined>, on: Option<int>, outer: Joined, src: Sources): Joined -> multiset<Joined> {
    b => OrElse(Partners(b, lefts, on, outer, src), Nulls(width) + b)
  }

  /** What a row of the right side adds to a FULL JOIN. */
  ghost function Unpaired(width: nat, lefts: multiset<Joined>, on: Option<int>, outer: Joined, src: Sources): Joined -> multiset<Joined> {
    b => if Partners(b, lefts, on, outer, src) == multiset{} then multiset{Nulls(width) + b} else multiset{}
  }

  /** The rows of a FROM item beside the rows to its left. */
  ghost function FromRows(item: FromItem, outer: Joined, table: Table, src: Sources): multiset<Joined>
    decreases item, 0
  {
    match item
    case Physical(_) => Image(table, row => [Some(row)])
    case Function(id) => Image(src.rows(id, outer), row => [Some(row)])
    case Joining(kind, left, right, on) =>
      var lefts := FromRows(left, outer, table, src);
      match kind
      case Inner => Produce(lefts, PerLeft(false, right, on, outer, table, src))
      case LeftOuter => Produce(lefts, PerLeft(true, right, on, outer, table, src))
      case RightOuter => Produce(FromRows(right, outer, table, src), PerRight(Width(left), lefts, on, outer, src))
      case FullOuter =>
        Produce(lefts, PerLeft(true, right, on, outer, table, src))
        + Produce(FromRows(right, outer, table, src), Unpaired(Width(left), lefts, on, outer, src))
  }

  // --------------------------------------------------------------------------- table by table

  /** Different bags, the same made of each member. */
  lemma ProduceOver<T(!new), U>(
      ab: multiset<T>, a: multiset<T>, b: multiset<T>, fab: T -> multiset<U>, fa: T -> multiset<U>, fb: T -> multiset<U>)
    requires ab == a + b && forall x :: fab(x) == fa(x) && fab(x) == fb(x)
    ensures Produce(ab, fab) == Produce(a, fa) + Produce(b, fb)
  {
    ProduceAdd(a, b, fab);
    ProduceSame(a, fab, fa);
    ProduceSame(b, fab, fb);
  }

  lemma {:induction false} Independent(item: FromItem, outer: Joined, a: Table, b: Table, src: Sources)
    requires !HasTable(item)
    ensures FromRows(item, outer, a, src) == FromRows(item, outer, b, src)
    decreases item
  {
    if item.Joining? {
      Independent(item.left, outer, a, b, src);
      Independent(item.right, outer, a, b, src);
      forall row: Joined, keep: bool
        ensures PerLeft(keep, item.right, item.on, outer, a, src)(row) == PerLeft(keep, item.right, item.on, outer, b, src)(row)
      {
        Independent(item.right, outer + row, a, b, src);
      }
      SamePerLeft(item, outer, a, b, src);
    }
  }

  lemma SamePerLeft(item: FromItem, outer: Joined, a: Table, b: Table, src: Sources)
    requires item.Joining?
    requires FromRows(item.left, outer, a, src) == FromRows(item.left, outer, b, src)
    requires FromRows(item.right, outer, a, src) == FromRows(item.right, outer, b, src)
    requires forall row: Joined, keep: bool ::
      PerLeft(keep, item.right, item.on, outer, a, src)(row) == PerLeft(keep, item.right, item.on, outer, b, src)(row)
    ensures FromRows(item, outer, a, src) == FromRows(item, outer, b, src)
  {
    var lefts := FromRows(item.left, outer, a, src);
    if !item.kind.RightOuter? {
      var keep := !item.kind.Inner?;
      ProduceSame(lefts, PerLeft(keep, item.right, item.on, outer, a, src), PerLeft(keep, item.right, item.on, outer, b, src));
    }
  }

  /** With one table in it, and no outer join that keeps another side, a FROM item produces from two tables
      together what it produces from each. */
  lemma {:induction false} Additive(item: FromItem, outer: Joined, a: Table, b: Table, src: Sources)
    requires |Leaves(item)| == 1 && !Preserves(item)
    ensures FromRows(item, outer, a + b, src) == FromRows(item, outer, a, src) + FromRows(item, outer, b, src)
    decreases item
  {
    match item {
      case Physical(_) => ImageAdd(a, b, row => [Some(row)]);
      case Function(_) =>
      case Joining(kind, left, right, on) =>
        if HasTable(left) {
          TableOnLeft(item, outer, a, b, src);
        } else {
          TableOnRight(item, outer, a, b, src);
        }
    }
  }

  lemma {:induction false} TableOnLeft(item: FromItem, outer: Joined, a: Table, b: Table, src: Sources)
    requires item.Joining? && |Leaves(item)| == 1 && !Preserves(item) && HasTable(item.left)
    ensures FromRows(item, outer, a + b, src) == FromRows(item, outer, a, src) + FromRows(item, outer, b, src)
    decreases item, 0
  {
    Additive(item.left, outer, a, b, src);
    var keep := item.kind.LeftOuter?;
    var fab := PerLeft(keep, item.right, item.on, outer, a + b, src);
    var fa := PerLeft(keep, item.right, item.on, outer, a, src);
    var fb := PerLeft(keep, item.right, item.on, outer, b, src);
    forall row: Joined ensures fab(row) == fa(row) && fab(row) == fb(row) {
      Independent(item.right, outer + row, a + b, a, src);
      Independent(item.right, outer + row, a + b, b, src);
    }
    ProduceOver(FromRows(item.left, outer, a + b, src), FromRows(item.left, outer, a, src), FromRows(item.left, outer, b, src),
                fab, fa, fb);
  }

  lemma {:induction false} TableOnRight(item: FromItem, outer: Joined, a: Table, b: Table, src: Sources)
    requires item.Joining? && |Leaves(item)| == 1 && !Preserves(item) && !HasTable(item.left)
    ensures FromRows(item, outer, a + b, src) == FromRows(item, outer, a, src) + FromRows(item, outer, b, src)
    decreases item, 0
  {
    Independent(item.left, outer, a + b, a, src);
    Independent(item.left, outer, a + b, b, src);
    var lefts := FromRows(item.left, outer, a, src);
    if item.kind.Inner? {
      var fab := PerLeft(false, item.right, item.on, outer, a + b, src);
      var fa := PerLeft(false, item.right, item.on, outer, a, src);
      var fb := PerLeft(false, item.right, item.on, outer, b, src);
      forall row: Joined ensures fab(row) == fa(row) + fb(row) {
        Additive(item.right, outer + row, a, b, src);
        PairsAdd(row, FromRows(item.right, outer + row, a, src), FromRows(item.right, outer + row, b, src), item.on, outer, src);
      }
      ProduceSum(lefts, fa, fb, fab);
    } else {
      Additive(item.right, outer, a, b, src);
      var f := PerRight(Width(item.left), lefts, item.on, outer, src);
      ProduceAdd(FromRows(item.right, outer, a, src), FromRows(item.right, outer, b, src), f);
    }
  }

  lemma PairsAdd(row: Joined, a: multiset<Joined>, b: multiset<Joined>, on: Option<int>, outer: Joined, src: Sources)
    ensures Pairs(row, a + b, on, outer, src) == Pairs(row, a, on, outer, src) + Pairs(row, b, on, outer, src)
  {
    ProduceAdd(a, b, (right: Joined) => if Holds(on, outer + row + right, src) then multiset{row + right} else multiset{});
  }

  // ------------------------------------------------------------------- rows of nobody's table

  /** Functions that return rows, conditions that hold. */
  ghost predicate Plentiful(src: Sources) {
    (forall id, j :: src.rows(id, j) != multiset{}) && (forall id, j :: src.holds(id, j))
  }

  lemma PairsSome(a: Joined, bs: multiset<Joined>, on: Option<int>, outer: Joined, src: Sources)
    requires Plentiful(src) && bs != multiset{}
    ensures Pairs(a, bs, on, outer, src) != multiset{}
  {
    var b :| b in bs;
    ProduceSome(bs, (right: Joined) => if Holds(on, outer + a + right, src) then multiset{a + right} else multiset{}, b);
  }

  lemma ImageSome(rows: multiset<Row>)
    requires rows != multiset{}
    ensures Image(rows, (row: Row) => [Some(row)]) != multiset{}
  {
    var row := ImagePick(rows, (r: Row) => [Some(r)]);
    assert [Some(row)] in Image(rows, (r: Row) => [Some(r)]);
  }

  /** Without a table, or with an outer join that keeps another side than its, a FROM item can produce rows
      whatever the table holds, even nothing. */
  lemma {:induction false} RowsFromNothing(item: FromItem, outer: Joined, table: Table, src: Sources)
    requires Plentiful(src) && |Leaves(item)| <= 1 && (!HasTable(item) || Preserves(item))
    ensures FromRows(item, outer, table, src) != multiset{}
    decreases item
  {
    match item {
      case Physical(_) =>
      case Function(id) =>
        ImageSome(src.rows(id, outer));
      case Joining(kind, left, right, on) => JoinFromNothing(item, outer, table, src);
    }
  }

  lemma {:induction false} PreservesHasTable(item: FromItem)
    requires Preserves(item)
    ensures HasTable(item)
  {
    if Preserves(item.left) {
      PreservesHasTable(item.left);
    } else if Preserves(item.right) {
      PreservesHasTable(item.right);
    }
  }

  lemma {:induction false} JoinFromNothing(item: FromItem, outer: Joined, table: Table, src: Sources)
    requires Plentiful(src) && item.Joining? && |Leaves(item)| <= 1 && (!HasTable(item) || Preserves(item))
    ensures FromRows(item, outer, table, src) != multiset{}
    decreases item, 0
  {
    var left, right := item.left, item.right;
    if Preserves(left) {
      PreservesHasTable(left);
    }
    if Preserves(right) {
      PreservesHasTable(right);
    }
    if item.kind.Inner? {
      RowsFromNothing(left, outer, table, src);
      var a :| a in FromRows(left, outer, table, src);
      RowsFromNothing(right, outer + a, table, src);
      InnerFromNothing(item, outer, table, src, a);
    } else if !item.kind.RightOuter? && (!HasTable(left) || Preserves(left)) {
      RowsFromNothing(left, outer, table, src);
      LeftFromNothing(item, outer, table, src);
    } else {
      RowsFromNothing(right, outer, table, src);
      RightFromNothing(item, outer, table, src);
    }
  }

  lemma InnerFromNothing(item: FromItem, outer: Joined, table: Table, src: Sources, a: Joined)
    requires Plentiful(src) && item.Joining? && item.kind.Inner? && a in FromRows(item.left, outer, table, src)
    requires FromRows(item.right, outer + a, table, src) != multiset{}
    ensures FromRows(item, outer, table, src) != multiset{}
  {
    PairsSome(a, FromRows(item.right, outer + a, table, src), item.on, outer, src);
    ProduceSome(FromRows(item.left, outer, table, src), PerLeft(false, item.right, item.on, outer, table, src), a);
    JoinRows(item, outer, table, src);
  }

  lemma OrElseSome(rows: multiset<Joined>, row: Joined)
    ensures OrElse(rows, row) != multiset{}
  {
    if rows == multiset{} {
      assert row in OrElse(rows, row);
    }
  }

  lemma KeepsLeft(right: FromItem, on: Option<int>, outer: Joined, table: Table, src: Sources, lefts: multiset<Joined>)
    requires lefts != multiset{}
    ensures Produce(lefts, PerLeft(true, right, on, outer, table, src)) != multiset{}
  {
    var a :| a in lefts;
    OrElseSome(Pairs(a, FromRows(right, outer + a, table, src), on, outer, src), a + Nulls(Width(right)));
    ProduceSome(lefts, PerLeft(true, right, on, outer, table, src), a);
  }

  lemma JoinRows(item: FromItem, outer: Joined, table: Table, src: Sources)
    requires item.Joining?
    ensures var lefts, rights := FromRows(item.left, outer, table, src), FromRows(item.right, outer, table, src);
      var kept := Produce(lefts, PerLeft(!item.kind.Inner?, item.right, item.on, outer, table, src));
      FromRows(item, outer, table, src) ==
        if item.kind.RightOuter? then Produce(rights, PerRight(Width(item.left), lefts, item.on, outer, src))
        else if item.kind.FullOuter? then kept + Produce(rights, Unpaired(Width(item.left), lefts, item.on, outer, src))
        else kept
  {
  }

  lemma SomeAndMore(a: multiset<Joined>, b: multiset<Joined>)
    requires a != multiset{} || b != multiset{}
    ensures a + b != multiset{}
  {
    var x :| x in a || x in b;
    assert x in a + b;
  }

  lemma LeftFromNothing(item: FromItem, outer: Joined, table: Table, src: Sources)
    requires item.Joining? && (item.kind.LeftOuter? || item.kind.FullOuter?)
    requires FromRows(item.left, outer, table, src) != multiset{}
    ensures FromRows(item, outer, table, src) != multiset{}
  {
    var lefts, rights := FromRows(item.left, outer, table, src), FromRows(item.right, outer, table, src);
    KeepsLeft(item.right, item.on, outer, table, src, lefts);
    JoinRows(item, outer, table, src);
    SomeAndMore(Produce(lefts, PerLeft(true, item.right, item.on, outer, table, src)),
                Produce(rights, Unpaired(Width(item.left), lefts, item.on, outer, src)));
  }

  lemma KeepsRight(width: nat, lefts: multiset<Joined>, on: Option<int>, outer: Joined, src: Sources, rights: multiset<Joined>)
    requires rights != multiset{}
    ensures Produce(rights, PerRight(width, lefts, on, outer, src)) != multiset{}
  {
    var b :| b in rights;
    OrElseSome(Partners(b, lefts, on, outer, src), Nulls(width) + b);
    ProduceSome(rights, PerRight(width, lefts, on, outer, src), b);
  }

  lemma AddsUnpaired(width: nat, on: Option<int>, outer: Joined, src: Sources, rights: multiset<Joined>)
    requires rights != multiset{}
    ensures Produce(rights, Unpaired(width, multiset{}, on, outer, src)) != multiset{}
  {
    var b :| b in rights;
    assert Nulls(width) + b in multiset{Nulls(width) + b};
    ProduceSome(rights, Unpaired(width, multiset{}, on, outer, src), b);
  }

  lemma RightFromNothing(item: FromItem, outer: Joined, table: Table, src: Sources)
    requires item.Joining? && (item.kind.RightOuter? || item.kind.FullOuter?)
    requires FromRows(item.right, outer, table, src) != multiset{}
    ensures FromRows(item, outer, table, src) != multiset{}
  {
    var lefts, rights := FromRows(item.left, outer, table, src), FromRows(item.right, outer, table, src);
    JoinRows(item, outer, table, src);
    if item.kind.RightOuter? {
      KeepsRight(Width(item.left), lefts, item.on, outer, src, rights);
    } else if lefts == multiset{} {
      AddsUnpaired(Width(item.left), item.on, outer, src, rights);
      SomeAndMore(Produce(lefts, PerLeft(true, item.right, item.on, outer, table, src)),
                  Produce(rights, Unpaired(Width(item.left), lefts, item.on, outer, src)));
    } else {
      LeftFromNothing(item, outer, table, src);
    }
  }

  // ------------------------------------------------------------------------------- whole lists

  lemma {:induction false} TreeLeaves(from: seq<FromItem>)
    requires from != []
    ensures Leaves(Tree(from)) == LeavesOf(from)
  {
    if |from| == 1 {
      assert from[..0] == [] && LeavesOf([]) + Leaves(from[0]) == Leaves(from[0]);
    } else {
      TreeLeaves(from[..|from| - 1]);
    }
  }

  /** The tables of a FROM clause. */
  function LeavesOf(from: seq<FromItem>): seq<Relation> {
    if from == [] then [] else LeavesOf(from[..|from| - 1]) + Leaves(from[|from| - 1])
  }
}
