/** What a SELECT answers, and when the Proxy's answer is the one the logical table gives. */
module LogicalReads {
  import opened Text
  import opened Router
  import opened Meaning
  import opened Analysis
  import opened Bags
  import opened LogicalTable
  import opened Joins

  // ----------------------------------------------------------------------------------- answers

  ghost function Kept(where: Option<Pred>, cx: Context): Row -> bool {
    match where case None => row => true case Some(p) => Matcher(p, cx)
  }

  /** What a SELECT computes beyond the rows of the table: other sources, functions and conditions in FROM,
      the WHERE clause of a join, and the steps that look at more than one row.  Each is any function at all. */
  datatype Steps<!A> = Steps(
    elsewhere: Table -> multiset<A>,
    sources: Sources,
    where: Joined -> bool,
    group: multiset<Joined> -> multiset<A>,
    windows: multiset<A> -> multiset<A>,
    unique: multiset<A> -> multiset<A>,
    cut: multiset<A> -> multiset<A>)

  /** One table gives the rows, by itself or joined with functions. */
  predicate OneSource(s: Statement)
    requires s.Select?
  {
    !s.shape.setOperation && !s.shape.withClause && |s.relations| == 1 && s.from != []
  }

  /** FROM is the table by itself. */
  predicate Bare(s: Statement)
    requires s.Select?
  {
    |s.from| == 1 && s.from[0].Physical?
  }

  /** Rows are gathered before the select list is computed: groups, aggregates, sub-SELECTs. */
  predicate Groups(shape: Shape) {
    shape.group || shape.groupDistinct || shape.having || shape.selects > 1
    || exists i :: 0 <= i < |shape.calls| && shape.calls[i].aggregate && !shape.calls[i].over
  }

  predicate Windows(shape: Shape) {
    shape.window || exists i :: 0 <= i < |shape.calls| && shape.calls[i].over
  }

  ghost function When<A>(present: bool, step: multiset<A> -> multiset<A>, rows: multiset<A>): multiset<A> {
    if present then step(rows) else rows
  }

  ghost function JoinWhere<A>(s: Statement, steps: Steps<A>): Joined -> bool
    requires s.Select?
  {
    if s.where.None? then j => true else steps.where
  }

  /** The rows FROM and WHERE give. */
  ghost function Source<A>(s: Statement, cx: Context, steps: Steps<A>, table: Table): multiset<Joined>
    requires s.Select? && s.from != []
  {
    if Bare(s) then Image(Filter(table, Kept(s.where, cx)), row => [Some(row)])
    else Filter(FromRows(Tree(s.from), [], table, steps.sources), JoinWhere(s, steps))
  }

  /** The answer of a SELECT over a table, in the order PostgreSQL evaluates its clauses: FROM, WHERE, grouping
      or the select list row by row, windows, DISTINCT, LIMIT.  A row may give several, by a set-returning
      select list.  Answers are multisets: ORDER BY and row locks do not change them. */
  ghost function Answer<A>(
      s: Statement, cx: Context, project: Joined -> multiset<A>, steps: Steps<A>, table: Table): multiset<A>
    requires s.Select?
  {
    if !OneSource(s) then
      steps.elsewhere(table)
    else
      var kept := Source(s, cx, steps, table);
      var rows := if Groups(s.shape) then steps.group(kept) else Produce(kept, project);
      When(s.shape.limit, steps.cut,
           When(s.shape.distinct, steps.unique, When(Windows(s.shape), steps.windows, rows)))
  }

  ghost function Answering<A>(
      s: Statement, cx: Context, project: Joined -> multiset<A>, steps: Steps<A>): Table -> multiset<A>
    requires s.Select?
  {
    table => Answer(s, cx, project, steps, table)
  }

  /** The answers of all Burrows, appended. */
  ghost function Gathered<A>(
      s: Statement, cx: Context, project: Joined -> multiset<A>, steps: Steps<A>, tables: seq<Table>): multiset<A>
    requires s.Select?
  {
    Gather(tables, Answering(s, cx, project, steps), |tables|)
  }

  // ------------------------------------------------------------------------------ routed reads

  /** A SELECT from the table by its key, in its context. */
  ghost predicate Readable(s: Statement, cx: Context, site: Site) {
    s.Select? && !s.into && Faithful(cx) && OnTable(s, cx, site.table, site.fleet) && WhereExact(s.where, site, cx)
  }

  /** A routed SELECT answers on its one Burrow what it would answer on the logical table, aggregates,
      DISTINCT and LIMIT included. */
  lemma RoutedReadAgrees<A>(
      tables: seq<Table>, logical: Table, s: Statement, cx: Context, site: Site, b: nat, project: Joined -> multiset<A>,
      steps: Steps<A>)
    requires site.Valid() && Represents(tables, logical, site) && Readable(s, cx, site) && b < |tables|
    requires Analyze(s, cx.parameters, site.fleet).target == Some(site.fleet.burrows[b])
    ensures Filter(tables[b], Kept(s.where, cx)) == Filter(logical, Kept(s.where, cx))
    ensures Answer(s, cx, project, steps, tables[b]) == Answer(s, cx, project, steps, logical)
  {
    RoutedIsPlain(s, cx, site);
    var p := Kept(s.where, cx);
    forall row | p(row) ensures Owned(row, site, site.fleet.burrows[b]) {
      RoutedRowsAreOwned(s, cx, site.table, site.fleet, row);
    }
    OnlyOnOwner(tables, site, p, b);
    OneTableSuffices(tables, b, p, |tables|);
  }

  // --------------------------------------------------------------------------- scattered reads

  /** Without sub-SELECTs and the like, the relations a SELECT names are the tables of its FROM clause. */
  predicate WellNamed(s: Statement)
    requires s.Select?
  {
    !s.shape.setOperation && !s.shape.withClause && s.shape.selects <= 1 && !s.shape.locking ==>
      |s.relations| == |LeavesOf(s.from)| && forall i :: 0 <= i < |s.relations| ==> s.relations[i] == RelationName(LeavesOf(s.from)[i])
  }

  /** A SELECT over the table that the Proxy sends to every Burrow. */
  predicate Scattered(s: Statement, cx: Context, site: Site) {
    && s.Select? && !s.into && WellNamed(s) && s.relations == [site.table] && site.fleet.burrows != []
    && Decide(Analyze(s, cx.parameters, site.fleet)) == Scatter
  }

  /** Every aggregate or window function called is one the router can see. */
  predicate AggregatesVisible(calls: seq<Call>) {
    forall i :: 0 <= i < |calls| && (calls[i].aggregate || calls[i].over) ==> Visible(calls[i])
  }

  /** An outer join in FROM keeps every row of a side that is not the table's. */
  predicate KeepsOthers(s: Statement)
    requires s.Select?
  {
    s.from != [] && Preserves(Tree(s.from))
  }

  /** Whatever the SELECT computes and whatever the table holds, the appended answers are the logical one. */
  ghost predicate Appendable<A(!new)>(s: Statement, cx: Context, site: Site)
    requires s.Select? && site.Valid()
  {
    forall project: Joined -> multiset<A>, steps: Steps<A>, tables: seq<Table>, logical: Table ::
      Represents(tables, logical, site) ==>
        Gathered(s, cx, project, steps, tables) == Answer(s, cx, project, steps, logical)
  }

  /** One table, and no DISTINCT or LIMIT. */
  predicate Unreduced(s: Statement)
    requires s.Select?
  {
    OneSource(s) && |Leaves(Tree(s.from))| == 1 && !s.shape.distinct && !s.shape.limit
  }

  /** Nothing in the SELECT looks at more than one row of the table. */
  predicate RowWise(s: Statement)
    requires s.Select?
  {
    Unreduced(s) && !KeepsOthers(s) && !Groups(s.shape) && !Windows(s.shape)
  }

  lemma SourceAdds<A>(s: Statement, cx: Context, steps: Steps<A>, a: Table, b: Table)
    requires s.Select? && RowWise(s)
    ensures Source(s, cx, steps, a + b) == Source(s, cx, steps, a) + Source(s, cx, steps, b)
  {
    if Bare(s) {
      FilterAdd(a, b, Kept(s.where, cx));
      ImageAdd(Filter(a, Kept(s.where, cx)), Filter(b, Kept(s.where, cx)), row => [Some(row)]);
    } else {
      Additive(Tree(s.from), [], a, b, steps.sources);
      FilterAdd(FromRows(Tree(s.from), [], a, steps.sources), FromRows(Tree(s.from), [], b, steps.sources), JoinWhere(s, steps));
    }
  }

  lemma AnswerAdds<A>(s: Statement, cx: Context, project: Joined -> multiset<A>, steps: Steps<A>, a: Table, b: Table)
    requires s.Select? && RowWise(s)
    ensures Answer(s, cx, project, steps, a + b) == Answer(s, cx, project, steps, a) + Answer(s, cx, project, steps, b)
  {
    SourceAdds(s, cx, steps, a, b);
    ProduceAdd(Source(s, cx, steps, a), Source(s, cx, steps, b), project);
  }

  /** What the router lets through a scattered SELECT. */
  lemma ScatteredShape(s: Statement, cx: Context, site: Site)
    requires Scattered(s, cx, site)
    ensures Unreduced(s) && !s.shape.sort && !s.shape.locking
    ensures RowWise(s) <==> AggregatesVisible(s.shape.calls) && !KeepsOthers(s)
  {
    assert !UnsafeScatter(s.shape, |s.relations|);
    TreeLeaves(s.from);
    forall i | 0 <= i < |s.shape.calls| ensures !Visible(s.shape.calls[i]) {
    }
  }

  /** A SELECT from the table that looks at one row at a time, without ORDER BY, row locks and calls that
      look like an aggregate, is answered: by the owner of the key it fixes, or by every Burrow. */
  lemma RowWiseIsAnswered(s: Statement, cx: Context, site: Site)
    requires s.Select? && !s.into && OnTable(s, cx, site.table, site.fleet) && s.relations == [site.table]
    requires RowWise(s) && !s.shape.sort && !s.shape.locking && !HasAggregateOrWindow(s.shape.calls)
    ensures var target := KeyOwner(s, cx.parameters, site.table, site.fleet);
      Decide(Analyze(s, cx.parameters, site.fleet)) == if target.Some? then Send(target.value) else Scatter
  {
    ReadDecision(s, cx, site.table, site.fleet);
    assert !UnsafeScatter(s.shape, 1);
  }

  /** The aggregates of PostgreSQL 17, section 9.21 of its documentation: general ones, those that build JSON,
      and statistical ones. */
  predicate GeneralAggregate(name: string) {
    name in ["any_value", "array_agg", "avg", "bit_and", "bit_or", "bit_xor", "bool_and", "bool_or", "count", "every",
             "max", "min", "range_agg", "range_intersect_agg", "string_agg", "sum", "xmlagg"]
  }

  predicate JsonAggregate(name: string) {
    name in ["json_agg", "json_agg_strict", "jsonb_agg", "jsonb_agg_strict", "json_object_agg", "json_object_agg_strict",
             "json_object_agg_unique", "json_object_agg_unique_strict", "jsonb_object_agg", "jsonb_object_agg_strict",
             "jsonb_object_agg_unique", "jsonb_object_agg_unique_strict"]
  }

  predicate StatisticalAggregate(name: string) {
    name in ["corr", "covar_pop", "covar_samp", "regr_avgx", "regr_avgy", "regr_count", "regr_intercept", "regr_r2",
             "regr_slope", "regr_sxx", "regr_sxy", "regr_syy", "stddev", "stddev_pop", "stddev_samp", "variance",
             "var_pop", "var_samp"]
  }

  /** A SELECT from the table that calls one of them, in any case, and fixes no key is refused. */
  lemma AggregatesAreRefused(s: Statement, cx: Context, site: Site, call: Call)
    requires s.Select? && !s.into && OnTable(s, cx, site.table, site.fleet) && s.relations == [site.table]
    requires KeyOwner(s, cx.parameters, site.table, site.fleet).None? && call in s.shape.calls && call.plain
    requires var name := ToLower(call.name); GeneralAggregate(name) || JsonAggregate(name) || StatisticalAggregate(name)
    ensures Decide(Analyze(s, cx.parameters, site.fleet)) == Refuse
  {
    GeneralAreBuiltIn(ToLower(call.name));
    JsonAreBuiltIn(ToLower(call.name));
    StatisticalAreBuiltIn(ToLower(call.name));
    assert Visible(call);
    ReadDecision(s, cx, site.table, site.fleet);
  }

  lemma GeneralAreBuiltIn(name: string)
    ensures GeneralAggregate(name) ==> BuiltInAggregate(name)
  {
  }

  lemma JsonAreBuiltIn(name: string)
    ensures JsonAggregate(name) ==> BuiltInAggregate(name)
  {
  }

  lemma StatisticalAreBuiltIn(name: string)
    ensures StatisticalAggregate(name) ==> BuiltInAggregate(name)
  {
  }

  lemma EmptyRepresents(site: Site)
    requires site.Valid()
    ensures Represents(seq(|site.fleet.burrows|, _ => multiset{}), multiset{}, site)
  {
    var tables: seq<Table> := seq(|site.fleet.burrows|, _ => multiset{});
    EmptyUnion(tables, |tables|);
  }

  lemma {:induction false} EmptyUnion(tables: seq<Table>, n: nat)
    requires n <= |tables| && forall i :: 0 <= i < n ==> tables[i] == multiset{}
    ensures Union(tables, n) == multiset{}
  {
    if n > 0 {
      EmptyUnion(tables, n - 1);
    }
  }

  lemma RowWiseAppendable<A(!new)>(s: Statement, cx: Context, site: Site)
    requires s.Select? && site.Valid() && RowWise(s)
    ensures Appendable<A>(s, cx, site)
  {
    forall project: Joined -> multiset<A>, steps: Steps<A>, tables: seq<Table>, logical: Table | Represents(tables, logical, site)
      ensures Gathered(s, cx, project, steps, tables) == Answer(s, cx, project, steps, logical)
    {
      forall a, b ensures Answer(s, cx, project, steps, a + b) == Answer(s, cx, project, steps, a) + Answer(s, cx, project, steps, b) {
        AnswerAdds(s, cx, project, steps, a, b);
      }
      GatherAdds(tables, Answering(s, cx, project, steps), |tables|);
    }
  }

  lemma OneBurrowAppendable<A(!new)>(s: Statement, cx: Context, site: Site)
    requires s.Select? && site.Valid() && |site.fleet.burrows| == 1
    ensures Appendable<A>(s, cx, site)
  {
    forall project: Joined -> multiset<A>, steps: Steps<A>, tables: seq<Table>, logical: Table | Represents(tables, logical, site)
      ensures Gathered(s, cx, project, steps, tables) == Answer(s, cx, project, steps, logical)
    {
      OneBurrow(s, cx, project, steps, tables);
    }
  }

  lemma OneBurrow<A>(s: Statement, cx: Context, project: Joined -> multiset<A>, steps: Steps<A>, tables: seq<Table>)
    requires s.Select? && |tables| == 1
    ensures Gathered(s, cx, project, steps, tables) == Answer(s, cx, project, steps, UnionAll(tables))
  {
    assert Gather(tables, Answering(s, cx, project, steps), 0) == multiset{} && Union(tables, 0) == multiset{};
    assert Union(tables, 1) == tables[0];
  }

  // ------------------------------------------------------------ answers that cannot be appended

  /** An aggregate that answers a row for any table, functions that return a row, conditions that hold. */
  ghost function OneRow<A>(a: A): Steps<A> {
    Steps(_ => multiset{}, Sources((_, _) => multiset{map[]}, (_, _) => true), _ => true, _ => multiset{a},
          _ => multiset{a}, m => m, m => m)
  }

  lemma FilterAll<T(!new)>(m: multiset<T>, p: T -> bool)
    requires forall x :: p(x)
    ensures Filter(m, p) == m
  {
    forall x ensures Filter(m, p)[x] == m[x] {
      FilterCount(m, p, x);
    }
  }

  lemma SourceFromNothing<A>(s: Statement, cx: Context, a: A)
    requires s.Select? && Unreduced(s) && KeepsOthers(s)
    ensures Source(s, cx, OneRow(a), multiset{}) != multiset{}
  {
    var src := OneRow(a).sources;
    assert forall id, j :: map[] in src.rows(id, j);
    assert Plentiful(src);
    RowsFromNothing(Tree(s.from), [], multiset{}, src);
    FilterAll(FromRows(Tree(s.from), [], multiset{}, src), JoinWhere(s, OneRow(a)));
  }

  /** With such steps, an aggregate, a window or an outer join of that kind answers something even for an
      empty table. */
  lemma AnswerFromNothing<A>(s: Statement, cx: Context, project: Joined -> multiset<A>, a: A)
    requires s.Select? && Unreduced(s) && (Groups(s.shape) || Windows(s.shape) || KeepsOthers(s))
    requires forall j :: project(j) == multiset{a}
    ensures |Answer(s, cx, project, OneRow(a), multiset{})| > 0
  {
    if !Groups(s.shape) && !Windows(s.shape) {
      SourceFromNothing(s, cx, a);
      var source := Source(s, cx, OneRow(a), multiset{});
      var j :| j in source;
      assert a in project(j);
      ProduceSome(source, project, j);
    } else {
      assert a in Answer(s, cx, project, OneRow(a), multiset{});
    }
  }

  lemma SameDiffers<A>(tables: seq<Table>, table: Table, f: Table -> multiset<A>)
    requires |tables| != 1 && (forall i :: 0 <= i < |tables| ==> tables[i] == table) && |f(table)| > 0
    ensures Gather(tables, f, |tables|) != f(table)
  {
    GatherSame(tables, f, table, |tables|);
    DifferentTimes(|tables|, |f(table)|);
  }

  lemma EmptyDiffers<A>(
      s: Statement, cx: Context, project: Joined -> multiset<A>, a: A, none: Table, tables: seq<Table>)
    requires s.Select? && Unreduced(s) && (Groups(s.shape) || Windows(s.shape) || KeepsOthers(s))
    requires none == multiset{} && |tables| != 1 && forall i :: 0 <= i < |tables| ==> tables[i] == none
    requires forall j :: project(j) == multiset{a}
    ensures Gathered(s, cx, project, OneRow(a), tables) != Answer(s, cx, project, OneRow(a), none)
  {
    AnswerFromNothing(s, cx, project, a);
    SameDiffers(tables, none, Answering(s, cx, project, OneRow(a)));
  }

  lemma NotAppendable<A(!new)>(s: Statement, cx: Context, site: Site, a: A)
    requires s.Select? && site.Valid() && Unreduced(s) && (Groups(s.shape) || Windows(s.shape) || KeepsOthers(s))
    requires |site.fleet.burrows| != 1
    ensures !Appendable<A>(s, cx, site)
  {
    var none: Table := multiset{};
    var tables: seq<Table> := seq(|site.fleet.burrows|, _ => multiset{});
    var project: Joined -> multiset<A> := j => multiset{a};
    EmptyRepresents(site);
    EmptyDiffers(s, cx, project, a, none, tables);
    assert Represents(tables, none, site);
  }

  /** Appending the Burrows' answers to a scattered SELECT gives the logical answer, whatever its functions,
      conditions and clauses compute and whatever the table holds, exactly when there is one Burrow, or every
      aggregate is one the router sees and no outer join keeps the rows of another side than the table's. */
  lemma ScatteredReadAgrees<A(!new)>(s: Statement, cx: Context, site: Site, a: A)
    requires site.Valid() && Scattered(s, cx, site)
    ensures Appendable<A>(s, cx, site)
      <==> |site.fleet.burrows| == 1 || (AggregatesVisible(s.shape.calls) && !KeepsOthers(s))
    ensures !s.shape.sort && !s.shape.locking
  {
    ScatteredShape(s, cx, site);
    if RowWise(s) {
      RowWiseAppendable<A>(s, cx, site);
    } else if |site.fleet.burrows| == 1 {
      OneBurrowAppendable<A>(s, cx, site);
    } else {
      NotAppendable(s, cx, site, a);
    }
  }

  const NoClauses := Shape(false, false, 1, false, false, [], false, false, false, false, false, false)

  /** SELECT call(..) FROM the relation. */
  function Calling(relation: Relation, call: Call): Statement {
    Select([Physical(relation)], None, NoClauses.(calls := [call]), false, [RelationName(relation)])
  }

  lemma NotSeen(relation: Relation, call: Call)
    requires (call.aggregate || call.over) && !Visible(call)
    ensures var shape := Calling(relation, call).shape; !UnsafeScatter(shape, 1) && !AggregatesVisible(shape.calls)
  {
    assert Calling(relation, call).shape.calls[0] == call;
  }

  lemma OneLeaf(relation: Relation)
    ensures LeavesOf([Physical(relation)]) == [relation]
  {
    assert [Physical(relation)][..0] == [] && LeavesOf([]) + [relation] == [relation];
  }

  lemma CallingScatters(cx: Context, site: Site, call: Call)
    requires site.Valid() && site.fleet.burrows != [] && (call.aggregate || call.over) && !Visible(call)
    requires site.table == RelationName(cx.relation)
    ensures var s := Calling(cx.relation, call); Scattered(s, cx, site) && !AggregatesVisible(s.shape.calls)
  {
    var s := Calling(cx.relation, call);
    NotSeen(cx.relation, call);
    OneLeaf(cx.relation);
    assert s.relations[0] == site.table;
    assert NamesShardedTable(s.relations, site.fleet.registry);
  }

  /** An aggregate or window call the router does not see is scattered in every fleet, and so not answered as
      the logical table would. */
  lemma HiddenAggregateScatters(cx: Context, site: Site, call: Call)
    requires site.Valid() && |site.fleet.burrows| > 1 && (call.aggregate || call.over) && !Visible(call)
    requires site.table == RelationName(cx.relation)
    ensures var s := Calling(cx.relation, call); Scattered(s, cx, site) && !Appendable<nat>(s, cx, site)
  {
    CallingScatters(cx, site, call);
    ScatteredReadAgrees<nat>(Calling(cx.relation, call), cx, site, 0);
  }

  /** There are such calls: an aggregate that users have defined under a name of one letter, and
      JSON_ARRAYAGG, although its name is in the router's list. */
  lemma HiddenCalls(name: string)
    requires |name| == 1
    ensures !Visible(Call(name, true, false, false, true))
    ensures BuiltInAggregate("json_arrayagg") && !Visible(Call("json_arrayagg", false, false, false, true))
  {
    assert |ToLower(name)| == 1;
  }

  /** SELECT .. FROM function() LEFT JOIN the relation ON condition. */
  function LeftJoined(relation: Relation): Statement {
    Select([Joining(LeftOuter, Function(0), Physical(relation), Some(0))], None, NoClauses, false, [RelationName(relation)])
  }

  lemma JoinLeaf(relation: Relation)
    ensures LeavesOf(LeftJoined(relation).from) == [relation] && KeepsOthers(LeftJoined(relation))
  {
    var from := LeftJoined(relation).from;
    assert from[..0] == [] && Leaves(from[0]) == [relation] && LeavesOf([]) + [relation] == [relation];
  }

  /** A LEFT JOIN of a function with the table is scattered, although it names no aggregate, and every Burrow
      adds the rows it finds no partner for. */
  lemma LeftJoinScatters(cx: Context, site: Site)
    requires site.Valid() && |site.fleet.burrows| > 1 && site.table == RelationName(cx.relation)
    ensures var s := LeftJoined(cx.relation);
      Scattered(s, cx, site) && AggregatesVisible(s.shape.calls) && !Appendable<nat>(s, cx, site)
  {
    var s := LeftJoined(cx.relation);
    JoinLeaf(cx.relation);
    assert s.relations[0] == site.table;
    assert NamesShardedTable(s.relations, site.fleet.registry);
    ScatteredReadAgrees<nat>(s, cx, site, 0);
  }

  // ------------------------------------------------------------------------------ after any run

  /** After any run of writes, a SELECT the Proxy answers has the answer of the logical table: on the one
      Burrow it is sent to, or appended from all of them. */
  lemma EveryReadAgrees<A(!new)>(
      tables: seq<Table>, logical: Table, writes: seq<Write>, s: Statement, cx: Context, site: Site,
      project: Joined -> multiset<A>, steps: Steps<A>)
    requires site.Valid() && Represents(tables, logical, site) && s.Select?
    requires forall i :: 0 <= i < |writes| ==> Admissible(writes[i], site)
    ensures var now, answer := Run(tables, writes, site), Answer(s, cx, project, steps, RunLogical(logical, writes, site));
      && (Readable(s, cx, site) ==>
            forall b :: 0 <= b < |now| && Analyze(s, cx.parameters, site.fleet).target == Some(site.fleet.burrows[b]) ==>
              Answer(s, cx, project, steps, now[b]) == answer)
      && (Scattered(s, cx, site) && AggregatesVisible(s.shape.calls) && !KeepsOthers(s) ==>
            Gathered(s, cx, project, steps, now) == answer)
  {
    RunKeeps(tables, logical, writes, site);
    var now, meant := Run(tables, writes, site), RunLogical(logical, writes, site);
    forall b | 0 <= b < |now| && Readable(s, cx, site) && Analyze(s, cx.parameters, site.fleet).target == Some(site.fleet.burrows[b])
      ensures Answer(s, cx, project, steps, now[b]) == Answer(s, cx, project, steps, meant)
    {
      RoutedReadAgrees(now, meant, s, cx, site, b, project, steps);
    }
    if Scattered(s, cx, site) && AggregatesVisible(s.shape.calls) && !KeepsOthers(s) {
      ScatteredShape(s, cx, site);
      RowWiseAppendable<A>(s, cx, site);
    }
  }
}
