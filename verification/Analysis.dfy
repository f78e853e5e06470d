/** Prepared.Analyze: the routing plan of one execution, and what it promises about the rows. */
module Analysis {
  import opened Text
  import opened Scalar
  import opened Schema
  import opened TopologyCatalog
  import opened Router
  import opened Meaning

  // ----------------------------------------------------------------------------------- target

  function CanonicalKey(values: seq<string>, families: seq<Family>, n: nat): (r: Option<seq<string>>)
    requires n <= |values| == |families|
    ensures r.Some? ==> |r.value| == n
    ensures r.Some? <==> forall i :: 0 <= i < n ==> CanonicalScalar(values[i], families[i]).Some?
    ensures r.Some? ==> forall i :: 0 <= i < n ==> CanonicalScalar(values[i], families[i]) == Some(r.value[i])
  {
    if n == 0 then Some([]) else
      match CanonicalKey(values, families, n - 1)
      case None => None
      case Some(before) =>
        match CanonicalScalar(values[n - 1], families[n - 1])
        case None => None
        case Some(text) => Some(before + [text])
  }

  function Join(parts: seq<string>): string {
    if parts == [] then "" else if |parts| == 1 then parts[0] else parts[0] + "\0" + Join(parts[1..])
  }

  /** No two keys of texts without NUL are joined to one text. */
  lemma {:induction false} JoinInjective(a: seq<string>, b: seq<string>)
    requires |a| == |b| && (forall i :: 0 <= i < |a| ==> '\0' !in a[i] && '\0' !in b[i])
    requires Join(a) == Join(b)
    ensures a == b
  {
    if |a| == 1 {
      assert a == [a[0]] && b == [b[0]];
    } else if |a| > 1 {
      assert a == [a[0]] + a[1..] && b == [b[0]] + b[1..];
      FirstPart(a[0], Join(a[1..]), b[0], Join(b[1..]));
      assert Join(a)[|a[0]| + 1..] == Join(a[1..]) && Join(b)[|b[0]| + 1..] == Join(b[1..]);
      JoinInjective(a[1..], b[1..]);
    }
  }

  lemma NulWithin(a: string, x: string, b: string, y: string)
    requires a + "\0" + x == b + "\0" + y
    ensures |a| < |b| ==> '\0' in b
  {
    if |a| < |b| {
      assert (a + "\0" + x)[|a|] == '\0' && (b + "\0" + y)[|a|] == b[|a|];
    }
  }

  lemma FirstPart(a: string, x: string, b: string, y: string)
    requires '\0' !in a && '\0' !in b && a + "\0" + x == b + "\0" + y
    ensures a == b
  {
    NulWithin(a, x, b, y);
    NulWithin(b, y, a, x);
    assert a == (a + "\0" + x)[..|a|] && b == (b + "\0" + y)[..|b|];
  }

  /** The deployment a statement is routed in.  The hash is any function. */
  datatype Fleet = Fleet(registry: Registry, burrows: seq<string>, hash: string -> nat)

  function OwnerOfText(table: string, key: string, fleet: Fleet): Option<string> {
    var owners := fleet.registry.OwnersFor(table);
    if |owners| == VirtualShards then Some(owners[fleet.hash(key) % VirtualShards])
    else if fleet.registry.placements.Some? then None
    else Some(BurrowForKey(fleet.hash, key, fleet.burrows))
  }

  /** TargetForTableShardKey.  Without types every value stands for itself. */
  function TargetForKey(table: string, values: seq<string>, types: seq<Family>, fleet: Fleet): Option<string> {
    if values == [] || (types != [] && |values| != |types|) || fleet.burrows == [] then
      None
    else
      var families := if types == [] then seq(|values|, _ => Untyped) else types;
      match CanonicalKey(values, families, |values|)
      case None => None
      case Some(canonical) => OwnerOfText(table, Join(canonical), fleet)
  }

  // ------------------------------------------------------------------------------- statements

  datatype Target = Target(name: string, indirected: bool)

  /** A call.  Plain tells whether it is parsed as an ordinary function call, which JSON_ARRAYAGG and
      JSON_OBJECTAGG are not; aggregate tells whether PostgreSQL resolves it to an aggregate. */
  datatype Call = Call(name: string, plain: bool, over: bool, marked: bool, aggregate: bool)

  /** Whatever else a SELECT carries. */
  datatype Shape = Shape(
    setOperation: bool, withClause: bool, selects: nat, distinct: bool, groupDistinct: bool, calls: seq<Call>,
    group: bool, having: bool, window: bool, sort: bool, limit: bool, locking: bool)

  datatype JoinKind = Inner | LeftOuter | RightOuter | FullOuter

  /** An item of a FROM clause: a table, a function in FROM, or a join, if need be with a condition. */
  datatype FromItem =
    | Physical(relation: Relation)
    | Function(id: int)
    | Joining(kind: JoinKind, left: FromItem, right: FromItem, on: Option<int>)

  /** relations lists every physical relation the statement names; from the items of the FROM clause. */
  datatype Statement =
    | Select(from: seq<FromItem>, where: Option<Pred>, shape: Shape, into: bool, relations: seq<string>)
    | Insert(
        relation: Relation, cols: seq<Target>, rows: Option<seq<seq<Expr>>>, withClause: bool, onConflict: bool,
        relations: seq<string>)
    | Update(
        relation: Relation, targets: seq<Target>, where: Option<Pred>, withClause: bool, more: bool, relations: seq<string>)
    | Delete(relation: Relation, where: Option<Pred>, withClause: bool, more: bool, relations: seq<string>)

  function RelationName(r: Relation): string {
    if r.schema != "" then r.schema + "." + r.name else r.name
  }

  /** Relations of different names, or in different schemas, are not taken for one another. */
  lemma RelationsApart(a: Relation, b: Relation)
    requires '.' !in a.schema && '.' !in a.name && '.' !in b.schema && '.' !in b.name
    requires RelationName(a) == RelationName(b)
    ensures a.schema == b.schema && a.name == b.name
  {
    var x, y := RelationName(a), RelationName(b);
    assert a.schema != "" ==> x[|a.schema|] == '.' && x[..|a.schema|] == a.schema && x[|a.schema| + 1..] == a.name;
    assert b.schema != "" ==> y[|b.schema|] == '.' && y[..|b.schema|] == b.schema && y[|b.schema| + 1..] == b.name;
    if a.schema != "" {
      DotAt(a.schema, a.name, b);
    }
    if b.schema != "" {
      DotAt(b.schema, b.name, a);
    }
  }

  /** Where a qualified name is split. */
  lemma DotAt(schema: string, name: string, other: Relation)
    requires schema != "" && RelationName(other) == schema + "." + name
    ensures '.' in other.schema || '.' in other.name || (other.schema != "" && |other.schema| == |schema|)
  {
    var text, at := schema + "." + name, |schema|;
    assert text[at] == '.';
    if other.schema == "" {
      assert text == other.name;
    } else if at < |other.schema| {
      assert text[at] == other.schema[at];
    } else if at > |other.schema| {
      assert text[at] == other.name[at - |other.schema| - 1];
    }
  }

  predicate BuiltInAggregate(name: string) {
    name == "any_value" || name == "array_agg" || name == "avg" || name == "bit_and" || name == "bit_or" ||
    name == "bit_xor" || name == "bool_and" || name == "bool_or" || name == "count" || name == "every" ||
    name == "json_agg" || name == "json_agg_strict" || name == "json_arrayagg" || name == "json_objectagg" ||
    name == "jsonb_agg" || name == "jsonb_agg_strict" || name == "json_object_agg" ||
    name == "json_object_agg_strict" || name == "json_object_agg_unique" ||
    name == "json_object_agg_unique_strict" || name == "jsonb_object_agg" || name == "jsonb_object_agg_strict" ||
    name == "jsonb_object_agg_unique" || name == "jsonb_object_agg_unique_strict" || name == "max" ||
    name == "min" || name == "range_agg" || name == "range_intersect_agg" || name == "string_agg" || name == "sum" ||
    name == "xmlagg" || name == "corr" || name == "covar_pop" || name == "covar_samp" || name == "regr_avgx" ||
    name == "regr_avgy" || name == "regr_count" || name == "regr_intercept" || name == "regr_r2" ||
    name == "regr_slope" || name == "regr_sxx" || name == "regr_sxy" || name == "regr_syy" || name == "stddev" ||
    name == "stddev_pop" || name == "stddev_samp" || name == "variance" || name == "var_pop" || name == "var_samp"
  }

  /** An ordinary call that is visibly an aggregate or window call: OVER, an aggregate-only clause, or a
      built-in aggregate's name. */
  predicate Visible(call: Call) {
    call.plain && (call.over || call.marked || BuiltInAggregate(ToLower(call.name)))
  }

  /** Letter case does not hide an aggregate. */
  lemma CaseHidesNothing(call: Call, name: string)
    requires ToLower(name) == ToLower(call.name)
    ensures Visible(call.(name := name)) <==> Visible(call)
  {
  }

  predicate HasAggregateOrWindow(calls: seq<Call>) {
    exists i :: 0 <= i < |calls| && Visible(calls[i])
  }

  /** unsafeScatterReason, as the reason's presence. */
  predicate UnsafeScatter(shape: Shape, relations: nat) {
    || shape.setOperation
    || shape.withClause || shape.selects > 1
    || relations > 1
    || shape.distinct || shape.groupDistinct
    || HasAggregateOrWindow(shape.calls) || shape.group || shape.having || shape.window
    || shape.sort
    || shape.limit
    || shape.locking
  }

  /** The relation and predicate Prepare keeps for routing. */
  function RoutedRelation(s: Statement): Option<Relation> {
    match s
    case Select(from, _, shape, _, _) =>
      if !shape.withClause && !shape.setOperation && |from| == 1 && from[0].Physical? then Some(from[0].relation) else None
    case Insert(relation, _, _, _, _, _) => Some(relation)
    case Update(relation, _, _, _, _, _) => Some(relation)
    case Delete(relation, _, _, _, _) => Some(relation)
  }

  function RoutedPredicate(s: Statement): Option<Pred> {
    match s
    case Select(_, where, _, _, _) => if RoutedRelation(s).Some? then where else None
    case Insert(_, _, _, _, _, _) => None
    case Update(_, _, where, withClause, more, _) => if withClause || more then None else where
    case Delete(_, where, withClause, more, _) => if withClause || more then None else where
  }

  // ------------------------------------------------------------------------------- key values

  function PredicateKey(
      p: Option<Pred>, parameters: seq<Option<string>>, columns: seq<string>, families: seq<Family>,
      relation: Relation): Option<seq<string>> {
    match p
    case None => None
    case Some(pred) =>
      match Collect(pred, relation, map[])
      case None => None
      case Some(values) => OrderedTexts(values, parameters, columns, families, |columns|)
  }

  /** The columns of an INSERT with their values, if each is named once and plainly. */
  function InsertValues(cols: seq<Target>, items: seq<Expr>, n: nat): Option<Equalities>
    requires n <= |cols| == |items|
  {
    if n == 0 then Some(map[]) else
      match InsertValues(cols, items, n - 1)
      case None => None
      case Some(values) =>
        var c := cols[n - 1];
        if c.name == "" || c.indirected then None else Add(values, c.name, items[n - 1])
  }

  function InsertKey(
      s: Statement, parameters: seq<Option<string>>, columns: seq<string>,
      families: seq<Family>): Option<seq<string>>
    requires s.Insert?
  {
    if s.withClause || s.rows.None? || |s.rows.value| != 1 || |s.rows.value[0]| != |s.cols| then
      None
    else
      match InsertValues(s.cols, s.rows.value[0], |s.cols|)
      case None => None
      case Some(values) => OrderedTexts(values, parameters, columns, families, |columns|)
  }

  predicate UpdatesShardKey(targets: seq<Target>, columns: seq<string>) {
    exists i :: 0 <= i < |targets| && !targets[i].indirected && targets[i].name in columns
  }

  // ------------------------------------------------------------------------------------- plan

  datatype Plan = Plan(table: string, write: bool, sharded: bool, target: Option<string>, singleBurrow: bool, scatterError: bool)

  predicate NamesShardedTable(relations: seq<string>, registry: Registry) {
    exists i :: 0 <= i < |relations| &&
      (registry.IsSharded(relations[i]) || registry.IsSharded(registry.CanonicalTable(relations[i])))
  }

  function Families(registry: Registry, table: string): seq<Family> {
    if table !in registry.types then [] else
      var types := registry.types[table];
      seq(|types|, i requires 0 <= i < |types| => FamilyOf(types[i]))
  }

  /** The key tuple a statement fixes, if it does. */
  function StatementKey(
      s: Statement, parameters: seq<Option<string>>, registry: Registry, table: string): Option<seq<string>>
    requires registry.IsSharded(table)
  {
    var columns, families := registry.keys[table], Families(registry, table);
    if columns == [] || |s.relations| != 1 || RoutedRelation(s).None?
       || (s.Insert? && s.onConflict) || (s.Update? && UpdatesShardKey(s.targets, columns)) then
      None
    else if s.Insert? then
      InsertKey(s, parameters, columns, families)
    else
      PredicateKey(RoutedPredicate(s), parameters, columns, families, RoutedRelation(s).value)
  }

  /** Prepared.Analyze. */
  function Analyze(s: Statement, parameters: seq<Option<string>>, fleet: Fleet): Plan {
    var registry := fleet.registry;
    var table := if RoutedRelation(s).Some? then RelationName(RoutedRelation(s).value) else "";
    var unrouted := Plan(table, !s.Select?, false, None, false, false);
    var read := s.Select? && !s.into;
    if read && !NamesShardedTable(s.relations, registry) then
      unrouted.(singleBurrow := true)
    else
      var unsafe := read && UnsafeScatter(s.shape, |s.relations|);
      if RoutedRelation(s).None? || !registry.IsSharded(table) || fleet.burrows == [] then
        unrouted.(sharded := RoutedRelation(s).Some? && registry.IsSharded(table), scatterError := unsafe)
      else
        var key := StatementKey(s, parameters, registry, table);
        var target := if key.None? then None else TargetForKey(table, key.value, Families(registry, table), fleet);
        Plan(table, !s.Select?, true, target, false, unsafe && target.None?)
  }

  /** What the Proxy does with a plan: routePlan and the checks after it.  Elsewhere is what concerns no
      sharded table: one Burrow of the Proxy's choice, or unsharded data. */
  datatype Decision = Refuse | Send(target: string) | Scatter | Elsewhere

  function Decide(plan: Plan): Decision {
    if plan.scatterError then Refuse
    else if plan.singleBurrow then Elsewhere
    else if plan.target.Some? then Send(plan.target.value)
    else if plan.table != "" && !plan.sharded then Elsewhere
    else if plan.write then Refuse
    else Scatter
  }

  /** A read is left to one Burrow exactly when no relation it names is sharded, by that name or, for an
      unqualified name of the inventory, by its public one. */
  lemma SingleBurrowIs(s: Statement, parameters: seq<Option<string>>, fleet: Fleet)
    ensures Analyze(s, parameters, fleet).singleBurrow <==>
      s.Select? && !s.into && forall i :: 0 <= i < |s.relations| ==>
        var name, public := s.relations[i], "public." + s.relations[i];
        && !fleet.registry.IsSharded(name)
        && ('.' !in name && public in fleet.registry.allTables ==> !fleet.registry.IsSharded(public))
  {
    forall i | 0 <= i < |s.relations|
      ensures var name := s.relations[i];
        fleet.registry.CanonicalTable(name)
        == if '.' !in name && "public." + name in fleet.registry.allTables then "public." + name else name
    {
    }
  }

  /** Only a SELECT over a single relation is ever sent to every Burrow. */
  lemma ScatterIsOneRelation(s: Statement, parameters: seq<Option<string>>, fleet: Fleet)
    requires s.Select? && !s.into && Decide(Analyze(s, parameters, fleet)) == Scatter
    ensures |s.relations| == 1 && !UnsafeScatter(s.shape, 1) && NamesShardedTable(s.relations, fleet.registry)
  {
  }

  /** A write to a sharded table goes to the owner of the key it fixes; without one it is refused. */
  lemma WriteDecision(s: Statement, cx: Context, table: string, fleet: Fleet)
    requires !s.Select? && OnTable(s, cx, table, fleet)
    ensures var target := KeyOwner(s, cx.parameters, table, fleet);
      Decide(Analyze(s, cx.parameters, fleet)) == if target.Some? then Send(target.value) else Refuse
  {
  }

  /** An UPDATE that assigns a key column directly is refused, and so is an INSERT with ON CONFLICT. */
  lemma KeyChangeIsRefused(s: Statement, cx: Context, table: string, fleet: Fleet, i: nat)
    requires OnTable(s, cx, table, fleet)
    requires if s.Update? then i < |s.targets| && !s.targets[i].indirected && s.targets[i].name in fleet.registry.keys[table]
             else s.Insert? && s.onConflict
    ensures Decide(Analyze(s, cx.parameters, fleet)) == Refuse
  {
    WriteDecision(s, cx, table, fleet);
    assert s.Update? ==> UpdatesShardKey(s.targets, fleet.registry.keys[table]);
  }

  /** A SELECT from a sharded table goes to the owner of the key it fixes; without one it is refused when its
      rows cannot simply be appended, and else sent to every Burrow. */
  lemma ReadDecision(s: Statement, cx: Context, table: string, fleet: Fleet)
    requires s.Select? && !s.into && OnTable(s, cx, table, fleet) && table in s.relations
    ensures var target := KeyOwner(s, cx.parameters, table, fleet);
      Decide(Analyze(s, cx.parameters, fleet))
        == if target.Some? then Send(target.value) else if UnsafeScatter(s.shape, |s.relations|) then Refuse else Scatter
  {
  }

  /** The owner of the key a statement fixes. */
  function KeyOwner(s: Statement, parameters: seq<Option<string>>, table: string, fleet: Fleet): Option<string>
    requires fleet.registry.IsSharded(table)
  {
    match StatementKey(s, parameters, fleet.registry, table)
    case None => None
    case Some(key) => TargetForKey(table, key, Families(fleet.registry, table), fleet)
  }

  // ------------------------------------------------------------------------ what fixes a key

  /** Some binding gives column i a value the router can read. */
  predicate Bound(
      bound: seq<(string, Expr)>, parameters: seq<Option<string>>, columns: seq<string>, families: seq<Family>, i: nat)
    requires i < |columns|
  {
    exists k :: 0 <= k < |bound| && bound[k].0 == columns[i] &&
      ScalarValue(bound[k].1, parameters, FamilyAt(families, columns, i)).Some?
  }

  /** No column is bound twice, and every key column is bound to a value the router can read. */
  predicate Fixes(
      bound: seq<(string, Expr)>, parameters: seq<Option<string>>, columns: seq<string>, families: seq<Family>) {
    Once(bound, map[]) && forall i :: 0 <= i < |columns| ==> Bound(bound, parameters, columns, families, i)
  }

  lemma GrownFixes(
      bound: seq<(string, Expr)>, values: Equalities, parameters: seq<Option<string>>, columns: seq<string>,
      families: seq<Family>)
    requires Adds(bound, map[], Some(values))
    ensures OrderedTexts(values, parameters, columns, families, |columns|).Some?
      <==> Fixes(bound, parameters, columns, families)
  {
    OrderedExact(values, parameters, columns, families, |columns|);
    forall i | 0 <= i < |columns|
      ensures Bound(bound, parameters, columns, families, i) <==>
        columns[i] in values && ScalarValue(values[columns[i]], parameters, FamilyAt(families, columns, i)).Some?
    {
      if columns[i] in values {
        var k :| 0 <= k < |bound| && bound[k].0 == columns[i];
        assert values[bound[k].0] == bound[k].1;
      }
    }
  }

  /** A WHERE clause fixes the key exactly when it is a conjunction that binds no column twice and every key
      column to a value the router can read, whatever other conditions it holds. */
  lemma PredicateFixesKey(
      p: Pred, parameters: seq<Option<string>>, columns: seq<string>, families: seq<Family>, relation: Relation)
    ensures PredicateKey(Some(p), parameters, columns, families, relation).Some? <==>
      AllSimple(Conjuncts(p)) && Fixes(Bindings(Conjuncts(p), relation), parameters, columns, families)
  {
    CollectExact(p, relation, map[]);
    if Collect(p, relation, map[]).Some? {
      GrownFixes(Bindings(Conjuncts(p), relation), Collect(p, relation, map[]).value, parameters, columns, families);
    }
  }

  /** The bindings of a VALUES row. */
  function RowBindings(cols: seq<Target>, items: seq<Expr>): seq<(string, Expr)>
    requires |cols| == |items|
  {
    seq(|cols|, i requires 0 <= i < |cols| => (cols[i].name, items[i]))
  }

  predicate PlainTargets(cols: seq<Target>) {
    forall i :: 0 <= i < |cols| ==> cols[i].name != "" && !cols[i].indirected
  }

  lemma {:induction false} InsertValuesExact(cols: seq<Target>, items: seq<Expr>, n: nat)
    requires n <= |cols| == |items|
    ensures InsertValues(cols, items, n).Some? ==> PlainTargets(cols[..n])
    ensures PlainTargets(cols[..n]) ==> Adds(RowBindings(cols[..n], items[..n]), map[], InsertValues(cols, items, n))
  {
    if n > 0 {
      InsertValuesExact(cols, items, n - 1);
      var before, c := InsertValues(cols, items, n - 1), cols[n - 1];
      assert cols[..n] == cols[..n - 1] + [c];
      if PlainTargets(cols[..n]) {
        assert forall i :: 0 <= i < n - 1 ==> cols[..n - 1][i] == cols[..n][i];
        assert c == cols[..n][n - 1];
        var one := [(c.name, items[n - 1])];
        assert RowBindings(cols[..n], items[..n]) == RowBindings(cols[..n - 1], items[..n - 1]) + one;
        if before.Some? {
          OneBinding(c.name, items[n - 1], before.value);
        }
        AddsTwice(RowBindings(cols[..n - 1], items[..n - 1]), one, map[], before, InsertValues(cols, items, n));
      }
    }
  }

  lemma OneBinding(column: string, value: Expr, values: Equalities)
    ensures Adds([(column, value)], values, Add(values, column, value))
  {
    var bound := [(column, value)];
    assert bound[0].0 == column;
  }

  /** An INSERT fixes the key exactly when it has one row of VALUES, as long as its plain column list, that
      names no column twice and gives every key column a value the router can read. */
  lemma InsertFixesKey(s: Statement, parameters: seq<Option<string>>, columns: seq<string>, families: seq<Family>)
    requires s.Insert?
    ensures InsertKey(s, parameters, columns, families).Some? <==>
      && !s.withClause && s.rows.Some? && |s.rows.value| == 1 && |s.rows.value[0]| == |s.cols|
      && PlainTargets(s.cols) && Fixes(RowBindings(s.cols, s.rows.value[0]), parameters, columns, families)
  {
    if s.rows.Some? && |s.rows.value| == 1 && |s.rows.value[0]| == |s.cols| {
      var items, n := s.rows.value[0], |s.cols|;
      assert s.cols[..n] == s.cols && items[..n] == items;
      InsertValuesExact(s.cols, items, n);
      if InsertValues(s.cols, items, n).Some? {
        GrownFixes(RowBindings(s.cols, items), InsertValues(s.cols, items, n).value, parameters, columns, families);
      }
    }
  }

  // ------------------------------------------------------------------------------ owned rows

  ghost predicate Spells(text: string, k: KeyValue, family: Family) {
    CanonicalScalar(text, family).Some? && Denotes(text, family) == k
  }

  ghost function SpellingOf(k: KeyValue, family: Family): (text: string)
    ensures (exists t :: Spells(t, k, family)) ==> Spells(text, k, family)
  {
    if exists t :: Spells(t, k, family) then
      var t :| Spells(t, k, family); t
    else
      ""
  }

  /** The Burrow that owns a key: the target of any spelling of it. */
  ghost function OwnerOfKey(table: string, key: seq<KeyValue>, families: seq<Family>, fleet: Fleet): Option<string>
    requires |key| == |families|
  {
    TargetForKey(table, seq(|key|, i requires 0 <= i < |key| => SpellingOf(key[i], families[i])), families, fleet)
  }

  ghost predicate AllSpell(values: seq<string>, key: seq<KeyValue>, families: seq<Family>) {
    |values| == |key| == |families| && forall i :: 0 <= i < |key| ==> Spells(values[i], key[i], families[i])
  }

  lemma {:induction false} SameCanonicalKey(
      a: seq<string>, b: seq<string>, key: seq<KeyValue>, families: seq<Family>, n: nat)
    requires AllSpell(a, key, families) && AllSpell(b, key, families) && n <= |a|
    ensures CanonicalKey(a, families, n) == CanonicalKey(b, families, n)
  {
    if n > 0 {
      SameCanonicalKey(a, b, key, families, n - 1);
      CanonicalScalarDecides(a[n - 1], b[n - 1], families[n - 1]);
    }
  }

  /** However a key is spelled, it has one owner. */
  lemma AnySpelling(table: string, values: seq<string>, key: seq<KeyValue>, families: seq<Family>, fleet: Fleet)
    requires AllSpell(values, key, families)
    ensures OwnerOfKey(table, key, families, fleet) == TargetForKey(table, values, families, fleet)
  {
    var spellings := seq(|key|, i requires 0 <= i < |key| => SpellingOf(key[i], families[i]));
    forall i | 0 <= i < |key| ensures Spells(spellings[i], key[i], families[i]) {
      assert Spells(values[i], key[i], families[i]);
    }
    SameCanonicalKey(values, spellings, key, families, |key|);
  }

  /** The key of a row, if none of its key columns is NULL. */
  function RowKey(row: Row, columns: seq<string>, n: nat): (r: Option<seq<KeyValue>>)
    requires n <= |columns|
    ensures r.Some? ==> |r.value| == n && forall i :: 0 <= i < n ==> ColumnValue(row, columns[i]) == Some(r.value[i])
    ensures r.Some? <==> forall i :: 0 <= i < n ==> ColumnValue(row, columns[i]).Some?
  {
    if n == 0 then Some([]) else
      match RowKey(row, columns, n - 1)
      case None => None
      case Some(before) =>
        match ColumnValue(row, columns[n - 1])
        case None => None
        case Some(k) => Some(before + [k])
  }

  /** The row has a complete key, and the Burrow owns it. */
  ghost predicate OwnedBy(
      row: Row, table: string, columns: seq<string>, families: seq<Family>, fleet: Fleet, burrow: string)
    requires |columns| == |families|
  {
    var key := RowKey(row, columns, |columns|);
    key.Some? && OwnerOfKey(table, key.value, families, fleet) == Some(burrow)
  }

  /** The context gives each key column the family the registry records. */
  ghost predicate TypedKeys(cx: Context, columns: seq<string>, families: seq<Family>) {
    |columns| == |families| && forall i :: 0 <= i < |columns| ==> ColumnFamily(cx, columns[i]) == families[i]
  }

  /** Casts in the key operands are to the key columns' own types. */
  predicate OwnTypes(values: Equalities, columns: seq<string>, cx: Context) {
    forall i :: 0 <= i < |columns| && columns[i] in values ==>
      OwnCasts(values[columns[i]], ColumnFamily(cx, columns[i]))
  }

  /** Each key constant is straight, and its text fits the limits it passes. */
  predicate KeysFit(
      texts: seq<string>, values: Equalities, columns: seq<string>, families: seq<Family>, parameters: seq<Option<string>>)
    requires |texts| == |columns| == |families|
  {
    forall i :: 0 <= i < |columns| && columns[i] in values ==>
      OperandFits(texts[i], values[columns[i]], families[i], Passed(values[columns[i]], families[i]), parameters)
  }

  /** No collation holds another value equal to a key operand's. */
  ghost predicate KeysAlone(values: Equalities, columns: seq<string>, cx: Context) {
    forall i :: 0 <= i < |columns| && columns[i] in values ==> Alone(columns[i], values[columns[i]], cx)
  }

  /** Where the key operands stand alone, the texts a row with these equalities is routed by spell its key
      exactly when they fit. */
  lemma TextsSpellKey(values: Equalities, columns: seq<string>, families: seq<Family>, row: Row, cx: Context)
    requires Faithful(cx) && TypedKeys(cx, columns, families)
    requires Holds(values, row, cx) && OwnTypes(values, columns, cx) && KeysAlone(values, columns, cx)
    requires OrderedTexts(values, cx.parameters, columns, families, |columns|).Some?
    ensures RowKey(row, columns, |columns|).Some?
    ensures var texts := OrderedTexts(values, cx.parameters, columns, families, |columns|).value;
      AllSpell(texts, RowKey(row, columns, |columns|).value, families) <==> KeysFit(texts, values, columns, families, cx.parameters)
  {
    var texts := OrderedTexts(values, cx.parameters, columns, families, |columns|).value;
    forall i | 0 <= i < |columns|
      ensures ColumnValue(row, columns[i]).Some? && columns[i] in values
      ensures Spells(texts[i], ColumnValue(row, columns[i]).value, families[i])
        <==> OperandFits(texts[i], values[columns[i]], families[i], Passed(values[columns[i]], families[i]), cx.parameters)
    {
      assert columns[i] in values && FamilyAt(families, columns, i) == families[i];
      AloneIsValue(columns[i], values[columns[i]], row, cx);
      ScalarDenotes(values[columns[i]], families[i], row, cx);
    }
  }

  /** The statement names this sharded table, and its key columns have known types. */
  ghost predicate OnTable(s: Statement, cx: Context, table: string, fleet: Fleet) {
    && RoutedRelation(s) == Some(cx.relation) && table == RelationName(cx.relation)
    && fleet.registry.IsSharded(table)
    && TypedKeys(cx, fleet.registry.keys[table], Families(fleet.registry, table))
  }

  /** A target is always that of the statement's key. */
  lemma TargetIsKeyOwner(s: Statement, cx: Context, table: string, fleet: Fleet)
    requires OnTable(s, cx, table, fleet) && Analyze(s, cx.parameters, fleet).target.Some?
    ensures var key := StatementKey(s, cx.parameters, fleet.registry, table);
      key.Some? && TargetForKey(table, key.value, Families(fleet.registry, table), fleet) == Analyze(s, cx.parameters, fleet).target
  {
  }

  /** The casts of the collected key operands are to the key columns' own types. */
  predicate OwnPredicate(p: Pred, columns: seq<string>, cx: Context) {
    Collect(p, cx.relation, map[]).Some? ==> OwnTypes(Collect(p, cx.relation, map[]).value, columns, cx)
  }

  /** Each key text collected from a predicate fits the limits on its way. */
  predicate PredicateFits(p: Pred, columns: seq<string>, families: seq<Family>, cx: Context) {
    var key := PredicateKey(Some(p), cx.parameters, columns, families, cx.relation);
    key.Some? && |columns| == |families| ==>
      KeysFit(key.value, Collect(p, cx.relation, map[]).value, columns, families, cx.parameters)
  }

  /** No collation holds another value equal to a key operand collected from the predicate. */
  ghost predicate PredicateAlone(p: Pred, columns: seq<string>, cx: Context) {
    Collect(p, cx.relation, map[]).Some? ==> KeysAlone(Collect(p, cx.relation, map[]).value, columns, cx)
  }

  /** What a caller has to look at before the predicate is routed: casts, their modifiers, collations. */
  ghost predicate PredicateExact(p: Pred, columns: seq<string>, families: seq<Family>, cx: Context) {
    OwnPredicate(p, columns, cx) && PredicateFits(p, columns, families, cx) && PredicateAlone(p, columns, cx)
  }

  /** A row that a routed predicate accepts has exactly the collected key if and only if the key texts fit. */
  lemma PredicateKeyExact(p: Pred, cx: Context, columns: seq<string>, families: seq<Family>, row: Row)
    requires Faithful(cx) && TypedKeys(cx, columns, families) && OwnPredicate(p, columns, cx) && PredicateAlone(p, columns, cx)
    requires PredicateKey(Some(p), cx.parameters, columns, families, cx.relation).Some?
    requires Satisfies(p, row, cx)
    ensures RowKey(row, columns, |columns|).Some?
    ensures var texts := PredicateKey(Some(p), cx.parameters, columns, families, cx.relation).value;
      AllSpell(texts, RowKey(row, columns, |columns|).value, families) <==> PredicateFits(p, columns, families, cx)
  {
    var values := Collect(p, cx.relation, map[]).value;
    CollectSound(p, map[], row, cx);
    TextsSpellKey(values, columns, families, row, cx);
  }

  lemma PredicateRowOwned(
      p: Pred, cx: Context, table: string, columns: seq<string>, families: seq<Family>, fleet: Fleet, row: Row)
    requires Faithful(cx) && TypedKeys(cx, columns, families) && PredicateExact(p, columns, families, cx)
    requires PredicateKey(Some(p), cx.parameters, columns, families, cx.relation).Some?
    requires Satisfies(p, row, cx)
    ensures RowKey(row, columns, |columns|).Some?
    ensures OwnerOfKey(table, RowKey(row, columns, |columns|).value, families, fleet)
      == TargetForKey(table, PredicateKey(Some(p), cx.parameters, columns, families, cx.relation).value, families, fleet)
  {
    PredicateKeyExact(p, cx, columns, families, row);
    AnySpelling(table, PredicateKey(Some(p), cx.parameters, columns, families, cx.relation).value,
                RowKey(row, columns, |columns|).value, families, fleet);
  }

  /** If a SELECT, UPDATE or DELETE is routed to T by key operands that stand alone, a row its WHERE clause
      accepts has exactly the collected key if and only if the key texts fit, and is then owned by T. */
  lemma RoutedRowsAreOwned(s: Statement, cx: Context, table: string, fleet: Fleet, row: Row)
    requires !s.Insert? && OnTable(s, cx, table, fleet) && Faithful(cx)
    requires Analyze(s, cx.parameters, fleet).target.Some?
    ensures RoutedPredicate(s).Some?
    ensures var p, columns, families := RoutedPredicate(s).value, fleet.registry.keys[table], Families(fleet.registry, table);
      OwnPredicate(p, columns, cx) && PredicateAlone(p, columns, cx) && Satisfies(p, row, cx) ==>
        var key, texts := RowKey(row, columns, |columns|), StatementKey(s, cx.parameters, fleet.registry, table);
        && key.Some? && texts.Some?
        && (AllSpell(texts.value, key.value, families) <==> PredicateFits(p, columns, families, cx))
        && (PredicateFits(p, columns, families, cx) ==>
              OwnedBy(row, table, columns, families, fleet, Analyze(s, cx.parameters, fleet).target.value))
  {
    TargetIsKeyOwner(s, cx, table, fleet);
    var p := RoutedPredicate(s).value;
    var columns, families := fleet.registry.keys[table], Families(fleet.registry, table);
    if OwnPredicate(p, columns, cx) && PredicateAlone(p, columns, cx) && Satisfies(p, row, cx) {
      PredicateKeyExact(p, cx, columns, families, row);
      if PredicateFits(p, columns, families, cx) {
        PredicateRowOwned(p, cx, table, columns, families, fleet, row);
      }
    }
  }

  // -------------------------------------------------------------- exactly the collected key

  /** Every row the predicate accepts has the collected key. */
  ghost predicate AcceptsOnlyKey(p: Pred, columns: seq<string>, families: seq<Family>, cx: Context)
    requires PredicateKey(Some(p), cx.parameters, columns, families, cx.relation).Some?
  {
    forall row :: Satisfies(p, row, cx) ==>
      var key := RowKey(row, columns, |columns|);
      key.Some? && AllSpell(PredicateKey(Some(p), cx.parameters, columns, families, cx.relation).value, key.value, families)
  }

  predicate Distinct(columns: seq<string>) {
    forall i, j :: 0 <= i < j < |columns| ==> columns[i] != columns[j]
  }

  /** PostgreSQL refuses none of the key operands. */
  ghost predicate Answered(values: Equalities, columns: seq<string>, cx: Context) {
    forall i :: 0 <= i < |columns| && columns[i] in values ==> Operand(values[columns[i]], ColumnFamily(cx, columns[i]), map[], cx).Some?
  }

  /** A row with these values in these columns. */
  function RowWith(columns: seq<string>, key: seq<KeyValue>): Row
    requires |columns| == |key|
  {
    if columns == [] then map[] else
      var last := |columns| - 1;
      RowWith(columns[..last], key[..last])[columns[last] := Some(key[last])]
  }

  lemma {:induction false} RowWithHolds(columns: seq<string>, key: seq<KeyValue>)
    requires |columns| == |key| && Distinct(columns)
    ensures forall i :: 0 <= i < |columns| ==> ColumnValue(RowWith(columns, key), columns[i]) == Some(key[i])
  {
    if columns != [] {
      var last := |columns| - 1;
      RowWithHolds(columns[..last], key[..last]);
      forall i | 0 <= i < last ensures ColumnValue(RowWith(columns, key), columns[i]) == Some(key[i]) {
        assert columns[..last][i] == columns[i] != columns[last];
      }
    }
  }

  /** The values of the key operands. */
  ghost function OperandKey(values: Equalities, columns: seq<string>, cx: Context): (key: seq<KeyValue>)
    requires Answered(values, columns, cx) && forall i :: 0 <= i < |columns| ==> columns[i] in values
    ensures |key| == |columns|
    ensures forall i :: 0 <= i < |key| ==> Some(key[i]) == Operand(values[columns[i]], ColumnFamily(cx, columns[i]), map[], cx)
  {
    seq(|columns|, i requires 0 <= i < |columns| => Operand(values[columns[i]], ColumnFamily(cx, columns[i]), map[], cx).value)
  }

  /** Each of these values is equal to the key operand's under the collation of their comparison. */
  ghost predicate Equalled(values: Equalities, columns: seq<string>, key: seq<KeyValue>, cx: Context)
    requires |key| == |columns|
  {
    forall i :: 0 <= i < |columns| && columns[i] in values ==>
      var k := Operand(values[columns[i]], ColumnFamily(cx, columns[i]), map[], cx);
      k.Some? && cx.server.same(CollationOf(columns[i], values[columns[i]], cx), ColumnFamily(cx, columns[i]), key[i], k.value)
  }

  /** All key columns are collected, with constants. */
  ghost predicate Constants(values: Equalities, columns: seq<string>, parameters: seq<Option<string>>) {
    forall i :: 0 <= i < |columns| ==> columns[i] in values && RawValue(values[columns[i]], parameters).Some?
  }

  /** A predicate of key equalities accepts a row of values its collations hold equal to its operands'. */
  lemma EqualKeyAccepted(p: Pred, columns: seq<string>, key: seq<KeyValue>, cx: Context)
    requires Pure(p, cx.relation, columns) && Collect(p, cx.relation, map[]).Some? && Distinct(columns) && |key| == |columns|
    requires OwnPredicate(p, columns, cx) && Constants(Collect(p, cx.relation, map[]).value, columns, cx.parameters)
    requires Equalled(Collect(p, cx.relation, map[]).value, columns, key, cx)
    ensures Satisfies(p, RowWith(columns, key), cx)
  {
    var values, row := Collect(p, cx.relation, map[]).value, RowWith(columns, key);
    RowWithHolds(columns, key);
    CollectGrows(p, cx.relation, map[], columns);
    forall c | c in values ensures Compare(c, values[c], row, cx) == True {
      var i :| 0 <= i < |columns| && columns[i] == c;
      ConstantOperand(values[c], ColumnFamily(cx, c), row, map[], cx);
    }
    CollectComplete(p, map[], values, columns, row, cx);
  }

  lemma OrderedRaws(values: Equalities, columns: seq<string>, families: seq<Family>, parameters: seq<Option<string>>)
    requires OrderedTexts(values, parameters, columns, families, |columns|).Some?
    ensures Constants(values, columns, parameters)
  {
    forall i | 0 <= i < |columns| ensures columns[i] in values && RawValue(values[columns[i]], parameters).Some? {
      assert ScalarValue(values[columns[i]], parameters, FamilyAt(families, columns, i)).Some?;
    }
  }

  /** A predicate of key equalities accepts only rows of the collected key if and only if the key texts fit
      and no collation holds another value equal to theirs. */
  lemma KeyPredicateExact(p: Pred, cx: Context, columns: seq<string>, families: seq<Family>)
    requires Faithful(cx) && TypedKeys(cx, columns, families) && OwnPredicate(p, columns, cx) && Distinct(columns)
    requires PredicateKey(Some(p), cx.parameters, columns, families, cx.relation).Some?
    requires Pure(p, cx.relation, columns) && Answered(Collect(p, cx.relation, map[]).value, columns, cx)
    ensures AcceptsOnlyKey(p, columns, families, cx)
      <==> PredicateFits(p, columns, families, cx) && PredicateAlone(p, columns, cx)
  {
    var values := Collect(p, cx.relation, map[]).value;
    OrderedRaws(values, columns, families, cx.parameters);
    if PredicateAlone(p, columns, cx) {
      if PredicateFits(p, columns, families, cx) {
        forall row | Satisfies(p, row, cx)
          ensures RowKey(row, columns, |columns|).Some?
          ensures AllSpell(PredicateKey(Some(p), cx.parameters, columns, families, cx.relation).value,
                           RowKey(row, columns, |columns|).value, families)
        {
          PredicateKeyExact(p, cx, columns, families, row);
        }
      } else {
        var row := RowWith(columns, OperandKey(values, columns, cx));
        EqualKeyAccepted(p, columns, OperandKey(values, columns, cx), cx);
        PredicateKeyExact(p, cx, columns, families, row);
        assert !AllSpell(PredicateKey(Some(p), cx.parameters, columns, families, cx.relation).value,
                         RowKey(row, columns, |columns|).value, families);
      }
    } else {
      TwoKeysAccepted(p, cx, columns, families);
    }
  }

  /** The operands' own values are equal to them, and so is another that a collation holds equal. */
  lemma OperandsEqualled(values: Equalities, columns: seq<string>, i: nat, v: KeyValue, cx: Context)
    requires Equates(cx.server) && Constants(values, columns, cx.parameters) && Answered(values, columns, cx) && i < |columns|
    requires cx.server.same(CollationOf(columns[i], values[columns[i]], cx), ColumnFamily(cx, columns[i]), v,
                            OperandKey(values, columns, cx)[i])
    ensures Equalled(values, columns, OperandKey(values, columns, cx), cx)
    ensures Equalled(values, columns, OperandKey(values, columns, cx)[i := v], cx)
  {
  }

  /** Where a collation holds another value equal to an operand's, rows of two keys are accepted. */
  lemma TwoKeysAccepted(p: Pred, cx: Context, columns: seq<string>, families: seq<Family>)
    requires Faithful(cx) && OwnPredicate(p, columns, cx) && Distinct(columns) && Pure(p, cx.relation, columns)
    requires PredicateKey(Some(p), cx.parameters, columns, families, cx.relation).Some?
    requires Constants(Collect(p, cx.relation, map[]).value, columns, cx.parameters)
    requires Answered(Collect(p, cx.relation, map[]).value, columns, cx) && !PredicateAlone(p, columns, cx)
    ensures !AcceptsOnlyKey(p, columns, families, cx)
  {
    var values := Collect(p, cx.relation, map[]).value;
    var key := OperandKey(values, columns, cx);
    var i :| 0 <= i < |columns| && !Alone(columns[i], values[columns[i]], cx);
    var v :| cx.server.same(CollationOf(columns[i], values[columns[i]], cx), ColumnFamily(cx, columns[i]), v, key[i]) && v != key[i];
    OperandsEqualled(values, columns, i, v, cx);
    EqualKeyAccepted(p, columns, key, cx);
    EqualKeyAccepted(p, columns, key[i := v], cx);
    DifferentKeys(p, cx, columns, families, key, key[i := v], i);
  }

  lemma DifferentKeys(
      p: Pred, cx: Context, columns: seq<string>, families: seq<Family>, a: seq<KeyValue>, b: seq<KeyValue>, i: nat)
    requires PredicateKey(Some(p), cx.parameters, columns, families, cx.relation).Some? && Distinct(columns)
    requires |a| == |b| == |columns| && i < |a| && a[i] != b[i]
    requires Satisfies(p, RowWith(columns, a), cx) && Satisfies(p, RowWith(columns, b), cx)
    ensures !AcceptsOnlyKey(p, columns, families, cx)
  {
    RowWithHolds(columns, a);
    RowWithHolds(columns, b);
    if AcceptsOnlyKey(p, columns, families, cx) {
      OneKeyAccepted(p, cx, columns, families, RowWith(columns, a), RowWith(columns, b));
    }
  }

  lemma SpelledOnce(texts: seq<string>, a: seq<KeyValue>, b: seq<KeyValue>, families: seq<Family>)
    requires AllSpell(texts, a, families) && AllSpell(texts, b, families)
    ensures a == b
  {
    forall i | 0 <= i < |a| ensures a[i] == b[i] {
      assert Spells(texts[i], a[i], families[i]) && Spells(texts[i], b[i], families[i]);
    }
  }

  lemma OneKeyAccepted(p: Pred, cx: Context, columns: seq<string>, families: seq<Family>, a: Row, b: Row)
    requires PredicateKey(Some(p), cx.parameters, columns, families, cx.relation).Some?
    requires AcceptsOnlyKey(p, columns, families, cx) && Satisfies(p, a, cx) && Satisfies(p, b, cx)
    ensures RowKey(a, columns, |columns|).Some? && RowKey(a, columns, |columns|) == RowKey(b, columns, |columns|)
  {
    SpelledOnce(PredicateKey(Some(p), cx.parameters, columns, families, cx.relation).value,
                RowKey(a, columns, |columns|).value, RowKey(b, columns, |columns|).value, families);
  }
}
