/** One sharded table, spread over the Burrows, behaves as one logical table: over any run of writes
    the Proxy accepts, and for every read it answers. */
module LogicalTable {
  import opened Text
  import opened Scalar
  import opened Modifiers
  import opened Router
  import opened Meaning
  import opened Analysis
  import opened Bags

  type Table = multiset<Row>

  /** A table of a fleet, with its key columns and their types. */
  datatype Site = Site(fleet: Fleet, table: string) {
    ghost predicate Valid() {
      && fleet.registry.IsSharded(table)
      && |Columns()| == |Families()|
      && forall i, j :: 0 <= i < j < |fleet.burrows| ==> fleet.burrows[i] != fleet.burrows[j]
    }
    function Columns(): seq<string> {
      if table in fleet.registry.keys then fleet.registry.keys[table] else []
    }
    function Families(): seq<Family> {
      Analysis.Families(fleet.registry, table)
    }
  }

  // ----------------------------------------------------------------------------------- writes

  /** A write as the server would carry it out: the row it adds, or what it makes of a row.  A statement
      with more to it than that, ON CONFLICT, WITH, FROM or several rows, has any effect at all. */
  datatype Write =
    | Inserting(s: Statement, cx: Context, row: Row, effect: Table -> Table)
    | Updating(s: Statement, cx: Context, change: Row -> Row, effect: Table -> Table)
    | Deleting(s: Statement, cx: Context, effect: Table -> Table)
    | Copying(values: seq<string>, cx: Context, row: Row)

  /** One row into, or a WHERE clause over, this one relation and nothing else. */
  predicate Plain(s: Statement) {
    match s
    case Select(from, where, shape, _, relations) =>
      !shape.withClause && !shape.setOperation && |from| == 1 && from[0].Physical? && |relations| == 1 && where.Some?
    case Insert(_, cols, rows, withClause, onConflict, relations) =>
      !withClause && !onConflict && |relations| == 1 && rows.Some? && |rows.value| == 1 && |rows.value[0]| == |cols|
    case Update(_, _, where, withClause, more, relations) => !withClause && !more && |relations| == 1 && where.Some?
    case Delete(_, where, withClause, more, relations) => !withClause && !more && |relations| == 1 && where.Some?
  }

  ghost function Matcher(p: Pred, cx: Context): Row -> bool {
    row => Satisfies(p, row, cx)
  }

  ghost function Other(p: Pred, cx: Context): Row -> bool {
    row => !Satisfies(p, row, cx)
  }

  ghost function Where(w: Write): Option<Pred>
    requires w.Updating? || w.Deleting?
  {
    if w.s.Update? || w.s.Delete? then w.s.where else None
  }

  /** What a write does to a table. */
  ghost function Apply(m: Table, w: Write): Table {
    match w
    case Copying(_, _, row) => m + multiset{row}
    case Inserting(s, _, row, effect) => if Plain(s) then m + multiset{row} else effect(m)
    case Updating(s, cx, change, effect) =>
      if !Plain(s) || Where(w).None? then effect(m) else
        Filter(m, Other(Where(w).value, cx)) + Image(Filter(m, Matcher(Where(w).value, cx)), change)
    case Deleting(s, cx, effect) =>
      if !Plain(s) || Where(w).None? then effect(m) else Filter(m, Other(Where(w).value, cx))
  }

  /** What the Proxy does with a write.  A COPY row without a target ends the COPY with an error. */
  function DecisionOf(w: Write, site: Site): Decision {
    match w
    case Copying(values, _, _) =>
      (match TargetForKey(site.table, values, site.Families(), site.fleet) case Some(target) => Send(target) case None => Refuse)
    case _ => Decide(Analyze(w.s, w.cx.parameters, site.fleet))
  }

  /** The Burrow a write is sent to, if it is sent to one. */
  function TargetOf(w: Write, site: Site): Option<string> {
    match DecisionOf(w, site) case Send(target) => Some(target) case _ => None
  }

  function IndexOf(name: string, burrows: seq<string>, from: nat := 0): (r: Option<nat>)
    requires from <= |burrows|
    ensures r.Some? ==> r.value < |burrows| && burrows[r.value] == name
    decreases |burrows| - from
  {
    if from == |burrows| then None else if burrows[from] == name then Some(from) else IndexOf(name, burrows, from + 1)
  }

  /** The Burrow that carries a write out, if any does. */
  function Carrier(w: Write, site: Site): (r: Option<nat>)
    ensures r.Some? ==> r.value < |site.fleet.burrows| && TargetOf(w, site) == Some(site.fleet.burrows[r.value])
  {
    match TargetOf(w, site)
    case None => None
    case Some(target) => IndexOf(target, site.fleet.burrows)
  }

  /** The write is carried out where it is sent to: on its one Burrow, on every Burrow when it is scattered,
      on the first when any will do, and nowhere when it is refused. */
  ghost function Execute(tables: seq<Table>, w: Write, site: Site): (r: seq<Table>)
    requires |tables| == |site.fleet.burrows|
    ensures |r| == |tables|
  {
    match DecisionOf(w, site)
    case Refuse => tables
    case Send(_) =>
      (match Carrier(w, site) case None => tables case Some(b) => tables[b := Apply(tables[b], w)])
    case Scatter => seq(|tables|, b requires 0 <= b < |tables| => Apply(tables[b], w))
    case Elsewhere => if tables == [] then tables else tables[0 := Apply(tables[0], w)]
  }

  /** The same write on one logical table. */
  ghost function ExecuteLogical(logical: Table, w: Write, site: Site): Table {
    match DecisionOf(w, site)
    case Refuse => logical
    case Send(_) => if Carrier(w, site).None? then logical else Apply(logical, w)
    case _ => Apply(logical, w)
  }

  // ------------------------------------------------------------------------------ assumptions

  function Assigned(k: Option<KeyValue>, column: string, cx: Context): Option<KeyValue> {
    match k case None => None case Some(v) => cx.server.assign(v, column)
  }

  /** The row an INSERT of these values stores. */
  ghost predicate Stored(values: Equalities, row: Row, cx: Context) {
    forall c :: c in values ==> ColumnValue(row, c) == Assigned(Operand(values[c], ColumnFamily(cx, c), map[], cx), c, cx)
  }

  /** The limits a value passes on its way into a column. */
  function StoredPassed(e: Expr, family: Family, column: string, cx: Context): set<int> {
    Passed(e, family) + Only(ColumnLimit(cx, column))
  }

  function CopiedPassed(family: Family, column: string, cx: Context): set<int> {
    Only(ReadLimit(family)) + Only(ColumnLimit(cx, column))
  }

  /** Each key operand fits the limits on its way into the row, the column's own included. */
  predicate StoredFits(texts: seq<string>, values: Equalities, columns: seq<string>, families: seq<Family>, cx: Context)
    requires |texts| == |columns| == |families|
  {
    forall i :: 0 <= i < |columns| && columns[i] in values ==>
      OperandFits(texts[i], values[columns[i]], families[i], StoredPassed(values[columns[i]], families[i], columns[i], cx),
                  cx.parameters)
  }

  ghost predicate FullKey(row: Row, columns: seq<string>) {
    forall i :: 0 <= i < |columns| ==> ColumnValue(row, columns[i]).Some?
  }

  /** The one VALUES row of an INSERT, by column. */
  function InsertedValues(s: Statement): Option<Equalities>
    requires s.Insert?
  {
    if s.rows.None? || |s.rows.value| != 1 || |s.rows.value[0]| != |s.cols| then None
    else InsertValues(s.cols, s.rows.value[0], |s.cols|)
  }

  /** Only the listed columns change. */
  ghost predicate ChangesOnly(targets: seq<Target>, change: Row -> Row) {
    forall row, c :: (forall i :: 0 <= i < |targets| ==> targets[i].name != c) ==> ColumnValue(change(row), c) == ColumnValue(row, c)
  }

  /** No key column is assigned, be it through a subscript or a field. */
  predicate NoKeyTarget(targets: seq<Target>, columns: seq<string>) {
    forall i :: 0 <= i < |targets| ==> targets[i].name !in columns
  }

  /** The row a COPY of these key texts stores. */
  ghost predicate CopiedKey(values: seq<string>, row: Row, site: Site, cx: Context) {
    && |values| == |site.Columns()| == |site.Families()| && FullKey(row, site.Columns())
    && forall i :: 0 <= i < |values| ==>
         ColumnValue(row, site.Columns()[i]) == Assigned(cx.server.read(values[i], site.Families()[i]), site.Columns()[i], cx)
  }

  /** Each copied key text fits its column. */
  predicate CopyFits(values: seq<string>, columns: seq<string>, families: seq<Family>, cx: Context)
    requires |values| == |columns| == |families|
  {
    forall i :: 0 <= i < |values| ==>
      CanonicalScalar(values[i], families[i]).Some? ==> CopiedFits(values[i], families[i], CopiedPassed(families[i], columns[i], cx))
  }

  /** The values of an INSERT are stored in its row, and the key texts it is routed by fit. */
  ghost predicate InsertFits(values: Equalities, row: Row, site: Site, cx: Context) {
    && Stored(values, row, cx) && OwnTypes(values, site.Columns(), cx)
    && var texts := OrderedTexts(values, cx.parameters, site.Columns(), site.Families(), |site.Columns()|);
       texts.Some? && |site.Columns()| == |site.Families()| ==>
         StoredFits(texts.value, values, site.Columns(), site.Families(), cx)
  }

  ghost predicate WhereExact(where: Option<Pred>, site: Site, cx: Context) {
    where.Some? ==> PredicateExact(where.value, site.Columns(), site.Families(), cx)
  }

  /** What is assumed of a write: it is about this table, key texts fit their columns and casts, no collation
      holds another value equal to a key operand's, and an UPDATE assigns no key column. */
  ghost predicate Admissible(w: Write, site: Site) {
    && Faithful(w.cx)
    && match w
       case Copying(values, cx, row) =>
         && CopiedKey(values, row, site, cx) && TypedKeys(cx, site.Columns(), site.Families())
         && CopyFits(values, site.Columns(), site.Families(), cx)
       case Inserting(s, cx, row, _) =>
         && s.Insert? && OnTable(s, cx, site.table, site.fleet) && FullKey(row, site.Columns())
         && (InsertedValues(s).Some? ==> InsertFits(InsertedValues(s).value, row, site, cx))
       case Updating(s, cx, change, _) =>
         && s.Update? && OnTable(s, cx, site.table, site.fleet) && WhereExact(s.where, site, cx)
         && ChangesOnly(s.targets, change) && NoKeyTarget(s.targets, site.Columns())
       case Deleting(s, cx, _) =>
         s.Delete? && OnTable(s, cx, site.table, site.fleet) && WhereExact(s.where, site, cx)
  }

  // ----------------------------------------------------------------------------- the invariant

  ghost predicate Owned(row: Row, site: Site, burrow: string)
    requires site.Valid()
  {
    OwnedBy(row, site.table, site.Columns(), site.Families(), site.fleet, burrow)
  }

  /** Every row sits on the Burrow that owns its key. */
  ghost predicate Placed(tables: seq<Table>, site: Site)
    requires site.Valid() && |tables| == |site.fleet.burrows|
  {
    forall b, row :: 0 <= b < |tables| && row in tables[b] ==> Owned(row, site, site.fleet.burrows[b])
  }

  lemma CarriedOut(tables: seq<Table>, logical: Table, w: Write, site: Site)
    requires |tables| == |site.fleet.burrows| && Carrier(w, site).Some?
    ensures var b := Carrier(w, site).value; Execute(tables, w, site) == tables[b := Apply(tables[b], w)]
    ensures ExecuteLogical(logical, w, site) == Apply(logical, w)
  {
  }

  /** Every write to the table is sent to the owner of its key, or refused when it has none: none is scattered. */
  lemma WriteIsSentOrRefused(w: Write, site: Site)
    requires site.Valid()
    requires !w.Copying? ==> !w.s.Select? && OnTable(w.s, w.cx, site.table, site.fleet)
    ensures DecisionOf(w, site)
      == match KeyTarget(w, site) case Some(target) => Send(target) case None => Refuse
  {
    if !w.Copying? {
      WriteDecision(w.s, w.cx, site.table, site.fleet);
    }
  }

  /** The owner of the key a write fixes, if it fixes one that has an owner. */
  function KeyTarget(w: Write, site: Site): Option<string>
    requires site.fleet.registry.IsSharded(site.table)
  {
    if w.Copying? then TargetForKey(site.table, w.values, site.Families(), site.fleet)
    else KeyOwner(w.s, w.cx.parameters, site.table, site.fleet)
  }

  lemma CarrierIsTarget(w: Write, site: Site)
    requires Carrier(w, site).Some? && !w.Copying?
    ensures Analyze(w.s, w.cx.parameters, site.fleet).target == Some(site.fleet.burrows[Carrier(w, site).value])
  {
  }

  /** Only plain statements are routed, and on them the routed predicate is the WHERE clause. */
  lemma RoutedIsPlain(s: Statement, cx: Context, site: Site)
    requires OnTable(s, cx, site.table, site.fleet) && Analyze(s, cx.parameters, site.fleet).target.Some?
    ensures Plain(s) && (!s.Insert? ==> RoutedPredicate(s) == s.where)
  {
    TargetIsKeyOwner(s, cx, site.table, site.fleet);
  }

  /** A stored value is what the router's text denotes exactly when the constant is straight and the text
      fits the limits on its way. */
  lemma StoredDenotes(e: Expr, family: Family, column: string, cx: Context)
    requires Faithful(cx) && ColumnFamily(cx, column) == family && OwnCasts(e, family)
    requires ScalarValue(e, cx.parameters, family).Some? && Assigned(Operand(e, family, map[], cx), column, cx).Some?
    ensures var text := ScalarValue(e, cx.parameters, family).value;
      && CanonicalScalar(text, family) == Some(text)
      && (Denotes(text, family) == Assigned(Operand(e, family, map[], cx), column, cx).value
          <==> OperandFits(text, e, family, StoredPassed(e, family, column, cx), cx.parameters))
  {
    ScalarCameOut(e, family, map[], cx);
    var text, k := ScalarValue(e, cx.parameters, family).value, Operand(e, family, map[], cx).value;
    if Straight(e, family, cx.parameters) {
      OneMoreLimit(k, Denotes(text, family), family, Passed(e, family), ColumnLimit(cx, column));
      FitsAllIsWithin(text, family, Passed(e, family) + Only(ColumnLimit(cx, column)));
    } else {
      CrookedStays(e, family, map[], ColumnLimit(cx, column), cx);
    }
  }

  /** A row is stored under the key its INSERT was routed by exactly when the key constants are straight
      and their texts fit: no more digits or characters than the casts and the columns keep. */
  lemma RoutedKeyIsStoredKey(values: Equalities, columns: seq<string>, families: seq<Family>, row: Row, cx: Context)
    requires Faithful(cx) && TypedKeys(cx, columns, families) && OwnTypes(values, columns, cx)
    requires Stored(values, row, cx) && FullKey(row, columns)
    requires OrderedTexts(values, cx.parameters, columns, families, |columns|).Some?
    ensures var texts := OrderedTexts(values, cx.parameters, columns, families, |columns|).value;
      AllSpell(texts, RowKey(row, columns, |columns|).value, families) <==> StoredFits(texts, values, columns, families, cx)
  {
    var texts := OrderedTexts(values, cx.parameters, columns, families, |columns|).value;
    forall i | 0 <= i < |columns|
      ensures columns[i] in values
      ensures Spells(texts[i], ColumnValue(row, columns[i]).value, families[i])
        <==> OperandFits(texts[i], values[columns[i]], families[i],
                         StoredPassed(values[columns[i]], families[i], columns[i], cx), cx.parameters)
    {
      assert columns[i] in values && FamilyAt(families, columns, i) == families[i];
      StoredDenotes(values[columns[i]], families[i], columns[i], cx);
    }
  }

  lemma CopiedDenotes(value: string, family: Family, column: string, cx: Context)
    requires Faithful(cx) && ColumnFamily(cx, column) == family && CanonicalScalar(value, family).Some?
    requires Assigned(cx.server.read(value, family), column, cx).Some?
    ensures Denotes(value, family) == Assigned(cx.server.read(value, family), column, cx).value
      <==> CopiedFits(value, family, CopiedPassed(family, column, cx))
  {
    var x, k := Denotes(value, family), cx.server.read(value, family).value;
    if DecimalOid(value, family) {
      LiteralCameOut(value, family);
      OneMoreLimit(k, x, family, Only(ReadLimit(family)), ColumnLimit(cx, column));
      CanonicalScalarFixed(value, family);
      FitsAllIsWithin(CanonicalScalar(value, family).value, family, Only(ReadLimit(family)) + Only(ColumnLimit(cx, column)));
    } else {
      OctalIsAnother(value, family);
    }
  }

  /** A COPY row is stored under the key it was routed by exactly when its key texts fit their columns. */
  lemma CopiedKeyIsStoredKey(values: seq<string>, row: Row, site: Site, cx: Context)
    requires Faithful(cx) && TypedKeys(cx, site.Columns(), site.Families()) && CopiedKey(values, row, site, cx)
    requires CanonicalKey(values, site.Families(), |values|).Some?
    ensures AllSpell(values, RowKey(row, site.Columns(), |site.Columns()|).value, site.Families())
      <==> CopyFits(values, site.Columns(), site.Families(), cx)
  {
    var columns, families := site.Columns(), site.Families();
    forall i | 0 <= i < |values|
      ensures Spells(values[i], ColumnValue(row, columns[i]).value, families[i])
        <==> CopiedFits(values[i], families[i], CopiedPassed(families[i], columns[i], cx))
    {
      CopiedDenotes(values[i], families[i], columns[i], cx);
    }
  }

  lemma InsertedOwned(w: Write, site: Site)
    requires site.Valid() && w.Inserting? && Admissible(w, site) && Carrier(w, site).Some?
    ensures Owned(w.row, site, site.fleet.burrows[Carrier(w, site).value])
  {
    CarrierIsTarget(w, site);
    TargetIsKeyOwner(w.s, w.cx, site.table, site.fleet);
    var values := InsertedValues(w.s).value;
    RoutedKeyIsStoredKey(values, site.Columns(), site.Families(), w.row, w.cx);
    AnySpelling(site.table, OrderedTexts(values, w.cx.parameters, site.Columns(), site.Families(), |site.Columns()|).value,
                RowKey(w.row, site.Columns(), |site.Columns()|).value, site.Families(), site.fleet);
  }

  lemma CopiedOwned(w: Write, site: Site)
    requires site.Valid() && w.Copying? && Admissible(w, site) && Carrier(w, site).Some?
    ensures Owned(w.row, site, site.fleet.burrows[Carrier(w, site).value])
  {
    var columns, families := site.Columns(), site.Families();
    CopiedKeyIsStoredKey(w.values, w.row, site, w.cx);
    AnySpelling(site.table, w.values, RowKey(w.row, columns, |columns|).value, families, site.fleet);
  }

  /** A row an accepted UPDATE or DELETE matches is owned by the Burrow that carries it out. */
  lemma MatchedOwned(w: Write, site: Site, row: Row)
    requires site.Valid() && (w.Updating? || w.Deleting?) && Admissible(w, site) && Carrier(w, site).Some?
    ensures Plain(w.s) && Where(w).Some?
    ensures Satisfies(Where(w).value, row, w.cx) ==> Owned(row, site, site.fleet.burrows[Carrier(w, site).value])
  {
    CarrierIsTarget(w, site);
    RoutedIsPlain(w.s, w.cx, site);
    RoutedRowsAreOwned(w.s, w.cx, site.table, site.fleet, row);
  }

  /** An accepted UPDATE leaves every row where it belongs. */
  lemma ChangedOwned(w: Write, site: Site, row: Row, burrow: string)
    requires site.Valid() && w.Updating? && Admissible(w, site) && Carrier(w, site).Some? && Owned(row, site, burrow)
    ensures Owned(w.change(row), site, burrow)
  {
    CarrierIsTarget(w, site);
    TargetIsKeyOwner(w.s, w.cx, site.table, site.fleet);
    var columns := site.Columns();
    forall i | 0 <= i < |columns| ensures ColumnValue(w.change(row), columns[i]) == ColumnValue(row, columns[i]) {
    }
    SameKey(row, w.change(row), columns, |columns|);
  }

  lemma {:induction false} SameKey(a: Row, b: Row, columns: seq<string>, n: nat)
    requires n <= |columns| && forall i :: 0 <= i < |columns| ==> ColumnValue(a, columns[i]) == ColumnValue(b, columns[i])
    ensures RowKey(a, columns, n) == RowKey(b, columns, n)
  {
    if n > 0 {
      SameKey(a, b, columns, n - 1);
    }
  }

  /** Matching rows are found on one Burrow only. */
  lemma OnlyOnOwner(tables: seq<Table>, site: Site, p: Row -> bool, b: nat)
    requires site.Valid() && |tables| == |site.fleet.burrows| && Placed(tables, site) && b < |tables|
    requires forall row :: p(row) ==> Owned(row, site, site.fleet.burrows[b])
    ensures forall i :: 0 <= i < |tables| && i != b ==> NoneIn(tables[i], p)
  {
    forall i | 0 <= i < |tables| && i != b ensures NoneIn(tables[i], p) {
      forall row | row in tables[i] ensures !p(row) {
        assert Owned(row, site, site.fleet.burrows[i]);
      }
    }
  }

  /** All copies of matching rows live on the carrier. */
  lemma CarrierHasAll(tables: seq<Table>, w: Write, site: Site)
    requires site.Valid() && |tables| == |site.fleet.burrows| && Placed(tables, site)
    requires (w.Updating? || w.Deleting?) && Admissible(w, site) && Carrier(w, site).Some?
    ensures Plain(w.s) && Where(w).Some?
    ensures forall i :: 0 <= i < |tables| && i != Carrier(w, site).value ==> NoneIn(tables[i], Matcher(Where(w).value, w.cx))
  {
    var b := Carrier(w, site).value;
    MatchedOwned(w, site, map[]);
    var p := Matcher(Where(w).value, w.cx);
    forall row | p(row) ensures Owned(row, site, site.fleet.burrows[b]) {
      MatchedOwned(w, site, row);
    }
    OnlyOnOwner(tables, site, p, b);
  }

  /** The fleet holds exactly the logical table, each row on its owner. */
  ghost predicate Represents(tables: seq<Table>, logical: Table, site: Site)
    requires site.Valid()
  {
    |tables| == |site.fleet.burrows| && Placed(tables, site) && UnionAll(tables) == logical
  }

  /** A new table for one Burrow keeps the placement if its rows belong there. */
  lemma PlacedUpdate(tables: seq<Table>, site: Site, b: nat, table: Table)
    requires site.Valid() && |tables| == |site.fleet.burrows| && Placed(tables, site) && b < |tables|
    requires forall row :: row in table ==> Owned(row, site, site.fleet.burrows[b])
    ensures Placed(tables[b := table], site)
  {
  }

  lemma AddedRow(tables: seq<Table>, logical: Table, site: Site, b: nat, row: Row)
    requires site.Valid() && Represents(tables, logical, site) && b < |tables|
    requires Owned(row, site, site.fleet.burrows[b])
    ensures Represents(tables[b := tables[b] + multiset{row}], logical + multiset{row}, site)
  {
    PlacedUpdate(tables, site, b, tables[b] + multiset{row});
    UnionInsert(tables, b, row);
  }

  lemma ChangedPlaced(tables: seq<Table>, w: Write, site: Site)
    requires site.Valid() && |tables| == |site.fleet.burrows| && Placed(tables, site)
    requires (w.Updating? || w.Deleting?) && Admissible(w, site) && Carrier(w, site).Some? && Plain(w.s) && Where(w).Some?
    ensures Placed(Execute(tables, w, site), site)
  {
    var b := Carrier(w, site).value;
    var table, burrow := Apply(tables[b], w), site.fleet.burrows[b];
    var kept := Filter(tables[b], Other(Where(w).value, w.cx));
    var matched := Filter(tables[b], Matcher(Where(w).value, w.cx));
    forall row | row in table ensures Owned(row, site, burrow) {
      FilterMember(tables[b], Other(Where(w).value, w.cx), row);
      if row !in kept {
        var was := ImageMember(matched, w.change, row);
        FilterMember(tables[b], Matcher(Where(w).value, w.cx), was);
        ChangedOwned(w, site, was, burrow);
      }
    }
    PlacedUpdate(tables, site, b, table);
    CarriedOut(tables, multiset{}, w, site);
  }

  lemma ChangedRows(tables: seq<Table>, logical: Table, w: Write, site: Site)
    requires site.Valid() && Represents(tables, logical, site)
    requires (w.Updating? || w.Deleting?) && Admissible(w, site) && Carrier(w, site).Some?
    ensures Represents(Execute(tables, w, site), ExecuteLogical(logical, w, site), site)
  {
    CarrierHasAll(tables, w, site);
    ChangedPlaced(tables, w, site);
    CarriedOut(tables, logical, w, site);
    var b := Carrier(w, site).value;
    var p, q := Matcher(Where(w).value, w.cx), Other(Where(w).value, w.cx);
    var made := if w.Updating? then Image(Filter(tables[b], p), w.change) else multiset{};
    ReplaceMatching(tables, b, p, q, made);
    if w.Deleting? {
      assert Filter(tables[b], q) + made == Filter(tables[b], q);
      assert Filter(logical, q) + made == Filter(logical, q);
    }
  }

  /** Every write, accepted or refused, does to the fleet what it does to one logical table. */
  lemma WriteKeeps(tables: seq<Table>, logical: Table, w: Write, site: Site)
    requires site.Valid() && Represents(tables, logical, site) && Admissible(w, site)
    ensures Represents(Execute(tables, w, site), ExecuteLogical(logical, w, site), site)
  {
    WriteIsSentOrRefused(w, site);
    if Carrier(w, site).Some? {
      match w {
        case Inserting(s, cx, row, _) =>
          CarrierIsTarget(w, site);
          RoutedIsPlain(s, cx, site);
          InsertedOwned(w, site);
          AddedRow(tables, logical, site, Carrier(w, site).value, row);
        case Copying(_, _, row) =>
          CopiedOwned(w, site);
          AddedRow(tables, logical, site, Carrier(w, site).value, row);
        case Updating(_, _, _, _) => ChangedRows(tables, logical, w, site);
        case Deleting(_, _, _) => ChangedRows(tables, logical, w, site);
      }
    }
  }

  ghost function Run(tables: seq<Table>, writes: seq<Write>, site: Site): (r: seq<Table>)
    requires |tables| == |site.fleet.burrows|
    ensures |r| == |tables|
  {
    if writes == [] then tables else Execute(Run(tables, writes[..|writes| - 1], site), writes[|writes| - 1], site)
  }

  ghost function RunLogical(logical: Table, writes: seq<Write>, site: Site): Table {
    if writes == [] then logical
    else ExecuteLogical(RunLogical(logical, writes[..|writes| - 1], site), writes[|writes| - 1], site)
  }

  /** Over any run of writes the fleet stays one logical table. */
  lemma {:induction false} RunKeeps(tables: seq<Table>, logical: Table, writes: seq<Write>, site: Site)
    requires site.Valid() && Represents(tables, logical, site)
    requires forall i :: 0 <= i < |writes| ==> Admissible(writes[i], site)
    ensures Represents(Run(tables, writes, site), RunLogical(logical, writes, site), site)
    decreases |writes|
  {
    if writes != [] {
      var before := writes[..|writes| - 1];
      RunKeeps(tables, logical, before, site);
      WriteKeeps(Run(tables, before, site), RunLogical(logical, before, site), writes[|writes| - 1], site);
    }
  }
}
