/** Rows the Proxy puts, or leaves, on a Burrow that does not own them: what the router accepts beyond the
    conditions of the logical table, with the condition that is exact. */
module Displacement {
  import opened Text
  import opened Decimal
  import opened Scalar
  import opened Rounding
  import opened Literals
  import opened Modifiers
  import opened Router
  import opened Meaning
  import opened Analysis
  import opened LogicalTable

  // ---------------------------------------------------------------------- separating two keys

  function Hashed(site: Site, hash: string -> nat): Site {
    site.(fleet := site.fleet.(hash := hash))
  }

  /** The owner of whatever hashes to n. */
  function OwnerAt(site: Site, n: nat): Option<string> {
    OwnerOfText(site.table, "", Hashed(site, _ => n).fleet)
  }

  /** The table is spread over two Burrows at least: two hash values have different owners. */
  ghost predicate Spread(site: Site) {
    site.fleet.burrows != [] && exists m, n :: OwnerAt(site, m).Some? && OwnerAt(site, n).Some? && OwnerAt(site, m) != OwnerAt(site, n)
  }

  lemma OwnerByHash(site: Site, hash: string -> nat, key: string)
    ensures OwnerOfText(site.table, key, Hashed(site, hash).fleet) == OwnerAt(site, hash(key))
  {
  }

  /** Keys that differ in one column at most have the same joined text only if they are the same. */
  lemma {:induction false} JoinDecides(a: seq<string>, b: seq<string>, j: nat)
    requires |a| == |b| && j < |a| && (forall i :: 0 <= i < |a| && i != j ==> a[i] == b[i]) && Join(a) == Join(b)
    ensures a[j] == b[j]
    decreases |a|
  {
    if |a| > 1 {
      var s, t := Join(a[1..]), Join(b[1..]);
      if j == 0 {
        assert a[1..] == b[1..];
        SuffixCancels(a[0] + "\0", b[0] + "\0", s);
        SuffixCancels(a[0], b[0], "\0");
      } else {
        PrefixCancels(a[0] + "\0", s, t);
        JoinDecides(a[1..], b[1..], j - 1);
      }
    }
  }

  lemma SuffixCancels(a: string, b: string, tail: string)
    requires a + tail == b + tail
    ensures a == b
  {
    var all := a + tail;
    assert |a| == |all| - |tail| == |b|;
    assert all[..|a|] == a && all[..|a|] == b;
  }

  lemma PrefixCancels(head: string, a: string, b: string)
    requires head + a == head + b
    ensures a == b
  {
    var all := head + a;
    assert all[|head|..] == a && all[|head|..] == b;
  }

  /** Two canonical keys that differ in one column have different owners under some hash. */
  lemma KeysSeparate(a: seq<string>, b: seq<string>, families: seq<Family>, j: nat, site: Site) returns (hash: string -> nat)
    requires Spread(site) && |a| == |b| == |families| && j < |a|
    requires a[j] != b[j] && forall i :: 0 <= i < |a| && i != j ==> a[i] == b[i]
    requires forall i :: 0 <= i < |a| ==> CanonicalScalar(a[i], families[i]) == Some(a[i]) && CanonicalScalar(b[i], families[i]) == Some(b[i])
    ensures var fleet := Hashed(site, hash).fleet;
      && TargetForKey(site.table, a, families, fleet).Some?
      && TargetForKey(site.table, b, families, fleet) != TargetForKey(site.table, a, families, fleet)
  {
    var m, n :| OwnerAt(site, m).Some? && OwnerAt(site, n).Some? && OwnerAt(site, m) != OwnerAt(site, n);
    var key := Join(a);
    hash := (text: string) => if text == key then m else n;
    assert CanonicalKey(a, families, |a|).value == a && CanonicalKey(b, families, |b|).value == b;
    if Join(a) == Join(b) {
      JoinDecides(a, b, j);
    }
    OwnerByHash(site, hash, Join(a));
    OwnerByHash(site, hash, Join(b));
  }

  // --------------------------------------------------------------- assignments to key columns

  /** Whatever an UPDATE of these targets makes of a row with a key, the row stays on its owner, under
      every hash. */
  ghost predicate StaysPut(targets: seq<Target>, site: Site)
    requires site.Valid()
  {
    forall hash, change: Row -> Row, row, burrow ::
      ChangesOnly(targets, change) && KeySpelled(change(row), site) && Owned(row, Hashed(site, hash), burrow) ==>
        Owned(change(row), Hashed(site, hash), burrow)
  }

  /** The row has a complete key, of values that can be written down. */
  ghost predicate KeySpelled(row: Row, site: Site)
    requires site.Valid()
  {
    exists texts :: RowKey(row, site.Columns(), |site.Columns()|).Some?
      && AllSpell(texts, RowKey(row, site.Columns(), |site.Columns()|).value, site.Families())
  }

  /** PostgreSQL lets only a name be assigned through a subscript; other key types have none. */
  predicate OnlyNamesSubscripted(targets: seq<Target>, site: Site)
    requires |site.Columns()| == |site.Families()|
  {
    forall i, j :: 0 <= i < |targets| && targets[i].indirected && 0 <= j < |site.Columns()| && site.Columns()[j] == targets[i].name ==>
      site.Families()[j] == Name
  }

  /** A row with these key texts. */
  function RowOf(columns: seq<string>, texts: seq<string>, families: seq<Family>): Row
    requires |columns| == |texts| == |families|
    requires forall i :: 0 <= i < |texts| ==> CanonicalScalar(texts[i], families[i]).Some?
  {
    RowWith(columns, seq(|texts|, i requires 0 <= i < |texts| => Denotes(texts[i], families[i])))
  }

  lemma RowOfHolds(columns: seq<string>, texts: seq<string>, families: seq<Family>)
    requires |columns| == |texts| == |families| && Distinct(columns)
    requires forall i :: 0 <= i < |texts| ==> CanonicalScalar(texts[i], families[i]).Some?
    ensures forall i :: 0 <= i < |columns| ==>
      ColumnValue(RowOf(columns, texts, families), columns[i]) == Some(Denotes(texts[i], families[i]))
  {
    RowWithHolds(columns, seq(|texts|, i requires 0 <= i < |texts| => Denotes(texts[i], families[i])));
  }

  lemma SpelledOwner(row: Row, texts: seq<string>, site: Site)
    requires site.Valid() && |texts| == |site.Columns()|
    requires forall i :: 0 <= i < |texts| ==> CanonicalScalar(texts[i], site.Families()[i]).Some?
    requires forall i :: 0 <= i < |texts| ==> ColumnValue(row, site.Columns()[i]) == Some(Denotes(texts[i], site.Families()[i]))
    ensures KeySpelled(row, site)
    ensures forall burrow ::
      Owned(row, site, burrow) <==> TargetForKey(site.table, texts, site.Families(), site.fleet) == Some(burrow)
  {
    var key := RowKey(row, site.Columns(), |site.Columns()|).value;
    assert AllSpell(texts, key, site.Families());
    AnySpelling(site.table, texts, key, site.Families(), site.fleet);
  }

  /** A name other than the given one. */
  function OtherName(text: string): (r: string)
    ensures r != text
  {
    if text == "a" then "b" else "a"
  }

  /** One column set to a value. */
  function Setting(column: string, value: KeyValue): Row -> Row {
    row => row[column := Some(value)]
  }

  lemma SettingChangesOnly(targets: seq<Target>, column: string, value: KeyValue)
    requires exists i :: 0 <= i < |targets| && targets[i].name == column
    ensures ChangesOnly(targets, Setting(column, value))
  {
  }

  /** A row with the key texts, and the same row with another name in column j. */
  lemma SettingRespells(columns: seq<string>, texts: seq<string>, families: seq<Family>, j: nat, name: string, row: Row)
    requires |columns| == |texts| == |families| && Distinct(columns) && j < |columns| && families[j] == Name
    requires forall i :: 0 <= i < |texts| ==> CanonicalScalar(texts[i], families[i]).Some?
    requires forall i :: 0 <= i < |texts| ==> ColumnValue(row, columns[i]) == Some(Denotes(texts[i], families[i]))
    ensures var now := texts[j := name];
      && (forall i :: 0 <= i < |now| ==> CanonicalScalar(now[i], families[i]).Some?)
      && forall i :: 0 <= i < |now| ==>
           ColumnValue(Setting(columns[j], Characters(name))(row), columns[i]) == Some(Denotes(now[i], families[i]))
  {
  }

  /** One row that an assignment moves, under one hash, is enough. */
  lemma OneMoves(targets: seq<Target>, site: Site, hash: string -> nat, change: Row -> Row, row: Row, burrow: string)
    requires site.Valid() && ChangesOnly(targets, change) && KeySpelled(change(row), site)
    requires Owned(row, Hashed(site, hash), burrow) && !Owned(change(row), Hashed(site, hash), burrow)
    ensures !StaysPut(targets, site)
  {
  }

  /** Assigning key column j moves a row with these key texts, under some hash. */
  lemma KeyAssignmentMoves(targets: seq<Target>, site: Site, texts: seq<string>, j: nat)
    requires site.Valid() && Spread(site) && Distinct(site.Columns()) && |texts| == |site.Columns()|
    requires forall i :: 0 <= i < |texts| ==> CanonicalScalar(texts[i], site.Families()[i]) == Some(texts[i])
    requires j < |site.Columns()| && site.Families()[j] == Name
    requires exists i :: 0 <= i < |targets| && targets[i].name == site.Columns()[j]
    ensures !StaysPut(targets, site)
  {
    var columns, families := site.Columns(), site.Families();
    var name := OtherName(texts[j]);
    var now := texts[j := name];
    var hash := KeysSeparate(texts, now, families, j, site);
    var row := RowOf(columns, texts, families);
    var change := Setting(columns[j], Characters(name));
    RowOfHolds(columns, texts, families);
    SettingRespells(columns, texts, families, j, name, row);
    SettingChangesOnly(targets, columns[j], Characters(name));
    SpelledOwner(row, texts, Hashed(site, hash));
    SpelledOwner(change(row), now, Hashed(site, hash));
    OneMoves(targets, site, hash, change, row, TargetForKey(site.table, texts, families, Hashed(site, hash).fleet).value);
  }

  lemma OtherColumnsStayPut(targets: seq<Target>, site: Site)
    requires site.Valid() && NoKeyTarget(targets, site.Columns())
    ensures StaysPut(targets, site)
  {
    var columns := site.Columns();
    forall hash, change: Row -> Row, row, burrow |
      ChangesOnly(targets, change) && KeySpelled(change(row), site) && Owned(row, Hashed(site, hash), burrow)
      ensures Owned(change(row), Hashed(site, hash), burrow)
    {
      forall i | 0 <= i < |columns| ensures ColumnValue(change(row), columns[i]) == ColumnValue(row, columns[i]) {
      }
      SameKey(row, change(row), columns, |columns|);
    }
  }

  /** An accepted UPDATE that names a key column does so through a subscript, and moves rows. */
  lemma KeyTargetMoves(s: Statement, cx: Context, site: Site)
    requires site.Valid() && Spread(site) && Distinct(site.Columns())
    requires s.Update? && OnTable(s, cx, site.table, site.fleet) && OnlyNamesSubscripted(s.targets, site)
    requires WhereOwn(s.where, site, cx) && StatementKey(s, cx.parameters, site.fleet.registry, site.table).Some?
    requires !NoKeyTarget(s.targets, site.Columns())
    ensures !StaysPut(s.targets, site)
  {
    var columns := site.Columns();
    var i :| 0 <= i < |s.targets| && s.targets[i].name in columns;
    assert s.targets[i].indirected;
    var j :| 0 <= j < |columns| && columns[j] == s.targets[i].name;
    KeyTextsCanonical(s, cx, site);
    KeyAssignmentMoves(s.targets, site, StatementKey(s, cx.parameters, site.fleet.registry, site.table).value, j);
  }

  /** An accepted UPDATE keeps every row on its owner, whatever it assigns to its targets and whatever the
      hash, exactly when no target, subscripted or not, names a key column. */
  lemma AcceptedUpdateStaysPut(s: Statement, cx: Context, site: Site)
    requires site.Valid() && Spread(site) && Distinct(site.Columns())
    requires s.Update? && OnTable(s, cx, site.table, site.fleet) && OnlyNamesSubscripted(s.targets, site)
    requires WhereOwn(s.where, site, cx) && Analyze(s, cx.parameters, site.fleet).target.Some?
    ensures StaysPut(s.targets, site) <==> NoKeyTarget(s.targets, site.Columns())
  {
    if NoKeyTarget(s.targets, site.Columns()) {
      OtherColumnsStayPut(s.targets, site);
    } else {
      TargetIsKeyOwner(s, cx, site.table, site.fleet);
      KeyTargetMoves(s, cx, site);
    }
  }

  predicate WhereOwn(where: Option<Pred>, site: Site, cx: Context) {
    where.Some? ==> OwnPredicate(where.value, site.Columns(), cx)
  }

  /** The texts an UPDATE is routed by are canonical. */
  lemma KeyTextsCanonical(s: Statement, cx: Context, site: Site)
    requires site.Valid() && s.Update? && OnTable(s, cx, site.table, site.fleet) && WhereOwn(s.where, site, cx)
    requires StatementKey(s, cx.parameters, site.fleet.registry, site.table).Some?
    ensures var texts := StatementKey(s, cx.parameters, site.fleet.registry, site.table).value;
      && |texts| == |site.Columns()|
      && forall i :: 0 <= i < |texts| ==> CanonicalScalar(texts[i], site.Families()[i]) == Some(texts[i])
  {
    var columns, families := site.Columns(), site.Families();
    var values := Collect(s.where.value, cx.relation, map[]).value;
    var texts := StatementKey(s, cx.parameters, site.fleet.registry, site.table).value;
    forall i | 0 <= i < |columns| ensures CanonicalScalar(texts[i], families[i]) == Some(texts[i]) {
      assert FamilyAt(families, columns, i) == families[i] && columns[i] in values;
      CastIsOwn(values[columns[i]], families[i], cx.parameters);
      CanonicalScalarFixed(RawValue(values[columns[i]], cx.parameters).value.text, families[i]);
    }
  }

  // ---------------------------------------------------------------------------------- witnesses

  /** The table has one key column of the family, and the two texts have different owners. */
  ghost predicate Apart(site: Site, column: string, family: Family, a: string, b: string) {
    && site.Valid() && site.Columns() == [column] && site.Families() == [family] && site.fleet.burrows != []
    && OwnerOfText(site.table, a, site.fleet).Some?
    && OwnerOfText(site.table, b, site.fleet) != OwnerOfText(site.table, a, site.fleet)
  }

  lemma OneKeyTarget(table: string, a: string, family: Family, fleet: Fleet)
    requires CanonicalScalar(a, family) == Some(a) && fleet.burrows != []
    ensures TargetForKey(table, [a], [family], fleet) == OwnerOfText(table, a, fleet)
  {
    assert CanonicalKey([a], [family], 0) == Some([]);
    assert CanonicalKey([a], [family], 1) == Some([] + [a]);
  }

  lemma OneColumnOwner(site: Site, column: string, family: Family, a: string, b: string, row: Row)
    requires Apart(site, column, family, a, b)
    requires CanonicalScalar(a, family) == Some(a) && CanonicalScalar(b, family) == Some(b)
    ensures TargetForKey(site.table, [a], [family], site.fleet) == OwnerOfText(site.table, a, site.fleet)
    ensures ColumnValue(row, column) == Some(Denotes(b, family)) ==>
      !Owned(row, site, OwnerOfText(site.table, a, site.fleet).value)
  {
    OneKeyTarget(site.table, a, family, site.fleet);
    OneKeyTarget(site.table, b, family, site.fleet);
    if ColumnValue(row, column) == Some(Denotes(b, family)) {
      SpelledOwner(row, [b], site);
    }
  }

  /** A write is sent where its key belongs. */
  lemma TargetOfKey(w: Write, site: Site, texts: seq<string>)
    requires !w.Copying? && !w.s.Select? && OnTable(w.s, w.cx, site.table, site.fleet) && site.fleet.burrows != []
    requires StatementKey(w.s, w.cx.parameters, site.fleet.registry, site.table) == Some(texts)
    ensures TargetOf(w, site) == TargetForKey(site.table, texts, site.Families(), site.fleet)
  {
  }

  /** UPDATE t SET c[0] = .. WHERE c = 'a'. */
  function SubscriptUpdate(relation: Relation, column: string, a: string): Statement {
    Update(relation, [Target(column, true)], Some(Equals(Column([column]), Const(StringConst(a)))), false, false,
           [RelationName(relation)])
  }

  lemma SubscriptUpdateKey(cx: Context, site: Site, column: string, a: string)
    requires site.Valid() && site.Columns() == [column] && site.Families() == [Name]
    requires OnTable(SubscriptUpdate(cx.relation, column, a), cx, site.table, site.fleet)
    ensures StatementKey(SubscriptUpdate(cx.relation, column, a), cx.parameters, site.fleet.registry, site.table) == Some([a])
  {
    var s := SubscriptUpdate(cx.relation, column, a);
    var values := Collect(s.where.value, cx.relation, map[]).value;
    assert ColumnName(Column([column]), cx.relation) == Some(column);
    assert values == map[column := Const(StringConst(a))];
    OneKeyText(values, cx.parameters, column, Name, a);
  }

  lemma SubscriptUpdateMatches(cx: Context, column: string, a: string, row: Row)
    requires ColumnFamily(cx, column) == Name && cx.server.read(a, Name) == Some(Characters(a)) && Equates(cx.server)
    requires ColumnValue(row, column) == Some(Characters(a))
    ensures Satisfies(SubscriptUpdate(cx.relation, column, a).where.value, row, cx)
  {
    assert ColumnName(Column([column]), cx.relation) == Some(column);
  }

  /** The router sends it to the owner of the name a, where it can turn the row a into a row b that belongs
      elsewhere. */
  lemma SubscriptUpdateMoves(cx: Context, site: Site, column: string, a: string, b: string)
    requires Apart(site, column, Name, a, b) && OnTable(SubscriptUpdate(cx.relation, column, a), cx, site.table, site.fleet)
    requires cx.server.read(a, Name) == Some(Characters(a)) && Equates(cx.server)
    ensures var s, row := SubscriptUpdate(cx.relation, column, a), map[column := Some(Characters(a))];
      var change := Setting(column, Characters(b));
      var target := TargetOf(Updating(s, cx, change, t => t), site);
      && ChangesOnly(s.targets, change) && target.Some? && Satisfies(s.where.value, row, cx)
      && Owned(row, site, target.value) && !Owned(change(row), site, target.value)
  {
    var s := SubscriptUpdate(cx.relation, column, a);
    var row: Row := map[column := Some(Characters(a))];
    var change := Setting(column, Characters(b));
    OneColumnTyped(cx, site, column, Name);
    SubscriptUpdateMatches(cx, column, a, row);
    SubscriptUpdateKey(cx, site, column, a);
    TargetOfKey(Updating(s, cx, change, t => t), site, [a]);
    OneColumnOwner(site, column, Name, a, b, change(row));
    SpelledOwner(row, [a], site);
    assert s.targets[0].name == column;
    SettingChangesOnly(s.targets, column, Characters(b));
  }

  lemma OneColumnTyped(cx: Context, site: Site, column: string, family: Family)
    requires site.Columns() == [column] && site.Families() == [family] && TypedKeys(cx, site.Columns(), site.Families())
    ensures ColumnFamily(cx, column) == family
  {
    assert site.Columns()[0] == column;
  }

  lemma OneKeyText(values: Equalities, parameters: seq<Option<string>>, column: string, family: Family, text: string)
    requires column in values && ScalarValue(values[column], parameters, family) == Some(text)
    ensures OrderedTexts(values, parameters, [column], [family], 1) == Some([text])
  {
    assert OrderedTexts(values, parameters, [column], [family], 0) == Some([]);
    assert FamilyAt([family], [column], 0) == family;
    assert [] + [text] == [text];
  }

  /** Rounding the number a to s digits gives another number, b. */
  predicate RoundsTo(a: string, b: string, s: int) {
    && CanonicalScalar(a, Numeric) == Some(a) && CanonicalScalar(b, Numeric) == Some(b)
    && Denotes(b, Numeric) == Coerced(Denotes(a, Numeric), Numeric, Some(s))
  }

  /** INSERT INTO t (c) VALUES (e). */
  function InsertOf(relation: Relation, column: string, e: Expr): Statement {
    Insert(relation, [Target(column, false)], Some([[e]]), false, false, [RelationName(relation)])
  }

  lemma InsertOfKey(cx: Context, site: Site, column: string, e: Expr, family: Family, a: string)
    requires site.Valid() && site.Columns() == [column] && site.Families() == [family] && column != ""
    requires OnTable(InsertOf(cx.relation, column, e), cx, site.table, site.fleet)
    requires ScalarValue(e, cx.parameters, family) == Some(a)
    ensures var s := InsertOf(cx.relation, column, e);
      && InsertedValues(s) == Some(map[column := e])
      && StatementKey(s, cx.parameters, site.fleet.registry, site.table) == Some([a])
  {
    var s := InsertOf(cx.relation, column, e);
    var values: Equalities := map[column := e];
    assert InsertValues(s.cols, s.rows.value[0], 0) == Some(map[]);
    assert InsertedValues(s) == Some(values);
    OneKeyText(values, cx.parameters, column, family, a);
  }

  /** An INSERT routed by the text a that stores the value of b stores it on the owner of a. */
  lemma InsertMisplaced(cx: Context, site: Site, column: string, e: Expr, family: Family, row: Row, a: string, b: string)
    requires Apart(site, column, family, a, b) && column != "" && ScalarValue(e, cx.parameters, family) == Some(a)
    requires CanonicalScalar(a, family) == Some(a) && CanonicalScalar(b, family) == Some(b)
    requires OnTable(InsertOf(cx.relation, column, e), cx, site.table, site.fleet)
    requires ColumnValue(row, column) == Some(Denotes(b, family))
    ensures InsertedValues(InsertOf(cx.relation, column, e)) == Some(map[column := e])
    ensures var target := TargetOf(Inserting(InsertOf(cx.relation, column, e), cx, row, t => t), site);
      target.Some? && !Owned(row, site, target.value)
  {
    InsertOfKey(cx, site, column, e, family, a);
    TargetOfKey(Inserting(InsertOf(cx.relation, column, e), cx, row, t => t), site, [a]);
    OneColumnOwner(site, column, family, a, b, row);
  }

  lemma StoredOperand(e: Expr, column: string, row: Row, cx: Context)
    requires Stored(map[column := e], row, cx)
    ensures ColumnValue(row, column) == Assigned(Operand(e, ColumnFamily(cx, column), map[], cx), column, cx)
  {
    var values: Equalities := map[column := e];
    assert ColumnValue(row, column) == Assigned(Operand(values[column], ColumnFamily(cx, column), map[], cx), column, cx);
  }

  lemma RoundedStore(a: string, column: string, s: int, row: Row, cx: Context)
    requires Faithful(cx) && ColumnFamily(cx, column) == Numeric && ColumnLimit(cx, column) == Some(s)
    requires CanonicalScalar(a, Numeric).Some? && ColumnValue(row, column).Some?
    requires ColumnValue(row, column) == Assigned(cx.server.read(a, Numeric), column, cx)
    ensures ColumnValue(row, column).value == Coerced(Denotes(a, Numeric), Numeric, Some(s))
  {
  }

  /** An unquoted number as the router and as PostgreSQL take it. */
  lemma BareOperand(a: string, family: Family, cx: Context)
    ensures ScalarValue(Const(FloatConst(a)), cx.parameters, family) == CanonicalScalar(a, family)
    ensures Operand(Const(FloatConst(a)), family, map[], cx) == cx.server.read(NumberRead(a, family), family)
  {
    assert RawValue(Const(FloatConst(a)), cx.parameters) == Some(Raw(a, None));
  }

  lemma QuotedOperand(a: string, family: Family, cx: Context)
    ensures ScalarValue(Const(StringConst(a)), cx.parameters, family) == CanonicalScalar(a, family)
    ensures Operand(Const(StringConst(a)), family, map[], cx) == cx.server.read(a, family)
  {
    assert RawValue(Const(StringConst(a)), cx.parameters) == Some(Raw(a, None));
  }

  /** VALUES (a) into a numeric(p, s) column stores b, on the Burrow that owns a. */
  lemma RoundedInsertMisplaced(cx: Context, site: Site, column: string, row: Row, a: string, b: string, s: int, e: Expr)
    requires Apart(site, column, Numeric, a, b) && column != "" && RoundsTo(a, b, s) && e == Const(FloatConst(a))
    requires OnTable(InsertOf(cx.relation, column, e), cx, site.table, site.fleet)
    requires Faithful(cx) && ColumnLimit(cx, column) == Some(s)
    requires Stored(map[column := e], row, cx) && ColumnValue(row, column).Some?
    ensures InsertedValues(InsertOf(cx.relation, column, e)) == Some(map[column := e])
    ensures var target := TargetOf(Inserting(InsertOf(cx.relation, column, e), cx, row, t => t), site);
      target.Some? && ColumnValue(row, column) == Some(Denotes(b, Numeric)) && !Owned(row, site, target.value)
  {
    OneColumnTyped(cx, site, column, Numeric);
    StoredOperand(e, column, row, cx);
    BareOperand(a, Numeric, cx);
    RoundedStore(a, column, s, row, cx);
    InsertMisplaced(cx, site, column, e, Numeric, row, a, b);
  }

  /** So does a COPY of the text a. */
  lemma RoundedCopyMisplaced(cx: Context, site: Site, column: string, row: Row, a: string, b: string, s: int)
    requires Apart(site, column, Numeric, a, b) && RoundsTo(a, b, s)
    requires Faithful(cx) && TypedKeys(cx, site.Columns(), site.Families()) && ColumnLimit(cx, column) == Some(s)
    requires CopiedKey([a], row, site, cx)
    ensures var target := TargetOf(Copying([a], cx, row), site);
      target.Some? && ColumnValue(row, column) == Some(Denotes(b, Numeric)) && !Owned(row, site, target.value)
  {
    OneColumnTyped(cx, site, column, Numeric);
    assert site.Columns()[0] == column && site.Families()[0] == Numeric;
    RoundedStore(a, column, s, row, cx);
    OneColumnOwner(site, column, Numeric, a, b, row);
  }

  /** DELETE FROM t WHERE c = e. */
  function DeleteBy(relation: Relation, column: string, e: Expr): Statement {
    Delete(relation, Some(Equals(Column([column]), e)), false, false, [RelationName(relation)])
  }

  /** The operand a::numeric(p, s). */
  function RoundedCast(a: string, typeName: string, s: int): Expr {
    Cast(Const(FloatConst(a)), Some(typeName), [s + 1, s])
  }

  lemma CastText(a: string, typeName: string, modifiers: seq<int>, parameters: seq<Option<string>>)
    requires FamilyOf(typeName) == Numeric && CanonicalScalar(a, Numeric) == Some(a)
    ensures ScalarValue(Cast(Const(FloatConst(a)), Some(typeName), modifiers), parameters, Numeric) == Some(a)
  {
    var e := Const(FloatConst(a));
    assert RawValue(e, parameters) == Some(Raw(a, None));
    assert RawValue(Cast(e, Some(typeName), modifiers), parameters) == CastRaw(Some(Raw(a, None)), Some(typeName));
  }

  lemma CastOperand(arg: Expr, typeName: string, modifiers: seq<int>, family: Family, row: Row, cx: Context)
    requires FamilyOf(typeName) == family
    ensures Operand(Cast(arg, Some(typeName), modifiers), family, row, cx)
      == match Operand(arg, family, row, cx) case None => None case Some(k) => cx.server.coerce(k, family, modifiers)
  {
  }

  lemma RoundedRead(a: string, s: int, cx: Context)
    requires Faithful(cx) && CanonicalScalar(a, Numeric).Some? && cx.server.read(a, Numeric).Some?
    ensures var k := cx.server.coerce(cx.server.read(a, Numeric).value, Numeric, [s + 1, s]);
      k.Some? ==> k.value == Coerced(Denotes(a, Numeric), Numeric, Some(s))
  {
    assert LimitOf(Numeric, [s + 1, s]) == Some(s);
  }

  lemma CastValue(a: string, typeName: string, s: int, row: Row, cx: Context)
    requires Faithful(cx) && FamilyOf(typeName) == Numeric && CanonicalScalar(a, Numeric).Some?
    ensures var k := Operand(RoundedCast(a, typeName, s), Numeric, row, cx);
      k.Some? ==> k.value == Coerced(Denotes(a, Numeric), Numeric, Some(s)) && OfFamily(k.value, Numeric)
  {
    CastOperand(Const(FloatConst(a)), typeName, [s + 1, s], Numeric, row, cx);
    if cx.server.read(a, Numeric).Some? {
      RoundedRead(a, s, cx);
    }
  }

  /** DELETE .. WHERE c = a::numeric(p, s) goes to the owner of a, while the rows it matches have the key b. */
  lemma RoundedCastMisses(
      cx: Context, site: Site, column: string, row: Row, a: string, b: string, typeName: string, s: int, e: Expr)
    requires Apart(site, column, Numeric, a, b) && RoundsTo(a, b, s) && FamilyOf(typeName) == Numeric && Faithful(cx)
    requires e == RoundedCast(a, typeName, s) && OnTable(DeleteBy(cx.relation, column, e), cx, site.table, site.fleet)
    requires Satisfies(DeleteBy(cx.relation, column, e).where.value, row, cx)
    ensures var target := TargetOf(Deleting(DeleteBy(cx.relation, column, e), cx, t => t), site);
      target.Some? && ColumnValue(row, column) == Some(Denotes(b, Numeric)) && !Owned(row, site, target.value)
  {
    CastFacts(a, b, typeName, s, row, e, cx);
    MatchedDeleteMisses(cx, site, column, e, Numeric, row, a, b);
  }

  lemma CastFacts(a: string, b: string, typeName: string, s: int, row: Row, e: Expr, cx: Context)
    requires RoundsTo(a, b, s) && FamilyOf(typeName) == Numeric && Faithful(cx) && e == RoundedCast(a, typeName, s)
    ensures Items(e) == [] && ScalarValue(e, cx.parameters, Numeric) == Some(a)
    ensures var k := Operand(e, Numeric, row, cx); k.Some? ==> k.value == Denotes(b, Numeric) && OfFamily(k.value, Numeric)
  {
    CastText(a, typeName, [s + 1, s], cx.parameters);
    CastValue(a, typeName, s, row, cx);
  }

  /** Nor the rows it matches, where the operand has the value of b. */
  lemma MatchedDeleteMisses(cx: Context, site: Site, column: string, e: Expr, family: Family, row: Row, a: string, b: string)
    requires Apart(site, column, family, a, b) && Items(e) == [] && ScalarValue(e, cx.parameters, family) == Some(a)
    requires CanonicalScalar(a, family) == Some(a) && CanonicalScalar(b, family) == Some(b)
    requires OnTable(DeleteBy(cx.relation, column, e), cx, site.table, site.fleet)
    requires Equates(cx.server) && !Collatable(family) && Satisfies(DeleteBy(cx.relation, column, e).where.value, row, cx)
    requires var k := Operand(e, family, row, cx); k.Some? ==> k.value == Denotes(b, family) && OfFamily(k.value, family)
    ensures var target := TargetOf(Deleting(DeleteBy(cx.relation, column, e), cx, t => t), site);
      target.Some? && ColumnValue(row, column) == Some(Denotes(b, family)) && !Owned(row, site, target.value)
  {
    OneColumnTyped(cx, site, column, family);
    MatchedValue(cx, column, e, row);
    KeyedDeleteMisses(cx, site, column, e, family, row, a, b);
  }

  /** A DELETE by the key operand e, routed by the text a, does not reach a row of the key b. */
  lemma KeyedDeleteMisses(cx: Context, site: Site, column: string, e: Expr, family: Family, row: Row, a: string, b: string)
    requires Apart(site, column, family, a, b) && Items(e) == [] && ScalarValue(e, cx.parameters, family) == Some(a)
    requires CanonicalScalar(a, family) == Some(a) && CanonicalScalar(b, family) == Some(b)
    requires OnTable(DeleteBy(cx.relation, column, e), cx, site.table, site.fleet)
    requires ColumnValue(row, column) == Some(Denotes(b, family))
    ensures var target := TargetOf(Deleting(DeleteBy(cx.relation, column, e), cx, t => t), site);
      target.Some? && !Owned(row, site, target.value)
  {
    DeleteByKey(cx, site, column, e, family, a);
    TargetOfKey(Deleting(DeleteBy(cx.relation, column, e), cx, t => t), site, [a]);
    OneColumnOwner(site, column, family, a, b, row);
  }

  /** A comparison of the column with the operand, read both ways. */
  lemma MatchedEqual(cx: Context, column: string, e: Expr, row: Row)
    requires Items(e) == []
    ensures Satisfies(Equals(Column([column]), e), row, cx) <==> Compare(column, e, row, cx) == True
  {
    assert ColumnName(Column([column]), cx.relation) == Some(column);
  }

  lemma MatchedValue(cx: Context, column: string, e: Expr, row: Row)
    requires Equates(cx.server) && Items(e) == [] && Satisfies(Equals(Column([column]), e), row, cx)
    requires var k := Operand(e, ColumnFamily(cx, column), row, cx);
      !Collatable(ColumnFamily(cx, column)) && (k.Some? ==> OfFamily(k.value, ColumnFamily(cx, column)))
    ensures ColumnValue(row, column).Some? && ColumnValue(row, column) == Operand(e, ColumnFamily(cx, column), row, cx)
  {
    MatchedEqual(cx, column, e, row);
  }

  /** A DELETE by the operand e also matches the row b that the comparison's collation holds equal to it,
      though it is sent to the owner of a alone. */
  lemma CollatedDeleteMisses(cx: Context, site: Site, column: string, e: Expr, family: Family, row: Row, a: string, b: string)
    requires Apart(site, column, family, a, b) && Items(e) == [] && ScalarValue(e, cx.parameters, family) == Some(a)
    requires CanonicalScalar(a, family) == Some(a) && CanonicalScalar(b, family) == Some(b)
    requires OnTable(DeleteBy(cx.relation, column, e), cx, site.table, site.fleet)
    requires ColumnValue(row, column) == Some(Denotes(b, family)) && Operand(e, family, row, cx) == Some(Denotes(a, family))
    requires cx.server.same(CollationOf(column, e, cx), family, Denotes(b, family), Denotes(a, family))
    ensures var target := TargetOf(Deleting(DeleteBy(cx.relation, column, e), cx, t => t), site);
      && Satisfies(DeleteBy(cx.relation, column, e).where.value, row, cx)
      && target.Some? && !Owned(row, site, target.value)
  {
    OneColumnTyped(cx, site, column, family);
    MatchedEqual(cx, column, e, row);
    KeyedDeleteMisses(cx, site, column, e, family, row, a, b);
  }

  /** For instance WHERE c = 'ANN' COLLATE ci on a text column, with a row 'ann'. */
  lemma CollatedTextMisses(cx: Context, site: Site, column: string, collation: string, a: string, b: string)
    requires Apart(site, column, Verbatim, a, b)
    requires OnTable(DeleteBy(cx.relation, column, Collate(Const(StringConst(a)), collation)), cx, site.table, site.fleet)
    requires cx.server.read(a, Verbatim) == Some(Characters(a))
    requires cx.server.same(collation, Verbatim, Characters(b), Characters(a))
    ensures var s, row := DeleteBy(cx.relation, column, Collate(Const(StringConst(a)), collation)), map[column := Some(Characters(b))];
      var target := TargetOf(Deleting(s, cx, t => t), site);
      Satisfies(s.where.value, row, cx) && target.Some? && !Owned(row, site, target.value)
  {
    var e, row := Collate(Const(StringConst(a)), collation), map[column := Some(Characters(b))];
    assert RawValue(e.arg, cx.parameters) == Some(Raw(a, None));
    CollatedDeleteMisses(cx, site, column, e, Verbatim, row, a, b);
  }

  /** And a plain WHERE c = 'ANN' on a column declared with that collation. */
  lemma CollatedColumnMisses(cx: Context, site: Site, column: string, a: string, b: string)
    requires Apart(site, column, Verbatim, a, b)
    requires OnTable(DeleteBy(cx.relation, column, Const(StringConst(a))), cx, site.table, site.fleet)
    requires cx.server.read(a, Verbatim) == Some(Characters(a)) && column in cx.collations
    requires cx.server.same(cx.collations[column], Verbatim, Characters(b), Characters(a))
    ensures var s, row := DeleteBy(cx.relation, column, Const(StringConst(a))), map[column := Some(Characters(b))];
      var target := TargetOf(Deleting(s, cx, t => t), site);
      Satisfies(s.where.value, row, cx) && target.Some? && !Owned(row, site, target.value)
  {
    var e, row := Const(StringConst(a)), map[column := Some(Characters(b))];
    CollatedDeleteMisses(cx, site, column, e, Verbatim, row, a, b);
  }

  /** PostgreSQL reads the quoted text a as the value of b, the router as that of its canonical text. */
  predicate ReadsTo(a: string, canonical: string, b: string, family: Family) {
    && CanonicalScalar(a, family) == Some(canonical)
    && CanonicalScalar(canonical, family) == Some(canonical) && CanonicalScalar(b, family) == Some(b)
    && ReadAs(a, family) == Denotes(b, family)
  }

  /** Such texts there are: -1 and 4294967295 are one oid. */
  lemma OidsReadTo(n: int, m: int, bytes: nat)
    requires 0 - Span(bytes) <= n < 0 && m == n + Span(bytes)
    ensures ReadsTo(FormatInt(n), FormatInt(n), FormatInt(m), Integer(bytes, false)) && FormatInt(n) != FormatInt(m)
  {
    MinusMakesTwoTexts(n, m, bytes);
    IntegerText(m, bytes, false);
  }

  /** And '010' is the oid 8, while the router makes it 10. */
  lemma OctalsReadTo(a: string, bytes: nat)
    requires OctalLooking(a) && ParseInt(a).value > 0
    ensures ReadsTo(a, FormatInt(ParseInt(a).value), FormatInt(OctalValue(a)), Integer(bytes, false))
    ensures FormatInt(ParseInt(a).value) != FormatInt(OctalValue(a))
  {
    OctalDiffers(a);
    IntegerText(ParseInt(a).value, bytes, false);
    IntegerText(OctalValue(a), bytes, false);
  }

  lemma TenInOctal()
    ensures OctalLooking("010") && ParseInt("010") == Some(10) && OctalValue("010") == 8
  {
    TightIsTrimmed("010");
    assert "010"[..2] == "01" && "01"[..1] == "0" && "0"[..0] == "";
    assert Num("0") == 0 && Num("01") == 1 && Num("010") == 10;
    assert Oct("0") == 0 && Oct("01") == 1 && Oct("010") == 8;
  }

  /** VALUES ('a') stores the value of b, on the Burrow that owns the router's text. */
  lemma MisreadInsertMisplaced(
      cx: Context, site: Site, column: string, family: Family, row: Row, a: string, canonical: string, b: string)
    requires Apart(site, column, family, canonical, b) && column != "" && ReadsTo(a, canonical, b, family)
    requires OnTable(InsertOf(cx.relation, column, Const(StringConst(a))), cx, site.table, site.fleet)
    requires Faithful(cx) && ColumnLimit(cx, column) == None
    requires Stored(map[column := Const(StringConst(a))], row, cx) && ColumnValue(row, column).Some?
    ensures var e := Const(StringConst(a));
      var target := TargetOf(Inserting(InsertOf(cx.relation, column, e), cx, row, t => t), site);
      target.Some? && ColumnValue(row, column) == Some(Denotes(b, family)) && !Owned(row, site, target.value)
  {
    OneColumnTyped(cx, site, column, family);
    StoredOperand(Const(StringConst(a)), column, row, cx);
    QuotedOperand(a, family, cx);
    InsertMisplaced(cx, site, column, Const(StringConst(a)), family, row, canonical, b);
  }

  /** So does a COPY of the text a. */
  lemma MisreadCopyMisplaced(
      cx: Context, site: Site, column: string, family: Family, row: Row, a: string, canonical: string, b: string)
    requires Apart(site, column, family, canonical, b) && ReadsTo(a, canonical, b, family)
    requires Faithful(cx) && TypedKeys(cx, site.Columns(), site.Families()) && ColumnLimit(cx, column) == None
    requires CopiedKey([a], row, site, cx)
    ensures var target := TargetOf(Copying([a], cx, row), site);
      target.Some? && ColumnValue(row, column) == Some(Denotes(b, family)) && !Owned(row, site, target.value)
  {
    OneColumnTyped(cx, site, column, family);
    assert site.Columns()[0] == column && site.Families()[0] == family;
    CopyTarget(site, family, a, canonical);
    OneColumnOwner(site, column, family, canonical, b, row);
  }

  lemma CopyTarget(site: Site, family: Family, a: string, canonical: string)
    requires site.fleet.burrows != [] && CanonicalScalar(a, family) == Some(canonical) && CanonicalScalar(canonical, family) == Some(canonical)
    ensures TargetForKey(site.table, [a], [family], site.fleet) == TargetForKey(site.table, [canonical], [family], site.fleet)
  {
    assert CanonicalKey([a], [family], 0) == Some([]) && CanonicalKey([canonical], [family], 0) == Some([]);
    assert CanonicalKey([a], [family], 1) == Some([] + [canonical]) && CanonicalKey([canonical], [family], 1) == Some([] + [canonical]);
  }

  /** DELETE .. WHERE c = 'a' goes to that owner, while the rows it matches are elsewhere. */
  lemma MisreadDeleteMisses(
      cx: Context, site: Site, column: string, family: Family, row: Row, a: string, canonical: string, b: string)
    requires Apart(site, column, family, canonical, b) && ReadsTo(a, canonical, b, family) && !Collatable(family) && Faithful(cx)
    requires OnTable(DeleteBy(cx.relation, column, Const(StringConst(a))), cx, site.table, site.fleet)
    requires Satisfies(DeleteBy(cx.relation, column, Const(StringConst(a))).where.value, row, cx)
    ensures var target := TargetOf(Deleting(DeleteBy(cx.relation, column, Const(StringConst(a))), cx, t => t), site);
      target.Some? && ColumnValue(row, column) == Some(Denotes(b, family)) && !Owned(row, site, target.value)
  {
    MatchedDeleteMisses(cx, site, column, Const(StringConst(a)), family, row, canonical, b);
  }

  /** VALUES (a) with an unquoted number stores the number's own text under the owner of its spelling. */
  lemma NumberInsertMisplaced(cx: Context, site: Site, column: string, row: Row, a: string, b: string, e: Expr)
    requires Apart(site, column, Verbatim, a, b) && column != "" && e == Const(FloatConst(a)) && b == NumberText(a)
    requires Faithful(cx) && ColumnLimit(cx, column) == None
    requires OnTable(InsertOf(cx.relation, column, e), cx, site.table, site.fleet)
    requires Stored(map[column := e], row, cx) && ColumnValue(row, column).Some?
    ensures var target := TargetOf(Inserting(InsertOf(cx.relation, column, e), cx, row, t => t), site);
      target.Some? && ColumnValue(row, column) == Some(Characters(b)) && !Owned(row, site, target.value)
  {
    OneColumnTyped(cx, site, column, Verbatim);
    NumberStored(cx, column, row, a, b, e);
    InsertMisplaced(cx, site, column, e, Verbatim, row, a, b);
  }

  lemma NumberStored(cx: Context, column: string, row: Row, a: string, b: string, e: Expr)
    requires e == Const(FloatConst(a)) && b == NumberText(a)
    requires Faithful(cx) && ColumnFamily(cx, column) == Verbatim && ColumnLimit(cx, column) == None
    requires Stored(map[column := e], row, cx) && ColumnValue(row, column).Some?
    ensures ScalarValue(e, cx.parameters, Verbatim) == Some(a) && ColumnValue(row, column) == Some(Characters(b))
  {
    StoredOperand(e, column, row, cx);
    BareOperand(a, Verbatim, cx);
    TextStored(b, column, row, cx);
  }

  lemma TextStored(b: string, column: string, row: Row, cx: Context)
    requires Faithful(cx) && ColumnFamily(cx, column) == Verbatim && ColumnLimit(cx, column) == None
    requires ColumnValue(row, column).Some? && ColumnValue(row, column) == Assigned(cx.server.read(b, Verbatim), column, cx)
    ensures ColumnValue(row, column) == Some(Characters(b))
  {
  }

  /** For instance 1e2, whose text is 100. */
  lemma HundredAsText()
    ensures NumberToken("1e2") && NumberText("1e2") == "100"
  {
    OneE2();
    HundredShown(Parts(false, "1", "", 2));
  }

  lemma OneE2()
    ensures Parse("1e2") == Some(Parts(false, "1", "", 2)) && LeadingSign("1e2") == NoSign
  {
    var n := Numeral("", NoSign, "1", false, "", Exponent.Exponent('e', NoSign, "2"), "");
    assert "2"[..0] == "" && Num("2") == 2;
    AcceptsGrammar(n);
    assert Print(n) == "1e2";
  }

  lemma HundredShown(p: Parts)
    requires p == Parts(false, "1", "", 2)
    ensures ShownParts(p) == "100" && !ShownMinus(p)
  {
    assert p.whole + p.fraction == "1" && TrimZeros("1") == "1";
    assert "1" + Zeros(2) == "100";
  }

  lemma DeleteByKey(cx: Context, site: Site, column: string, e: Expr, family: Family, a: string)
    requires site.Valid() && site.Columns() == [column] && site.Families() == [family]
    requires Items(e) == [] && ScalarValue(e, cx.parameters, family) == Some(a)
    requires OnTable(DeleteBy(cx.relation, column, e), cx, site.table, site.fleet)
    ensures StatementKey(DeleteBy(cx.relation, column, e), cx.parameters, site.fleet.registry, site.table) == Some([a])
  {
    var p := DeleteBy(cx.relation, column, e).where.value;
    var values := Collect(p, cx.relation, map[]).value;
    assert ColumnName(Column([column]), cx.relation) == Some(column);
    assert values == map[column := e];
    OneKeyText(values, cx.parameters, column, family, a);
  }

  /** Such numbers there are: 1.005 in a numeric(3, 2) column is stored as 1.01. */
  lemma RoundedKeyMoves()
    ensures RoundsTo("1.005", "1.01", 2)
  {
    PartsValue();
    HalfRoundsUp();
    PlainTexts();
    RoundsPlainly("1", "005", "1.005", "1", "01", "1.01", 2);
  }

  /** Digits as they are written, without a superfluous zero. */
  predicate Plainly(whole: string, fraction: string, text: string) {
    && NoLeadingZero(whole) && AllDigits(fraction) && fraction != "" && fraction[|fraction| - 1] != '0'
    && text == whole + ("." + fraction)
  }

  lemma PlainTexts()
    ensures Plainly("1", "005", "1.005") && Plainly("1", "01", "1.01")
  {
  }

  lemma ReadsAs(whole: string, fraction: string, text: string)
    requires Plainly(whole, fraction, text)
    ensures CanonicalScalar(text, Numeric) == Some(text)
    ensures Denotes(text, Numeric) == Number(Value(Parts(false, whole, fraction, 0)))
  {
    PlainDecimal(whole, fraction);
  }

  lemma RoundsPlainly(
      whole: string, fraction: string, text: string, whole': string, fraction': string, text': string, s: int)
    requires Plainly(whole, fraction, text) && Plainly(whole', fraction', text')
    requires RoundAt(Value(Parts(false, whole, fraction, 0)), s) == Value(Parts(false, whole', fraction', 0))
    ensures RoundsTo(text, text', s)
  {
    ReadsAs(whole, fraction, text);
    ReadsAs(whole', fraction', text');
  }

  lemma HalfRoundsUp()
    ensures RoundAt(1.005, 2) == 1.01
  {
    FloorIs(100.5 + 0.5, 101);
    assert RoundAt(1.005, 2) == Nearest(10.0 * (10.0 * 1.005)) / 10.0 / 10.0;
  }

  lemma PlainPrints(whole: string, fraction: string)
    ensures Print(Numeral("", NoSign, whole, true, fraction, NoExponent, "")) == whole + ("." + fraction)
  {
    PrintPlain(Numeral("", NoSign, whole, true, fraction, NoExponent, ""));
    Regroup("", whole, "." + fraction);
    assert "" + whole == whole;
  }

  lemma PlainParses(whole: string, fraction: string)
    requires NoLeadingZero(whole) && AllDigits(fraction)
    ensures Parse(whole + ("." + fraction)) == Some(Parts(false, whole, fraction, 0))
  {
    PlainPrints(whole, fraction);
    AcceptsGrammar(Numeral("", NoSign, whole, true, fraction, NoExponent, ""));
  }

  /** A plain decimal without superfluous zeros is canonical. */
  lemma PlainDecimal(whole: string, fraction: string)
    requires NoLeadingZero(whole) && AllDigits(fraction) && fraction != "" && fraction[|fraction| - 1] != '0'
    ensures Parse(whole + ("." + fraction)) == Some(Parts(false, whole, fraction, 0))
    ensures CanonicalDecimalOf(whole + ("." + fraction)) == Some(whole + ("." + fraction))
  {
    PlainParses(whole, fraction);
    PlainRenders(whole, fraction);
  }

  lemma PlainRenders(whole: string, fraction: string)
    requires NoLeadingZero(whole) && AllDigits(fraction) && fraction != "" && fraction[|fraction| - 1] != '0'
    ensures Canonical(Parts(false, whole, fraction, 0)) == whole + ("." + fraction)
  {
    var digits := whole + fraction;
    assert TrimZeros(digits) == digits && Cancel(digits, |fraction|) == (digits, |fraction|);
    assert digits[..|whole|] == whole && digits[|whole|..] == fraction;
    assert "" + (whole + ("." + fraction)) == whole + ("." + fraction);
  }

  lemma PartsValue()
    ensures Value(Parts(false, "1", "005", 0)) == 1.005
    ensures Value(Parts(false, "1", "01", 0)) == 1.01
  {
    assert "1" + "005" == "1005" && "1" + "01" == "101";
    assert Num("1005") == 1005 by {
      assert "1005"[..3] == "100" && "100"[..2] == "10" && "10"[..1] == "1" && "1"[..0] == "";
      assert Num("1") == 1 && Num("10") == 10 && Num("100") == 100;
    }
    assert Num("101") == 101 by {
      assert "101"[..2] == "10" && "10"[..1] == "1" && "1"[..0] == "";
      assert Num("1") == 1 && Num("10") == 10;
    }
    assert Scaled(1005, -3) == 1.005 by {
      assert Scaled(1005, -1) == 100.5 && Scaled(1005, -2) == 10.05;
    }
    assert Scaled(101, -2) == 1.01 by {
      assert Scaled(101, -1) == 10.1;
    }
  }
}
