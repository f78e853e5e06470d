/** What the tracked names say: PostgreSQL's own catalog of the session's temporary tables and indexes, and
    the proof that statements keep the tracked names to the spellings of it. */
module TemporaryCatalog {
  import opened Text
  import opened Temporary

  // ------------------------------------------------------------------------------- the catalog

  /** A table, marked if ON COMMIT DROP takes it, or an index of a table. */
  datatype Thing = Table(marked: bool) | Index(of: string)

  type Catalog = map<string, Thing>

  /** Whether a name is looked up among the temporary relations. */
  predicate IsTemporary(n: Name) {
    n.schema == "" || InTempSchema(n.schema)
  }

  predicate Plain(name: string) {
    name != "" && '.' !in name
  }

  predicate WellFormed(c: Catalog) {
    && (forall k <- c :: Plain(k))
    && (forall k <- c :: c[k].Index? ==> c[k].of in c && c[c[k].of].Table?)
  }

  /** The temporary relation a name stands for is there. */
  predicate There(c: Catalog, n: Name) {
    IsTemporary(n) && n.name in c
  }

  predicate Dropped(names: seq<Name>, k: string) {
    exists i :: 0 <= i < |names| && IsTemporary(names[i]) && names[i].name == k
  }

  /** Neither named by the DROP nor an index of what is. */
  predicate Survives(c: Catalog, names: seq<Name>, k: string)
    requires k in c
  {
    !Dropped(names, k) && !(c[k].Index? && Dropped(names, c[k].of))
  }

  function Moved(thing: Thing, name: string, newName: string): Thing {
    if thing == Index(name) then Index(newName) else thing
  }

  /** What a statement that succeeds does.  A table that is marked outside a transaction is gone at once. */
  function PgApply(c: Catalog, d: Ddl, transaction: bool): Catalog {
    match d
    case Create(relation, dropOnCommit) =>
      if dropOnCommit && !transaction then c else c[relation.name := Table(dropOnCommit)]
    case CreateIndex(index, relation) => if There(c, relation) then c[index := Index(relation.name)] else c
    case Rename(relation, newName) =>
      if !There(c, relation) then c else
        map k | k in c.Keys - {relation.name} + {newName} ::
          Moved(if k == newName then c[relation.name] else c[k], relation.name, newName)
    case Drop(names, _) => map k | k in c && Survives(c, names, k) :: c[k]
    case Discard => map[]
  }

  function PgCommit(c: Catalog): Catalog {
    map k | k in c && c[k] != Table(true) && !(c[k].Index? && c[k].of in c && c[c[k].of] == Table(true)) :: c[k]
  }

  /** What PostgreSQL accepts: new names are free, an index is on a table, DROP INDEX names indexes, and new
      temporary relations are in the temporary schema.  Names hold no dot. */
  predicate Accepted(c: Catalog, d: Ddl) {
    match d
    case Create(relation, _) => IsTemporary(relation) && Plain(relation.name) && relation.name !in c
    case CreateIndex(index, relation) =>
      && (IsTemporary(relation) ==> Plain(relation.name))
      && (There(c, relation) ==> Plain(index) && index !in c && c[relation.name].Table?)
    case Rename(relation, newName) =>
      && (IsTemporary(relation) ==> Plain(relation.name))
      && (There(c, relation) ==> Plain(newName) && newName !in c)
    case Drop(names, cascade) =>
      forall i :: 0 <= i < |names| ==>
        && (IsTemporary(names[i]) ==> Plain(names[i].name))
        && (There(c, names[i]) && !cascade ==> c[names[i].name].Index?)
    case Discard => true
  }

  // --------------------------------------------------------------------------------- spellings

  const Prefix: string := "pg_temp."

  /** The name that a spelling spells. */
  function Base(s: string): string {
    if Prefix <= s then s[|Prefix|..] else s
  }

  predicate Marked(c: Catalog, k: string) {
    k in c && c[k] == Table(true)
  }

  predicate IsIndex(c: Catalog, k: string) {
    k in c && c[k].Index?
  }

  ghost predicate RelationsSpelled(relations: set<string>, c: Catalog) {
    forall s: string :: s in relations <==> Base(s) in c
  }

  ghost predicate DropsSpelled(drops: set<string>, c: Catalog) {
    forall s: string :: s in drops <==> Marked(c, Base(s))
  }

  ghost predicate ParentsSpelled(parents: map<string, string>, c: Catalog) {
    && (forall s: string :: s in parents <==> IsIndex(c, Base(s)))
    && (forall s: string :: s in parents ==> parents[s] == Prefix + c[Base(s)].of)
  }

  /** The tracked names are the spellings of the catalog: every relation by both of them, the marked tables,
      and the indexes with their tables. */
  ghost predicate Spelled(t: Tracked, c: Catalog) {
    RelationsSpelled(t.relations, c) && DropsSpelled(t.drops, c) && ParentsSpelled(t.parents, c)
  }

  /** The spellings of one name. */
  ghost predicate KeysOf(keys: set<string>, k: string) {
    forall s: string :: s in keys <==> Base(s) == k
  }

  lemma BaseOf(k: string)
    ensures Base(Prefix + k) == k
    ensures '.' !in k ==> Base(k) == k
  {
    assert (Prefix + k)[|Prefix|..] == k;
    if Prefix <= k {
      assert k[7] == Prefix[7];
    }
  }

  lemma BaseIs(s: string, k: string)
    requires '.' !in k
    ensures Base(s) == k <==> s == k || s == Prefix + k
  {
    BaseOf(k);
    if Prefix <= s {
      assert s == Prefix + s[|Prefix|..];
    }
  }

  lemma TemporaryKeys(n: Name)
    requires IsTemporary(n) && Plain(n.name)
    ensures KeysOf(Keys(n), n.name) && Canonical(n) == Prefix + n.name
  {
    assert Spellings(n) == [n.name, Prefix + n.name];
    forall s: string
      ensures s in Keys(n) <==> Base(s) == n.name
    {
      BaseIs(s, n.name);
    }
  }

  /** A name in another schema spells no temporary relation. */
  lemma OtherKeys(n: Name)
    requires !IsTemporary(n)
    ensures forall s: string :: s in Keys(n) ==> '.' in Base(s)
    ensures '.' in Base(Canonical(n))
    ensures forall k: string :: '.' !in k ==> Canonical(n) != Prefix + k
  {
    var key := n.schema + "." + n.name;
    OtherKey(n);
    forall k: string | '.' !in k
      ensures key != Prefix + k
    {
      BaseOf(k);
    }
  }

  lemma OtherKey(n: Name)
    requires !IsTemporary(n)
    ensures '.' in Base(n.schema + "." + n.name)
  {
    DottedOrTemporary(n.schema, n.name);
    assert ToLower("pg_temp") == "pg_temp";
  }

  lemma DottedOrTemporary(schema: string, name: string)
    ensures '.' in Base(schema + "." + name) || schema == "pg_temp"
  {
    var key, at := schema + "." + name, |schema|;
    assert key[at] == '.';
    if Prefix <= key {
      assert forall i :: 0 <= i < 8 ==> key[i] == Prefix[i];
      if at >= 8 {
        assert key[|Prefix|..][at - 8] == '.';
      } else {
        assert Prefix[at] == '.';
        assert schema == key[..at];
      }
    }
  }

  /** The Proxy finds a name exactly when it stands for a temporary relation that is there. */
  lemma ContainsIsThere(t: Tracked, c: Catalog, n: Name)
    requires Spelled(t, c) && WellFormed(c) && (IsTemporary(n) ==> Plain(n.name))
    ensures Contains(t, n) <==> There(c, n)
  {
    if IsTemporary(n) {
      BaseOf(n.name);
    } else {
      OtherKeys(n);
    }
  }

  // -------------------------------------------------------------------------- one by one

  lemma CreateTracks(t: Tracked, c: Catalog, d: Ddl, transaction: bool)
    requires Spelled(t, c) && WellFormed(c) && d.Create? && Accepted(c, d)
    ensures Spelled(Apply(t, d, transaction), PgApply(c, d, transaction))
  {
    TemporaryKeys(d.relation);
    if !d.dropOnCommit || transaction {
      AddedRelation(t.relations, c, d.relation.name, Table(d.dropOnCommit), Keys(d.relation));
      AddedTable(t, c, d.relation.name, d.dropOnCommit, Keys(d.relation));
    }
  }

  lemma AddedRelation(relations: set<string>, c: Catalog, k: string, thing: Thing, keys: set<string>)
    requires RelationsSpelled(relations, c) && KeysOf(keys, k)
    ensures RelationsSpelled(relations + keys, c[k := thing])
  {
  }

  lemma AddedTable(t: Tracked, c: Catalog, k: string, marked: bool, keys: set<string>)
    requires DropsSpelled(t.drops, c) && ParentsSpelled(t.parents, c) && KeysOf(keys, k) && k !in c
    ensures DropsSpelled(if marked then t.drops + keys else t.drops, c[k := Table(marked)])
    ensures ParentsSpelled(t.parents, c[k := Table(marked)])
  {
  }

  lemma IndexTracks(t: Tracked, c: Catalog, d: Ddl, transaction: bool)
    requires Spelled(t, c) && WellFormed(c) && d.CreateIndex? && Accepted(c, d)
    ensures Spelled(Apply(t, d, transaction), PgApply(c, d, transaction))
  {
    ContainsIsThere(t, c, d.relation);
    if There(c, d.relation) {
      TemporaryKeys(d.relation);
      var name := Name(if InTempSchema(d.relation.schema) then "pg_temp" else "", d.index);
      assert ToLower("pg_temp") == "pg_temp";
      TemporaryKeys(name);
    }
  }

  /** The table of an index is found by its spellings, and a table has none. */
  lemma ParentIs(t: Tracked, c: Catalog, n: Name)
    requires Spelled(t, c) && There(c, n) && Plain(n.name)
    ensures ParentOf(t.parents, Spellings(n)) == if c[n.name].Index? then Prefix + c[n.name].of else ""
  {
    var spellings := [n.name, Prefix + n.name];
    assert Spellings(n) == spellings;
    BaseOf(n.name);
    assert spellings[..1] == [n.name] && [n.name][..0] == [];
    assert spellings[1] in t.parents <==> c[n.name].Index?;
    assert ParentOf(t.parents, []) == "" && ParentOf(t.parents, [n.name]) == if n.name in t.parents then t.parents[n.name] else "";
  }

  lemma RenameTracks(t: Tracked, c: Catalog, d: Ddl, transaction: bool)
    requires Spelled(t, c) && WellFormed(c) && d.Rename? && Accepted(c, d)
    ensures Spelled(Apply(t, d, transaction), PgApply(c, d, transaction))
  {
    ContainsIsThere(t, c, d.relation);
    if There(c, d.relation) {
      var n, n' := d.relation, d.relation.(name := d.newName);
      TemporaryKeys(n);
      TemporaryKeys(n');
      ParentIs(t, c, n);
      if c[n.name].Index? {
        RenamedIndex(t, c, n, n', Renamed(t, n, d.newName), PgApply(c, d, transaction));
      } else {
        RenamedTable(t, c, n, n', Renamed(t, n, d.newName), PgApply(c, d, transaction));
      }
    }
  }

  lemma RenamedRelations(relations: set<string>, c: Catalog, k: string, k': string, keys: set<string>, keys': set<string>)
    requires RelationsSpelled(relations, c) && KeysOf(keys, k) && KeysOf(keys', k')
    ensures forall s: string :: s in relations - keys + keys' <==> (Base(s) in c && Base(s) != k) || Base(s) == k'
  {
  }

  lemma RenamedIndex(t: Tracked, c: Catalog, n: Name, n': Name, t': Tracked, c': Catalog)
    requires Spelled(t, c) && WellFormed(c) && There(c, n) && c[n.name].Index? && n'.name !in c
    requires KeysOf(Keys(n), n.name) && KeysOf(Keys(n'), n'.name)
    requires c' == PgApply(c, Rename(n, n'.name), true)
    requires t' == Tracked(
      t.relations - Keys(n) + Keys(n'), t.drops, (t.parents - Keys(n)) + map k | k in Keys(n') :: Prefix + c[n.name].of)
    ensures Spelled(t', c')
  {
    NoIndexRenamed(c, n, n'.name);
    RenamedRelations(t.relations, c, n.name, n'.name, Keys(n), Keys(n'));
    MovedIndex(t, c, n.name, n'.name, Keys(n), Keys(n'));
  }

  lemma MovedIndex(t: Tracked, c: Catalog, k: string, k': string, keys: set<string>, keys': set<string>)
    requires DropsSpelled(t.drops, c) && ParentsSpelled(t.parents, c) && k in c && c[k].Index? && k' !in c
    requires KeysOf(keys, k) && KeysOf(keys', k')
    ensures var c' := c - {k} + map[k' := c[k]];
      DropsSpelled(t.drops, c') && ParentsSpelled((t.parents - keys) + map s | s in keys' :: Prefix + c[k].of, c')
  {
    var c' := c - {k} + map[k' := c[k]];
    var moved := map s | s in keys' :: Prefix + c[k].of;
    var parents := (t.parents - keys) + moved;
    forall s: string
      ensures s in t.drops <==> Marked(c', Base(s))
      ensures s in parents <==> IsIndex(c', Base(s))
      ensures s in parents ==> parents[s] == Prefix + c'[Base(s)].of
    {
      assert s in moved <==> Base(s) == k';
      assert s in t.parents - keys <==> IsIndex(c, Base(s)) && Base(s) != k;
    }
  }

  /** Nothing is the index of an index. */
  lemma NoIndexRenamed(c: Catalog, n: Name, newName: string)
    requires WellFormed(c) && There(c, n) && c[n.name].Index? && newName !in c
    ensures PgApply(c, Rename(n, newName), true) == c - {n.name} + map[newName := c[n.name]]
  {
    forall k <- c
      ensures Moved(c[k], n.name, newName) == c[k]
    {
      if c[k].Index? {
        assert c[c[k].of].Table?;
      }
    }
  }

  lemma RenamedTable(t: Tracked, c: Catalog, n: Name, n': Name, t': Tracked, c': Catalog)
    requires Spelled(t, c) && WellFormed(c) && There(c, n) && c[n.name].Table? && n'.name !in c
    requires Canonical(n) == Prefix + n.name && Canonical(n') == Prefix + n'.name
    requires KeysOf(Keys(n), n.name) && KeysOf(Keys(n'), n'.name)
    requires c' == PgApply(c, Rename(n, n'.name), true)
    requires t' == Tracked(
      t.relations - Keys(n) + Keys(n'),
      t.drops - Keys(n) + (if Keys(n) * t.drops != {} then Keys(n') else {}),
      map k | k in t.parents && k !in Keys(n) :: if t.parents[k] == Canonical(n) then Canonical(n') else t.parents[k])
    ensures Spelled(t', c')
  {
    RenamedRelations(t.relations, c, n.name, n'.name, Keys(n), Keys(n'));
    RenamedDrops(t.drops, c, n, n'.name, Keys(n), Keys(n'));
    RenamedParents(t.parents, c, n, n'.name, Keys(n));
  }

  lemma RenamedDrops(drops: set<string>, c: Catalog, n: Name, k': string, keys: set<string>, keys': set<string>)
    requires DropsSpelled(drops, c) && There(c, n) && c[n.name].Table? && k' !in c
    requires KeysOf(keys, n.name) && KeysOf(keys', k') && n.name in keys
    ensures DropsSpelled(drops - keys + (if keys * drops != {} then keys' else {}), PgApply(c, Rename(n, k'), true))
  {
    assert Marked(c, n.name) <==> n.name in keys * drops;
    if keys * drops != {} {
      var s :| s in keys * drops;
      assert Base(s) == n.name;
    }
  }

  lemma RenamedParents(parents: map<string, string>, c: Catalog, n: Name, k': string, keys: set<string>)
    requires ParentsSpelled(parents, c) && There(c, n) && c[n.name].Table? && k' !in c && KeysOf(keys, n.name)
    ensures ParentsSpelled(
      map s | s in parents && s !in keys :: if parents[s] == Prefix + n.name then Prefix + k' else parents[s],
      PgApply(c, Rename(n, k'), true))
  {
    forall s | s in parents
      ensures parents[s] == Prefix + n.name <==> c[Base(s)] == Index(n.name)
    {
      assert parents[s][|Prefix|..] == c[Base(s)].of && (Prefix + n.name)[|Prefix|..] == n.name;
    }
  }

  // ------------------------------------------------------------------------------------- DROP

  /** What DROP of one name does to one spelling. */
  lemma ForgetOne(t: Tracked, c: Catalog, n: Name, cascade: bool, s: string)
    requires Spelled(t, c) && WellFormed(c) && (IsTemporary(n) ==> Plain(n.name))
    requires There(c, n) && !cascade ==> c[n.name].Index?
    ensures var k, t' := Base(s), Forgotten(t, n, cascade);
      && (s in t'.relations <==> k in c && Survives(c, [n], k))
      && (s in t'.drops <==> Marked(c, k) && Survives(c, [n], k))
      && (s in t'.parents <==> IsIndex(c, k) && Survives(c, [n], k))
      && (s in t'.parents ==> t'.parents[s] == t.parents[s])
  {
    var k := Base(s);
    OneDropped(n, k);
    if k in c && c[k].Index? {
      OneDropped(n, c[k].of);
      IndexOfName(c[k].of, n);
      BaseOf(c[k].of);
    }
    if IsTemporary(n) {
      TemporaryKeys(n);
    } else {
      OtherKeys(n);
    }
  }

  lemma OneDropped(n: Name, k: string)
    ensures Dropped([n], k) <==> IsTemporary(n) && n.name == k
  {
    assert [n][0] == n;
  }

  lemma IndexOfName(table: string, n: Name)
    requires '.' !in table && (IsTemporary(n) ==> Plain(n.name))
    ensures Prefix + table == Canonical(n) <==> IsTemporary(n) && n.name == table
  {
    BaseOf(table);
    if IsTemporary(n) {
      TemporaryKeys(n);
      BaseOf(n.name);
    } else {
      OtherKeys(n);
    }
  }

  lemma ForgetTracks(t: Tracked, c: Catalog, n: Name, cascade: bool)
    requires Spelled(t, c) && WellFormed(c) && (IsTemporary(n) ==> Plain(n.name))
    requires There(c, n) && !cascade ==> c[n.name].Index?
    ensures Spelled(Forgotten(t, n, cascade), PgApply(c, Drop([n], cascade), true))
  {
    var t', c' := Forgotten(t, n, cascade), PgApply(c, Drop([n], cascade), true);
    forall s: string
      ensures s in t'.relations <==> Base(s) in c'
      ensures s in t'.drops <==> Marked(c', Base(s))
      ensures s in t'.parents <==> IsIndex(c', Base(s))
      ensures s in t'.parents ==> t'.parents[s] == Prefix + c'[Base(s)].of
    {
      ForgetOne(t, c, n, cascade, s);
    }
  }

  lemma DroppedSnoc(names: seq<Name>, k: string)
    requires names != []
    ensures var last := names[|names| - 1];
      Dropped(names, k) <==> Dropped(names[..|names| - 1], k) || (IsTemporary(last) && last.name == k)
  {
    var init := names[..|names| - 1];
    if Dropped(init, k) {
      var i :| 0 <= i < |init| && IsTemporary(init[i]) && init[i].name == k;
      assert names[i] == init[i];
    }
    if Dropped(names, k) {
      var i :| 0 <= i < |names| && IsTemporary(names[i]) && names[i].name == k;
      assert i < |init| ==> init[i] == names[i];
    }
  }

  /** Dropping names one by one is dropping them together. */
  lemma DropOneMore(c: Catalog, names: seq<Name>, cascade: bool)
    requires names != []
    ensures PgApply(PgApply(c, Drop(names[..|names| - 1], cascade), true), Drop([names[|names| - 1]], cascade), true)
      == PgApply(c, Drop(names, cascade), true)
  {
    var init, last := names[..|names| - 1], names[|names| - 1];
    forall k <- c
      ensures Survives(c, names, k) <==> Survives(c, init, k) && Survives(c, [last], k)
    {
      DroppedSnoc(names, k);
      OneDropped(last, k);
      if c[k].Index? {
        DroppedSnoc(names, c[k].of);
        OneDropped(last, c[k].of);
      }
    }
  }

  lemma {:induction false} DropTracks(t: Tracked, c: Catalog, names: seq<Name>, cascade: bool)
    requires Spelled(t, c) && WellFormed(c) && Accepted(c, Drop(names, cascade))
    ensures Spelled(ForgottenAll(t, names, cascade), PgApply(c, Drop(names, cascade), true))
  {
    if names == [] {
      assert PgApply(c, Drop([], cascade), true) == c;
    } else {
      var init, last := names[..|names| - 1], names[|names| - 1];
      assert forall i :: 0 <= i < |init| ==> init[i] == names[i];
      DropTracks(t, c, init, cascade);
      DropWellFormed(c, init, cascade);
      ForgetTracks(ForgottenAll(t, init, cascade), PgApply(c, Drop(init, cascade), true), last, cascade);
      DropOneMore(c, names, cascade);
    }
  }

  lemma DropWellFormed(c: Catalog, names: seq<Name>, cascade: bool)
    requires WellFormed(c)
    ensures WellFormed(PgApply(c, Drop(names, cascade), true))
  {
    var c' := PgApply(c, Drop(names, cascade), true);
    forall k <- c' | c'[k].Index?
      ensures c'[k].of in c' && c'[c'[k].of].Table?
    {
      assert c[k].of in c && !Dropped(names, c[k].of);
    }
  }

  // ------------------------------------------------------------------------ all statements

  lemma AcceptedWellFormed(c: Catalog, d: Ddl, transaction: bool)
    requires WellFormed(c) && Accepted(c, d)
    ensures WellFormed(PgApply(c, d, transaction))
  {
    if d.Drop? {
      DropWellFormed(c, d.names, d.cascade);
    }
  }

  /** Every statement PostgreSQL accepts leaves the tracked names the spellings of what is there. */
  lemma StatementTracks(t: Tracked, c: Catalog, d: Ddl, transaction: bool)
    requires Spelled(t, c) && WellFormed(c) && Accepted(c, d)
    ensures Spelled(Apply(t, d, transaction), PgApply(c, d, transaction))
    ensures WellFormed(PgApply(c, d, transaction))
  {
    AcceptedWellFormed(c, d, transaction);
    match d {
      case Create(_, _) => CreateTracks(t, c, d, transaction);
      case CreateIndex(_, _) => IndexTracks(t, c, d, transaction);
      case Rename(_, _) => RenameTracks(t, c, d, transaction);
      case Drop(names, cascade) => DropTracks(t, c, names, cascade);
      case Discard =>
    }
  }

  /** The tables that COMMIT drops, by their full names. */
  lemma DroppedTableNames(t: Tracked, c: Catalog, table: string)
    requires Spelled(t, c) && WellFormed(c) && '.' !in table
    ensures Prefix + table in DroppedTables(t.drops) <==> Marked(c, table)
  {
    BaseOf(table);
    if Prefix + table in DroppedTables(t.drops) {
      var k :| k in t.drops && Prefix + table == if '.' in k then k else Prefix + k;
      BaseOf(k);
    }
    assert '.' in Prefix + table by {
      assert (Prefix + table)[7] == '.';
    }
  }

  /** COMMIT takes the marked tables and their indexes, and nothing else. */
  lemma CommitTracks(t: Tracked, c: Catalog)
    requires Spelled(t, c) && WellFormed(c)
    ensures Spelled(OnCommit(t), PgCommit(c)) && WellFormed(PgCommit(c))
  {
    forall s | IsIndex(c, Base(s))
      ensures t.parents[s] in DroppedTables(t.drops) <==> Marked(c, c[Base(s)].of)
    {
      DroppedTableNames(t, c, c[Base(s)].of);
    }
  }

  // ----------------------------------------------------------------------- whole transactions

  /** What a log of statements and savepoints makes of the catalog. */
  function PgReplay(c: Catalog, log: seq<Entry>): Catalog {
    if log == [] then c else
      var before := PgReplay(c, log[..|log| - 1]);
      match log[|log| - 1]
      case Change(d) => PgApply(before, d, true)
      case Outside(d) => PgApply(before, d, false)
      case Mark(_) => before
  }

  predicate AcceptedAll(c: Catalog, log: seq<Entry>) {
    log == [] ||
    (AcceptedAll(c, log[..|log| - 1]) &&
     (log[|log| - 1].Mark? || Accepted(PgReplay(c, log[..|log| - 1]), log[|log| - 1].ddl)))
  }

  lemma {:induction false} ReplayTracks(t: Tracked, c: Catalog, log: seq<Entry>)
    requires Spelled(t, c) && WellFormed(c) && AcceptedAll(c, log)
    ensures Spelled(Replay(t, log), PgReplay(c, log)) && WellFormed(PgReplay(c, log))
  {
    if log != [] {
      var init, last := log[..|log| - 1], log[|log| - 1];
      ReplayTracks(t, c, init);
      if !last.Mark? {
        StatementTracks(Replay(t, init), PgReplay(c, init), last.ddl, last.Change?);
      }
    }
  }

  /** In a session in step with PostgreSQL, the live maps are the spellings of the temporary relations that
      the surviving statements have left, and a name is found exactly when its relation is there. */
  lemma SessionTracks(s: Session, c: Catalog, n: Name)
    requires s.Valid() && s.InStep() && Spelled(s.base, c) && WellFormed(c) && AcceptedAll(c, s.log)
    requires IsTemporary(n) ==> Plain(n.name)
    ensures Spelled(s.live.Value(), PgReplay(c, s.log))
    ensures Contains(s.live.Value(), n) <==> There(PgReplay(c, s.log), n)
  {
    ReplayTracks(s.base, c, s.log);
    ContainsIsThere(s.live.Value(), PgReplay(c, s.log), n);
  }

  /** A name with a dot can be taken for another: to drop the relation that is called pg_temp.k forgets a
      spelling of the temporary relation k, which is still there. */
  lemma DottedNameConfused(t: Tracked, c: Catalog, k: string)
    requires Spelled(t, c) && WellFormed(c) && k in c
    ensures var d := Drop([Name("", Prefix + k)], true); PgApply(c, d, true) == c && !Spelled(Apply(t, d, true), c)
  {
    var n := Name("", Prefix + k);
    forall m <- c
      ensures Survives(c, [n], m)
    {
      NotDotted(n, k, m);
      if c[m].Index? {
        NotDotted(n, k, c[m].of);
      }
    }
    assert Spellings(n)[0] == Prefix + k;
    assert [n][..0] == [] && ForgottenAll(t, [n], true) == Forgotten(ForgottenAll(t, [], true), n, true);
    BaseOf(k);
    assert Prefix + k !in Forgotten(t, n, true).relations;
  }

  lemma NotDotted(n: Name, k: string, m: string)
    requires n == Name("", Prefix + k) && '.' !in m
    ensures !Dropped([n], m)
  {
    OneDropped(n, m);
    assert n.name[7] == '.';
  }
}
