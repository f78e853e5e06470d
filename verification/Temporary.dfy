/** Temporary relations a session has created, through transactions and savepoints.

    The tracked maps live on the heap, as the Proxy's do: statements change them in place, snapshots keep
    copies.  The specification knows no snapshots: it keeps the log of the statements that still count and
    replays it. */
module Temporary {
  import opened Text

  // ------------------------------------------------------------------------------ tracked names

  datatype Name = Name(schema: string, name: string)

  predicate InTempSchema(schema: string) {
    ToLower(schema) == "pg_temp"
  }

  /** The spellings a name is tracked under. */
  function Spellings(n: Name): seq<string> {
    if n.name == "" then []
    else if n.schema == "" || InTempSchema(n.schema) then [n.name, "pg_temp." + n.name]
    else [n.schema + "." + n.name]
  }

  function Keys(n: Name): set<string> {
    set k | k in Spellings(n)
  }

  function Canonical(n: Name): string {
    if n.schema == "" || InTempSchema(n.schema) then "pg_temp." + n.name else n.schema + "." + n.name
  }

  /** Relations with every spelling they are known by, those to drop at commit, and the table of each
      index. */
  datatype Tracked = Tracked(relations: set<string>, drops: set<string>, parents: map<string, string>)

  const Nothing := Tracked({}, {}, map[])

  predicate Contains(t: Tracked, n: Name) {
    n.name != "" &&
    if n.schema == "" then n.name in t.relations
    else if InTempSchema(n.schema) then "pg_temp." + n.name in t.relations || n.name in t.relations
    else n.schema + "." + n.name in t.relations
  }

  // ---------------------------------------------------------------------------- temporary DDL

  datatype Ddl =
    | Create(relation: Name, dropOnCommit: bool)
    | CreateIndex(index: string, relation: Name)
    | Rename(relation: Name, newName: string)
    | Drop(names: seq<Name>, cascade: bool)
    | Discard

  function Created(t: Tracked, n: Name, dropOnCommit: bool, transaction: bool): Tracked {
    if n.name == "" || (dropOnCommit && !transaction) then t
    else t.(relations := t.relations + Keys(n), drops := if dropOnCommit then t.drops + Keys(n) else t.drops)
  }

  function Indexed(t: Tracked, index: string, n: Name): Tracked {
    if index == "" || !Contains(t, n) then t else
      var keys := Keys(Name(if InTempSchema(n.schema) then "pg_temp" else "", index));
      t.(relations := t.relations + keys, parents := t.parents + map k | k in keys :: Canonical(n))
  }

  /** The table of an index, by the last of its spellings that has one. */
  function ParentOf(parents: map<string, string>, spellings: seq<string>): string {
    if spellings == [] then ""
    else if spellings[|spellings| - 1] in parents then parents[spellings[|spellings| - 1]]
    else ParentOf(parents, spellings[..|spellings| - 1])
  }

  function Renamed(t: Tracked, n: Name, newName: string): Tracked {
    if newName == "" || !Contains(t, n) then t else
      var n' := n.(name := newName);
      var was, now, parent := Keys(n), Keys(n'), ParentOf(t.parents, Spellings(n));
      var relations := t.relations - was + now;
      if parent != "" then
        Tracked(relations, t.drops, (t.parents - was) + map k | k in now :: parent)
      else
        Tracked(
          relations,
          t.drops - was + (if was * t.drops != {} then now else {}),
          map k | k in t.parents && k !in was :: if t.parents[k] == Canonical(n) then Canonical(n') else t.parents[k])
  }

  function Forgotten(t: Tracked, n: Name, cascade: bool): Tracked {
    var keys := Keys(n);
    var parents := t.parents - keys;
    var orphans := if cascade then set k | k in parents && parents[k] == Canonical(n) else {};
    Tracked(t.relations - keys - orphans, t.drops - keys, parents - orphans)
  }

  function ForgottenAll(t: Tracked, names: seq<Name>, cascade: bool): Tracked {
    if names == [] then t
    else Forgotten(ForgottenAll(t, names[..|names| - 1], cascade), names[|names| - 1], cascade)
  }

  /** What a successful statement does to the tracked names. */
  function Apply(t: Tracked, d: Ddl, transaction: bool): Tracked {
    match d
    case Create(relation, dropOnCommit) => Created(t, relation, dropOnCommit, transaction)
    case CreateIndex(index, relation) => Indexed(t, index, relation)
    case Rename(relation, newName) => Renamed(t, relation, newName)
    case Drop(names, cascade) => ForgottenAll(t, names, cascade)
    case Discard => Nothing
  }

  /** The tables that ON COMMIT DROP takes, by their full names. */
  function DroppedTables(drops: set<string>): set<string> {
    set k | k in drops :: if '.' in k then k else "pg_temp." + k
  }

  /** COMMIT carries out ON COMMIT DROP, indexes included. */
  function OnCommit(t: Tracked): Tracked {
    var parents := t.parents - t.drops;
    var orphans := set k | k in parents && parents[k] in DroppedTables(t.drops);
    Tracked(t.relations - t.drops - orphans, {}, parents - orphans)
  }

  // ---------------------------------------------------------------- the log of a transaction

  /** Outside is a statement that came between two transactions. */
  datatype Entry = Change(ddl: Ddl) | Outside(ddl: Ddl) | Mark(name: string)

  function Replay(base: Tracked, log: seq<Entry>): Tracked {
    if log == [] then base else
      var before := Replay(base, log[..|log| - 1]);
      match log[|log| - 1]
      case Change(d) => Apply(before, d, true)
      case Outside(d) => Apply(before, d, false)
      case Mark(_) => before
  }

  predicate HasMark(log: seq<Entry>, name: string) {
    Mark(name) in log
  }

  /** ROLLBACK TO: everything after the latest savepoint of the name never happened. */
  function RolledBackTo(log: seq<Entry>, name: string): seq<Entry> {
    if log == [] || log[|log| - 1] == Mark(name) then log else RolledBackTo(log[..|log| - 1], name)
  }

  /** RELEASE: the latest savepoint of the name and all later ones are gone, the changes stay. */
  function Released(log: seq<Entry>, name: string): seq<Entry> {
    if log == [] then [] else
      var init, last := log[..|log| - 1], log[|log| - 1];
      if last == Mark(name) then init
      else if last.Mark? then Released(init, name)
      else Released(init, name) + [last]
  }

  /** A saved state: the transaction's start, or a savepoint. */
  datatype Saved = Saved(name: string, tracked: Tracked)

  /** The snapshots a log calls for: one for the start, one per savepoint still standing. */
  function Stack(base: Tracked, log: seq<Entry>): (r: seq<Saved>)
    ensures |r| >= 1
  {
    if log == [] then [Saved("", base)] else
      var init := log[..|log| - 1];
      match log[|log| - 1]
      case Change(_) => Stack(base, init)
      case Outside(_) => Stack(base, init)
      case Mark(name) => Stack(base, init) + [Saved(name, Replay(base, init))]
  }

  /** The last snapshot of a name among the first n, the start excepted; 0 if there is none. */
  function Latest(stack: seq<Saved>, name: string, n: nat): (i: nat)
    requires n <= |stack|
    ensures i < n || i == 0
    ensures i > 0 ==> stack[i].name == name
  {
    if n <= 1 then 0 else if stack[n - 1].name == name then n - 1 else Latest(stack, name, n - 1)
  }

  lemma {:induction false} LatestPrefix(a: seq<Saved>, b: seq<Saved>, name: string, n: nat)
    requires n <= |a| && n <= |b| && a[..n] == b[..n]
    ensures Latest(a, name, n) == Latest(b, name, n)
  {
    if n > 1 {
      assert a[..n][n - 1] == b[..n][n - 1];
      assert a[..n][..n - 1] == a[..n - 1] && b[..n][..n - 1] == b[..n - 1];
      LatestPrefix(a, b, name, n - 1);
    }
  }

  /** A savepoint of another name on top does not hide the one looked for. */
  lemma MarkAbove(below: seq<Saved>, top: Saved, name: string)
    requires below != [] && top.name != name
    ensures var stack := below + [top];
      var i := Latest(below, name, |below|);
      Latest(stack, name, |stack|) == i && stack[..i + 1] == below[..i + 1] && stack[..i] == below[..i] && stack[i] == below[i]
  {
    var stack := below + [top];
    assert stack[..|below|] == below[..|below|];
    LatestPrefix(stack, below, name, |below|);
  }

  lemma MarkBelow(log: seq<Entry>, name: string)
    requires HasMark(log, name) && log[|log| - 1] != Mark(name)
    ensures HasMark(log[..|log| - 1], name)
  {
    var k :| 0 <= k < |log| && log[k] == Mark(name);
    assert log[..|log| - 1][k] == Mark(name);
  }

  /** Restoring the latest snapshot of a name and dropping those above it is replaying the log cut back
      to that savepoint. */
  lemma {:induction false} RollbackToRestores(base: Tracked, log: seq<Entry>, name: string)
    requires HasMark(log, name)
    ensures var stack := Stack(base, log);
      var i := Latest(stack, name, |stack|);
      && i > 0
      && stack[i].tracked == Replay(base, RolledBackTo(log, name))
      && stack[..i + 1] == Stack(base, RolledBackTo(log, name))
    decreases |log|
  {
    var init, last := log[..|log| - 1], log[|log| - 1];
    var stack := Stack(base, log);
    if last == Mark(name) {
      assert stack[..|stack|] == stack;
    } else {
      MarkBelow(log, name);
      RollbackToRestores(base, init, name);
      if last.Mark? {
        MarkAbove(Stack(base, init), Saved(last.name, Replay(base, init)), name);
      }
    }
  }

  /** Dropping the latest snapshot of a name and those above it is releasing that savepoint, and no
      change is lost. */
  lemma {:induction false} ReleaseKeeps(base: Tracked, log: seq<Entry>, name: string)
    requires HasMark(log, name)
    ensures var stack := Stack(base, log);
      var i := Latest(stack, name, |stack|);
      i > 0 && stack[..i] == Stack(base, Released(log, name)) && Replay(base, Released(log, name)) == Replay(base, log)
    decreases |log|
  {
    var init, last := log[..|log| - 1], log[|log| - 1];
    var stack := Stack(base, log);
    if last == Mark(name) {
      assert stack[..|stack| - 1] == Stack(base, init);
    } else {
      MarkBelow(log, name);
      ReleaseKeeps(base, init, name);
      if last.Mark? {
        MarkAbove(Stack(base, init), Saved(last.name, Replay(base, init)), name);
      } else {
        var released := Released(init, name);
        assert (released + [last])[..|released|] == released;
      }
    }
  }

  lemma OneMoreEntry(base: Tracked, log: seq<Entry>, e: Entry)
    requires !e.Mark?
    ensures Replay(base, log + [e]) == Apply(Replay(base, log), e.ddl, e.Change?)
    ensures Stack(base, log + [e]) == Stack(base, log)
  {
    assert (log + [e])[..|log|] == log;
  }

  /** A savepoint of a later part is looked for there first. */
  lemma {:induction false} LaterMarkFirst(early: seq<Entry>, late: seq<Entry>, name: string)
    requires HasMark(late, name)
    ensures HasMark(early + late, name)
    ensures RolledBackTo(early + late, name) == early + RolledBackTo(late, name)
    ensures Released(early + late, name) == early + Released(late, name)
    decreases |late|
  {
    var all, init, last := early + late, late[..|late| - 1], late[|late| - 1];
    assert all[..|all| - 1] == early + init && all[|all| - 1] == last;
    assert last in all;
    if last != Mark(name) {
      MarkBelow(late, name);
      LaterMarkFirst(early, init, name);
    }
  }

  /** Statements outside a transaction, one after another. */
  function AppliedAll(t: Tracked, ddls: seq<Ddl>): Tracked {
    if ddls == [] then t else Apply(AppliedAll(t, ddls[..|ddls| - 1]), ddls[|ddls| - 1], false)
  }

  // -------------------------------------------------------------------- nothing to drop outside

  lemma {:induction false} ForgottenNoDrops(t: Tracked, names: seq<Name>, cascade: bool)
    requires t.drops == {}
    ensures ForgottenAll(t, names, cascade).drops == {}
  {
    if names != [] {
      ForgottenNoDrops(t, names[..|names| - 1], cascade);
    }
  }

  /** Outside a transaction no statement leaves a relation to be dropped at commit. */
  lemma ApplyNoDrops(t: Tracked, d: Ddl)
    requires t.drops == {}
    ensures Apply(t, d, false).drops == {}
  {
    if d.Drop? {
      ForgottenNoDrops(t, d.names, d.cascade);
    }
  }

  // --------------------------------------------------------------------------------- consistency

  /** Whatever is to be dropped or has a table is tracked, and no index is to be dropped by itself. */
  predicate Consistent(t: Tracked) {
    t.drops <= t.relations && t.parents.Keys <= t.relations && t.drops !! t.parents.Keys
  }

  /** PostgreSQL refuses a new name that is taken, and an index is not dropped at commit by itself. */
  predicate Possible(t: Tracked, d: Ddl) {
    match d
    case Create(relation, _) => Keys(relation) !! t.relations
    case CreateIndex(index, relation) => Keys(Name("", index)) !! t.relations
    case Rename(relation, newName) =>
      && Keys(relation.(name := newName)) !! t.relations - Keys(relation)
      && (ParentOf(t.parents, Spellings(relation)) != "" ==> Keys(relation) !! t.drops)
    case _ => true
  }

  lemma {:induction false} ForgottenConsistent(t: Tracked, names: seq<Name>, cascade: bool)
    requires Consistent(t)
    ensures Consistent(ForgottenAll(t, names, cascade))
  {
    if names != [] {
      ForgottenConsistent(t, names[..|names| - 1], cascade);
    }
  }

  /** Every statement that can succeed keeps the tracked names consistent, and so does COMMIT. */
  lemma ApplyConsistent(t: Tracked, d: Ddl, transaction: bool)
    requires Consistent(t) && Possible(t, d)
    ensures Consistent(Apply(t, d, transaction))
    ensures Consistent(OnCommit(t))
  {
    match d {
      case Drop(names, cascade) => ForgottenConsistent(t, names, cascade);
      case CreateIndex(index, relation) =>
        assert Keys(Name("pg_temp", index)) == Keys(Name("", index)) by {
          assert ToLower("pg_temp") == "pg_temp";
        }
      case _ =>
    }
  }

  // ------------------------------------------------------------------------------- the session

  /** The three maps, changed in place. */
  class Maps {
    var relations: set<string>
    var drops: set<string>
    var parents: map<string, string>

    function Value(): Tracked
      reads this
    {
      Tracked(relations, drops, parents)
    }

    /** A copy shares nothing with what it was copied from. */
    constructor (t: Tracked)
      ensures Value() == t
    {
      relations, drops, parents := t.relations, t.drops, t.parents;
    }

    method RememberRelation(n: Name, dropOnCommit: bool, transaction: bool)
      modifies this
      ensures Value() == Created(old(Value()), n, dropOnCommit, transaction)
    {
      if n.name == "" || (dropOnCommit && !transaction) {
        return;
      }
      var spellings, i := Spellings(n), 0;
      while i < |spellings|
        invariant i <= |spellings| && parents == old(parents)
        invariant relations == old(relations) + set k | k in spellings[..i]
        invariant drops == if dropOnCommit then old(drops) + set k | k in spellings[..i] else old(drops)
      {
        assert spellings[..i + 1] == spellings[..i] + [spellings[i]];
        relations := relations + {spellings[i]};
        if dropOnCommit {
          drops := drops + {spellings[i]};
        }
        i := i + 1;
      }
      assert spellings[..i] == spellings;
    }

    method RememberIndex(index: string, n: Name)
      modifies this
      ensures Value() == Indexed(old(Value()), index, n)
    {
      if index == "" || !Contains(Value(), n) {
        return;
      }
      var keys := Keys(Name(if InTempSchema(n.schema) then "pg_temp" else "", index));
      relations := relations + keys;
      parents := parents + map k | k in keys :: Canonical(n);
    }

    method ForgetName(n: Name, cascade: bool)
      modifies this
      ensures Value() == Forgotten(old(Value()), n, cascade)
    {
      var keys := Keys(n);
      relations, drops, parents := relations - keys, drops - keys, parents - keys;
      if cascade {
        var orphans := set k | k in parents && parents[k] == Canonical(n);
        relations, parents := relations - orphans, parents - orphans;
      } else {
        assert relations - {} == relations && parents - {} == parents;
      }
    }

    method RenameRelation(n: Name, newName: string)
      modifies this
      ensures Value() == Renamed(old(Value()), n, newName)
    {
      if newName == "" || !Contains(Value(), n) {
        return;
      }
      var was, now := Keys(n), Keys(n.(name := newName));
      var parent := ParentOf(parents, Spellings(n));
      relations := relations - was;
      parents := parents - was;
      if parent != "" {
        relations := relations + now;
        parents := parents + map k | k in now :: parent;
        return;
      }
      var dropped := was * drops != {};
      drops := drops - was;
      parents := map k | k in parents :: if parents[k] == Canonical(n) then Canonical(n.(name := newName)) else parents[k];
      relations := relations + now;
      if dropped {
        drops := drops + now;
      }
    }

    method ForgetNames(names: seq<Name>, cascade: bool)
      modifies this
      ensures Value() == ForgottenAll(old(Value()), names, cascade)
    {
      var i := 0;
      while i < |names|
        invariant i <= |names| && Value() == ForgottenAll(old(Value()), names[..i], cascade)
      {
        assert names[..i + 1][..i] == names[..i];
        ForgetName(names[i], cascade);
        i := i + 1;
      }
      assert names[..i] == names;
    }

    /** rememberTemporaryStatement. */
    method RememberStatement(d: Ddl, transaction: bool)
      modifies this
      ensures Value() == Apply(old(Value()), d, transaction)
    {
      match d {
        case Create(relation, dropOnCommit) => RememberRelation(relation, dropOnCommit, transaction);
        case CreateIndex(index, relation) => RememberIndex(index, relation);
        case Rename(relation, newName) => RenameRelation(relation, newName);
        case Drop(names, cascade) => ForgetNames(names, cascade);
        case Discard => relations, drops, parents := {}, {}, map[];
      }
    }

    /** applyTemporaryOnCommitDrop. */
    method DropOnCommit()
      modifies this
      ensures Value() == OnCommit(old(Value()))
    {
      var tables := DroppedTables(drops);
      relations, parents := relations - drops, parents - drops;
      drops := {};
      var orphans := set k | k in parents && parents[k] in tables;
      relations, parents := relations - orphans, parents - orphans;
    }
  }

  datatype Snapshot = Snapshot(name: string, maps: Maps)

  class Session {
    var transaction: bool
    var live: Maps
    var snapshots: seq<Snapshot>
    ghost var base: Tracked  // what the oldest snapshot holds
    ghost var log: seq<Entry>  // the statements since then that still count
    ghost var origin: Tracked  // what PostgreSQL had when its transaction started
    ghost var from: nat  // where PostgreSQL's transaction starts in the log

    ghost function Held(): set<Maps>
      reads this
    {
      set i | 0 <= i < |snapshots| :: snapshots[i].maps
    }

    /** The snapshots hold the saved states, in order. */
    ghost predicate Holds(stack: seq<Saved>)
      reads this, Held()
    {
      && |snapshots| == |stack|
      && forall i :: 0 <= i < |stack| ==> snapshots[i].name == stack[i].name && snapshots[i].maps.Value() == stack[i].tracked
    }

    /** The tracked names are what the surviving statements make of the oldest snapshot. */
    ghost predicate Valid()
      reads this, live, Held()
    {
      && live !in Held() && base.drops == {} && origin.drops == {} && from <= |log|
      && live.Value() == Replay(base, log)
      && (if snapshots == [] then !transaction && log == [] else Holds(Stack(base, log)))
      && (transaction || from == |log|)
    }

    /** The statements of PostgreSQL's own transaction that still count. */
    ghost function Own(): seq<Entry>
      reads this
      requires from <= |log|
    {
      log[from..]
    }

    /** The temporary relations PostgreSQL has. */
    ghost function Truth(): Tracked
      reads this
      requires from <= |log|
    {
      Replay(origin, Own())
    }

    /** A COMMIT has failed: the transaction is over, and its snapshots are still there. */
    ghost predicate Interrupted()
      reads this
    {
      !transaction && snapshots != []
    }

    /** The Proxy and PostgreSQL started their transaction together, from the same relations. */
    ghost predicate InStep()
      reads this
    {
      base == origin && from == 0 && !Interrupted()
    }

    /** Then what is tracked is what there is. */
    lemma InStepAgrees()
      requires Valid() && InStep()
      ensures live.Value() == Truth()
    {
      assert log[0..] == log;
    }

    constructor ()
      ensures Valid() && InStep() && !transaction && base == Nothing && fresh(live)
    {
      transaction, snapshots := false, [];
      live := new Maps(Nothing);
      base, log, origin, from := Nothing, [], Nothing, 0;
    }

    method Snap(name: string) returns (s: Snapshot)
      ensures fresh(s.maps) && s.name == name && s.maps.Value() == live.Value()
    {
      var copy := new Maps(live.Value());
      s := Snapshot(name, copy);
    }

    /** BEGIN, which inside a transaction changes nothing, and which after a failed COMMIT takes up the
        failed transaction's snapshots. */
    method Begin()
      requires Valid()
      modifies this
      ensures Valid() && transaction && live == old(live) && live.Value() == old(live.Value())
      ensures base == if old(snapshots) == [] then old(live.Value()) else old(base)
      ensures log == old(log) && from == old(from) && origin == old(origin)
      ensures old(InStep()) ==> InStep()
    {
      if |snapshots| == 0 {
        var s := Snap("");
        snapshots := snapshots + [s];
      }
      transaction := true;
    }

    method Savepoint(name: string)
      requires Valid() && transaction
      modifies this
      ensures Valid() && transaction && live == old(live) && live.Value() == old(live.Value())
      ensures base == old(base) && log == old(log) + [Mark(name)]
      ensures from == old(from) && origin == old(origin) && (old(InStep()) ==> InStep())
    {
      var s := Snap(name);
      assert (log + [Mark(name)])[..|log|] == log;
      snapshots := snapshots + [s];
      log := log + [Mark(name)];
    }

    /** The position of the latest savepoint of a name. */
    method Find(name: string) returns (index: nat)
      requires Valid() && transaction
      ensures index == Latest(Stack(base, log), name, |snapshots|)
    {
      ghost var stack := Stack(base, log);
      index := |snapshots| - 1;
      while index >= 1 && snapshots[index].name != name
        invariant 0 <= index < |snapshots| == |stack|
        invariant Latest(stack, name, index + 1) == Latest(stack, name, |stack|)
      {
        index := index - 1;
      }
    }

    lemma OwnMark(name: string)
      requires from <= |log| && HasMark(Own(), name)
      ensures HasMark(log, name)
      ensures from <= |RolledBackTo(log, name)| && RolledBackTo(log, name)[from..] == RolledBackTo(Own(), name)
      ensures from <= |Released(log, name)| && Released(log, name)[from..] == Released(Own(), name)
    {
      assert log == log[..from] + Own();
      LaterMarkFirst(log[..from], Own(), name);
    }

    lemma OwnGrows(e: Entry)
      requires from <= |log| && !e.Mark?
      ensures Replay(origin, (log + [e])[from..]) == Apply(Truth(), e.ddl, e.Change?)
    {
      OneMoreEntry(origin, Own(), e);
      assert (log + [e])[from..] == Own() + [e];
    }

    /** ROLLBACK TO a savepoint of PostgreSQL's transaction puts a copy of the snapshot in place of the live
        maps. */
    method RollbackTo(name: string)
      requires Valid() && transaction && HasMark(Own(), name)
      modifies this
      ensures Valid() && transaction && base == old(base) && log == RolledBackTo(old(log), name)
      ensures from == old(from) && origin == old(origin) && Own() == RolledBackTo(old(Own()), name)
      ensures snapshots <= old(snapshots) && (old(InStep()) ==> InStep())
    {
      OwnMark(name);
      var index := Find(name);
      RollbackToRestores(base, log, name);
      var copy := new Maps(snapshots[index].maps.Value());
      live := copy;
      snapshots := snapshots[..index + 1];
      log := RolledBackTo(log, name);
    }

    method Release(name: string)
      requires Valid() && transaction && HasMark(Own(), name)
      modifies this
      ensures Valid() && transaction && base == old(base) && log == Released(old(log), name) && live == old(live)
      ensures from == old(from) && origin == old(origin) && Own() == Released(old(Own()), name)
      ensures old(InStep()) ==> InStep()
    {
      OwnMark(name);
      var index := Find(name);
      ReleaseKeeps(base, log, name);
      snapshots := snapshots[..index];
      log := Released(log, name);
    }

    /** COMMIT or ROLLBACK, with or without AND CHAIN. */
    method Finish(commit: bool, chain: bool)
      requires Valid() && (chain ==> transaction)
      modifies this, live
      ensures Valid() && transaction == chain && log == [] && from == 0
      ensures base == live.Value() == if commit then OnCommit(old(live.Value())) else old(base)
      ensures origin == Truth() == if commit then OnCommit(old(Truth())) else old(origin)
      ensures old(InStep()) ==> InStep()
    {
      ghost var after := if commit then OnCommit(live.Value()) else base;
      ghost var truth := if commit then OnCommit(Truth()) else origin;
      if InStep() {
        InStepAgrees();
      }
      if commit {
        live.DropOnCommit();
      } else if |snapshots| > 0 {
        var copy := new Maps(snapshots[0].maps.Value());
        FirstIsBase(base, log);
        live := copy;
      }
      snapshots, base, log := [], after, [];
      origin, from := truth, 0;
      transaction := false;
      if chain {
        Begin();
      }
    }

    /** A two-phase COMMIT that fails ends the transaction without finishTemporaryTransaction, and so does
        one whose schema refresh fails, which PostgreSQL has carried out. */
    method FailCommit(rolledBack: bool)
      requires Valid() && transaction
      modifies this
      ensures Valid() && Interrupted() && live == old(live) && live.Value() == old(live.Value())
      ensures base == old(base) && log == old(log)
      ensures Truth() == if rolledBack then old(origin) else OnCommit(old(Truth()))
      ensures old(InStep()) && rolledBack ==> (live.Value() == Truth() <==> Replay(old(base), old(log)) == old(base))
    {
      origin := if rolledBack then origin else OnCommit(Truth());
      transaction, from := false, |log|;
    }

    /** What is noted of a statement: in a transaction the log has it, after a failed COMMIT too, and
        otherwise it is where the next transaction starts. */
    ghost method Note(d: Ddl)
      requires live !in Held() && base.drops == {} && origin.drops == {} && from <= |log|
      requires live.Value() == Apply(Replay(base, log), d, transaction)
      requires if snapshots == [] then !transaction && log == [] else Holds(Stack(base, log))
      requires transaction || from == |log|
      modifies this`base, this`log, this`origin, this`from
      ensures Valid() && Truth() == Apply(old(Truth()), d, transaction)
      ensures snapshots != [] ==> base == old(base)
      ensures transaction ==> log == old(log) + [Change(d)] && from == old(from) && origin == old(origin)
      ensures old(InStep()) ==> InStep()
    {
      if transaction {
        OneMoreEntry(base, log, Change(d));
        OwnGrows(Change(d));
        log := log + [Change(d)];
      } else {
        ApplyNoDrops(origin, d);
        origin := Apply(origin, d, false);
        if snapshots == [] {
          ApplyNoDrops(base, d);
          base := Apply(base, d, false);
        } else {
          OneMoreEntry(base, log, Outside(d));
          log := log + [Outside(d)];
          from := |log|;
        }
      }
    }

    /** A successful statement changes the live maps in place, and no snapshot. */
    method Remember(d: Ddl)
      requires Valid()
      modifies this`base, this`log, this`origin, this`from, live
      ensures Valid() && live.Value() == Apply(old(live.Value()), d, transaction)
      ensures Truth() == Apply(old(Truth()), d, transaction)
      ensures snapshots != [] ==> base == old(base)
      ensures transaction ==> log == old(log) + [Change(d)] && from == old(from) && origin == old(origin)
      ensures forall i :: 0 <= i < |snapshots| ==> snapshots[i].maps.Value() == old(snapshots[i].maps.Value())
      ensures old(InStep()) ==> InStep()
    {
      live.RememberStatement(d, transaction);
      Note(d);
    }

    /** Statements after a failed COMMIT, outside a transaction. */
    method RememberBetween(ddls: seq<Ddl>)
      requires Valid() && Interrupted()
      modifies this`base, this`log, this`origin, this`from, live
      ensures Valid() && base == old(base)
      ensures live.Value() == AppliedAll(old(live.Value()), ddls) && Truth() == AppliedAll(old(Truth()), ddls)
    {
      var i := 0;
      while i < |ddls|
        invariant i <= |ddls| && Valid() && base == old(base)
        invariant live.Value() == AppliedAll(old(live.Value()), ddls[..i]) && Truth() == AppliedAll(old(Truth()), ddls[..i])
      {
        assert ddls[..i + 1][..i] == ddls[..i];
        Remember(ddls[i]);
        i := i + 1;
      }
      assert ddls[..i] == ddls;
    }

    /** What a failed COMMIT does to all that follows: statements outside a transaction, and a transaction
        that is rolled back or committed.  After a ROLLBACK the names are those before the failed
        transaction, so every statement in between is lost. */
    method AfterFailedCommit(rolledBack: bool, ddls: seq<Ddl>, commit: bool)
      requires Valid() && transaction && InStep()
      modifies this, live
      ensures Valid() && !transaction
      ensures live.Value() == if commit then OnCommit(AppliedAll(old(live.Value()), ddls)) else old(base)
      ensures var start := if rolledBack then old(base) else OnCommit(old(live.Value()));
        Truth() == if commit then OnCommit(AppliedAll(start, ddls)) else AppliedAll(start, ddls)
      ensures rolledBack && !commit ==> (live.Value() == Truth() <==> AppliedAll(old(base), ddls) == old(base))
    {
      InStepAgrees();
      FailCommit(rolledBack);
      RememberBetween(ddls);
      Begin();
      Finish(commit, false);
    }
  }

  /** A failing input: a table created after the failed COMMIT of an empty transaction, then BEGIN and
      ROLLBACK.  The table exists and is no longer tracked. */
  method LostTable() returns (s: Session)
    ensures fresh(s) && s.Valid() && "t" in s.Truth().relations && "t" !in s.live.Value().relations
  {
    s := new Session();
    s.Begin();
    var create := Create(Name("", "t"), false);
    assert AppliedAll(Nothing, [create]) == Apply(Nothing, create, false) by {
      assert [create][..0] == [];
    }
    assert Spellings(Name("", "t"))[0] == "t";
    s.AfterFailedCommit(true, [create], false);
  }

  lemma {:induction false} FirstIsBase(base: Tracked, log: seq<Entry>)
    ensures Stack(base, log)[0].tracked == base
  {
    if log != [] {
      FirstIsBase(base, log[..|log| - 1]);
    }
  }
}
