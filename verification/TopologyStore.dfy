/** The topology cell in Nest: any number of Proxies bootstrapping, updating and reconciling it by
    compare-and-swap. */
module TopologyStore {
  import opened Text
  import opened Schema
  import opened TopologyCatalog

  // ----------------------------------------------------------------------------- transitions

  predicate StateStep(from: State, to: State) {
    || from == to
    || (from == Adding && (to == Ready || to == Removed))
    || (from == Ready && to == Draining)
    || (from == Draining && (to == Ready || to == Removed))
  }

  /** The stages of a Burrow's life. */
  function Stage(state: State): nat {
    match state case Adding => 0 case Ready => 1 case Draining => 1 case Removed => 2 case Unrecognised => 3
  }

  /** A Burrow never goes back a stage, may stop draining, and is not removed while it is ready. */
  lemma StepsAlongStages(from: State, to: State)
    requires from != Unrecognised && to != Unrecognised
    ensures StateStep(from, to) <==>
      Stage(from) <= Stage(to) && !(from == Adding && to == Draining) && !(from == Ready && to == Removed)
  {
  }

  function StatesById(burrows: seq<Burrow>): map<string, State> {
    if burrows == [] then map[] else
      var last := burrows[|burrows| - 1];
      StatesById(burrows[..|burrows| - 1])[last.id := last.state]
  }

  /** No Burrow leaves, each moves along its life cycle, and a new one starts in Adding. */
  ghost predicate BurrowsAdvance(before: map<string, State>, after: map<string, State>) {
    && (forall id :: id in before ==> id in after && StateStep(before[id], after[id]))
    && (forall id :: id in after && id !in before ==> after[id] == Adding)
  }

  predicate DistributionsKeepSize(before: seq<Distribution>, after: seq<Distribution>) {
    forall i :: 0 <= i < |after| ==>
      var was := FindDistribution(before, after[i].id);
      was.Some? ==> was.value.vshardCount == after[i].vshardCount
  }

  function NextRevision(revision: U64): U64 {
    (revision + 1) % 0x1_0000_0000_0000_0000
  }

  predicate HeaderAdvances(previous: Catalog, next: Catalog) {
    && next.revision == NextRevision(previous.revision)
    && next.change.timestamp > previous.change.timestamp
  }

  /** What ValidateTransition accepts. */
  ghost predicate ValidTransition(previous: Catalog, next: Catalog) {
    && Valid(previous) && Valid(next)
    && HeaderAdvances(previous, next)
    && BurrowsAdvance(StatesById(previous.burrows), StatesById(next.burrows))
    && DistributionsKeepSize(previous.distributions, next.distributions)
  }

  lemma {:induction false} StatesByIdAt(burrows: seq<Burrow>, i: nat)
    requires i < |burrows| && DistinctBurrows(burrows)
    ensures burrows[i].id in StatesById(burrows) && StatesById(burrows)[burrows[i].id] == burrows[i].state
  {
    if i < |burrows| - 1 {
      StatesByIdAt(burrows[..|burrows| - 1], i);
    }
  }

  method CollectStates(burrows: seq<Burrow>) returns (states: map<string, State>)
    ensures states == StatesById(burrows)
  {
    states := map[];
    var i := 0;
    while i < |burrows|
      invariant i <= |burrows| && states == StatesById(burrows[..i])
    {
      assert burrows[..i + 1][..i] == burrows[..i];
      states := states[burrows[i].id := burrows[i].state];
      i := i + 1;
    }
    assert burrows[..i] == burrows;
  }

  /** The Burrows seen so far are accounted for: what is left of before are the others. */
  ghost predicate Checked(before: map<string, State>, seen: map<string, State>, remaining: map<string, State>) {
    && remaining == before - seen.Keys
    && (forall id :: id in seen && id in before ==> StateStep(before[id], seen[id]))
    && (forall id :: id in seen && id !in before ==> seen[id] == Adding)
  }

  lemma CheckedOne(
      before: map<string, State>, seen: map<string, State>, remaining: map<string, State>, id: string, state: State)
    requires Checked(before, seen, remaining) && id !in seen
    requires if id in remaining then StateStep(remaining[id], state) else state == Adding
    ensures Checked(before, seen[id := state], remaining - {id})
  {
    assert seen[id := state].Keys == seen.Keys + {id};
  }

  /** A Burrow that fails its own test fails the whole transition. */
  lemma Refused(before: map<string, State>, burrows: seq<Burrow>, i: nat, remaining: map<string, State>)
    requires DistinctBurrows(burrows) && i < |burrows| && Checked(before, StatesById(burrows[..i]), remaining)
    requires burrows[i].id !in StatesById(burrows[..i])
    requires !(if burrows[i].id in remaining then StateStep(remaining[burrows[i].id], burrows[i].state) else burrows[i].state == Adding)
    ensures !BurrowsAdvance(before, StatesById(burrows))
  {
    StatesByIdAt(burrows, i);
  }

  lemma {:induction false} NotYetSeen(burrows: seq<Burrow>, i: nat, n: nat)
    requires DistinctBurrows(burrows) && n <= i < |burrows|
    ensures burrows[i].id !in StatesById(burrows[..n])
  {
    if n > 0 {
      NotYetSeen(burrows, i, n - 1);
      assert burrows[..n][..n - 1] == burrows[..n - 1];
    }
  }

  method CheckBurrows(before: map<string, State>, burrows: seq<Burrow>) returns (ok: bool)
    requires DistinctBurrows(burrows)
    ensures ok <==> BurrowsAdvance(before, StatesById(burrows))
  {
    var remaining := before;
    var i := 0;
    while i < |burrows|
      invariant i <= |burrows| && Checked(before, StatesById(burrows[..i]), remaining)
    {
      var b := burrows[i];
      NotYetSeen(burrows, i, i);
      if b.id !in remaining {
        if b.state != Adding {
          Refused(before, burrows, i, remaining);
          return false;
        }
      } else if !StateStep(remaining[b.id], b.state) {
        Refused(before, burrows, i, remaining);
        return false;
      }
      CheckedOne(before, StatesById(burrows[..i]), remaining, b.id, b.state);
      assert burrows[..i + 1][..i] == burrows[..i];
      remaining := remaining - {b.id};
      i := i + 1;
    }
    assert burrows[..i] == burrows;
    ok := remaining.Keys == {};
    AllAccounted(before, StatesById(burrows), remaining);
  }

  lemma AllAccounted(before: map<string, State>, after: map<string, State>, remaining: map<string, State>)
    requires Checked(before, after, remaining)
    ensures remaining.Keys == {} <==> BurrowsAdvance(before, after)
  {
    forall id | id in before ensures id in remaining.Keys <==> id !in after {
    }
    if remaining.Keys != {} {
      var id :| id in remaining.Keys;
      assert id in before && id !in after;
    }
  }

  method ValidateTransition(previous: Catalog, next: Catalog) returns (ok: bool)
    ensures ok <==> ValidTransition(previous, next)
  {
    if !Valid(previous) || !Valid(next) || !HeaderAdvances(previous, next) {
      return false;
    }
    var before := CollectStates(previous.burrows);
    var advance := CheckBurrows(before, next.burrows);
    return advance && DistributionsKeepSize(previous.distributions, next.distributions);
  }

  // --------------------------------------------------------------------------- reconciliation

  /** What ValidateSchema accepts. */
  ghost predicate SchemaFits(c: Catalog, registry: Registry) {
    && c.schema.registryFormat <= RegistryFormat
    && registry.revision >= c.schema.revision
    && registry.fingerprint == c.schema.fingerprint
    && (forall t :: t in registry.CanonicalShardedTables() ==> t in c.tables)
    && (forall t :: t in c.tables ==> registry.IsSharded(t))
  }

  /** Exactly the sharded tables, the known ones where they were, the new ones in the bootstrap
      distribution. */
  ghost predicate TablesReconciled(before: map<string, string>, sharded: seq<string>, after: map<string, string>) {
    && (forall t :: t in after <==> t in sharded)
    && (forall t :: t in after ==> after[t] == if t in before then before[t] else BootstrapDistribution)
  }

  method ReconcileTables(before: map<string, string>, sharded: seq<string>) returns (tables: map<string, string>)
    ensures TablesReconciled(before, sharded, tables)
  {
    tables := before;
    var i := 0;
    while i < |sharded|
      invariant i <= |sharded|
      invariant forall t :: t in tables <==> t in before || t in sharded[..i]
      invariant forall t :: t in tables ==> tables[t] == if t in before then before[t] else BootstrapDistribution
    {
      assert sharded[..i + 1] == sharded[..i] + [sharded[i]];
      if sharded[i] !in tables {
        tables := tables[sharded[i] := BootstrapDistribution];
      }
      i := i + 1;
    }
    assert sharded[..i] == sharded;
    tables := map t | t in tables && t in sharded :: tables[t];
  }

  /** next is the catalog ReconcileSchema derives from current. */
  ghost predicate IsReconciled(current: Catalog, registry: Registry, now: nat, next: Catalog) {
    && TablesReconciled(current.tables, registry.CanonicalShardedTables(), next.tables)
    && next == current.(
         tables := next.tables,
         schema := SchemaCompatibility(RegistryFormat, registry.revision, registry.fingerprint),
         revision := NextRevision(current.revision),
         change := Change("hamstergres-proxy", "reconcile successful fleet-wide schema change", now))
  }

  method Reconcile(current: Catalog, registry: Registry, now: nat) returns (next: Catalog)
    ensures IsReconciled(current, registry, now, next)
  {
    var tables := ReconcileTables(current.tables, registry.CanonicalShardedTables());
    next := current.(
      tables := tables,
      schema := SchemaCompatibility(RegistryFormat, registry.revision, registry.fingerprint),
      revision := NextRevision(current.revision),
      change := Change("hamstergres-proxy", "reconcile successful fleet-wide schema change", now));
  }

  /** A reconciled catalog fits the schema it was reconciled with and moves no table that was sharded
      before. */
  lemma ReconciledFits(current: Catalog, registry: Registry, now: nat, next: Catalog)
    requires Valid(current) && Valid(next) && IsReconciled(current, registry, now, next)
    ensures SchemaFits(next, registry)
    ensures KeepsPlacement(current, next)
  {
    forall t | t in next.tables && t in current.tables ensures Placement(next, t) == Placement(current, t) {
      assert DistributionOf(next, t) == DistributionOf(current, t);
    }
  }

  ghost predicate KeepsPlacement(before: Catalog, after: Catalog)
    requires Valid(before) && Valid(after)
  {
    forall t :: t in before.tables && t in after.tables ==> Placement(after, t) == Placement(before, t)
  }
}
