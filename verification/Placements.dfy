/** Routing by a catalog: owners the Proxy can reach, and the placement older registries used. */
module Placements {
  import opened Text
  import opened Schema
  import opened Scalar
  import opened TopologyCatalog
  import opened TopologyBootstrap
  import opened Analysis

  /** The fleet routes by this catalog: its placements, its reachable Burrows. */
  ghost predicate RoutesBy(fleet: Fleet, c: Catalog) {
    && Valid(c)
    && fleet.burrows == RoutableBurrowNames(c)
    && fleet.registry.placements.Some?
    && fleet.registry.placements.value.Keys == c.tables.Keys
    && Placed(c, fleet.registry.placements.value)
  }

  /** A key of a table in the catalog is never routed to a Burrow outside the target list. */
  lemma TargetsAreListed(table: string, values: seq<string>, types: seq<Family>, fleet: Fleet, c: Catalog)
    requires RoutesBy(fleet, c) && fleet.registry.CanonicalTable(table) in c.tables
    requires TargetForKey(table, values, types, fleet).Some?
    ensures TargetForKey(table, values, types, fleet).value in fleet.burrows
  {
    var name := fleet.registry.CanonicalTable(table);
    var families := if types == [] then seq(|values|, _ => Untyped) else types;
    var key := Join(CanonicalKey(values, families, |values|).value);
    assert fleet.registry.OwnersFor(table) == Placement(c, name);
    OwnersAreRoutable(c, name, fleet.hash(key) % VirtualShards);
  }

  /** A key goes to whatever Burrow the catalog places its vshard on, and nowhere unless the
      placement lists every vshard. */
  lemma TargetIsPlaced(
      table: string, values: seq<string>, types: seq<Family>, fleet: Fleet, c: Catalog, canonical: seq<string>)
    requires RoutesBy(fleet, c) && fleet.registry.CanonicalTable(table) in c.tables && fleet.burrows != []
    requires values != [] && |canonical| == |types| == |values|
    requires forall i :: 0 <= i < |values| ==> CanonicalScalar(values[i], types[i]) == Some(canonical[i])
    ensures var placement := Placement(c, fleet.registry.CanonicalTable(table));
      TargetForKey(table, values, types, fleet)
        == if |placement| == VirtualShards then Some(placement[fleet.hash(Join(canonical)) % VirtualShards]) else None
  {
    CanonicalTarget(table, values, types, fleet, canonical);
    TextIsPlaced(table, Join(canonical), fleet, c);
  }

  lemma TextIsPlaced(table: string, key: string, fleet: Fleet, c: Catalog)
    requires RoutesBy(fleet, c) && fleet.registry.CanonicalTable(table) in c.tables
    ensures var placement := Placement(c, fleet.registry.CanonicalTable(table));
      OwnerOfText(table, key, fleet)
        == if |placement| == VirtualShards then Some(placement[fleet.hash(key) % VirtualShards]) else None
  {
    assert fleet.registry.OwnersFor(table) == Placement(c, fleet.registry.CanonicalTable(table));
  }

  lemma CanonicalTarget(
      table: string, values: seq<string>, types: seq<Family>, fleet: Fleet, canonical: seq<string>)
    requires fleet.burrows != [] && values != [] && |canonical| == |types| == |values|
    requires forall i :: 0 <= i < |values| ==> CanonicalScalar(values[i], types[i]) == Some(canonical[i])
    ensures TargetForKey(table, values, types, fleet) == OwnerOfText(table, Join(canonical), fleet)
  {
    assert CanonicalKey(values, types, |values|).value == canonical;
  }

  /** Without an older map, looking a key up in the bootstrap catalog is one-indexed modulo placement over
      the sorted Burrow names. */
  lemma LookupIsModulo(table: string, key: string, fleet: Fleet, c: Catalog, configured: seq<Configured>)
    requires RoutesBy(fleet, c) && fleet.registry.CanonicalTable(table) in c.tables
    requires Published(Placement(c, fleet.registry.CanonicalTable(table)), [], Sort(Names(configured)))
    ensures OwnerOfText(table, key, fleet) == Some(BurrowForKey(fleet.hash, key, Sort(Names(configured))))
  {
    var name := fleet.registry.CanonicalTable(table);
    assert fleet.registry.OwnersFor(table) == Placement(c, name);
  }
}
