/** The schema registry: which tables are sharded, by which columns, and where their vshards live. */
module Schema {
  import opened Text

  const VirtualShards := 65536
  const RegistryFormat := 4

  type U64 = n: nat | n < 0x1_0000_0000_0000_0000

  /** placements is the projection of the topology catalog, vshards the older fleet-wide map. */
  datatype Registry = Registry(
    revision: U64,
    fingerprint: string,
    keys: map<string, seq<string>>,
    types: map<string, seq<string>>,
    allTables: seq<string>,
    vshards: seq<string>,
    placements: Option<map<string, seq<string>>>)
  {
    predicate IsSharded(table: string) {
      table in keys
    }

    /** The inventory name of a public table given without its schema. */
    function CanonicalTable(table: string): string {
      if '.' in table then table
      else if "public." + table in allTables then "public." + table
      else table
    }

    function CanonicalShardedTables(): seq<string> {
      ShardedAmong(allTables)
    }

    function ShardedAmong(tables: seq<string>): (r: seq<string>)
      ensures forall t :: t in r <==> t in tables && IsSharded(t)
    {
      if tables == [] then []
      else (if IsSharded(tables[0]) then [tables[0]] else []) + ShardedAmong(tables[1..])
    }

    /** The owner array consulted for a table. */
    function OwnersFor(table: string): seq<string> {
      var name := CanonicalTable(table);
      if placements.Some? && name in placements.value then placements.value[name] else vshards
    }
  }
}
