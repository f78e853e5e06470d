/** The versioned routing catalog: bootstrap, validation, the dictionary-encoded vshard map. */
module TopologyCatalog {
  import opened Text
  import opened Schema

  const FormatVersion := 1
  const BootstrapDistribution := "distribution-bootstrap-0001"

  type Index16 = n: nat | n < 0x1_0000

  datatype State = Adding | Ready | Draining | Removed | Unrecognised

  datatype Tunnel = Tunnel(name: string, address: string, fingerprint: string)

  datatype Burrow = Burrow(
    id: string, name: string, state: State, tunnels: seq<Tunnel>, weight: nat, capacity: int, labels: set<string>)

  /** burrowIds is the owner dictionary, ownerIndexes the vshard map into it. */
  datatype Distribution = Distribution(id: string, vshardCount: int, burrowIds: seq<string>, ownerIndexes: seq<Index16>)

  datatype SchemaCompatibility = SchemaCompatibility(registryFormat: int, revision: U64, fingerprint: string)

  /** Timestamps are naturals, zero for an unset one. */
  datatype Change = Change(actor: string, reason: string, timestamp: nat)

  datatype Catalog = Catalog(
    formatVersion: int,
    revision: U64,
    schema: SchemaCompatibility,
    burrows: seq<Burrow>,
    distributions: seq<Distribution>,
    tables: map<string, string>,
    change: Change)

  // ------------------------------------------------------------------------------ validation

  predicate Routable(state: State) {
    state == Ready || state == Draining
  }

  predicate ValidTunnels(tunnels: seq<Tunnel>) {
    && (forall i :: 0 <= i < |tunnels| ==>
          tunnels[i].name != "" && tunnels[i].address != "" && tunnels[i].fingerprint != "")
    && (forall i, j :: 0 <= i < j < |tunnels| ==> tunnels[i].name != tunnels[j].name)
  }

  predicate ValidBurrow(b: Burrow) {
    && b.id != "" && b.name != ""
    && b.state != Unrecognised
    && b.weight != 0 && b.capacity >= 0
    && (b.state != Removed ==> b.tunnels != [])
    && ValidTunnels(b.tunnels)
    && (forall key :: key in b.labels ==> TrimSpace(key) != "")
  }

  predicate DistinctBurrows(burrows: seq<Burrow>) {
    forall i, j :: 0 <= i < j < |burrows| ==> burrows[i].id != burrows[j].id && burrows[i].name != burrows[j].name
  }

  /** The Burrow with an ID. */
  function FindBurrow(burrows: seq<Burrow>, id: string): (r: Option<Burrow>)
    ensures r.Some? ==> r.value in burrows && r.value.id == id
    ensures r.None? ==> forall b :: b in burrows ==> b.id != id
  {
    if burrows == [] then None
    else if burrows[0].id == id then Some(burrows[0])
    else FindBurrow(burrows[1..], id)
  }

  predicate ValidOwner(burrows: seq<Burrow>, owner: string) {
    var b := FindBurrow(burrows, owner);
    b.Some? && Routable(b.value.state)
  }

  predicate ValidDistribution(d: Distribution, burrows: seq<Burrow>) {
    && d.id != ""
    && d.vshardCount > 0 && |d.ownerIndexes| == d.vshardCount
    && 0 < |d.burrowIds| <= 0x1_0000
    && (forall i, j :: 0 <= i < j < |d.burrowIds| ==> d.burrowIds[i] != d.burrowIds[j])
    && (forall i :: 0 <= i < |d.burrowIds| ==> ValidOwner(burrows, d.burrowIds[i]))
    && (forall v :: 0 <= v < |d.ownerIndexes| ==> d.ownerIndexes[v] < |d.burrowIds|)
  }

  predicate DistinctDistributions(ds: seq<Distribution>) {
    forall i, j :: 0 <= i < j < |ds| ==> ds[i].id != ds[j].id
  }

  function FindDistribution(ds: seq<Distribution>, id: string): (r: Option<Distribution>)
    ensures r.Some? ==> r.value in ds && r.value.id == id
    ensures r.None? ==> forall d :: d in ds ==> d.id != id
  {
    if ds == [] then None
    else if ds[0].id == id then Some(ds[0])
    else FindDistribution(ds[1..], id)
  }

  predicate ValidHeader(c: Catalog) {
    && c.formatVersion == FormatVersion
    && c.revision != 0
    && c.schema.registryFormat > 0 && c.schema.revision != 0 && c.schema.fingerprint != ""
    && c.change.actor != "" && c.change.reason != "" && c.change.timestamp != 0
  }

  predicate ValidBurrows(burrows: seq<Burrow>) {
    && (forall i :: 0 <= i < |burrows| ==> ValidBurrow(burrows[i]))
    && DistinctBurrows(burrows)
  }

  predicate ValidDistributions(ds: seq<Distribution>, burrows: seq<Burrow>) {
    && (forall i :: 0 <= i < |ds| ==> ValidDistribution(ds[i], burrows))
    && DistinctDistributions(ds)
  }

  predicate ValidTables(tables: map<string, string>, ds: seq<Distribution>) {
    forall t :: t in tables ==> TrimSpace(t) != "" && FindDistribution(ds, tables[t]).Some?
  }

  /** Catalog.Validate. */
  predicate Valid(c: Catalog) {
    && ValidHeader(c)
    && ValidBurrows(c.burrows)
    && ValidDistributions(c.distributions, c.burrows)
    && ValidTables(c.tables, c.distributions)
  }

  // ------------------------------------------------------------------------------ sorted names

  /** Byte order of names. */
  predicate Leq(a: string, b: string) {
    a == "" || (b != "" && (a[0] < b[0] || (a[0] == b[0] && Leq(a[1..], b[1..]))))
  }

  /** The first byte that differs, at k, puts a first. */
  predicate FirstAt(a: string, b: string, k: nat) {
    k < |a| && k < |b| && a[..k] == b[..k] && a[k] < b[k]
  }

  lemma FirstAfter(a: string, b: string, k: nat)
    requires a != "" && b != "" && a[0] == b[0]
    ensures FirstAt(a, b, k + 1) <==> FirstAt(a[1..], b[1..], k)
    ensures !FirstAt(a, b, 0)
  {
    if k + 1 < |a| && k + 1 < |b| {
      assert a[..k + 1] == [a[0]] + a[1..][..k] && b[..k + 1] == [b[0]] + b[1..][..k];
      assert a[..k + 1][1..] == a[1..][..k] && b[..k + 1][1..] == b[1..][..k];
    }
  }

  /** The order is lexicographic: a beginning comes first, and else the first byte that differs decides. */
  lemma {:induction false} LeqIsLexicographic(a: string, b: string)
    ensures Leq(a, b) <==> a <= b || exists k: nat :: FirstAt(a, b, k)
  {
    if a != "" && b != "" && a[0] == b[0] {
      LeqIsLexicographic(a[1..], b[1..]);
      assert a <= b <==> a[1..] <= b[1..] by {
        assert a == [a[0]] + a[1..] && b == [b[0]] + b[1..];
      }
      if k: nat :| FirstAt(a[1..], b[1..], k) {
        FirstAfter(a, b, k);
      }
      if k: nat :| FirstAt(a, b, k) {
        FirstAfter(a, b, if k == 0 then 0 else k - 1);
      }
    } else if a != "" && b != "" && a[0] < b[0] {
      assert FirstAt(a, b, 0);
    }
  }

  function Insert(x: string, s: seq<string>): seq<string> {
    if s == [] || Leq(x, s[0]) then [x] + s else [s[0]] + Insert(x, s[1..])
  }

  function Sort(s: seq<string>): seq<string> {
    if s == [] then [] else Insert(s[0], Sort(s[1..]))
  }

  predicate Ordered(s: seq<string>) {
    forall i :: 0 <= i < |s| - 1 ==> Leq(s[i], s[i + 1])
  }

  lemma {:induction false} LeqTotal(a: string, b: string)
    ensures Leq(a, b) || Leq(b, a)
  {
    if a != "" && b != "" && a[0] == b[0] {
      LeqTotal(a[1..], b[1..]);
    }
  }

  lemma {:induction false} InsertOrdered(x: string, s: seq<string>)
    requires Ordered(s)
    ensures Ordered(Insert(x, s))
    ensures Insert(x, s)[0] == x || (s != [] && Insert(x, s)[0] == s[0])
  {
    if s != [] && !Leq(x, s[0]) {
      LeqTotal(x, s[0]);
      InsertOrdered(x, s[1..]);
    }
  }

  lemma {:induction false} SortOrdered(s: seq<string>)
    ensures Ordered(Sort(s))
  {
    if s != [] {
      SortOrdered(s[1..]);
      InsertOrdered(s[0], Sort(s[1..]));
    }
  }

  lemma {:induction false} OrderedIsSorted(s: seq<string>)
    requires Ordered(s)
    ensures Sort(s) == s
  {
    if s != [] {
      OrderedIsSorted(s[1..]);
      assert s == [s[0]] + s[1..];
    }
  }

  lemma {:induction false} InsertKeeps(x: string, s: seq<string>)
    ensures multiset(Insert(x, s)) == multiset([x]) + multiset(s)
  {
    if s != [] && !Leq(x, s[0]) {
      InsertKeeps(x, s[1..]);
      assert s == [s[0]] + s[1..];
    }
  }

  lemma {:induction false} SortKeeps(s: seq<string>)
    ensures multiset(Sort(s)) == multiset(s)
  {
    if s != [] {
      SortKeeps(s[1..]);
      InsertKeeps(s[0], Sort(s[1..]));
      assert s == [s[0]] + s[1..];
    }
  }

  lemma SortedMember(x: string, s: seq<string>)
    ensures x in Sort(s) <==> x in s
  {
    SortKeeps(s);
    assert x in Sort(s) <==> x in multiset(Sort(s));
    assert x in s <==> x in multiset(s);
  }

  // ---------------------------------------------------------------------- the modulo placement

  /** One-indexed modulo placement of a vshard. */
  function ModuloOwner(vshard: nat, names: seq<string>): string
    requires names != []
  {
    var remainder := vshard % |names|;
    if remainder == 0 then names[|names| - 1] else names[remainder - 1]
  }

  /** Vshards 1, 2, 3.. go to the names in turn, and vshard 0 to the last. */
  lemma ModuloInTurn(vshard: nat, names: seq<string>)
    requires names != []
    ensures ModuloOwner(vshard, names) == names[(vshard + |names| - 1) % |names|]
  {
    var n, r := |names|, vshard % |names|;
    assert vshard == n * (vshard / n) + r;
    if r == 0 {
      SameRemainder(vshard + n - 1, n, vshard / n, n - 1);
    } else {
      SameRemainder(vshard + n - 1, n, vshard / n + 1, r - 1);
    }
  }

  lemma SameRemainder(x: nat, n: nat, q: nat, r: nat)
    requires r < n && x == n * q + r
    ensures x % n == r
  {
    var d := x / n - q;
    assert d * n == r - x % n;
    Multiples(d, n);
  }

  lemma Multiples(d: int, n: int)
    requires n >= 0
    ensures d >= 1 ==> d * n >= n
    ensures d <= -1 ==> d * n <= 0 - n
  {
    if d >= 1 {
      assert d * n == n + (d - 1) * n;
    } else if d <= -1 {
      assert (0 - d) * n == n + (0 - d - 1) * n;
      assert d * n == 0 - (0 - d) * n;
    }
  }

  /** BurrowForKey, over any hash. */
  function BurrowForKey(hash: string -> nat, key: string, burrows: seq<string>): string {
    if burrows == [] then "" else ModuloOwner(hash(key) % VirtualShards, burrows)
  }

  method LegacyModuloOwners(names: seq<string>, count: nat) returns (owners: seq<string>)
    ensures |owners| == count
    ensures forall v :: 0 <= v < count ==> owners[v] == if names == [] then "" else ModuloOwner(v, Sort(names))
  {
    var sorted := Sort(names);
    SortKeeps(names);
    assert |sorted| == |names| by {
      assert |multiset(sorted)| == |multiset(names)|;
    }
    owners := [];
    var vshard := 0;
    while vshard < count
      invariant vshard == |owners| <= count
      invariant forall v :: 0 <= v < vshard ==> owners[v] == if names == [] then "" else ModuloOwner(v, sorted)
    {
      var owner := "";
      if |sorted| != 0 {
        var remainder := vshard % |sorted|;
        owner := if remainder == 0 then sorted[|sorted| - 1] else sorted[remainder - 1];
      }
      owners := owners + [owner];
      vshard := vshard + 1;
    }
  }

  // ------------------------------------------------------------------------------- placements

  function NamesById(burrows: seq<Burrow>): map<string, string> {
    if burrows == [] then map[] else
      var last := burrows[|burrows| - 1];
      NamesById(burrows[..|burrows| - 1])[last.id := last.name]
  }

  function DistributionsById(ds: seq<Distribution>): map<string, Distribution> {
    if ds == [] then map[] else
      var last := ds[|ds| - 1];
      DistributionsById(ds[..|ds| - 1])[last.id := last]
  }

  lemma {:induction false} NamesByIdAt(burrows: seq<Burrow>, i: nat)
    requires i < |burrows| && DistinctBurrows(burrows)
    ensures burrows[i].id in NamesById(burrows) && NamesById(burrows)[burrows[i].id] == burrows[i].name
  {
    if i < |burrows| - 1 {
      NamesByIdAt(burrows[..|burrows| - 1], i);
    }
  }

  lemma {:induction false} DistributionsByIdAt(ds: seq<Distribution>, i: nat)
    requires i < |ds| && DistinctDistributions(ds)
    ensures ds[i].id in DistributionsById(ds) && DistributionsById(ds)[ds[i].id] == ds[i]
  {
    if i < |ds| - 1 {
      DistributionsByIdAt(ds[..|ds| - 1], i);
    }
  }

  /** The name of the Burrow that owns a vshard of a valid catalog's distribution. */
  function OwnerName(c: Catalog, d: Distribution, v: nat): string
    requires ValidDistribution(d, c.burrows) && v < |d.ownerIndexes|
  {
    FindBurrow(c.burrows, d.burrowIds[d.ownerIndexes[v]]).value.name
  }

  function DistributionOf(c: Catalog, table: string): (d: Distribution)
    requires Valid(c) && table in c.tables
    ensures d in c.distributions && d.id == c.tables[table] && ValidDistribution(d, c.burrows)
  {
    FindDistribution(c.distributions, c.tables[table]).value
  }

  /** The owner array of a table, by name. */
  function Placement(c: Catalog, table: string): (owners: seq<string>)
    requires Valid(c) && table in c.tables
    ensures |owners| == DistributionOf(c, table).vshardCount
  {
    var d := DistributionOf(c, table);
    seq(|d.ownerIndexes|, v requires 0 <= v < |d.ownerIndexes| => OwnerName(c, d, v))
  }

  lemma OwnerNameById(c: Catalog, d: Distribution, v: nat)
    requires Valid(c) && ValidDistribution(d, c.burrows) && v < |d.ownerIndexes|
    ensures var id := d.burrowIds[d.ownerIndexes[v]];
      id in NamesById(c.burrows) && NamesById(c.burrows)[id] == OwnerName(c, d, v)
  {
    var id := d.burrowIds[d.ownerIndexes[v]];
    assert ValidOwner(c.burrows, id);
    var b := FindBurrow(c.burrows, id).value;
    var i :| 0 <= i < |c.burrows| && c.burrows[i] == b;
    NamesByIdAt(c.burrows, i);
  }

  method OwnersOf(c: Catalog, names: map<string, string>, d: Distribution) returns (owners: seq<string>)
    requires Valid(c) && names == NamesById(c.burrows) && ValidDistribution(d, c.burrows)
    ensures |owners| == |d.ownerIndexes|
    ensures forall v :: 0 <= v < |owners| ==> owners[v] == OwnerName(c, d, v)
  {
    owners := [];
    while |owners| < |d.ownerIndexes|
      invariant |owners| <= |d.ownerIndexes|
      invariant forall v :: 0 <= v < |owners| ==> owners[v] == OwnerName(c, d, v)
    {
      OwnerNameById(c, d, |owners|);
      owners := owners + [names[d.burrowIds[d.ownerIndexes[|owners|]]]];
    }
  }

  method PlacementOf(c: Catalog, names: map<string, string>, distributions: map<string, Distribution>, table: string)
    returns (owners: seq<string>)
    requires Valid(c) && names == NamesById(c.burrows) && distributions == DistributionsById(c.distributions)
    requires table in c.tables
    ensures owners == Placement(c, table)
  {
    LookupDistribution(c, table);
    owners := OwnersOf(c, names, distributions[c.tables[table]]);
  }

  /** Each listed table has its owner array. */
  ghost predicate Placed(c: Catalog, placements: map<string, seq<string>>)
    requires Valid(c)
  {
    forall t :: t in placements ==> t in c.tables && placements[t] == Placement(c, t)
  }

  lemma PlacedAlso(c: Catalog, placements: map<string, seq<string>>, table: string, owners: seq<string>)
    requires Valid(c) && Placed(c, placements) && table in c.tables && owners == Placement(c, table)
    ensures Placed(c, placements[table := owners])
  {
  }

  /** todo is what is left of the keys once the done ones are taken out. */
  ghost predicate Remaining(keys: set<string>, done: set<string>, todo: set<string>) {
    todo <= keys && done == keys - todo
  }

  lemma OneDone(
      keys: set<string>, placements: map<string, seq<string>>, todo: set<string>, table: string,
      owners: seq<string>)
    requires Remaining(keys, placements.Keys, todo) && table in todo
    ensures Remaining(keys, placements[table := owners].Keys, todo - {table})
  {
    assert placements[table := owners].Keys == placements.Keys + {table};
  }

  method PlaceAll(c: Catalog, names: map<string, string>, distributions: map<string, Distribution>)
    returns (placements: map<string, seq<string>>)
    requires Valid(c) && names == NamesById(c.burrows) && distributions == DistributionsById(c.distributions)
    ensures placements.Keys == c.tables.Keys && Placed(c, placements)
  {
    placements := map[];
    var todo := c.tables.Keys;
    while todo != {}
      invariant Remaining(c.tables.Keys, placements.Keys, todo)
      invariant Placed(c, placements)
      decreases |todo|
    {
      var table :| table in todo;
      var owners := PlacementOf(c, names, distributions, table);
      PlacedAlso(c, placements, table, owners);
      OneDone(c.tables.Keys, placements, todo, table, owners);
      placements := placements[table := owners];
      todo := todo - {table};
    }
  }

  /** TablePlacements: every table of a valid catalog gets its owner array, by name. */
  method TablePlacements(c: Catalog) returns (placements: Option<map<string, seq<string>>>)
    ensures placements.Some? <==> Valid(c)
    ensures placements.Some? ==> placements.value.Keys == c.tables.Keys && Placed(c, placements.value)
  {
    if !Valid(c) {
      return None;
    }
    var names := CollectNames(c.burrows);
    var distributions := CollectDistributions(c.distributions);
    var all := PlaceAll(c, names, distributions);
    return Some(all);
  }

  lemma LookupDistribution(c: Catalog, table: string)
    requires Valid(c) && table in c.tables
    ensures c.tables[table] in DistributionsById(c.distributions)
    ensures DistributionsById(c.distributions)[c.tables[table]] == DistributionOf(c, table)
  {
    var d := DistributionOf(c, table);
    var i :| 0 <= i < |c.distributions| && c.distributions[i] == d;
    DistributionsByIdAt(c.distributions, i);
  }

  method CollectNames(burrows: seq<Burrow>) returns (names: map<string, string>)
    ensures names == NamesById(burrows)
  {
    names := map[];
    var i := 0;
    while i < |burrows|
      invariant i <= |burrows| && names == NamesById(burrows[..i])
    {
      assert burrows[..i + 1][..i] == burrows[..i];
      names := names[burrows[i].id := burrows[i].name];
      i := i + 1;
    }
    assert burrows[..i] == burrows;
  }

  method CollectDistributions(ds: seq<Distribution>) returns (byId: map<string, Distribution>)
    ensures byId == DistributionsById(ds)
  {
    byId := map[];
    var i := 0;
    while i < |ds|
      invariant i <= |ds| && byId == DistributionsById(ds[..i])
    {
      assert ds[..i + 1][..i] == ds[..i];
      byId := byId[ds[i].id := ds[i]];
      i := i + 1;
    }
    assert ds[..i] == ds;
  }

  // ---------------------------------------------------------------------------- routable names

  function RoutableNames(burrows: seq<Burrow>): seq<string> {
    if burrows == [] then [] else
      (if Routable(burrows[0].state) then [burrows[0].name] else []) + RoutableNames(burrows[1..])
  }

  function RoutableBurrowNames(c: Catalog): seq<string> {
    Sort(RoutableNames(c.burrows))
  }

  /** The target list holds exactly the names of the Burrows that are ready or draining. */
  lemma TargetListIs(c: Catalog, name: string)
    ensures name in RoutableBurrowNames(c) <==> exists b <- c.burrows :: b.name == name && (b.state == Ready || b.state == Draining)
  {
    SortedMember(name, RoutableNames(c.burrows));
    NamesAreRoutable(c.burrows, name);
    if b :| b in c.burrows && b.name == name && (b.state == Ready || b.state == Draining) {
      RoutableMember(c.burrows, b);
    }
  }

  lemma {:induction false} NamesAreRoutable(burrows: seq<Burrow>, name: string)
    ensures name in RoutableNames(burrows) ==> exists b <- burrows :: b.name == name && Routable(b.state)
  {
    if burrows != [] {
      NamesAreRoutable(burrows[1..], name);
      assert burrows[0] in burrows;
    }
  }

  lemma {:induction false} RoutableMember(burrows: seq<Burrow>, b: Burrow)
    requires b in burrows && Routable(b.state)
    ensures b.name in RoutableNames(burrows)
  {
    if burrows[0] != b {
      RoutableMember(burrows[1..], b);
    }
  }

  /** Owners and the target list agree: every owner a valid catalog places a vshard on is one of the
      Burrows the Proxy may send to. */
  lemma OwnersAreRoutable(c: Catalog, table: string, v: nat)
    requires Valid(c) && table in c.tables && v < |Placement(c, table)|
    ensures Placement(c, table)[v] in RoutableBurrowNames(c)
  {
    var d := DistributionOf(c, table);
    var id := d.burrowIds[d.ownerIndexes[v]];
    assert ValidOwner(c.burrows, id);
    var b := FindBurrow(c.burrows, id).value;
    RoutableMember(c.burrows, b);
    SortedMember(b.name, RoutableNames(c.burrows));
  }
}
