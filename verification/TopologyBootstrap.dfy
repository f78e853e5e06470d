/** The first catalog, published from the configured Burrows and any older vshard map. */
module TopologyBootstrap {
  import opened Text
  import opened Schema
  import opened TopologyCatalog

  datatype Configured = Configured(name: string, dsn: string)

  /** The hash behind Burrow IDs and the address and fingerprint taken from a DSN: any functions. */
  datatype Environment = Environment(id: string -> string, address: string -> string, fingerprint: string -> string)

  function InsertConfigured(x: Configured, s: seq<Configured>): seq<Configured> {
    if s == [] || Leq(x.name, s[0].name) then [x] + s else [s[0]] + InsertConfigured(x, s[1..])
  }

  function SortConfigured(s: seq<Configured>): seq<Configured> {
    if s == [] then [] else InsertConfigured(s[0], SortConfigured(s[1..]))
  }

  function Names(s: seq<Configured>): (names: seq<string>)
    ensures |names| == |s| && forall i :: 0 <= i < |s| ==> names[i] == s[i].name
  {
    seq(|s|, i requires 0 <= i < |s| => s[i].name)
  }

  lemma {:induction false} InsertedNames(x: Configured, s: seq<Configured>)
    ensures Names(InsertConfigured(x, s)) == Insert(x.name, Names(s))
  {
    if s != [] && !Leq(x.name, s[0].name) {
      InsertedNames(x, s[1..]);
      assert Names(s)[1..] == Names(s[1..]);
    }
  }

  lemma {:induction false} SortedNames(s: seq<Configured>)
    ensures Names(SortConfigured(s)) == Sort(Names(s))
  {
    if s != [] {
      SortedNames(s[1..]);
      InsertedNames(s[0], SortConfigured(s[1..]));
      assert Names(s)[1..] == Names(s[1..]);
    }
  }

  lemma {:induction false} InsertedMembers(x: Configured, s: seq<Configured>)
    ensures multiset(InsertConfigured(x, s)) == multiset([x]) + multiset(s)
  {
    if s != [] && !Leq(x.name, s[0].name) {
      InsertedMembers(x, s[1..]);
      assert s == [s[0]] + s[1..];
    }
  }

  lemma {:induction false} SortedMembers(s: seq<Configured>)
    ensures multiset(SortConfigured(s)) == multiset(s)
  {
    if s != [] {
      SortedMembers(s[1..]);
      InsertedMembers(s[0], SortConfigured(s[1..]));
      assert s == [s[0]] + s[1..];
    }
  }

  // -------------------------------------------------------------------------------- Burrows

  function MakeBurrow(c: Configured, env: Environment): Burrow {
    Burrow(env.id(c.name), c.name, Ready, [Tunnel("primary", env.address(c.dsn), env.fingerprint(c.dsn))], 1, 0, {})
  }

  ghost predicate Made(burrows: seq<Burrow>, sorted: seq<Configured>, env: Environment) {
    |burrows| == |sorted| && forall i :: 0 <= i < |sorted| ==> burrows[i] == MakeBurrow(sorted[i], env)
  }

  predicate Complete(s: seq<Configured>) {
    forall i :: 0 <= i < |s| ==> s[i].name != "" && s[i].dsn != ""
  }

  predicate DistinctNames(s: seq<Configured>) {
    forall i, j :: 0 <= i < j < |s| ==> s[i].name != s[j].name
  }

  /** byName maps the configured names, and only those, to their IDs. */
  ghost predicate Indexes(byName: map<string, string>, names: seq<string>, env: Environment) {
    && (forall n :: n in byName <==> n in names)
    && (forall n :: n in byName ==> byName[n] == env.id(n))
  }

  lemma Grow(sorted: seq<Configured>, n: nat, byName: map<string, string>, env: Environment)
    requires n < |sorted| && Complete(sorted[..n]) && DistinctNames(sorted[..n])
    requires Indexes(byName, Names(sorted[..n]), env)
    requires sorted[n].name != "" && sorted[n].dsn != "" && sorted[n].name !in byName
    ensures Complete(sorted[..n + 1]) && DistinctNames(sorted[..n + 1])
    ensures Indexes(byName[sorted[n].name := env.id(sorted[n].name)], Names(sorted[..n + 1]), env)
  {
    var names := Names(sorted[..n]);
    assert Names(sorted[..n + 1]) == names + [sorted[n].name];
    forall i | 0 <= i < n ensures sorted[i].name != sorted[n].name {
      assert names[i] in names;
    }
  }

  /** The first n configurations have been collected. */
  ghost predicate Collected(
      sorted: seq<Configured>, n: nat, burrows: seq<Burrow>, byName: map<string, string>, env: Environment) {
    && n <= |sorted| && Complete(sorted[..n]) && DistinctNames(sorted[..n])
    && Made(burrows, sorted[..n], env) && Indexes(byName, Names(sorted[..n]), env)
  }

  lemma CollectOne(sorted: seq<Configured>, n: nat, burrows: seq<Burrow>, byName: map<string, string>, env: Environment)
    requires n < |sorted| && Collected(sorted, n, burrows, byName, env)
    requires sorted[n].name != "" && sorted[n].dsn != "" && sorted[n].name !in byName
    ensures Collected(sorted, n + 1, burrows + [MakeBurrow(sorted[n], env)], byName[sorted[n].name := env.id(sorted[n].name)], env)
  {
    Grow(sorted, n, byName, env);
    assert sorted[..n + 1] == sorted[..n] + [sorted[n]];
  }

  lemma NameTaken(sorted: seq<Configured>, n: nat, byName: map<string, string>, env: Environment)
    requires n < |sorted| && Indexes(byName, Names(sorted[..n]), env) && sorted[n].name in byName
    ensures !DistinctNames(sorted)
  {
    var i :| 0 <= i < n && Names(sorted[..n])[i] == sorted[n].name;
    assert sorted[i].name == sorted[n].name;
  }

  method CollectBurrows(sorted: seq<Configured>, env: Environment)
    returns (ok: bool, burrows: seq<Burrow>, byName: map<string, string>)
    ensures ok <==> Complete(sorted) && DistinctNames(sorted)
    ensures ok ==> Made(burrows, sorted, env)
    ensures ok ==> Indexes(byName, Names(sorted), env)
  {
    burrows, byName := [], map[];
    var next := 0;
    while next < |sorted|
      invariant Collected(sorted, next, burrows, byName, env)
    {
      var c := sorted[next];
      if c.name == "" || c.dsn == "" {
        return false, [], map[];
      }
      if c.name in byName {
        NameTaken(sorted, next, byName, env);
        return false, [], map[];
      }
      CollectOne(sorted, next, burrows, byName, env);
      byName := byName[c.name := env.id(c.name)];
      burrows := burrows + [MakeBurrow(c, env)];
      next := next + 1;
    }
    assert sorted[..next] == sorted;
    ok := true;
  }

  // ----------------------------------------------------------------------- owner dictionary

  /** The dictionary has no repeats and the indexes point back into it. */
  ghost predicate Dictionary(dict: seq<string>, index: map<string, Index16>) {
    && |index| == |dict| <= 0x1_0000
    && (forall id :: id in index <==> id in dict)
    && (forall k :: 0 <= k < |dict| ==> index[dict[k]] == k)
  }

  ghost predicate Encodes(
      owners: seq<string>, n: nat, byName: map<string, string>, dict: seq<string>, indexes: seq<Index16>) {
    && n <= |owners| && |indexes| == n
    && forall v :: 0 <= v < n ==> owners[v] in byName && indexes[v] < |dict| && dict[indexes[v]] == byName[owners[v]]
  }

  /** Some configured Burrow has the ID. */
  ghost predicate Known(id: string, byName: map<string, string>) {
    exists n :: n in byName && byName[n] == id
  }

  /** A dictionary fit for a distribution. */
  ghost predicate Wellformed(dict: seq<string>, byName: map<string, string>) {
    && |dict| <= 0x1_0000
    && (forall i, j :: 0 <= i < j < |dict| ==> dict[i] != dict[j])
    && (forall i :: 0 <= i < |dict| ==> Known(dict[i], byName))
  }

  /** Where an owner's ID sits in the dictionary, extending it if need be. */
  method Intern(id: string, dict: seq<string>, index: map<string, Index16>)
    returns (k: Option<Index16>, dict': seq<string>, index': map<string, Index16>)
    requires Dictionary(dict, index)
    ensures k.None? <==> id !in dict && |dict| == 0x1_0000
    ensures k.Some? ==> Dictionary(dict', index') && dict <= dict' && k.value < |dict'| && dict'[k.value] == id
    ensures k.Some? ==> |dict'| <= |dict| + 1 && forall i :: |dict| <= i < |dict'| ==> dict'[i] == id
  {
    if id in index {
      return Some(index[id]), dict, index;
    }
    if |dict| >= 0x1_0000 {
      return None, dict, index;
    }
    k := Some(|dict|);
    dict', index' := dict + [id], index[id := |dict|];
  }

  lemma {:induction false} ValuesBounded(m: map<string, string>)
    ensures |m.Values| <= |m|
    decreases |m|
  {
    if m.Keys == {} {
      assert m.Values == {};
    } else {
      var k :| k in m;
      var rest := map x | x in m && x != k :: m[x];
      assert m.Keys == rest.Keys + {k} && k !in rest.Keys;
      assert |m.Keys| == |rest.Keys| + 1;
      ValuesBounded(rest);
      assert m.Values == rest.Values + {m[k]};
    }
  }

  lemma DictionaryFits(dict: seq<string>, index: map<string, Index16>, byName: map<string, string>, id: string)
    requires Dictionary(dict, index) && |byName| <= 0x1_0000
    requires (forall i :: 0 <= i < |dict| ==> Known(dict[i], byName)) && Known(id, byName) && id !in dict
    ensures |dict| < 0x1_0000
  {
    ValuesBounded(byName);
    forall d | d in index.Keys ensures d in byName.Values - {id} {
      var i :| 0 <= i < |dict| && dict[i] == d;
      assert Known(dict[i], byName);
    }
    Subset(index.Keys, byName.Values - {id});
    assert |index.Keys| == |index|;
  }

  lemma {:induction false} Subset(a: set<string>, b: set<string>)
    requires a <= b
    ensures |a| <= |b|
    decreases a
  {
    if a != {} {
      var x :| x in a;
      Subset(a - {x}, b - {x});
    }
  }

  method EncodeOwners(owners: seq<string>, byName: map<string, string>)
    returns (ok: bool, dict: seq<string>, indexes: seq<Index16>)
    ensures ok ==> Encodes(owners, |owners|, byName, dict, indexes)
    ensures ok ==> Wellformed(dict, byName)
    ensures ok && owners != [] ==> dict != []
    ensures |byName| <= 0x1_0000 && (forall v :: 0 <= v < |owners| ==> owners[v] in byName) ==> ok
  {
    dict, indexes := [], [];
    var index: map<string, Index16> := map[];
    while |indexes| < |owners|
      invariant indexes != [] ==> dict != []
      invariant Dictionary(dict, index)
      invariant Encodes(owners, |indexes|, byName, dict, indexes)
      invariant forall i :: 0 <= i < |dict| ==> Known(dict[i], byName)
    {
      var vshard := |indexes|;
      if owners[vshard] !in byName {
        return false, [], [];
      }
      var id := byName[owners[vshard]];
      assert Known(id, byName);
      if id !in dict && |byName| <= 0x1_0000 {
        DictionaryFits(dict, index, byName, id);
      }
      var k, dict', index' := Intern(id, dict, index);
      if k.None? {
        return false, [], [];
      }
      dict, index, indexes := dict', index', indexes + [k.value];
    }
    ok := true;
  }

  // ------------------------------------------------------------------------------ the catalog

  function BootstrapTables(tables: seq<string>): (m: map<string, string>)
    ensures forall t :: t in m <==> t in tables
    ensures forall t :: t in m ==> m[t] == BootstrapDistribution
  {
    map t | t in tables :: BootstrapDistribution
  }

  function BootstrapCatalog(
      registry: Registry, burrows: seq<Burrow>, dict: seq<string>, indexes: seq<Index16>, now: nat): Catalog {
    Catalog(
      FormatVersion, 1,
      SchemaCompatibility(RegistryFormat, if registry.revision == 0 then 1 else registry.revision, registry.fingerprint),
      burrows,
      [Distribution(BootstrapDistribution, |indexes|, dict, indexes)],
      BootstrapTables(registry.CanonicalShardedTables()),
      Change("hamstergres-proxy", "bootstrap schema-registry v3 placement", now))
  }

  lemma {:induction false} FindMade(sorted: seq<Configured>, burrows: seq<Burrow>, env: Environment, j: nat)
    requires Made(burrows, sorted, env)
    requires DistinctBurrows(burrows) && j < |sorted|
    ensures FindBurrow(burrows, env.id(sorted[j].name)) == Some(burrows[j])
  {
    var b := FindBurrow(burrows, env.id(sorted[j].name));
    assert burrows[j] in burrows;
    var i :| 0 <= i < |burrows| && burrows[i] == b.value;
  }

  /** The owner array comes back from the dictionary encoding. */
  lemma EncodedPlacement(
      registry: Registry, sorted: seq<Configured>, burrows: seq<Burrow>, byName: map<string, string>, env: Environment,
      owners: seq<string>, dict: seq<string>, indexes: seq<Index16>, now: nat, table: string)
    requires Made(burrows, sorted, env)
    requires Indexes(byName, Names(sorted), env) && Encodes(owners, |owners|, byName, dict, indexes)
    requires Valid(BootstrapCatalog(registry, burrows, dict, indexes, now))
    requires table in registry.CanonicalShardedTables()
    ensures Placement(BootstrapCatalog(registry, burrows, dict, indexes, now), table) == owners
  {
    var c := BootstrapCatalog(registry, burrows, dict, indexes, now);
    var d := DistributionOf(c, table);
    assert d == c.distributions[0];
    forall v | 0 <= v < |owners| ensures OwnerName(c, d, v) == owners[v] {
      assert owners[v] in Names(sorted);
      var j :| 0 <= j < |sorted| && Names(sorted)[j] == owners[v];
      FindMade(sorted, burrows, env, j);
    }
  }

  // ------------------------------------------------------------------------- what is accepted

  lemma InsertMember(y: string, x: string, s: seq<string>)
    ensures y in Insert(x, s) <==> y == x || y in s
  {
    InsertKeeps(x, s);
    assert y in Insert(x, s) <==> y in multiset(Insert(x, s));
    assert y in s <==> y in multiset(s);
  }

  lemma {:induction false} InsertDistinct(x: Configured, s: seq<Configured>)
    requires DistinctNames(s) && x.name !in Names(s)
    ensures DistinctNames(InsertConfigured(x, s))
  {
    if s != [] && !Leq(x.name, s[0].name) {
      var tail := InsertConfigured(x, s[1..]);
      assert Names(s[1..]) == Names(s)[1..];
      InsertDistinct(x, s[1..]);
      InsertedNames(x, s[1..]);
      InsertMember(s[0].name, x.name, Names(s[1..]));
      assert s[0].name in Names(s);
      NotAmong(s[0].name, tail);
    } else {
      NotAmong(x.name, s);
    }
  }

  lemma NotAmong(name: string, s: seq<Configured>)
    requires name !in Names(s)
    ensures forall i :: 0 <= i < |s| ==> s[i].name != name
  {
    forall i | 0 <= i < |s| ensures s[i].name != name {
      assert Names(s)[i] in Names(s);
    }
  }

  lemma {:induction false} SortDistinct(s: seq<Configured>)
    requires DistinctNames(s)
    ensures DistinctNames(SortConfigured(s))
  {
    if s != [] {
      SortDistinct(s[1..]);
      SortedNames(s[1..]);
      SortedMember(s[0].name, Names(s[1..]));
      InsertDistinct(s[0], SortConfigured(s[1..]));
    }
  }

  lemma SortComplete(s: seq<Configured>)
    ensures |SortConfigured(s)| == |s|
    ensures forall c :: c in SortConfigured(s) <==> c in s
  {
    SortedMembers(s);
    assert |multiset(SortConfigured(s))| == |multiset(s)|;
    forall c ensures c in SortConfigured(s) <==> c in s {
      assert c in SortConfigured(s) <==> c in multiset(SortConfigured(s));
      assert c in s <==> c in multiset(s);
    }
  }

  /** What a configuration needs for its bootstrap catalog to be valid. */
  ghost predicate Acceptable(
      registry: Registry, configured: seq<Configured>, legacyOwners: seq<string>, now: nat, env: Environment) {
    && configured != [] && |configured| <= 0x1_0000
    && DistinctNames(configured)
    && (forall c :: c in configured ==>
          c.name != "" && c.dsn != "" && env.id(c.name) != "" && env.address(c.dsn) != "" && env.fingerprint(c.dsn) != "")
    && (forall i, j :: 0 <= i < j < |configured| ==> env.id(configured[i].name) != env.id(configured[j].name))
    && (forall owner :: owner in legacyOwners ==> owner in Names(configured))
    && (forall t :: t in registry.CanonicalShardedTables() ==> TrimSpace(t) != "")
    && registry.fingerprint != "" && now != 0
  }

  lemma MadeBurrowValid(c: Configured, env: Environment)
    requires c.name != "" && env.id(c.name) != "" && env.address(c.dsn) != "" && env.fingerprint(c.dsn) != ""
    ensures ValidBurrow(MakeBurrow(c, env))
  {
  }

  lemma MadeValid(configured: seq<Configured>, sorted: seq<Configured>, burrows: seq<Burrow>, env: Environment)
    requires sorted == SortConfigured(configured) && DistinctNames(configured)
    requires Made(burrows, sorted, env)
    requires forall c :: c in configured ==>
          c.name != "" && env.id(c.name) != "" && env.address(c.dsn) != "" && env.fingerprint(c.dsn) != ""
    requires forall i, j :: 0 <= i < j < |configured| ==> env.id(configured[i].name) != env.id(configured[j].name)
    ensures ValidBurrows(burrows)
  {
    SortComplete(configured);
    SortDistinct(configured);
    forall i | 0 <= i < |burrows| ensures ValidBurrow(burrows[i]) {
      assert sorted[i] in configured;
      MadeBurrowValid(sorted[i], env);
    }
    forall i, j | 0 <= i < j < |burrows| ensures burrows[i].id != burrows[j].id {
      IdsDiffer(configured, sorted[i], sorted[j], env);
    }
  }

  lemma IdsDiffer(configured: seq<Configured>, a: Configured, b: Configured, env: Environment)
    requires a in configured && b in configured && a.name != b.name
    requires forall i, j :: 0 <= i < j < |configured| ==> env.id(configured[i].name) != env.id(configured[j].name)
    ensures env.id(a.name) != env.id(b.name)
  {
    var k :| 0 <= k < |configured| && configured[k] == a;
    var l :| 0 <= l < |configured| && configured[l] == b;
  }

  lemma {:induction false} FewKeys(byName: map<string, string>, names: seq<string>, env: Environment)
    requires Indexes(byName, names, env)
    ensures |byName| <= |names|
  {
    assert byName.Keys == set n | n in names;
    SetOfSeq(names);
  }

  lemma {:induction false} SetOfSeq(s: seq<string>)
    ensures |set x | x in s| <= |s|
  {
    if s != [] {
      var init := s[..|s| - 1];
      SetOfSeq(init);
      assert (set x | x in s) == (set x | x in init) + {s[|s| - 1]};
    }
  }

  lemma DistributionValid(
      sorted: seq<Configured>, burrows: seq<Burrow>, byName: map<string, string>, env: Environment,
      owners: seq<string>, dict: seq<string>, indexes: seq<Index16>)
    requires Made(burrows, sorted, env)
    requires ValidBurrows(burrows) && Indexes(byName, Names(sorted), env)
    requires owners != [] && Encodes(owners, |owners|, byName, dict, indexes)
    requires dict != [] && Wellformed(dict, byName)
    ensures ValidDistribution(Distribution(BootstrapDistribution, |indexes|, dict, indexes), burrows)
  {
    forall i | 0 <= i < |dict| ensures ValidOwner(burrows, dict[i]) {
      assert Known(dict[i], byName);
      var n :| n in byName && byName[n] == dict[i];
      var j :| 0 <= j < |sorted| && Names(sorted)[j] == n;
      FindMade(sorted, burrows, env, j);
    }
  }

  lemma {:induction false} AllRoutable(sorted: seq<Configured>, burrows: seq<Burrow>, env: Environment)
    requires Made(burrows, sorted, env)
    ensures RoutableNames(burrows) == Names(sorted)
  {
    if sorted != [] {
      AllRoutable(sorted[1..], burrows[1..], env);
      assert Names(sorted) == [sorted[0].name] + Names(sorted[1..]);
    }
  }

  lemma SortedAgain(configured: seq<Configured>)
    ensures Sort(Names(SortConfigured(configured))) == Sort(Names(configured))
  {
    SortedNames(configured);
    SortOrdered(Names(configured));
    OrderedIsSorted(Sort(Names(configured)));
  }

  /** The owner array a bootstrap publishes: the older map, or modulo placement over the sorted names. */
  ghost predicate Published(owners: seq<string>, legacyOwners: seq<string>, names: seq<string>) {
    if legacyOwners != [] then
      owners == legacyOwners
    else
      names != [] && |owners| == VirtualShards && forall v :: 0 <= v < VirtualShards ==> owners[v] == ModuloOwner(v, names)
  }

  ghost predicate Assembles(
      registry: Registry, burrows: seq<Burrow>, byName: map<string, string>, owners: seq<string>, now: nat) {
    && ValidBurrows(burrows) && |byName| <= 0x1_0000
    && owners != [] && (forall v :: 0 <= v < |owners| ==> owners[v] in byName)
    && (forall t :: t in registry.CanonicalShardedTables() ==> TrimSpace(t) != "")
    && registry.fingerprint != "" && now != 0
  }

  /** Published owners are configured names. */
  lemma OwnersAreNames(
      registry: Registry, configured: seq<Configured>, legacyOwners: seq<string>, now: nat, env: Environment,
      owners: seq<string>)
    requires Acceptable(registry, configured, legacyOwners, now, env)
    requires Published(owners, legacyOwners, Sort(Names(configured)))
    ensures owners != [] && forall v :: 0 <= v < |owners| ==> owners[v] in Names(SortConfigured(configured))
  {
    AcceptableSorted(registry, configured, legacyOwners, now, env);
    SortedNames(configured);
    var names := Names(SortConfigured(configured));
    forall v | 0 <= v < |owners| ensures owners[v] in names {
      if legacyOwners == [] {
        assert owners[v] == ModuloOwner(v, names);
      }
    }
  }

  lemma AcceptableBurrows(
      registry: Registry, configured: seq<Configured>, legacyOwners: seq<string>, now: nat, env: Environment,
      burrows: seq<Burrow>, byName: map<string, string>)
    requires Acceptable(registry, configured, legacyOwners, now, env)
    requires Made(burrows, SortConfigured(configured), env) && Indexes(byName, Names(SortConfigured(configured)), env)
    ensures ValidBurrows(burrows) && |byName| <= 0x1_0000
  {
    MadeValid(configured, SortConfigured(configured), burrows, env);
    SortComplete(configured);
    FewKeys(byName, Names(SortConfigured(configured)), env);
  }

  lemma AcceptableAssembles(
      registry: Registry, configured: seq<Configured>, legacyOwners: seq<string>, now: nat, env: Environment,
      burrows: seq<Burrow>, byName: map<string, string>, owners: seq<string>)
    requires Acceptable(registry, configured, legacyOwners, now, env)
    requires Made(burrows, SortConfigured(configured), env) && Indexes(byName, Names(SortConfigured(configured)), env)
    requires Published(owners, legacyOwners, Sort(Names(configured)))
    ensures Assembles(registry, burrows, byName, owners, now)
  {
    AcceptableBurrows(registry, configured, legacyOwners, now, env, burrows, byName);
    OwnersAreNames(registry, configured, legacyOwners, now, env, owners);
  }

  method ChooseOwners(legacyOwners: seq<string>, configured: seq<Configured>) returns (owners: seq<string>)
    requires configured != []
    ensures Published(owners, legacyOwners, Sort(Names(configured)))
  {
    owners := legacyOwners;
    if owners == [] {
      SortedAgain(configured);
      SortComplete(configured);
      SortedNames(configured);
      owners := LegacyModuloOwners(Names(SortConfigured(configured)), VirtualShards);
    }
  }

  /** Encodes the owners and validates the resulting catalog. */
  method Assemble(
      registry: Registry, sorted: seq<Configured>, burrows: seq<Burrow>, byName: map<string, string>,
      owners: seq<string>, now: nat, env: Environment)
    returns (r: Option<Catalog>)
    requires Made(burrows, sorted, env) && Indexes(byName, Names(sorted), env)
    ensures r.Some? ==> Valid(r.value) && r.value.revision == 1 && r.value.burrows == burrows
    ensures r.Some? ==> forall t :: t in r.value.tables <==> t in registry.CanonicalShardedTables()
    ensures r.Some? ==> forall t :: t in r.value.tables ==> Placement(r.value, t) == owners
    ensures Assembles(registry, burrows, byName, owners, now) ==> r.Some?
  {
    var encoded, dict, indexes := EncodeOwners(owners, byName);
    if !encoded {
      return None;
    }
    var c := BootstrapCatalog(registry, burrows, dict, indexes, now);
    if !Valid(c) {
      if ValidBurrows(burrows) && owners != [] {
        DistributionValid(sorted, burrows, byName, env, owners, dict, indexes);
      }
      return None;
    }
    forall t | t in c.tables ensures Placement(c, t) == owners {
      EncodedPlacement(registry, sorted, burrows, byName, env, owners, dict, indexes, now, t);
    }
    return Some(c);
  }

  lemma AcceptableSorted(
      registry: Registry, configured: seq<Configured>, legacyOwners: seq<string>, now: nat, env: Environment)
    requires Acceptable(registry, configured, legacyOwners, now, env)
    ensures Complete(SortConfigured(configured)) && DistinctNames(SortConfigured(configured))
    ensures forall owner :: owner in legacyOwners ==> owner in Names(SortConfigured(configured))
  {
    SortComplete(configured);
    SortDistinct(configured);
    SortedNames(configured);
    forall owner | owner in legacyOwners ensures owner in Names(SortConfigured(configured)) {
      SortedMember(owner, Names(configured));
    }
  }

  method Bootstrap(
      registry: Registry, configured: seq<Configured>, legacyOwners: seq<string>, now: nat, env: Environment)
    returns (r: Option<Catalog>)
    ensures r.Some? ==> Valid(r.value) && r.value.revision == 1
    ensures r.Some? ==> forall t :: t in r.value.tables <==> t in registry.CanonicalShardedTables()
    ensures r.Some? ==> RoutableBurrowNames(r.value) == Sort(Names(configured))
    ensures r.Some? ==> forall i :: 0 <= i < |r.value.burrows| ==> r.value.burrows[i].state == Ready
    ensures r.Some? ==>
      forall t :: t in r.value.tables ==> Published(Placement(r.value, t), legacyOwners, Sort(Names(configured)))
    ensures Acceptable(registry, configured, legacyOwners, now, env) ==> r.Some?
  {
    if configured == [] {
      return None;
    }
    var sorted := SortConfigured(configured);
    if Acceptable(registry, configured, legacyOwners, now, env) {
      AcceptableSorted(registry, configured, legacyOwners, now, env);
    }
    var ok, burrows, byName := CollectBurrows(sorted, env);
    if !ok {
      return None;
    }
    var owners := ChooseOwners(legacyOwners, configured);
    r := Assemble(registry, sorted, burrows, byName, owners, now, env);
    if Acceptable(registry, configured, legacyOwners, now, env) {
      AcceptableAssembles(registry, configured, legacyOwners, now, env, burrows, byName, owners);
    }
    AllRoutable(sorted, burrows, env);
    SortedAgain(configured);
  }
}
