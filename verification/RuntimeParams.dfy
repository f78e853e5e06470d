/** The runtime parameters of one physical connection, lent to one frontend session after another.

    The server's settings are known only through current_setting and set_config; the Proxy tracks the
    value each parameter had when it first touched it, and the value it has now. */
module RuntimeParams {

  type Settings = map<string, string>

  /** The settings with the desired values over them. */
  function Overlaid(original: Settings, desired: Settings): Settings {
    original + desired
  }

  /** What current_setting and set_config answer: a parameter is known or not, a value fits or not. */
  datatype Server = Server(accepts: (string, string) -> bool)

  /** What is tracked is true, and what is not tracked was never touched. */
  ghost predicate Tracks(settings: Settings, baseline: Settings, current: Settings, original: Settings) {
    && settings.Keys == original.Keys
    && baseline.Keys == current.Keys && baseline.Keys <= settings.Keys
    && (forall n :: n in baseline ==> baseline[n] == original[n] && current[n] == settings[n])
    && (forall n :: n in settings && n !in baseline ==> settings[n] == original[n])
  }

  lemma StartsTracking(settings: Settings, baseline: Settings, current: Settings, original: Settings, name: string)
    requires Tracks(settings, baseline, current, original) && name in settings && name !in baseline
    ensures Tracks(settings, baseline[name := settings[name]], current[name := settings[name]], original)
  {
  }

  lemma KeepsTracking(
      settings: Settings, baseline: Settings, current: Settings, original: Settings, name: string, value: string)
    requires Tracks(settings, baseline, current, original) && name in baseline
    ensures Tracks(settings[name := value], baseline, current[name := value], original)
  {
  }

  /** Once every tracked parameter has the value wanted, the settings are those wanted. */
  lemma SettingsAre(settings: Settings, baseline: Settings, current: Settings, original: Settings, desired: Settings)
    requires Tracks(settings, baseline, current, original) && desired.Keys <= baseline.Keys
    requires forall n :: n in baseline ==> current[n] == Overlaid(baseline, desired)[n]
    ensures settings == Overlaid(original, desired)
  {
    assert settings.Keys == Overlaid(original, desired).Keys;
  }

  /** What is missing of the wanted names, some of which are there already. */
  ghost predicate Left(missing: set<string>, there: set<string>, before: set<string>, wanted: set<string>) {
    missing <= wanted && missing !! there && there + missing == before + wanted
  }

  lemma OneLess(missing: set<string>, there: set<string>, before: set<string>, wanted: set<string>, name: string)
    requires Left(missing, there, before, wanted) && name in missing
    ensures Left(missing - {name}, there + {name}, before, wanted) && name !in there && name in wanted
  {
  }

  /** All tracked parameters but some have the value wanted. */
  ghost predicate SetUpTo(names: set<string>, baseline: Settings, current: Settings, desired: Settings) {
    baseline.Keys == current.Keys &&
    forall n :: n in baseline && n !in names ==> current[n] == Overlaid(baseline, desired)[n]
  }

  lemma OneSet(names: set<string>, baseline: Settings, current: Settings, desired: Settings, name: string)
    requires SetUpTo(names, baseline, current, desired) && name in names && name in baseline
    ensures SetUpTo(names - {name}, baseline, current[name := Overlaid(baseline, desired)[name]], desired)
  {
  }

  class Connection {
    const server: Server
    var settings: Settings  // on the server
    var baseline: Settings
    var current: Settings
    ghost var original: Settings  // the settings when tracking started

    ghost predicate Valid()
      reads this
    {
      Tracks(settings, baseline, current, original)
    }

    constructor (s: Server, initial: Settings)
      ensures Valid() && server == s && settings == initial && original == initial
    {
      server, settings, original := s, initial, initial;
      baseline, current := map[], map[];
    }

    /** Remembers the value a parameter has before it is first changed. */
    method RememberBaseline(name: string)
      requires Valid() && name in settings && name !in baseline
      modifies this`baseline, this`current
      ensures Valid() && baseline.Keys == old(baseline.Keys) + {name}
    {
      StartsTracking(settings, baseline, current, original, name);
      baseline, current := baseline[name := settings[name]], current[name := settings[name]];
    }

    method EnsureBaselines(desired: Settings) returns (ok: bool)
      requires Valid()
      modifies this`baseline, this`current
      ensures Valid() && (desired.Keys <= original.Keys ==> ok)
      ensures ok ==> baseline.Keys == old(baseline.Keys) + desired.Keys
    {
      var missing := desired.Keys - baseline.Keys;
      ghost var tracked := baseline.Keys;
      while missing != {}
        invariant Valid() && Left(missing, baseline.Keys, tracked, desired.Keys)
        decreases |missing|
      {
        var name :| name in missing;
        if name !in settings {
          return false;
        }
        OneLess(missing, baseline.Keys, tracked, desired.Keys, name);
        RememberBaseline(name);
        missing := missing - {name};
      }
      ok := true;
    }

    /** SELECT set_config, and the record of it. */
    method SetConfig(name: string, value: string) returns (ok: bool)
      requires Valid() && name in baseline
      modifies this`settings, this`current
      ensures ok == server.accepts(name, value)
      ensures ok ==> Valid() && current == old(current)[name := value]
      ensures !ok ==> settings == old(settings) && current == old(current)
    {
      ok := server.accepts(name, value);
      if ok {
        KeepsTracking(settings, baseline, current, original, name, value);
        settings, current := settings[name := value], current[name := value];
      }
    }

    /** The parameters whose tracked value is not the one wanted. */
    method Changed(desired: Settings) returns (changed: Settings)
      requires desired.Keys <= baseline.Keys == current.Keys
      ensures changed.Keys <= baseline.Keys
      ensures forall n :: n in baseline ==> (n in changed <==> current[n] != Overlaid(baseline, desired)[n])
      ensures forall n :: n in changed ==> changed[n] == Overlaid(baseline, desired)[n]
    {
      var effective := baseline + desired;
      changed := map n | n in effective && current[n] != effective[n] :: effective[n];
    }

    method SetAll(changed: Settings, ghost desired: Settings) returns (ok: bool)
      requires Valid() && changed.Keys <= baseline.Keys && SetUpTo(changed.Keys, baseline, current, desired)
      requires forall n :: n in changed ==> changed[n] == Overlaid(baseline, desired)[n]
      modifies this`settings, this`current
      ensures (forall n, v :: server.accepts(n, v)) ==> ok
      ensures ok ==> Valid() && SetUpTo({}, baseline, current, desired)
    {
      var names := changed.Keys;
      while names != {}
        invariant Valid() && names <= changed.Keys && SetUpTo(names, baseline, current, desired)
        decreases |names|
      {
        var name :| name in names;
        OneSet(names, baseline, current, desired, name);
        ok := SetConfig(name, changed[name]);
        if !ok {
          return;
        }
        names := names - {name};
      }
      ok := true;
    }

    /** Puts the connection into the state a session wants.  A false result means that the connection is
        closed and forgotten. */
    method Apply(desired: Settings) returns (ok: bool)
      requires Valid()
      modifies this`settings, this`baseline, this`current
      ensures ok ==> Valid() && desired.Keys <= original.Keys && settings == Overlaid(original, desired)
      ensures ok ==> baseline.Keys == old(baseline.Keys) + desired.Keys
      ensures desired.Keys <= original.Keys && (forall n, v :: server.accepts(n, v)) ==> ok
    {
      ok := EnsureBaselines(desired);
      if !ok {
        return;
      }
      var changed := Changed(desired);
      ok := SetAll(changed, desired);
      if ok {
        SettingsAre(settings, baseline, current, original, desired);
      }
    }
  }

  /** Over any sequence of sessions that were all given the connection, the settings are the original ones
      overlaid with what the last session wanted: nothing leaks from an earlier one. */
  method Lend(c: Connection, sessions: seq<Settings>) returns (ok: bool)
    requires c.Valid() && c.settings == c.original
    modifies c`settings, c`baseline, c`current
    ensures ok ==> c.Valid() && c.original == old(c.original)
    ensures ok ==> c.settings == if sessions == [] then c.original else Overlaid(c.original, sessions[|sessions| - 1])
    ensures ok ==> forall n :: n in c.current ==> n in c.settings && c.current[n] == c.settings[n]
  {
    var i := 0;
    while i < |sessions|
      invariant i <= |sessions| && c.Valid()
      invariant c.settings == if i == 0 then c.original else Overlaid(c.original, sessions[i - 1])
    {
      ok := c.Apply(sessions[i]);
      if !ok {
        return;
      }
      i := i + 1;
    }
    ok := true;
  }
}
