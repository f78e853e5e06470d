/** What every stored topology history looks like. */
module TopologyHistory {
  import opened Text
  import opened Schema
  import opened TopologyCatalog
  import opened TopologyStore
  import opened CasCell

  /** Why a catalog is being replaced: an operator's Update, or ReconcileSchema. */
  datatype Why = Update | Reconciling(registry: Registry, now: nat)

  /** What Update and ReconcileSchema check before they swap. */
  ghost predicate Proposable(current: Catalog, why: Why, next: Catalog) {
    && ValidTransition(current, next)
    && (why.Reconciling? ==> IsReconciled(current, why.registry, why.now, next))
  }

  ghost function TopologyRules(): Rules<Catalog, Why> {
    Rules(c => Valid(c), (current, why, next) => Proposable(current, why, next))
  }

  ghost predicate IsLinear(history: seq<Entry<Catalog, Why>>) {
    CasCell.Linear(TopologyRules(), history)
  }

  const Empty: Cell<Catalog, Why> := Cell([], [], [])

  /** Over any interleaving of bootstraps, updates and reconciliations the stored history is linear. */
  lemma RunIsLinear(steps: seq<Step<Catalog, Why>>)
    requires ValidRun(TopologyRules(), Empty, steps)
    ensures IsLinear(After(TopologyRules(), Empty, steps).history)
  {
    RunKeepsInv(TopologyRules(), Empty, steps);
  }

  lemma At(history: seq<Entry<Catalog, Why>>, i: nat)
    requires IsLinear(history) && i < |history|
    ensures i == 0 ==> Valid(history[0].value) && history[0].why.None?
    ensures i > 0 ==> history[i].from == i && history[i].why.Some?
    ensures i > 0 ==> Proposable(history[i - 1].value, history[i].why.value, history[i].value)
  {
    assert Linked(TopologyRules(), history, i);
  }

  /** Every stored catalog is valid, and revisions count up by one without ever wrapping. */
  lemma {:induction false} RevisionsCount(history: seq<Entry<Catalog, Why>>, i: nat)
    requires IsLinear(history) && i < |history|
    ensures Valid(history[i].value)
    ensures history[i].value.revision == history[0].value.revision + i
  {
    At(history, i);
    if i > 0 {
      RevisionsCount(history, i - 1);
      RevisionAdvances(history[i - 1].value, history[i].value);
    }
  }

  lemma RevisionAdvances(previous: Catalog, next: Catalog)
    requires ValidTransition(previous, next)
    ensures next.revision == previous.revision + 1
  {
    assert ValidHeader(next);
  }

  /** The Burrow states of a stored catalog. */
  ghost function StatesAt(history: seq<Entry<Catalog, Why>>, i: nat): map<string, State>
    requires i < |history|
  {
    StatesById(history[i].value.burrows)
  }

  /** A Burrow ID never disappears, and a removed Burrow stays removed. */
  lemma {:induction false} BurrowsPersist(history: seq<Entry<Catalog, Why>>, i: nat, j: nat, id: string)
    requires IsLinear(history) && i <= j < |history| && id in StatesAt(history, i)
    ensures id in StatesAt(history, j)
    ensures StatesAt(history, i)[id] == Removed ==> StatesAt(history, j)[id] == Removed
    decreases j
  {
    if i < j {
      BurrowsPersist(history, i, j - 1, id);
      At(history, j);
      Advances(history[j - 1].value, history[j].value, id);
    }
  }

  lemma Advances(previous: Catalog, next: Catalog, id: string)
    requires ValidTransition(previous, next) && id in StatesById(previous.burrows)
    ensures id in StatesById(next.burrows)
    ensures StatesById(previous.burrows)[id] == Removed ==> StatesById(next.burrows)[id] == Removed
  {
    assert StateStep(StatesById(previous.burrows)[id], StatesById(next.burrows)[id]);
  }

  /** A Burrow is removed only from Adding or Draining, and enters the catalog only as Adding. */
  lemma BurrowLifeCycle(history: seq<Entry<Catalog, Why>>, i: nat, id: string)
    requires IsLinear(history) && 0 < i < |history| && id in StatesAt(history, i)
    ensures id !in StatesAt(history, i - 1) ==> StatesAt(history, i)[id] == Adding
    ensures id in StatesAt(history, i - 1) && StatesAt(history, i)[id] == Removed
      ==> StatesAt(history, i - 1)[id] in {Adding, Draining, Removed}
  {
    At(history, i);
    MovesAlong(history[i - 1].value, history[i].value, id);
  }

  lemma MovesAlong(previous: Catalog, next: Catalog, id: string)
    requires ValidTransition(previous, next) && id in StatesById(next.burrows)
    ensures id !in StatesById(previous.burrows) ==> StatesById(next.burrows)[id] == Adding
    ensures id in StatesById(previous.burrows) ==> StateStep(StatesById(previous.burrows)[id], StatesById(next.burrows)[id])
  {
  }

  /** A distribution keeps its number of vshards. */
  lemma SizesPersist(history: seq<Entry<Catalog, Why>>, i: nat, before: Distribution, after: Distribution)
    requires IsLinear(history) && 0 < i < |history| && before.id == after.id
    requires before in history[i - 1].value.distributions && after in history[i].value.distributions
    ensures before.vshardCount == after.vshardCount
  {
    At(history, i);
    SameSize(history[i - 1].value, history[i].value, before, after);
  }

  lemma SameSize(previous: Catalog, next: Catalog, before: Distribution, after: Distribution)
    requires ValidTransition(previous, next) && before.id == after.id
    requires before in previous.distributions && after in next.distributions
    ensures before.vshardCount == after.vshardCount
  {
    var i :| 0 <= i < |next.distributions| && next.distributions[i] == after;
    assert FindDistribution(previous.distributions, after.id).Some?;
    OneOfEach(previous.distributions, FindDistribution(previous.distributions, after.id).value, before);
  }

  lemma OneOfEach(ds: seq<Distribution>, a: Distribution, b: Distribution)
    requires DistinctDistributions(ds) && a in ds && b in ds && a.id == b.id
    ensures a == b
  {
    var i :| 0 <= i < |ds| && ds[i] == a;
    var j :| 0 <= j < |ds| && ds[j] == b;
    assert i == j;
  }

  /** What ReconcileSchema published fits the schema it was given and kept every placement. */
  lemma ReconciledEntry(history: seq<Entry<Catalog, Why>>, i: nat)
    requires IsLinear(history) && 0 < i < |history| && history[i].why.Some? && history[i].why.value.Reconciling?
    ensures SchemaFits(history[i].value, history[i].why.value.registry)
    ensures Valid(history[i - 1].value) && Valid(history[i].value)
    ensures KeepsPlacement(history[i - 1].value, history[i].value)
  {
    At(history, i);
    var why := history[i].why.value;
    ReconciledFits(history[i - 1].value, why.registry, why.now, history[i].value);
  }

  // ---------------------------------------------------------------------------------- the client

  datatype Reply = Won | Conflict | Lost

  /** Whether a request reaches the cell, and its reply the Proxy. */
  datatype Link = Link(arrives: bool, answered: bool)

  /** The comparison of a transaction holds. */
  predicate Holds(history: seq<Entry<Catalog, Why>>, request: Request<Catalog, Why>) {
    match request case Create(_) => history == [] case Swap(current, _, _) => |history| == current.version
  }

  /** The topology cell as one Proxy sees it, with other Proxies at work between any two requests. */
  class Nest {
    var history: seq<Entry<Catalog, Why>>

    ghost predicate Valid()
      reads this
    {
      IsLinear(history)
    }

    constructor ()
      ensures Valid() && history == []
    {
      history := [];
    }

    /** What other Proxies may do meanwhile: by RunIsLinear, extend the history and keep it linear. */
    method Others()
      requires Valid()
      modifies this
      ensures Valid() && old(history) <= history
    {
    }

    method Get() returns (stored: Option<Stored<Catalog>>)
      requires Valid()
      modifies this
      ensures Valid() && old(history) <= history
      ensures stored.None? <==> history == []
      ensures stored.Some? ==> stored.value.version == |history| && Genuine(history, stored.value)
    {
      Others();
      if history == [] {
        return None;
      }
      return Some(Stored(history[|history| - 1].value, |history|));
    }

    /** The transaction.  Its request or its reply may be lost; `met` is the history it finds.  Where nothing
        is lost it wins exactly when its comparison holds. */
    method CompareAndSwap(request: Request<Catalog, Why>, link: Link)
      returns (reply: Reply, ghost met: seq<Entry<Catalog, Why>>)
      requires Valid() && Sound(TopologyRules(), history, request)
      modifies this
      ensures Valid() && old(history) <= met <= history
      ensures history == if link.arrives then Put(met, request) else met
      ensures reply == if !link.arrives || !link.answered then Lost else if Holds(met, request) then Won else Conflict
      ensures reply.Won? && request.Create? ==> |history| > 0 && history[0].value == request.value
      ensures reply.Won? && request.Swap? ==>
        |history| > request.current.version && history[request.current.version] == Entry(request.next, request.current.version, Some(request.why))
    {
      Others();
      met := history;
      if !link.arrives {
        return Lost, met;
      }
      var after := Put(history, request);
      PutKeepsLinear(TopologyRules(), history, request);
      reply := if |after| > |history| then Won else Conflict;
      history := after;
      if !link.answered {
        reply := Lost;
      }
    }

    /** VerifyOrBootstrap: the catalog it returns is one that is stored, its own only if it created it. */
    method VerifyOrBootstrap(bootstrap: Catalog, link: Link) returns (stored: Option<Stored<Catalog>>)
      requires Valid()
      modifies this
      ensures Valid() && old(history) <= history
      ensures stored.Some? ==> Genuine(history, stored.value)
      ensures link.arrives && link.answered && TopologyCatalog.Valid(bootstrap) ==> stored.Some?
    {
      stored := Get();
      if stored.Some? {
        return;
      }
      if !TopologyCatalog.Valid(bootstrap) {
        return None;
      }
      var reply, _ := CompareAndSwap(Create(bootstrap), link);
      if reply.Lost? {
        return None;
      }
      stored := Get();
    }

    /** Update: on success the new catalog stands in the history right after the one it was made from, so
        no other update came in between.  A valid transition succeeds where nothing is lost and the catalog it
        was made from is still the latest. */
    method Update(current: Stored<Catalog>, next: Catalog, why: Why, link: Link)
      returns (updated: Option<Stored<Catalog>>, reply: Reply, ghost met: seq<Entry<Catalog, Why>>)
      requires Valid() && Genuine(history, current)
      requires why.Reconciling? ==> IsReconciled(current.value, why.registry, why.now, next)
      modifies this
      ensures Valid() && old(history) <= history
      ensures updated.Some? ==> Genuine(history, updated.value) && updated.value.version > current.version
      ensures updated.Some? ==> history[current.version] == Entry(next, current.version, Some(why))
      ensures old(history) <= met <= history
      ensures link.arrives && link.answered && ValidTransition(current.value, next) ==>
        (updated.Some? <==> |met| == current.version)
    {
      var ok := ValidateTransition(current.value, next);
      if !ok {
        return None, Lost, history;
      }
      reply, met := CompareAndSwap(Swap(current, why, next), link);
      updated := None;
      if reply.Won? {
        updated := Get();
      }
    }

    /** ReconcileSchema: on success some catalog derived from its predecessor for this very schema was
        stored; three conflicts in a row are given up on. */
    method ReconcileSchema(
        registry: Registry, clock: seq<nat>, links: seq<Link>) returns (updated: Option<Stored<Catalog>>)
      requires Valid() && |clock| == |links| == 3
      modifies this
      ensures Valid() && old(history) <= history
      ensures updated.Some? ==> Genuine(history, updated.value)
      ensures updated.Some? ==> exists i :: 0 < i < updated.value.version && ReconciledAt(history, i, registry)
    {
      var attempt := 0;
      while attempt < 3
        invariant Valid() && old(history) <= history
      {
        var current := Get();
        if current.None? {
          return None;
        }
        var next := Reconcile(current.value.value, registry, clock[attempt]);
        var reply: Reply;
        ghost var met;
        updated, reply, met := Update(current.value, next, Reconciling(registry, clock[attempt]), links[attempt]);
        if !reply.Conflict? {
          assert updated.Some? ==> ReconciledAt(history, current.value.version, registry);
          return;
        }
        attempt := attempt + 1;
      }
      updated := None;
    }
  }

  ghost predicate ReconciledAt(history: seq<Entry<Catalog, Why>>, i: nat, registry: Registry) {
    i < |history| && history[i].why.Some? && history[i].why.value.Reconciling? && history[i].why.value.registry == registry
  }
}
