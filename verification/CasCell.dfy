/** A value in Nest that any number of Proxies read and replace by compare-and-swap.

    A request is proposed on the strength of an earlier read and may be delivered at any later time, any
    number of times or never: a lost request is one that is not delivered, a lost reply leaves no trace
    here.  Versions stand for the cell's modification revisions. */
module CasCell {
  import opened Text

  /** What a first value and a replacement must satisfy before they are sent. */
  datatype Rules<!V, !W> = Rules(first: V -> bool, next: (V, W, V) -> bool)

  datatype Stored<V> = Stored(value: V, version: nat)

  datatype Request<V, W> = Create(value: V) | Swap(current: Stored<V>, why: W, next: V)

  /** A stored value, the version it replaced and why. */
  datatype Entry<V, W> = Entry(value: V, from: nat, why: Option<W>)

  datatype Cell<V, W> = Cell(history: seq<Entry<V, W>>, seen: seq<Stored<V>>, requests: seq<Request<V, W>>)

  datatype Step<V, W> = Get | Propose(request: Request<V, W>) | Deliver(k: nat)

  ghost predicate Enabled<V, W>(rules: Rules<V, W>, cell: Cell<V, W>, step: Step<V, W>) {
    match step
    case Get => cell.history != []
    case Propose(Create(value)) => rules.first(value)
    case Propose(Swap(current, why, next)) => current in cell.seen && rules.next(current.value, why, next)
    case Deliver(k) => k < |cell.requests|
  }

  /** The transaction: put if the compared version still holds. */
  function Put<V, W>(history: seq<Entry<V, W>>, request: Request<V, W>): seq<Entry<V, W>> {
    match request
    case Create(value) => if history == [] then [Entry(value, 0, None)] else history
    case Swap(current, why, next) =>
      if |history| == current.version then history + [Entry(next, current.version, Some(why))] else history
  }

  ghost function Do<V, W>(cell: Cell<V, W>, step: Step<V, W>): Cell<V, W>
    requires step.Get? ==> cell.history != []
    requires step.Deliver? ==> step.k < |cell.requests|
  {
    match step
    case Get => cell.(seen := cell.seen + [Stored(cell.history[|cell.history| - 1].value, |cell.history|)])
    case Propose(request) => cell.(requests := cell.requests + [request])
    case Deliver(k) => cell.(history := Put(cell.history, cell.requests[k]))
  }

  ghost predicate ValidRun<V, W>(rules: Rules<V, W>, cell: Cell<V, W>, steps: seq<Step<V, W>>)
    decreases |steps|
  {
    steps != [] ==> Enabled(rules, cell, steps[0]) && ValidRun(rules, Do(cell, steps[0]), steps[1..])
  }

  ghost function After<V, W>(rules: Rules<V, W>, cell: Cell<V, W>, steps: seq<Step<V, W>>): Cell<V, W>
    requires ValidRun(rules, cell, steps)
    decreases |steps|
  {
    if steps == [] then cell else After(rules, Do(cell, steps[0]), steps[1..])
  }

  ghost predicate Genuine<V, W>(history: seq<Entry<V, W>>, s: Stored<V>) {
    0 < s.version <= |history| && history[s.version - 1].value == s.value
  }

  ghost predicate Sound<V, W>(rules: Rules<V, W>, history: seq<Entry<V, W>>, request: Request<V, W>) {
    match request
    case Create(value) => rules.first(value)
    case Swap(current, why, next) => Genuine(history, current) && rules.next(current.value, why, next)
  }

  /** Entry i replaced entry i - 1, and was derived from it. */
  ghost predicate Linked<V, W>(rules: Rules<V, W>, history: seq<Entry<V, W>>, i: nat)
    requires i < |history|
  {
    var e := history[i];
    if i == 0 then
      e.from == 0 && e.why.None? && rules.first(e.value)
    else
      e.from == i && e.why.Some? && rules.next(history[i - 1].value, e.why.value, e.value)
  }

  ghost predicate Linear<V, W>(rules: Rules<V, W>, history: seq<Entry<V, W>>) {
    forall i :: 0 <= i < |history| ==> Linked(rules, history, i)
  }

  ghost predicate Inv<V, W>(rules: Rules<V, W>, cell: Cell<V, W>) {
    && Linear(rules, cell.history)
    && (forall i :: 0 <= i < |cell.seen| ==> Genuine(cell.history, cell.seen[i]))
    && (forall i :: 0 <= i < |cell.requests| ==> Sound(rules, cell.history, cell.requests[i]))
  }

  lemma PutKeepsLinear<V, W>(rules: Rules<V, W>, history: seq<Entry<V, W>>, request: Request<V, W>)
    requires Linear(rules, history) && Sound(rules, history, request)
    ensures Linear(rules, Put(history, request)) && history <= Put(history, request)
  {
    var after := Put(history, request);
    forall i | 0 <= i < |after| ensures Linked(rules, after, i) {
      if i < |history| {
        assert Linked(rules, history, i);
      }
    }
  }

  lemma StepKeepsInv<V, W>(rules: Rules<V, W>, cell: Cell<V, W>, step: Step<V, W>)
    requires Inv(rules, cell) && Enabled(rules, cell, step)
    ensures Inv(rules, Do(cell, step)) && cell.history <= Do(cell, step).history
  {
    if step.Deliver? {
      PutKeepsLinear(rules, cell.history, cell.requests[step.k]);
    }
  }

  /** Over any run the history is linear: one first value, every later one derived from the one it
      replaced, and nothing stored is ever taken back. */
  lemma {:induction false} RunKeepsInv<V, W>(rules: Rules<V, W>, cell: Cell<V, W>, steps: seq<Step<V, W>>)
    requires Inv(rules, cell) && ValidRun(rules, cell, steps)
    ensures Inv(rules, After(rules, cell, steps)) && cell.history <= After(rules, cell, steps).history
    decreases |steps|
  {
    if steps != [] {
      StepKeepsInv(rules, cell, steps[0]);
      RunKeepsInv(rules, Do(cell, steps[0]), steps[1..]);
    }
  }
}
