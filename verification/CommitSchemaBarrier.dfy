/** The stale-schema barrier: a mutex, an atomic pending flag and the Proxy's routing registry.

    `published` counts the schema changes the Burrows have committed and `registry` those the
    routing registry reflects.  Any number of threads run schema commits and refresh barriers;
    a step is one operation on the shared state, so every interleaving is a run. */
module SchemaBarrier {

  datatype Thread =
    | Idle
    // beginSchemaCommit ... finishSchemaCommit
    | CommitWaiting
    | CommitLocked
    | CommitMarked
    // refreshSchemaBarrier; `since` is what had been published when it was called
    | BarrierCalled(since: nat, localDirty: bool)
    | BarrierMarked(since: nat)
    | BarrierWaiting(since: nat)
    | BarrierLocked(since: nat)
    | BarrierReading(since: nat)
    | BarrierRead(since: nat, seen: nat)
    | BarrierStored(since: nat)
    | BarrierReleasing(since: nat, ok: bool)
    | Returned(since: nat, ok: bool)

  datatype State = State(mutex: bool, pending: bool, published: nat, registry: nat, threads: seq<Thread>)

  datatype Action =
    | StartCommit            // a thread begins a bracketed schema commit
    | StartBarrier(dirty: bool)
    | Advance                // the thread's next operation
    | Publish                // inside the bracket, one more schema change becomes visible
    | FailRefresh            // reading the Burrows' schema fails

  datatype Step = Step(thread: nat, action: Action)

  predicate HoldsMutex(t: Thread) {
    || t.CommitLocked? || t.CommitMarked? || t.BarrierLocked? || t.BarrierReading? || t.BarrierRead?
    || t.BarrierStored? || t.BarrierReleasing?
  }

  predicate Enabled(st: State, step: Step) {
    && step.thread < |st.threads|
    && var t := st.threads[step.thread];
    match step.action
    case StartCommit => t.Idle? || t.Returned?
    case StartBarrier(_) => t.Idle? || t.Returned?
    case Publish => t.CommitMarked?
    case FailRefresh => t.BarrierReading?
    case Advance =>
      && !t.Idle? && !t.Returned?
      && (t.CommitWaiting? || t.BarrierWaiting? ==> !st.mutex)
  }

  function Set(st: State, i: nat, t: Thread): State
    requires i < |st.threads|
  {
    st.(threads := st.threads[i := t])
  }

  /** The next operation of a thread that is inside a call. */
  function Operation(st: State, i: nat): State
    requires i < |st.threads| && !st.threads[i].Idle? && !st.threads[i].Returned?
  {
    match st.threads[i]
    case CommitWaiting => Set(st, i, CommitLocked).(mutex := true)
    case CommitLocked => Set(st, i, CommitMarked).(pending := true)
    case CommitMarked => Set(st, i, Idle).(mutex := false)
    case BarrierCalled(since, localDirty) =>
      Set(st, i, BarrierMarked(since)).(pending := st.pending || localDirty)
    case BarrierMarked(since) =>
      Set(st, i, if st.pending then BarrierWaiting(since) else Returned(since, true))
    case BarrierWaiting(since) => Set(st, i, BarrierLocked(since)).(mutex := true)
    case BarrierLocked(since) =>
      Set(st, i, if st.pending then BarrierReading(since) else BarrierReleasing(since, true))
    case BarrierReading(since) => Set(st, i, BarrierRead(since, st.published))
    case BarrierRead(since, seen) => Set(st, i, BarrierStored(since)).(registry := seen)
    case BarrierStored(since) => Set(st, i, BarrierReleasing(since, true)).(pending := false)
    case BarrierReleasing(since, ok) => Set(st, i, Returned(since, ok)).(mutex := false)
  }

  function Do(st: State, step: Step): State
    requires Enabled(st, step)
  {
    var i := step.thread;
    match step.action
    case StartCommit => Set(st, i, CommitWaiting)
    case StartBarrier(dirty) => Set(st, i, BarrierCalled(st.published, dirty))
    case Publish => st.(published := st.published + 1)
    case FailRefresh => Set(st, i, BarrierReleasing(st.threads[i].since, false))
    case Advance => Operation(st, i)
  }

  predicate Init(st: State) {
    && !st.mutex && st.registry == st.published
    && (forall i :: 0 <= i < |st.threads| ==> st.threads[i].Idle?)
  }

  /** What each thread may rely on at its own program point. */
  ghost predicate Local(st: State, t: Thread) {
    match t
    case CommitMarked => st.pending
    case BarrierRead(since, seen) => since <= seen == st.published
    case BarrierStored(since) => since <= st.registry == st.published
    case BarrierReleasing(since, ok) => since <= st.published && (ok ==> since <= st.registry)
    case Returned(since, ok) => since <= st.published && (ok ==> since <= st.registry)
    case Idle => true
    case CommitWaiting => true
    case CommitLocked => true
    case BarrierCalled(since, _) => since <= st.published
    case BarrierMarked(since) => since <= st.published
    case BarrierWaiting(since) => since <= st.published
    case BarrierLocked(since) => since <= st.published
    case BarrierReading(since) => since <= st.published
  }

  /** At most one thread is inside the mutex, and only while it is taken. */
  ghost predicate Exclusive(st: State) {
    && (forall i :: 0 <= i < |st.threads| && HoldsMutex(st.threads[i]) ==> st.mutex)
    && (forall i, j :: 0 <= i < j < |st.threads| ==> !(HoldsMutex(st.threads[i]) && HoldsMutex(st.threads[j])))
  }

  ghost predicate Inv(st: State) {
    && st.registry <= st.published
    && (st.registry < st.published ==> st.pending)
    && Exclusive(st)
    && (forall i :: 0 <= i < |st.threads| ==> Local(st, st.threads[i]))
  }

  lemma StepKeepsExclusive(st: State, step: Step)
    requires Exclusive(st) && Enabled(st, step)
    ensures Exclusive(Do(st, step))
  {
  }

  lemma StepKeepsInv(st: State, step: Step)
    requires Inv(st) && Enabled(st, step)
    ensures Inv(Do(st, step)) && st.registry <= Do(st, step).registry
  {
    StepKeepsExclusive(st, step);
    var i, st' := step.thread, Do(st, step);
    assert Local(st, st.threads[i]);
    forall k | 0 <= k < |st'.threads|
      ensures Local(st', st'.threads[k])
    {
      assert Local(st, st.threads[k]);
      assert k != i ==> !(HoldsMutex(st.threads[k]) && HoldsMutex(st.threads[i]));
    }
  }

  ghost predicate ValidRun(st: State, steps: seq<Step>)
    decreases |steps|
  {
    steps == [] || (Enabled(st, steps[0]) && ValidRun(Do(st, steps[0]), steps[1..]))
  }

  ghost function After(st: State, steps: seq<Step>): State
    requires ValidRun(st, steps)
    decreases |steps|
  {
    if steps == [] then st else After(Do(st, steps[0]), steps[1..])
  }

  lemma {:induction false} RunKeepsInv(st: State, steps: seq<Step>)
    requires Inv(st) && ValidRun(st, steps)
    ensures Inv(After(st, steps)) && st.registry <= After(st, steps).registry
    decreases |steps|
  {
    if steps != [] {
      StepKeepsInv(st, steps[0]);
      RunKeepsInv(Do(st, steps[0]), steps[1..]);
    }
  }

  lemma Prepend(st: State, step: Step, rest: seq<Step>)
    requires Enabled(st, step) && ValidRun(Do(st, step), rest)
    ensures ValidRun(st, [step] + rest) && After(st, [step] + rest) == After(Do(st, step), rest)
  {
    assert ([step] + rest)[1..] == rest;
  }

  function Advances(i: nat, k: nat): seq<Step> {
    if k == 0 then [] else [Step(i, Advance)] + Advances(i, k - 1)
  }

  /** From inside the mutex on: read, store, lower the flag, release. */
  lemma RefreshFromLock(st: State, i: nat)
    requires i < |st.threads| && st.threads[i].BarrierLocked? && st.pending
    ensures ValidRun(st, Advances(i, 5))
    ensures After(st, Advances(i, 5)) == st.(
      mutex := false, pending := false, registry := st.published, threads := st.threads[i := Returned(st.threads[i].since, true)])
  {
    var step := Step(i, Advance);
    var reading := Do(st, step);
    var read := Do(reading, step);
    var stored := Do(read, step);
    var releasing := Do(stored, step);
    Prepend(releasing, step, Advances(i, 0));
    Prepend(stored, step, Advances(i, 1));
    Prepend(read, step, Advances(i, 2));
    Prepend(reading, step, Advances(i, 3));
    Prepend(st, step, Advances(i, 4));
  }

  /** A barrier that runs alone, and whose refresh succeeds, leaves the registry up to date and the pending
      flag down. */
  lemma RefreshCatchesUp(st: State, i: nat)
    requires i < |st.threads| && !st.mutex && st.threads[i].BarrierCalled? && (st.pending || st.threads[i].localDirty)
    ensures ValidRun(st, Advances(i, 8))
    ensures After(st, Advances(i, 8)) == st.(
      pending := false, registry := st.published, threads := st.threads[i := Returned(st.threads[i].since, true)])
  {
    var step := Step(i, Advance);
    var marked := Do(st, step);
    var waiting := Do(marked, step);
    var locked := Do(waiting, step);
    RefreshFromLock(locked, i);
    Prepend(waiting, step, Advances(i, 5));
    Prepend(marked, step, Advances(i, 6));
    Prepend(st, step, Advances(i, 7));
  }

  /** In every reachable state a published change the registry does not reflect has the pending
      flag up, and a barrier that has returned success reflects every change published before it
      was called. */
  lemma BarrierReflectsEarlierCommits(st: State, steps: seq<Step>)
    requires Init(st) && ValidRun(st, steps)
    ensures After(st, steps).registry < After(st, steps).published ==> After(st, steps).pending
    ensures forall i :: 0 <= i < |After(st, steps).threads| ==>
      match After(st, steps).threads[i]
      case Returned(since, ok) => ok ==> since <= After(st, steps).registry
      case _ => true
  {
    RunKeepsInv(st, steps);
    var st' := After(st, steps);
    forall i | 0 <= i < |st'.threads|
      ensures Local(st', st'.threads[i])
    {
    }
  }
}
