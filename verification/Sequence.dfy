/** Global ID allocation: any number of Proxies running the bounded compare-and-swap loop on one
    etcd key.

    A step is one request as etcd executes it, or one call or return of Next.  A swap whose reply
    is lost has been applied or not; either way its Next fails and the ID may stay unused. */
module Sequence {

  const MaxId := 0x7fff_ffff_ffff_ffff

  const MaxAttempts := 64

  datatype Cell = Missing | Stored(value: nat, modRevision: nat)

  /** `started` is the number of IDs that had been returned to callers when this Next began. */
  datatype Client =
    | Ready
    | Reading(started: nat, attempt: nat)
    | Swapping(started: nat, attempt: nat, current: nat, revision: nat, found: bool)
    | Replying(started: nat, id: nat)

  datatype Allocation = Allocation(id: nat, started: nat)

  /** `revision` is etcd's store-wide revision; `returned` lists successful calls in return order. */
  datatype State = State(cell: Cell, revision: nat, clients: seq<Client>, returned: seq<Allocation>)

  datatype Reply = Delivered | Lost(applied: bool)

  datatype Step =
    | OtherWrite                          // etcd applies a transaction on another key
    | Call(p: nat)
    | Read(p: nat, answered: bool)
    | Swap(p: nat, reply: Reply)
    | Return(p: nat)

  predicate Enabled(st: State, step: Step) {
    match step
    case OtherWrite => true
    case Call(p) => p < |st.clients| && st.clients[p].Ready?
    case Read(p, _) => p < |st.clients| && st.clients[p].Reading?
    case Swap(p, _) => p < |st.clients| && st.clients[p].Swapping?
    case Return(p) => p < |st.clients| && st.clients[p].Replying?
  }

  function Set(st: State, p: nat, client: Client): State
    requires p < |st.clients|
  {
    st.(clients := st.clients[p := client])
  }

  /** A missing key reads as zero; the largest ID ends the sequence. */
  function AfterRead(client: Client, cell: Cell): Client
    requires client.Reading?
  {
    var current := if cell.Stored? then cell.value else 0;
    if current == MaxId then
      Ready
    else
      Swapping(client.started, client.attempt, current, if cell.Stored? then cell.modRevision else 0, cell.Stored?)
  }

  /** The comparison etcd evaluates: the key's last revision, or version zero when it was missing. */
  predicate Matches(client: Client, cell: Cell)
    requires client.Swapping?
  {
    if client.found then cell.Stored? && cell.modRevision == client.revision else cell.Missing?
  }

  function AfterSwap(st: State, p: nat, reply: Reply): State
    requires p < |st.clients| && st.clients[p].Swapping?
  {
    var Swapping(started, attempt, current, revision, found) := st.clients[p];
    var put := Matches(st.clients[p], st.cell) && (reply.Delivered? || reply.applied);
    var stored := if put then st.(cell := Stored(current + 1, st.revision + 1), revision := st.revision + 1) else st;
    var client :=
      if reply.Lost? then Ready
      else if put then Replying(started, current + 1)
      else if attempt + 1 < MaxAttempts then Reading(started, attempt + 1)
      else Ready;
    Set(stored, p, client)
  }

  function Do(st: State, step: Step): State
    requires Enabled(st, step)
  {
    match step
    case OtherWrite => st.(revision := st.revision + 1)
    case Call(p) => Set(st, p, Reading(|st.returned|, 0))
    case Read(p, answered) => Set(st, p, if answered then AfterRead(st.clients[p], st.cell) else Ready)
    case Swap(p, reply) => AfterSwap(st, p, reply)
    case Return(p) =>
      var Replying(started, id) := st.clients[p];
      Set(st, p, Ready).(returned := st.returned + [Allocation(id, started)])
  }

  /** The counter may hold any valid value, or be missing, when the first Proxy starts. */
  predicate Init(st: State) {
    && st.returned == []
    && (st.cell.Stored? ==> st.cell.value <= MaxId && st.cell.modRevision <= st.revision)
    && (forall p :: 0 <= p < |st.clients| ==> st.clients[p].Ready?)
  }

  function Top(st: State): nat {
    if st.cell.Stored? then st.cell.value else 0
  }

  /** Everything returned before call number `started` is at most `bound`. */
  ghost predicate Below(returned: seq<Allocation>, started: nat, bound: int) {
    started <= |returned| && forall k :: 0 <= k < started ==> returned[k].id <= bound
  }

  ghost predicate Known(st: State, client: Client) {
    match client
    case Ready => true
    case Reading(started, attempt) => started <= |st.returned|
    case Swapping(started, _, current, revision, found) =>
      && Below(st.returned, started, current) && current < MaxId && current <= Top(st)
      && (found ==> revision <= st.revision && st.cell.Stored?)
      && (Matches(client, st.cell) ==> current == Top(st))
    case Replying(started, id) =>
      && Below(st.returned, started, id - 1) && 1 <= id <= Top(st)
      && (forall k :: 0 <= k < |st.returned| ==> st.returned[k].id != id)
  }

  ghost predicate Distinct(st: State) {
    && (forall j, k :: 0 <= j < k < |st.returned| ==> st.returned[j].id != st.returned[k].id)
    && (forall p, q :: 0 <= p < q < |st.clients| && st.clients[p].Replying? && st.clients[q].Replying? ==>
         st.clients[p].id != st.clients[q].id)
  }

  ghost predicate Ordered(st: State) {
    forall k :: 0 <= k < |st.returned| ==>
      && 1 <= st.returned[k].id <= Top(st)
      && st.returned[k].started <= k
      && Below(st.returned, st.returned[k].started, st.returned[k].id - 1)
  }

  ghost predicate Inv(st: State) {
    && Top(st) <= MaxId
    && (st.cell.Stored? ==> st.cell.modRevision <= st.revision)
    && (forall p :: 0 <= p < |st.clients| ==> Known(st, st.clients[p]))
    && Distinct(st)
    && Ordered(st)
  }

  lemma SwapKeepsInv(st: State, p: nat, reply: Reply)
    requires Inv(st) && p < |st.clients| && st.clients[p].Swapping?
    ensures Inv(AfterSwap(st, p, reply))
  {
    var st' := AfterSwap(st, p, reply);
    assert Known(st, st.clients[p]);
    assert Top(st) <= Top(st');
    forall q | 0 <= q < |st.clients| && q != p
      ensures Known(st', st'.clients[q])
    {
      assert Known(st, st.clients[q]);
    }
  }

  lemma ReturnKeepsInv(st: State, p: nat)
    requires Inv(st) && p < |st.clients| && st.clients[p].Replying?
    ensures Inv(Do(st, Return(p)))
  {
    var st' := Do(st, Return(p));
    assert Known(st, st.clients[p]);
    forall q | 0 <= q < |st.clients| && q != p
      ensures Known(st', st'.clients[q])
    {
      assert Known(st, st.clients[q]);
      assert st.clients[q].Replying? ==> st.clients[q].id != st.clients[p].id;
    }
  }

  lemma StepKeepsInv(st: State, step: Step)
    requires Inv(st) && Enabled(st, step)
    ensures Inv(Do(st, step))
  {
    match step
    case Swap(p, reply) => SwapKeepsInv(st, p, reply);
    case Return(p) => ReturnKeepsInv(st, p);
    case _ =>
      var st' := Do(st, step);
      forall q | 0 <= q < |st.clients|
        ensures Known(st', st'.clients[q])
      {
        assert Known(st, st.clients[q]);
      }
  }

  ghost predicate ValidRun(st: State, steps: seq<Step>)
    decreases |steps|
  {
    steps == [] || (Enabled(st, steps[0]) && ValidRun(Do(st, steps[0]), steps[1..]))
  }

  ghost function After(st: State, steps: seq<Step>): State
    requires ValidRun(st, steps)
    decreases |steps|
  {
    if steps == [] then st else After(Do(st, steps[0]), steps[1..])
  }

  lemma {:induction false} RunKeepsInv(st: State, steps: seq<Step>)
    requires Inv(st) && ValidRun(st, steps)
    ensures Inv(After(st, steps))
    decreases |steps|
  {
    if steps != [] {
      StepKeepsInv(st, steps[0]);
      RunKeepsInv(Do(st, steps[0]), steps[1..]);
    }
  }

  lemma Prepend(st: State, step: Step, rest: seq<Step>)
    requires Enabled(st, step) && ValidRun(Do(st, step), rest)
    ensures ValidRun(st, [step] + rest) && After(st, [step] + rest) == After(Do(st, step), rest)
  {
    assert ([step] + rest)[1..] == rest;
  }

  /** The rest of an attempt from its read, its swap or its return on, everything answered, with writes to
      other keys in between. */
  function ReturnSteps(p: nat): seq<Step> {
    [OtherWrite] + [Return(p)]
  }

  function SwapSteps(p: nat): seq<Step> {
    [OtherWrite] + ([Swap(p, Delivered)] + ReturnSteps(p))
  }

  function AttemptSteps(p: nat): seq<Step> {
    [OtherWrite] + ([Read(p, true)] + SwapSteps(p))
  }

  lemma ReturnSucceeds(st: State, p: nat)
    requires p < |st.clients| && st.clients[p].Replying?
    ensures ValidRun(st, ReturnSteps(p))
    ensures var st', client := After(st, ReturnSteps(p)), st.clients[p];
      && st'.returned == st.returned + [Allocation(client.id, client.started)]
      && st'.cell == st.cell && st'.clients == st.clients[p := Ready]
  {
    var written := Do(st, OtherWrite);
    Prepend(written, Return(p), []);
    assert [Return(p)] + [] == [Return(p)];
    Prepend(st, OtherWrite, [Return(p)]);
  }

  lemma SwapSucceeds(st: State, p: nat)
    requires p < |st.clients| && st.clients[p].Swapping? && Matches(st.clients[p], st.cell)
    ensures ValidRun(st, SwapSteps(p))
    ensures var st', client := After(st, SwapSteps(p)), st.clients[p];
      && st'.returned == st.returned + [Allocation(client.current + 1, client.started)]
      && Top(st') == client.current + 1 && st'.clients == st.clients[p := Ready]
  {
    var written := Do(st, OtherWrite);
    ReturnSucceeds(Do(written, Swap(p, Delivered)), p);
    Prepend(written, Swap(p, Delivered), ReturnSteps(p));
    Prepend(st, OtherWrite, [Swap(p, Delivered)] + ReturnSteps(p));
  }

  /** An attempt that is answered, and whose key nobody else writes meanwhile, returns the next ID. */
  lemma AttemptSucceeds(st: State, p: nat)
    requires p < |st.clients| && st.clients[p].Reading? && Top(st) < MaxId
    ensures ValidRun(st, AttemptSteps(p))
    ensures var st' := After(st, AttemptSteps(p));
      && st'.returned == st.returned + [Allocation(Top(st) + 1, st.clients[p].started)]
      && Top(st') == Top(st) + 1 && st'.clients == st.clients[p := Ready]
  {
    var written := Do(st, OtherWrite);
    SwapSucceeds(Do(written, Read(p, true)), p);
    Prepend(written, Read(p, true), SwapSteps(p));
    Prepend(st, OtherWrite, [Read(p, true)] + SwapSteps(p));
  }

  /** So does a call of Next. */
  lemma NextSucceeds(st: State, p: nat)
    requires p < |st.clients| && st.clients[p].Ready? && Top(st) < MaxId
    ensures ValidRun(st, [Call(p)] + AttemptSteps(p))
    ensures var st' := After(st, [Call(p)] + AttemptSteps(p));
      && st'.returned == st.returned + [Allocation(Top(st) + 1, |st.returned|)]
      && Top(st') == Top(st) + 1 && st'.clients == st.clients
  {
    AttemptSucceeds(Do(st, Call(p)), p);
    Prepend(st, Call(p), AttemptSteps(p));
  }

  /** A swap that does not win returns nothing: where the reply is lost the call fails, and where the race is
      lost it is tried again, up to 64 times in all. */
  lemma FailedSwapReturnsNothing(st: State, p: nat, reply: Reply)
    requires p < |st.clients| && st.clients[p].Swapping? && (reply.Lost? || !Matches(st.clients[p], st.cell))
    ensures var st', client := Do(st, Swap(p, reply)), st.clients[p];
      && st'.returned == st.returned
      && st'.clients[p] == if reply.Delivered? && client.attempt <= 62 then Reading(client.started, client.attempt + 1) else Ready
  {
  }

  /** Over any interleaving: returned IDs are positive 63-bit numbers, no two calls return the same
      one, and a call that starts after another has returned gets a larger ID. */
  lemma IdsAreUniqueAndIncreasing(st: State, steps: seq<Step>)
    requires Init(st) && ValidRun(st, steps)
    ensures var returned := After(st, steps).returned;
      && (forall k :: 0 <= k < |returned| ==> 1 <= returned[k].id <= MaxId)
      && (forall j, k :: 0 <= j < k < |returned| ==> returned[j].id != returned[k].id)
      && (forall j, k :: 0 <= k < |returned| && 0 <= j < returned[k].started && j < |returned| ==>
           returned[j].id < returned[k].id)
  {
    RunKeepsInv(st, steps);
    var st' := After(st, steps);
    forall j, k | 0 <= k < |st'.returned| && 0 <= j < st'.returned[k].started && j < |st'.returned|
      ensures st'.returned[j].id < st'.returned[k].id
    {
      assert Below(st'.returned, st'.returned[k].started, st'.returned[k].id - 1);
    }
  }
}
