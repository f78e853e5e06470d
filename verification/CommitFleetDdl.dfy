/** Fleet-wide schema changes under the one-token write gate, for any number of sessions.

    A step is one gate operation, one statement, or one command of a commit.  Steps of different
    sessions interleave freely.  Burrows are numbered in routing order and `logs[b]` lists the
    schema changes Burrow b has committed. */
module FleetDdl {
  import TwoPhase

  type Change = nat

  datatype Phase =
    | Idle
    | InTx(pending: seq<Change>, participants: set<nat>)
    | Preparing(pending: seq<Change>, participants: set<nat>, next: nat)
    | Committing(pending: seq<Change>, participants: set<nat>, next: nat)
    | Broadcasting(pending: seq<Change>, next: nat)

  datatype Session = Session(locked: bool, phase: Phase)

  /** `inDoubt` records that some two-phase commit has reported an in-doubt result. */
  datatype State = State(token: bool, sessions: seq<Session>, logs: seq<seq<Change>>, inDoubt: bool)

  datatype Step =
    | Lock(s: nat)
    | Unlock(s: nat)
    | Close(s: nat)
    | Begin(s: nat)
    | Rollback(s: nat)
    | RollbackTo(s: nat, keep: nat)
    | Dml(s: nat, targets: set<nat>)
    | DdlInTx(s: nat, change: Change)
    | AutoDdl(s: nat, change: Change)
    | Commit(s: nat)
    | PrepareNext(s: nat, delivery: TwoPhase.Delivery)
    | CommitNext(s: nat, delivery: TwoPhase.Delivery)
    | BroadcastNext(s: nat, delivery: TwoPhase.Delivery)

  function Pending(phase: Phase): seq<Change> {
    if phase.Idle? then [] else phase.pending
  }

  predicate Init(st: State) {
    && st.token && !st.inDoubt && |st.logs| >= 2
    && (forall s :: 0 <= s < |st.sessions| ==> st.sessions[s] == Session(false, Idle))
    && (forall b :: 0 <= b < |st.logs| ==> st.logs[b] == [])
  }

  predicate Enabled(st: State, step: Step) {
    && step.s < |st.sessions|
    && var session := st.sessions[step.s];
    match step
    case Lock(_) => st.token && !session.locked && (session.phase.Idle? || session.phase.InTx?)
    case Unlock(_) => session.locked && session.phase.Idle?
    case Close(_) => session.phase.Idle? || session.phase.InTx?
    case Begin(_) => session.phase.Idle? || session.phase.InTx?
    case Rollback(_) => session.phase.InTx?
    case RollbackTo(_, keep) => session.phase.InTx? && keep <= |session.phase.pending|
    case Dml(_, targets) => session.phase.InTx? && (forall b <- targets :: b < |st.logs|)
    case DdlInTx(_, _) => session.phase.InTx? && session.locked
    case AutoDdl(_, _) => session.phase.Idle? && session.locked
    case Commit(_) => session.phase.InTx?
    case PrepareNext(_, _) => session.phase.Preparing?
    case CommitNext(_, _) => session.phase.Committing?
    case BroadcastNext(_, _) => session.phase.Broadcasting?
  }

  /** The session's next phase after a statement or gate operation. */
  function NextPhase(phase: Phase, step: Step, n: nat): Phase
    requires !step.PrepareNext? && !step.CommitNext? && !step.BroadcastNext?
  {
    match step
    case Begin(_) => InTx(Pending(phase), {})
    case RollbackTo(_, keep) =>
      if phase.InTx? && keep <= |phase.pending| then InTx(phase.pending[..keep], phase.participants) else phase
    case Dml(_, targets) => if phase.InTx? then InTx(phase.pending, phase.participants + targets) else phase
    case DdlInTx(_, change) =>
      if phase.InTx? then InTx(phase.pending + [change], TwoPhase.AllBurrows(n)) else phase
    case AutoDdl(_, change) => Preparing([change], TwoPhase.AllBurrows(n), 0)
    case Commit(_) =>
      if !phase.InTx? then phase
      else if |phase.participants| > 1 then Preparing(phase.pending, phase.participants, 0)
      else Broadcasting(phase.pending, 0)
    case Lock(_) => phase
    case Unlock(_) => phase
    case Close(_) => Idle
    case Rollback(_) => Idle
  }

  function At(st: State, s: nat, session: Session): State
    requires s < |st.sessions|
  {
    st.(sessions := st.sessions[s := session])
  }

  /** One command of the first phase.  A failed vote abandons the commit. */
  function Prepared(st: State, s: nat, delivery: TwoPhase.Delivery): State
    requires s < |st.sessions| && st.sessions[s].phase.Preparing?
  {
    var session := st.sessions[s];
    var Preparing(pending, participants, next) := session.phase;
    if next >= |st.logs| then
      At(st, s, session.(phase := Committing(pending, participants, 0)))
    else if next !in participants || TwoPhase.Deliver(TwoPhase.Prepare, TwoPhase.Open, delivery).1 then
      At(st, s, session.(phase := Preparing(pending, participants, next + 1)))
    else
      At(st, s, session.(phase := Idle))
  }

  function Append(logs: seq<seq<Change>>, b: nat, pending: seq<Change>, tx: TwoPhase.Tx): (r: seq<seq<Change>>)
    requires b < |logs|
    ensures |r| == |logs|
  {
    if tx.Committed? then logs[b := logs[b] + pending] else logs
  }

  /** One COMMIT PREPARED.  A failure leaves the commit in doubt. */
  function Committed(st: State, s: nat, delivery: TwoPhase.Delivery): State
    requires s < |st.sessions| && st.sessions[s].phase.Committing?
  {
    var session := st.sessions[s];
    var Committing(pending, participants, next) := session.phase;
    if next >= |st.logs| then
      At(st, s, session.(phase := Idle))
    else if next !in participants then
      At(st, s, session.(phase := Committing(pending, participants, next + 1)))
    else
      var (tx, ok) := TwoPhase.Deliver(TwoPhase.CommitPrepared, TwoPhase.Prepared, delivery);
      var phase := if ok then Committing(pending, participants, next + 1) else Idle;
      At(st, s, session.(phase := phase)).(
        logs := Append(st.logs, next, pending, tx), inDoubt := st.inDoubt || !ok)
  }

  /** One COMMIT of a plain broadcast.  Its failures are reported, but not as in doubt. */
  function Broadcast(st: State, s: nat, delivery: TwoPhase.Delivery): State
    requires s < |st.sessions| && st.sessions[s].phase.Broadcasting?
  {
    var session := st.sessions[s];
    var Broadcasting(pending, next) := session.phase;
    if next >= |st.logs| then
      At(st, s, session.(phase := Idle))
    else
      var tx := TwoPhase.Deliver(TwoPhase.Commit, TwoPhase.Open, delivery).0;
      At(st, s, session.(phase := Broadcasting(pending, next + 1))).(logs := Append(st.logs, next, pending, tx))
  }

  function Do(st: State, step: Step): State
    requires Enabled(st, step)
  {
    var session := st.sessions[step.s];
    match step
    case PrepareNext(s, delivery) => Prepared(st, s, delivery)
    case CommitNext(s, delivery) => Committed(st, s, delivery)
    case BroadcastNext(s, delivery) => Broadcast(st, s, delivery)
    case _ =>
      var phase := NextPhase(session.phase, step, |st.logs|);
      var locked := step.Lock? || (session.locked && !step.Unlock? && !step.Close?);
      At(st, step.s, Session(locked, phase)).(
        token := (st.token && !step.Lock?) || (session.locked && !locked))
  }

  // ---------------------------------------------------------------------------------------------

  /** The recorded participants reach every pending schema change, or there is none. */
  predicate CoversFleet(phase: Phase, n: nat)
    requires phase.InTx?
  {
    phase.pending == [] || phase.participants == TwoPhase.AllBurrows(n)
  }

  /** A COMMIT of schema changes that the recorded participants do not cover.  A redundant BEGIN since
      the last change has emptied them. */
  predicate CommitsUncovered(st: State, step: Step)
    requires Enabled(st, step)
  {
    step.Commit? && !CoversFleet(st.sessions[step.s].phase, |st.logs|)
  }

  ghost predicate ValidRun(st: State, steps: seq<Step>)
    decreases |steps|
  {
    steps == [] || (Enabled(st, steps[0]) && ValidRun(Do(st, steps[0]), steps[1..]))
  }

  ghost function After(st: State, steps: seq<Step>): State
    requires ValidRun(st, steps)
    decreases |steps|
  {
    if steps == [] then st else After(Do(st, steps[0]), steps[1..])
  }

  /** Every COMMIT of the run covers its pending schema changes. */
  ghost predicate CommitsCovered(st: State, steps: seq<Step>)
    requires ValidRun(st, steps)
    decreases |steps|
  {
    steps == [] || (!CommitsUncovered(st, steps[0]) && CommitsCovered(Do(st, steps[0]), steps[1..]))
  }

  ghost predicate OneHolder(st: State) {
    && (forall s, t :: 0 <= s < t < |st.sessions| ==> !(st.sessions[s].locked && st.sessions[t].locked))
    && (st.token <==> forall s :: 0 <= s < |st.sessions| ==> !st.sessions[s].locked)
  }

  /** A session with pending changes holds the gate, and once it commits it has recorded the whole fleet. */
  ghost predicate Covered(session: Session, n: nat) {
    && (Pending(session.phase) != [] ==>
         && session.locked
         && !session.phase.Broadcasting?
         && (session.phase.InTx? || session.phase.participants == TwoPhase.AllBurrows(n)))
    && (session.phase.InTx? ==> session.phase.participants <= TwoPhase.AllBurrows(n))
  }

  predicate Halfway(phase: Phase) {
    phase.Committing? && phase.pending != []
  }

  /** The first k Burrows have committed `pending` on top of what the others have. */
  ghost predicate Split(logs: seq<seq<Change>>, pending: seq<Change>, k: nat) {
    && (forall i, j :: 0 <= i < k <= j < |logs| ==> logs[i] == logs[j] + pending)
    && (forall i, j :: 0 <= i < j < k && j < |logs| ==> logs[i] == logs[j])
    && (forall i, j :: k <= i < j < |logs| ==> logs[i] == logs[j])
  }

  ghost predicate SameEverywhere(logs: seq<seq<Change>>) {
    forall i, j :: 0 <= i < |logs| && 0 <= j < |logs| ==> logs[i] == logs[j]
  }

  ghost predicate LogsAgree(st: State) {
    && ((forall s :: 0 <= s < |st.sessions| ==> !Halfway(st.sessions[s].phase)) ==> SameEverywhere(st.logs))
    && (forall s :: 0 <= s < |st.sessions| && Halfway(st.sessions[s].phase) ==>
         Split(st.logs, st.sessions[s].phase.pending, st.sessions[s].phase.next))
  }

  ghost predicate Inv(st: State) {
    && |st.logs| >= 2
    && OneHolder(st)
    && (forall s :: 0 <= s < |st.sessions| ==> Covered(st.sessions[s], |st.logs|))
    && (!st.inDoubt ==> LogsAgree(st))
  }

  /** The gate invariant depends on the token and the lock flags alone. */
  lemma SameLocks(st: State, st': State)
    requires OneHolder(st) && st'.token == st.token && |st'.sessions| == |st.sessions|
    requires forall s :: 0 <= s < |st.sessions| ==> st'.sessions[s].locked == st.sessions[s].locked
    ensures OneHolder(st')
  {
    if !st.token {
      var h :| 0 <= h < |st.sessions| && st.sessions[h].locked;
      assert st'.sessions[h].locked;
    }
  }

  lemma StatementKeepsGate(st: State, step: Step)
    requires OneHolder(st) && Enabled(st, step)
    requires !step.PrepareNext? && !step.CommitNext? && !step.BroadcastNext?
    ensures OneHolder(Do(st, step))
  {
    var st' := Do(st, step);
    if st'.sessions[step.s].locked == st.sessions[step.s].locked {
      SameLocks(st, st');
    } else if step.Lock? {
      assert st'.sessions[step.s].locked;
    }
  }

  /** What a statement leaves of its session's cover. */
  lemma StatementKeepsCover(st: State, step: Step)
    requires Enabled(st, step) && !CommitsUncovered(st, step) && |st.logs| >= 2
    requires !step.PrepareNext? && !step.CommitNext? && !step.BroadcastNext?
    requires Covered(st.sessions[step.s], |st.logs|)
    ensures Covered(Do(st, step).sessions[step.s], |st.logs|)
    ensures !Halfway(st.sessions[step.s].phase) && !Halfway(Do(st, step).sessions[step.s].phase)
  {
  }

  lemma StatementKeepsInv(st: State, step: Step)
    requires Inv(st) && Enabled(st, step) && !CommitsUncovered(st, step)
    requires !step.PrepareNext? && !step.CommitNext? && !step.BroadcastNext?
    ensures Inv(Do(st, step))
  {
    StatementKeepsGate(st, step);
    StatementKeepsCover(st, step);
    if !st.inDoubt {
      SameHalfway(st, Do(st, step), step.s);
    }
  }

  lemma PrepareKeepsCover(st: State, s: nat, delivery: TwoPhase.Delivery)
    requires s < |st.sessions| && st.sessions[s].phase.Preparing? && Covered(st.sessions[s], |st.logs|)
    ensures var st' := Prepared(st, s, delivery);
      && Covered(st'.sessions[s], |st.logs|) && st'.sessions[s].locked == st.sessions[s].locked
      && st' == At(st, s, st'.sessions[s])
  {
  }

  lemma PrepareKeepsInv(st: State, s: nat, delivery: TwoPhase.Delivery)
    requires Inv(st) && Enabled(st, PrepareNext(s, delivery))
    ensures Inv(Prepared(st, s, delivery))
  {
    PrepareKeepsCover(st, s, delivery);
    SameLocks(st, Prepared(st, s, delivery));
    if !st.inDoubt {
      PrepareKeepsAgreement(st, s, delivery);
    }
  }

  lemma PrepareKeepsAgreement(st: State, s: nat, delivery: TwoPhase.Delivery)
    requires Inv(st) && Enabled(st, PrepareNext(s, delivery)) && !st.inDoubt
    ensures LogsAgree(Prepared(st, s, delivery))
  {
    var st' := Prepared(st, s, delivery);
    var phase := st.sessions[s].phase;
    assert Covered(st.sessions[s], |st.logs|);
    PrepareKeepsCover(st, s, delivery);
    if Halfway(st'.sessions[s].phase) {
      OthersNotHalfway(st, s);
      assert Split(st.logs, phase.pending, 0);
    } else {
      SameHalfway(st, st', s);
    }
  }

  /** A vote that gets no good answer ends the commit there: nothing is committed, nothing is in doubt, and
      the session keeps the gate. */
  lemma FailedVoteEndsCommit(st: State, s: nat, delivery: TwoPhase.Delivery)
    requires Inv(st) && Enabled(st, PrepareNext(s, delivery)) && !delivery.Answered?
    requires st.sessions[s].phase.next < |st.logs| && st.sessions[s].phase.next in st.sessions[s].phase.participants
    ensures Do(st, PrepareNext(s, delivery)) == At(st, s, Session(st.sessions[s].locked, Idle))
  {
  }

  /** The holder of the gate is the only session that can be halfway through a commit. */
  lemma OthersNotHalfway(st: State, s: nat)
    requires Inv(st) && s < |st.sessions| && st.sessions[s].locked
    ensures forall t :: 0 <= t < |st.sessions| && t != s ==> !Halfway(st.sessions[t].phase)
  {
    forall t | 0 <= t < |st.sessions| && t != s
      ensures !Halfway(st.sessions[t].phase)
    {
      assert Covered(st.sessions[t], |st.logs|);
    }
  }

  /** Changing a session that is halfway neither before nor after leaves the agreement alone. */
  lemma SameHalfway(st: State, st': State, s: nat)
    requires s < |st.sessions| && |st'.sessions| == |st.sessions| && st'.logs == st.logs
    requires forall t :: 0 <= t < |st.sessions| && t != s ==> st'.sessions[t] == st.sessions[t]
    requires !Halfway(st.sessions[s].phase) && !Halfway(st'.sessions[s].phase)
    requires LogsAgree(st)
    ensures LogsAgree(st')
  {
    if forall t :: 0 <= t < |st.sessions| ==> !Halfway(st'.sessions[t].phase) {
      forall t | 0 <= t < |st.sessions|
        ensures !Halfway(st.sessions[t].phase)
      {
        if t != s {
          assert st'.sessions[t] == st.sessions[t];
        }
      }
    }
  }

  lemma CommitKeepsInv(st: State, s: nat, delivery: TwoPhase.Delivery)
    requires Inv(st) && Enabled(st, CommitNext(s, delivery))
    ensures Inv(Committed(st, s, delivery))
  {
    SameLocks(st, Committed(st, s, delivery));
    CommitKeepsCover(st, s, delivery);
    if !Committed(st, s, delivery).inDoubt {
      CommitKeepsAgreement(st, s, delivery);
    }
  }

  lemma CommitKeepsCover(st: State, s: nat, delivery: TwoPhase.Delivery)
    requires Inv(st) && Enabled(st, CommitNext(s, delivery))
    ensures var st' := Committed(st, s, delivery);
      |st'.logs| == |st.logs| && forall t :: 0 <= t < |st'.sessions| ==> Covered(st'.sessions[t], |st'.logs|)
  {
    assert Covered(st.sessions[s], |st.logs|);
  }

  lemma CommitKeepsAgreement(st: State, s: nat, delivery: TwoPhase.Delivery)
    requires Inv(st) && Enabled(st, CommitNext(s, delivery)) && !Committed(st, s, delivery).inDoubt
    ensures LogsAgree(Committed(st, s, delivery))
  {
    var st' := Committed(st, s, delivery);
    var phase := st.sessions[s].phase;
    assert Covered(st.sessions[s], |st.logs|);
    if phase.pending == [] {
      AppendNothing(st.logs, phase.next);
      SameHalfway(st, st', s);
    } else {
      OthersNotHalfway(st, s);
      assert Split(st.logs, phase.pending, phase.next);
      if phase.next < |st.logs| {
        OneMoreCommitted(st.logs, phase.pending, phase.next);
        assert st'.logs == st.logs[phase.next := st.logs[phase.next] + phase.pending];
        assert Halfway(st'.sessions[s].phase);
      } else {
        assert SameEverywhere(st.logs);
      }
    }
  }

  lemma OneMoreCommitted(logs: seq<seq<Change>>, pending: seq<Change>, k: nat)
    requires k < |logs| && Split(logs, pending, k)
    ensures Split(logs[k := logs[k] + pending], pending, k + 1)
  {
  }

  lemma AppendNothing(logs: seq<seq<Change>>, b: nat)
    ensures b < |logs| ==> forall tx :: Append(logs, b, [], tx) == logs
  {
    if b < |logs| {
      assert logs[b] + [] == logs[b];
    }
  }

  lemma BroadcastKeepsInv(st: State, s: nat, delivery: TwoPhase.Delivery)
    requires Inv(st) && Enabled(st, BroadcastNext(s, delivery))
    ensures Inv(Broadcast(st, s, delivery))
  {
    assert Covered(st.sessions[s], |st.logs|);
    var st' := Broadcast(st, s, delivery);
    SameLocks(st, st');
    AppendNothing(st.logs, st.sessions[s].phase.next);
    if !st.inDoubt {
      SameHalfway(st, st', s);
    }
  }

  lemma {:induction false} RunKeepsInv(st: State, steps: seq<Step>)
    requires Inv(st) && ValidRun(st, steps) && CommitsCovered(st, steps)
    ensures Inv(After(st, steps))
    decreases |steps|
  {
    if steps != [] {
      StepKeepsInv(st, steps[0]);
      RunKeepsInv(Do(st, steps[0]), steps[1..]);
    }
  }

  lemma {:induction false} RunKeepsGate(st: State, steps: seq<Step>)
    requires OneHolder(st) && ValidRun(st, steps)
    ensures OneHolder(After(st, steps))
    decreases |steps|
  {
    if steps != [] {
      if steps[0].PrepareNext? || steps[0].CommitNext? || steps[0].BroadcastNext? {
        SameLocks(st, Do(st, steps[0]));
      } else {
        StatementKeepsGate(st, steps[0]);
      }
      RunKeepsGate(Do(st, steps[0]), steps[1..]);
    }
  }

  ghost function Holders(st: State): set<nat> {
    set s | 0 <= s < |st.sessions| && st.sessions[s].locked
  }

  /** In every reachable state the gate's token plus the sessions that hold it is exactly one. */
  lemma GateIsExclusive(st: State, steps: seq<Step>)
    requires Init(st) && ValidRun(st, steps)
    ensures |Holders(After(st, steps))| + (if After(st, steps).token then 1 else 0) == 1
  {
    RunKeepsGate(st, steps);
    var st' := After(st, steps);
    if st'.token {
      assert Holders(st') == {};
    } else {
      var h :| 0 <= h < |st'.sessions| && st'.sessions[h].locked;
      assert Holders(st') == {h};
    }
  }

  // --------------------------------------------------------------------- what commits leave behind

  /** The changes of each session's open transaction, and those of all commits that succeeded, in order. */
  datatype Book = Book(drafts: seq<seq<Change>>, ledger: seq<Change>)

  /** What a step of its session makes of the changes its transaction has so far. */
  function Kept(draft: seq<Change>, step: Step): seq<Change> {
    match step
    case DdlInTx(_, change) => draft + [change]
    case AutoDdl(_, change) => draft + [change]
    case RollbackTo(_, keep) => if keep <= |draft| then draft[..keep] else draft
    case Rollback(_) => []
    case Close(_) => []
    case _ => draft
  }

  /** Without a transaction there is no draft.  A commit that ends and is not in doubt has succeeded. */
  function Enter(book: Book, st: State, step: Step): Book
    requires Enabled(st, step) && |book.drafts| == |st.sessions|
  {
    var draft, st' := book.drafts[step.s], Do(st, step);
    var over := st'.sessions[step.s].phase.Idle?;
    Book(
      book.drafts[step.s := if over then [] else Kept(draft, step)],
      if over && step.CommitNext? && !st'.inDoubt then book.ledger + draft else book.ledger)
  }

  ghost function Booked(book: Book, st: State, steps: seq<Step>): Book
    requires ValidRun(st, steps) && |book.drafts| == |st.sessions|
    decreases |steps|
  {
    if steps == [] then book else Booked(Enter(book, st, steps[0]), Do(st, steps[0]), steps[1..])
  }

  ghost predicate DraftsTrack(book: Book, st: State) {
    |book.drafts| == |st.sessions| && forall s :: 0 <= s < |st.sessions| ==> book.drafts[s] == Pending(st.sessions[s].phase)
  }

  /** The first k Burrows have the ledger and these changes, the others the ledger. */
  ghost predicate Moved(logs: seq<seq<Change>>, ledger: seq<Change>, pending: seq<Change>, k: nat) {
    forall b :: 0 <= b < |logs| ==> logs[b] == if b < k then ledger + pending else ledger
  }

  ghost predicate LogsTrack(ledger: seq<Change>, st: State) {
    && ((forall s :: 0 <= s < |st.sessions| ==> !Halfway(st.sessions[s].phase)) ==> Moved(st.logs, ledger, [], 0))
    && (forall s :: 0 <= s < |st.sessions| && Halfway(st.sessions[s].phase) ==>
         Moved(st.logs, ledger, st.sessions[s].phase.pending, st.sessions[s].phase.next))
  }

  ghost predicate Tracks(book: Book, st: State) {
    DraftsTrack(book, st) && (!st.inDoubt ==> LogsTrack(book.ledger, st))
  }

  lemma SameTrack(st: State, st': State, s: nat, ledger: seq<Change>)
    requires s < |st.sessions| && |st'.sessions| == |st.sessions| && st'.logs == st.logs
    requires forall t :: 0 <= t < |st.sessions| && t != s ==> st'.sessions[t] == st.sessions[t]
    requires !Halfway(st.sessions[s].phase) && !Halfway(st'.sessions[s].phase)
    requires LogsTrack(ledger, st)
    ensures LogsTrack(ledger, st')
  {
    if forall t :: 0 <= t < |st.sessions| ==> !Halfway(st'.sessions[t].phase) {
      forall t | 0 <= t < |st.sessions|
        ensures !Halfway(st.sessions[t].phase)
      {
        if t != s {
          assert st'.sessions[t] == st.sessions[t];
        }
      }
    }
  }

  lemma StatementDraft(phase: Phase, step: Step, n: nat)
    requires !step.PrepareNext? && !step.CommitNext? && !step.BroadcastNext?
    requires step.AutoDdl? ==> phase.Idle?
    requires step.RollbackTo? || step.DdlInTx? ==> phase.InTx?
    ensures var phase' := NextPhase(phase, step, n);
      Pending(phase') == if phase'.Idle? then [] else Kept(Pending(phase), step)
  {
  }

  lemma DraftKept(st: State, step: Step)
    requires Enabled(st, step)
    ensures var st' := Do(st, step);
      && |st'.sessions| == |st.sessions|
      && (forall t :: 0 <= t < |st.sessions| && t != step.s ==> st'.sessions[t] == st.sessions[t])
      && var phase' := st'.sessions[step.s].phase;
         Pending(phase') == if phase'.Idle? then [] else Kept(Pending(st.sessions[step.s].phase), step)
  {
    if !step.PrepareNext? && !step.CommitNext? && !step.BroadcastNext? {
      StatementDraft(st.sessions[step.s].phase, step, |st.logs|);
    }
  }

  lemma DraftsKept(book: Book, st: State, step: Step)
    requires Enabled(st, step) && DraftsTrack(book, st)
    ensures DraftsTrack(Enter(book, st, step), Do(st, step))
  {
    DraftKept(st, step);
  }

  lemma StatementTracks(book: Book, st: State, step: Step)
    requires Inv(st) && Enabled(st, step) && !CommitsUncovered(st, step) && !st.inDoubt
    requires !step.PrepareNext? && !step.CommitNext? && !step.BroadcastNext?
    requires LogsTrack(book.ledger, st)
    ensures LogsTrack(book.ledger, Do(st, step))
  {
    StatementKeepsCover(st, step);
    SameTrack(st, Do(st, step), step.s, book.ledger);
  }

  lemma PrepareTracks(st: State, s: nat, delivery: TwoPhase.Delivery, ledger: seq<Change>)
    requires Inv(st) && Enabled(st, PrepareNext(s, delivery)) && !st.inDoubt && LogsTrack(ledger, st)
    ensures LogsTrack(ledger, Prepared(st, s, delivery))
  {
    var st' := Prepared(st, s, delivery);
    assert Covered(st.sessions[s], |st.logs|);
    PrepareKeepsCover(st, s, delivery);
    if Halfway(st'.sessions[s].phase) {
      OthersNotHalfway(st, s);
      assert Moved(st.logs, ledger, st.sessions[s].phase.pending, 0);
    } else {
      SameTrack(st, st', s, ledger);
    }
  }

  lemma OneMoreMoved(logs: seq<seq<Change>>, ledger: seq<Change>, pending: seq<Change>, k: nat)
    requires k < |logs| && Moved(logs, ledger, pending, k)
    ensures Moved(logs[k := logs[k] + pending], ledger, pending, k + 1)
  {
  }

  /** The ledger a COMMIT PREPARED leaves. */
  function Grown(st: State, s: nat, delivery: TwoPhase.Delivery, ledger: seq<Change>): seq<Change>
    requires s < |st.sessions| && st.sessions[s].phase.Committing?
  {
    if Committed(st, s, delivery).sessions[s].phase.Idle? then ledger + st.sessions[s].phase.pending else ledger
  }

  lemma CommitTracks(st: State, s: nat, delivery: TwoPhase.Delivery, ledger: seq<Change>)
    requires Inv(st) && Enabled(st, CommitNext(s, delivery)) && !Committed(st, s, delivery).inDoubt
    requires LogsTrack(ledger, st)
    ensures LogsTrack(Grown(st, s, delivery, ledger), Committed(st, s, delivery))
  {
    var st' := Committed(st, s, delivery);
    var phase := st.sessions[s].phase;
    assert Covered(st.sessions[s], |st.logs|);
    if phase.pending == [] {
      AppendNothing(st.logs, phase.next);
      assert ledger + [] == ledger;
      SameTrack(st, st', s, ledger);
    } else {
      OthersNotHalfway(st, s);
      assert Moved(st.logs, ledger, phase.pending, phase.next);
      if phase.next < |st.logs| {
        OneMoreMoved(st.logs, ledger, phase.pending, phase.next);
        assert st'.logs == st.logs[phase.next := st.logs[phase.next] + phase.pending];
        assert Halfway(st'.sessions[s].phase);
      } else {
        assert Moved(st'.logs, ledger + phase.pending, [], 0);
      }
    }
  }

  lemma BroadcastTracks(st: State, s: nat, delivery: TwoPhase.Delivery, ledger: seq<Change>)
    requires Inv(st) && Enabled(st, BroadcastNext(s, delivery)) && !st.inDoubt && LogsTrack(ledger, st)
    ensures LogsTrack(ledger, Broadcast(st, s, delivery))
  {
    assert Covered(st.sessions[s], |st.logs|);
    AppendNothing(st.logs, st.sessions[s].phase.next);
    SameTrack(st, Broadcast(st, s, delivery), s, ledger);
  }

  lemma StepTracks(book: Book, st: State, step: Step)
    requires Inv(st) && Enabled(st, step) && !CommitsUncovered(st, step) && Tracks(book, st)
    ensures Tracks(Enter(book, st, step), Do(st, step))
  {
    DraftsKept(book, st, step);
    if !Do(st, step).inDoubt {
      match step {
        case PrepareNext(s, delivery) => PrepareTracks(st, s, delivery, book.ledger);
        case CommitNext(s, delivery) => CommitTracks(st, s, delivery, book.ledger);
        case BroadcastNext(s, delivery) => BroadcastTracks(st, s, delivery, book.ledger);
        case _ => StatementTracks(book, st, step);
      }
    }
  }

  lemma StepKeepsInv(st: State, step: Step)
    requires Inv(st) && Enabled(st, step) && !CommitsUncovered(st, step)
    ensures Inv(Do(st, step))
  {
    match step {
      case PrepareNext(s, delivery) => PrepareKeepsInv(st, s, delivery);
      case CommitNext(s, delivery) => CommitKeepsInv(st, s, delivery);
      case BroadcastNext(s, delivery) => BroadcastKeepsInv(st, s, delivery);
      case _ => StatementKeepsInv(st, step);
    }
  }

  lemma {:induction false} RunTracks(book: Book, st: State, steps: seq<Step>)
    requires Inv(st) && ValidRun(st, steps) && CommitsCovered(st, steps) && Tracks(book, st)
    ensures Tracks(Booked(book, st, steps), After(st, steps))
    decreases |steps|
  {
    if steps != [] {
      StepTracks(book, st, steps[0]);
      StepKeepsInv(st, steps[0]);
      RunTracks(Enter(book, st, steps[0]), Do(st, steps[0]), steps[1..]);
    }
  }

  ghost function EmptyBook(n: nat): Book {
    Book(seq(n, _ => []), [])
  }

  /** While the gate is free and no commit is in doubt, every Burrow has committed the changes of the commits
      that succeeded, each with all its transaction had left, in their order, and nothing else. */
  lemma FreeGateMeansLedger(st: State, steps: seq<Step>)
    requires Init(st) && ValidRun(st, steps) && CommitsCovered(st, steps)
    requires Settled(After(st, steps))
    ensures forall b :: 0 <= b < |After(st, steps).logs| ==>
      After(st, steps).logs[b] == Booked(EmptyBook(|st.sessions|), st, steps).ledger
  {
    assert LogsAgree(st);
    RunTracks(EmptyBook(|st.sessions|), st, steps);
    RunKeepsInv(st, steps);
    var st' := After(st, steps);
    forall s | 0 <= s < |st'.sessions|
      ensures !Halfway(st'.sessions[s].phase)
    {
      assert Covered(st'.sessions[s], |st'.logs|);
    }
  }

  /** The commands of a commit that are all answered, and the return of the gate. */
  function CommitSteps(s: nat, k: nat): seq<Step> {
    if k == 0 then [Unlock(s)] else [CommitNext(s, TwoPhase.Answered)] + CommitSteps(s, k - 1)
  }

  function AnsweredSteps(s: nat, k: nat, n: nat): seq<Step> {
    if k == 0 then CommitSteps(s, n + 1) else [PrepareNext(s, TwoPhase.Answered)] + AnsweredSteps(s, k - 1, n)
  }

  /** The changes are added to every Burrow's log, and the gate is free again. */
  ghost predicate Added(st: State, st': State, changes: seq<Change>) {
    && st'.token && st'.inDoubt == st.inDoubt && |st'.logs| == |st.logs|
    && forall b :: 0 <= b < |st.logs| ==> st'.logs[b] == st.logs[b] + changes
  }

  /** A schema change outside a transaction, every command answered, is committed everywhere. */
  lemma AutoDdlCommits(st: State, s: nat, change: Change)
    requires Enabled(st, AutoDdl(s, change))
    ensures var n := |st.logs|;
      var steps := [AutoDdl(s, change)] + AnsweredSteps(s, n + 1, n);
      ValidRun(st, steps) && CommitsCovered(st, steps) && Added(st, After(st, steps), [change])
  {
    var n, step := |st.logs|, AutoDdl(s, change);
    assert Do(st, step).sessions[s].phase == Preparing([change], TwoPhase.AllBurrows(n), 0);
    var rest := PrepareRest(Do(st, step), s);
    Prepend(st, step, rest);
  }

  /** Statements of one session's transaction: writes, schema changes and returns to savepoints. */
  predicate InTransaction(s: nat, steps: seq<Step>) {
    forall i :: 0 <= i < |steps| ==>
      steps[i].s == s && (steps[i].Dml? || steps[i].DdlInTx? || steps[i].RollbackTo?)
  }

  function Surviving(draft: seq<Change>, steps: seq<Step>): seq<Change>
    decreases |steps|
  {
    if steps == [] then draft else Surviving(Kept(draft, steps[0]), steps[1..])
  }

  ghost predicate ChangesSchema(steps: seq<Step>) {
    exists i :: 0 <= i < |steps| && steps[i].DdlInTx?
  }

  lemma CommitThrough(st: State, s: nat)
    requires s < |st.sessions| && st.sessions[s].phase.InTx? && st.sessions[s].locked && |st.logs| >= 2
    requires st.sessions[s].phase.participants == TwoPhase.AllBurrows(|st.logs|)
    ensures var n := |st.logs|;
      var steps := [Commit(s)] + AnsweredSteps(s, n + 1, n);
      ValidRun(st, steps) && CommitsCovered(st, steps) && Added(st, After(st, steps), st.sessions[s].phase.pending)
  {
    var rest := PrepareRest(Do(st, Commit(s)), s);
    Prepend(st, Commit(s), rest);
  }

  lemma OneStatement(st: State, s: nat, step: Step)
    requires s < |st.sessions| && st.sessions[s].phase.InTx? && Enabled(st, step) && InTransaction(s, [step])
    requires st.sessions[s].phase.participants <= TwoPhase.AllBurrows(|st.logs|)
    ensures var st', phase := Do(st, step), st.sessions[s].phase;
      && st'.logs == st.logs && st'.inDoubt == st.inDoubt && |st'.sessions| == |st.sessions|
      && st'.sessions[s].locked == st.sessions[s].locked && st'.sessions[s].phase.InTx?
      && st'.sessions[s].phase.pending == Kept(phase.pending, step)
      && phase.participants <= st'.sessions[s].phase.participants <= TwoPhase.AllBurrows(|st.logs|)
      && (step.DdlInTx? ==> st'.sessions[s].phase.participants == TwoPhase.AllBurrows(|st.logs|))
  {
    assert [step][0] == step;
    StatementDraft(st.sessions[s].phase, step, |st.logs|);
  }

  /** A schema change among the statements is the first of them or comes later. */
  lemma ChangesLater(steps: seq<Step>)
    requires steps != [] && ChangesSchema(steps)
    ensures steps[0].DdlInTx? || ChangesSchema(steps[1..])
  {
    var i :| 0 <= i < |steps| && steps[i].DdlInTx?;
    assert i > 0 ==> steps[1..][i - 1] == steps[i];
  }

  /** From some statement of a transaction to the end of its answered commit. */
  lemma {:induction false} TransactionCommits(st: State, s: nat, steps: seq<Step>)
    requires s < |st.sessions| && st.sessions[s].phase.InTx? && st.sessions[s].locked && |st.logs| >= 2
    requires ValidRun(st, steps) && InTransaction(s, steps)
    requires ChangesSchema(steps) || st.sessions[s].phase.participants == TwoPhase.AllBurrows(|st.logs|)
    requires st.sessions[s].phase.participants <= TwoPhase.AllBurrows(|st.logs|)
    ensures var n := |st.logs|;
      var all := steps + ([Commit(s)] + AnsweredSteps(s, n + 1, n));
      && ValidRun(st, all) && CommitsCovered(st, all)
      && Added(st, After(st, all), Surviving(st.sessions[s].phase.pending, steps))
    decreases |steps|
  {
    var n := |st.logs|;
    var tail := [Commit(s)] + AnsweredSteps(s, n + 1, n);
    if steps == [] {
      CommitThrough(st, s);
      assert steps + tail == tail;
    } else {
      OneStatement(st, s, steps[0]);
      if ChangesSchema(steps) {
        ChangesLater(steps);
      }
      TransactionCommits(Do(st, steps[0]), s, steps[1..]);
      assert steps + tail == [steps[0]] + (steps[1..] + tail);
      Prepend(st, steps[0], steps[1..] + tail);
    }
  }

  /** BEGIN, any writes, schema changes and returns to savepoints, COMMIT, every command answered: the
      changes that survive are committed everywhere. */
  lemma DdlTransactionCommits(st: State, s: nat, steps: seq<Step>)
    requires |st.logs| >= 2 && Enabled(st, Begin(s)) && st.sessions[s] == Session(true, Idle)
    requires ValidRun(Do(st, Begin(s)), steps) && InTransaction(s, steps) && ChangesSchema(steps)
    ensures var n := |st.logs|;
      var all := [Begin(s)] + (steps + ([Commit(s)] + AnsweredSteps(s, n + 1, n)));
      ValidRun(st, all) && CommitsCovered(st, all) && Added(st, After(st, all), Surviving([], steps))
  {
    var n := |st.logs|;
    TransactionCommits(Do(st, Begin(s)), s, steps);
    Prepend(st, Begin(s), steps + ([Commit(s)] + AnsweredSteps(s, n + 1, n)));
  }

  /** While the gate is free and no commit is in doubt, every Burrow has committed the same schema
      changes in the same order, if every COMMIT covered its schema changes. */
  lemma FreeGateMeansSameSchema(st: State, steps: seq<Step>)
    requires Init(st) && ValidRun(st, steps) && CommitsCovered(st, steps)
    requires Settled(After(st, steps))
    ensures SameEverywhere(After(st, steps).logs)
  {
    assert LogsAgree(st);
    InvIsSafe(st, steps);
  }

  lemma Prepend(st: State, step: Step, rest: seq<Step>)
    requires Enabled(st, step) && ValidRun(Do(st, step), rest)
    ensures ValidRun(st, [step] + rest)
    ensures After(st, [step] + rest) == After(Do(st, step), rest)
    ensures CommitsCovered(st, [step] + rest) == (!CommitsUncovered(st, step) && CommitsCovered(Do(st, step), rest))
  {
    assert ([step] + rest)[1..] == rest;
  }

  predicate Settled(st: State) {
    st.token && !st.inDoubt
  }

  /** However the run goes on, a free gate with nothing in doubt means one schema. */
  ghost predicate SafeFrom(st: State) {
    forall steps :: ValidRun(st, steps) && CommitsCovered(st, steps) && Settled(After(st, steps)) ==>
      SameEverywhere(After(st, steps).logs)
  }

  lemma InvIsSafe(st: State, steps: seq<Step>)
    requires Inv(st) && ValidRun(st, steps) && CommitsCovered(st, steps)
    requires Settled(After(st, steps))
    ensures SameEverywhere(After(st, steps).logs)
  {
    RunKeepsInv(st, steps);
    var st' := After(st, steps);
    forall s | 0 <= s < |st'.sessions|
      ensures !Halfway(st'.sessions[s].phase)
    {
      assert Covered(st'.sessions[s], |st'.logs|);
    }
  }

  /** The condition on COMMIT is exact: it is safe to carry on from a COMMIT exactly when the recorded
      participants cover the pending schema changes. */
  lemma CommitGuardIsExact(st: State, s: nat)
    requires Inv(st) && !st.inDoubt && Enabled(st, Commit(s))
    ensures SafeFrom(Do(st, Commit(s))) <==> CoversFleet(st.sessions[s].phase, |st.logs|)
  {
    if CoversFleet(st.sessions[s].phase, |st.logs|) {
      StatementKeepsInv(st, Commit(s));
      var asked := Do(st, Commit(s));
      forall steps | ValidRun(asked, steps) && CommitsCovered(asked, steps) && Settled(After(asked, steps))
        ensures SameEverywhere(After(asked, steps).logs)
      {
        InvIsSafe(asked, steps);
      }
    } else {
      var steps := UncoveredDiverges(st, s);
      assert !SameEverywhere(After(Do(st, Commit(s)), steps).logs);
    }
  }

  /** So for every COMMIT that a run of covered ones comes to. */
  lemma ReachableCommitGuard(st: State, steps: seq<Step>, s: nat)
    requires Init(st) && ValidRun(st, steps) && CommitsCovered(st, steps) && !After(st, steps).inDoubt
    requires Enabled(After(st, steps), Commit(s))
    ensures var now := After(st, steps); SafeFrom(Do(now, Commit(s))) <==> CoversFleet(now.sessions[s].phase, |now.logs|)
  {
    assert LogsAgree(st);
    RunKeepsInv(st, steps);
    CommitGuardIsExact(After(st, steps), s);
  }

  /** After an uncovered COMMIT the run can end with the gate free, nothing in doubt and two schemas.
      With two participants or more no failure is needed for that; otherwise a lost reply does it. */
  lemma UncoveredDiverges(st: State, s: nat) returns (steps: seq<Step>)
    requires Inv(st) && !st.inDoubt && Enabled(st, Commit(s)) && !CoversFleet(st.sessions[s].phase, |st.logs|)
    ensures var asked := Do(st, Commit(s));
      && ValidRun(asked, steps) && CommitsCovered(asked, steps)
      && Settled(After(asked, steps)) && !SameEverywhere(After(asked, steps).logs)
  {
    var phase := st.sessions[s].phase;
    assert Covered(st.sessions[s], |st.logs|);
    OthersNotHalfway(st, s);
    assert SameEverywhere(st.logs);
    var asked := Do(st, Commit(s));
    if |phase.participants| > 1 {
      steps := PartialCommit(asked, s);
      MissingBurrow(phase.participants, |st.logs|);
    } else {
      steps := LoneCommit(asked, s);
    }
  }

  /** Fewer participants than Burrows leave some Burrow out, and more than one take some in. */
  lemma MissingBurrow(participants: set<nat>, n: nat)
    requires participants <= TwoPhase.AllBurrows(n) && participants != TwoPhase.AllBurrows(n) && |participants| > 1
    ensures exists i, j :: 0 <= i < n && 0 <= j < n && i in participants && j !in participants
  {
    var i :| i in participants;
    var j :| j in TwoPhase.AllBurrows(n) && j !in participants;
  }

  /** One Burrow commits and every other COMMIT of the broadcast is lost. */
  lemma LoneCommit(st: State, s: nat) returns (steps: seq<Step>)
    requires s < |st.sessions| && st.sessions[s].locked && |st.logs| >= 2 && SameEverywhere(st.logs)
    requires st.sessions[s].phase.Broadcasting? && st.sessions[s].phase.next == 0 && st.sessions[s].phase.pending != []
    ensures ValidRun(st, steps) && CommitsCovered(st, steps)
    ensures After(st, steps).token && After(st, steps).inDoubt == st.inDoubt
    ensures !SameEverywhere(After(st, steps).logs)
  {
    var step := BroadcastNext(s, TwoPhase.Answered);
    var first := Do(st, step);
    var pending := st.sessions[s].phase.pending;
    assert first.logs[0] == st.logs[0] + pending && first.logs[1] == st.logs[0];
    assert |first.logs[0]| != |first.logs[1]|;
    steps := LoseRest(first, s);
    Prepend(st, step, steps);
    steps := [step] + steps;
  }

  /** The pending changes on top of the logs of the participants from `next` on. */
  ghost predicate Extends(logs: seq<seq<Change>>, logs': seq<seq<Change>>, pending: seq<Change>, participants: set<nat>, next: nat) {
    |logs'| == |logs| && forall b :: 0 <= b < |logs| ==>
      logs'[b] == if b in participants && next <= b then logs[b] + pending else logs[b]
  }

  /** Two-phase commit without a failure over some of the Burrows changes their logs only. */
  lemma PartialCommit(st: State, s: nat) returns (steps: seq<Step>)
    requires s < |st.sessions| && st.sessions[s].locked && SameEverywhere(st.logs)
    requires st.sessions[s].phase.Preparing? && st.sessions[s].phase.next == 0 && st.sessions[s].phase.pending != []
    ensures ValidRun(st, steps) && CommitsCovered(st, steps)
    ensures After(st, steps).token && After(st, steps).inDoubt == st.inDoubt
    ensures (exists i, j :: 0 <= i < |st.logs| && 0 <= j < |st.logs|
              && i in st.sessions[s].phase.participants && j !in st.sessions[s].phase.participants)
      ==> !SameEverywhere(After(st, steps).logs)
  {
    var Preparing(pending, participants, _) := st.sessions[s].phase;
    steps := PrepareRest(st, s);
    var end := After(st, steps);
    if i, j :| 0 <= i < |st.logs| && 0 <= j < |st.logs| && i in participants && j !in participants {
      assert |end.logs[i]| == |st.logs[i]| + |pending| && end.logs[j] == st.logs[j] == st.logs[i];
    }
  }

  lemma {:induction false} PrepareRest(st: State, s: nat) returns (steps: seq<Step>)
    requires s < |st.sessions| && st.sessions[s].locked && st.sessions[s].phase.Preparing?
    requires st.sessions[s].phase.next <= |st.logs|
    ensures ValidRun(st, steps) && CommitsCovered(st, steps)
    ensures After(st, steps).token && After(st, steps).inDoubt == st.inDoubt
    ensures Extends(st.logs, After(st, steps).logs, st.sessions[s].phase.pending, st.sessions[s].phase.participants, 0)
    ensures steps == AnsweredSteps(s, |st.logs| + 1 - st.sessions[s].phase.next, |st.logs|)
    decreases |st.logs| - st.sessions[s].phase.next
  {
    var step := PrepareNext(s, TwoPhase.Answered);
    var st' := Do(st, step);
    if st.sessions[s].phase.next < |st.logs| {
      steps := PrepareRest(st', s);
    } else {
      steps := CommitRest(st', s);
    }
    Prepend(st, step, steps);
    steps := [step] + steps;
  }

  /** One answered COMMIT PREPARED, or a Burrow passed over. */
  lemma AnsweredCommit(st: State, s: nat)
    requires s < |st.sessions| && st.sessions[s].phase.Committing? && st.sessions[s].phase.next < |st.logs|
    ensures var Committing(pending, participants, next) := st.sessions[s].phase;
      Committed(st, s, TwoPhase.Answered)
        == At(st, s, st.sessions[s].(phase := Committing(pending, participants, next + 1))).(
             logs := if next in participants then st.logs[next := st.logs[next] + pending] else st.logs)
  {
  }

  lemma {:induction false} CommitRest(st: State, s: nat) returns (steps: seq<Step>)
    requires s < |st.sessions| && st.sessions[s].locked && st.sessions[s].phase.Committing?
    requires st.sessions[s].phase.next <= |st.logs|
    ensures ValidRun(st, steps) && CommitsCovered(st, steps)
    ensures After(st, steps).token && After(st, steps).inDoubt == st.inDoubt
    ensures var Committing(pending, participants, next) := st.sessions[s].phase;
      Extends(st.logs, After(st, steps).logs, pending, participants, next)
    ensures steps == CommitSteps(s, |st.logs| + 1 - st.sessions[s].phase.next)
    decreases |st.logs| - st.sessions[s].phase.next
  {
    var step := CommitNext(s, TwoPhase.Answered);
    if st.sessions[s].phase.next < |st.logs| {
      AnsweredCommit(st, s);
      steps := CommitRest(Committed(st, s, TwoPhase.Answered), s);
    } else {
      steps := Leave(At(st, s, Session(true, Idle)), s);
    }
    Prepend(st, step, steps);
    steps := [step] + steps;
  }

  /** The holder returns the gate. */
  lemma Leave(st: State, s: nat) returns (steps: seq<Step>)
    requires s < |st.sessions| && st.sessions[s] == Session(true, Idle)
    ensures ValidRun(st, steps) && CommitsCovered(st, steps)
    ensures After(st, steps) == At(st, s, Session(false, Idle)).(token := true) && steps == [Unlock(s)]
  {
    Prepend(st, Unlock(s), []);
    steps := [Unlock(s)] + [];
  }

  /** Losing every remaining COMMIT of a broadcast ends it with the logs unchanged, and the session
      then returns the gate. */
  lemma {:induction false} LoseRest(st: State, s: nat) returns (steps: seq<Step>)
    requires s < |st.sessions| && st.sessions[s].locked && st.sessions[s].phase.Broadcasting?
    requires st.sessions[s].phase.next <= |st.logs|
    ensures ValidRun(st, steps) && CommitsCovered(st, steps)
    ensures After(st, steps) == At(st, s, Session(false, Idle)).(token := true)
    decreases |st.logs| - st.sessions[s].phase.next
  {
    var step := BroadcastNext(s, TwoPhase.Lost(false));
    var st' := Do(st, step);
    if st.sessions[s].phase.next < |st.logs| {
      steps := LoseRest(st', s);
    } else {
      steps := Leave(st', s);
    }
    Prepend(st, step, steps);
    steps := [step] + steps;
    assert st'.sessions[s := Session(false, Idle)] == st.sessions[s := Session(false, Idle)];
  }
}
