/** Two-phase commit as the Proxy drives it over one frontend session's Burrow connections.

    Every command the Proxy sends is answered, refused, or loses its reply; a lost reply leaves
    the effect undetermined.  A network lists what happens to the session's commands in the order
    they are sent, so a statement about every network is a statement about every pattern of
    failures.  Burrows are numbered in routing order, which is the order of their sorted names. */
module TwoPhase {

  /** One Burrow's backend transaction.  `Failed` is a transaction block that an earlier error has
      already aborted: PostgreSQL answers PREPARE TRANSACTION and COMMIT on it without an error,
      and rolls it back. */
  datatype Tx = Open | Failed | Prepared | Committed | RolledBack

  datatype Verb = Rollback | Commit | Prepare | CommitPrepared | RollbackPrepared

  datatype Command = Command(verb: Verb, burrow: nat)

  datatype Delivery = Answered | Refused | Lost(applied: bool)

  type Fleet = seq<Tx>

  type Network = seq<Delivery>

  function AllBurrows(n: nat): (all: set<nat>)
    ensures forall b: nat :: b in all <==> b < n
    ensures |all| == n
  {
    if n == 0 then {} else AllBurrows(n - 1) + {n - 1}
  }

  /** What happens to the k-th command; commands after the last listed one are answered. */
  function Fate(network: Network, k: nat): Delivery {
    if k < |network| then network[k] else Answered
  }

  /** What PostgreSQL does with a command it executes. */
  function Effect(verb: Verb, tx: Tx): Tx {
    match (verb, tx)
    case (Rollback, Open) => RolledBack
    case (Rollback, Failed) => RolledBack
    case (Commit, Open) => Committed
    case (Commit, Failed) => RolledBack
    case (Prepare, Open) => Prepared
    case (Prepare, Failed) => RolledBack
    case (CommitPrepared, Prepared) => Committed
    case (RollbackPrepared, Prepared) => RolledBack
    case _ => tx
  }

  /** Whether PostgreSQL answers an executed command without an error.  Only the commands that
      name a prepared transaction fail when there is none. */
  predicate Accepts(verb: Verb, tx: Tx) {
    (verb.CommitPrepared? || verb.RollbackPrepared?) ==> tx.Prepared?
  }

  /** A refused PREPARE TRANSACTION cancels the transaction; any other refusal has no effect. */
  function Deliver(verb: Verb, tx: Tx, delivery: Delivery): (Tx, bool) {
    match delivery
    case Answered => (Effect(verb, tx), Accepts(verb, tx))
    case Refused => (if verb.Prepare? && (tx.Open? || tx.Failed?) then RolledBack else tx, false)
    case Lost(applied) => (if applied then Effect(verb, tx) else tx, false)
  }

  ghost predicate Addressed(n: nat, sent: seq<Command>) {
    forall i :: 0 <= i < |sent| ==> sent[i].burrow < n
  }

  /** The fleet after a command log, computed from the log and the network alone. */
  ghost function Replay(fleet: Fleet, sent: seq<Command>, network: Network): (after: Fleet)
    requires Addressed(|fleet|, sent)
    ensures |after| == |fleet|
  {
    if sent == [] then
      fleet
    else
      var last := |sent| - 1;
      var before := Replay(fleet, sent[..last], network);
      var b := sent[last].burrow;
      before[b := Deliver(sent[last].verb, before[b], Fate(network, last)).0]
  }

  method RunTransactionCommand(
    verb: Verb, b: nat, before: Fleet, sent: seq<Command>, network: Network, ghost fleet: Fleet)
    returns (ok: bool, after: Fleet, log: seq<Command>)
    requires Addressed(|fleet|, sent) && before == Replay(fleet, sent, network) && b < |fleet|
    ensures log == sent + [Command(verb, b)]
    ensures Addressed(|fleet|, log) && after == Replay(fleet, log, network)
    ensures after == before[b := Deliver(verb, before[b], Fate(network, |sent|)).0]
    ensures ok == Deliver(verb, before[b], Fate(network, |sent|)).1
    ensures !verb.Commit? && !verb.CommitPrepared? && NoneCommitted(before) ==> NoneCommitted(after)
  {
    var answer := Deliver(verb, before[b], Fate(network, |sent|));
    ok := answer.1;
    after := before[b := answer.0];
    log := sent + [Command(verb, b)];
    assert log[..|log| - 1] == sent;
  }

  datatype Outcome = Success | Error | InDoubt

  /** A command log that can commit nothing. */
  ghost predicate Quiet(sent: seq<Command>) {
    forall i :: 0 <= i < |sent| ==> !sent[i].verb.CommitPrepared? && !sent[i].verb.Commit?
  }

  ghost predicate NoneCommitted(now: Fleet) {
    forall b :: 0 <= b < |now| ==> !now[b].Committed?
  }

  /** Every Burrow of the session has a transaction block, healthy or already aborted. */
  ghost predicate Begun(fleet: Fleet) {
    forall b :: 0 <= b < |fleet| ==> fleet[b].Open? || fleet[b].Failed?
  }

  ghost predicate AnsweredFrom(network: Network, from: nat, n: nat) {
    forall j :: from <= j < n ==> Fate(network, j).Answered?
  }

  /** The command at position k got no good answer, and every one before it from position i on did. */
  ghost predicate FirstFailure(network: Network, i: nat, k: nat) {
    i <= k && !Fate(network, k).Answered? && AnsweredFrom(network, i, k)
  }

  /** After the failed vote at position k, every participant that had said yes before it is sent ROLLBACK
      PREPARED, and every other one ROLLBACK. */
  ghost predicate CleanedUp(participants: set<nat>, sent: seq<Command>, k: nat) {
    && k < |sent| && sent[k].verb.Prepare?
    && (forall j :: k < j < |sent| ==> !sent[j].verb.Prepare?)
    && (forall j :: 0 <= j < |sent| && sent[j].verb.RollbackPrepared? ==> k < j)
    && (forall b <- participants ::
          (if Command(Prepare, b) in sent[..k] then Command(RollbackPrepared, b) else Command(Rollback, b)) in sent[k + 1..])
  }

  /** A Burrow's vote is the first thing asked of it. */
  ghost predicate VotesFirst(sent: seq<Command>) {
    forall i, j :: 0 <= i < j < |sent| && sent[j].verb.Prepare? ==> sent[i].burrow != sent[j].burrow
  }

  predicate Executed(delivery: Delivery) {
    delivery.Answered? || (delivery.Lost? && delivery.applied)
  }

  ghost predicate Ran(command: Command, sent: seq<Command>, network: Network) {
    exists i :: 0 <= i < |sent| && sent[i] == command && Executed(Fate(network, i))
  }

  /** The vote took effect and no ROLLBACK PREPARED did. */
  ghost predicate Orphaned(b: nat, sent: seq<Command>, network: Network) {
    Ran(Command(Prepare, b), sent, network) && !Ran(Command(RollbackPrepared, b), sent, network)
  }

  lemma RanLast(command: Command, sent: seq<Command>, network: Network)
    requires sent != []
    ensures var last := |sent| - 1;
      Ran(command, sent, network) <==>
        Ran(command, sent[..last], network) || (sent[last] == command && Executed(Fate(network, last)))
  {
    var last := |sent| - 1;
    if Ran(command, sent[..last], network) {
      var i :| 0 <= i < last && sent[..last][i] == command && Executed(Fate(network, i));
      assert sent[i] == command;
    }
    if Ran(command, sent, network) && !(sent[last] == command && Executed(Fate(network, last))) {
      var i :| 0 <= i < |sent| && sent[i] == command && Executed(Fate(network, i));
      assert sent[..last][i] == command;
    }
  }

  lemma {:induction false} Untouched(fleet: Fleet, sent: seq<Command>, network: Network, b: nat)
    requires Addressed(|fleet|, sent) && b < |fleet| && forall i :: 0 <= i < |sent| ==> sent[i].burrow != b
    ensures Replay(fleet, sent, network)[b] == fleet[b]
    ensures forall verb :: !Ran(Command(verb, b), sent, network)
  {
    if sent != [] {
      Untouched(fleet, sent[..|sent| - 1], network, b);
    }
  }

  lemma ReplayLast(fleet: Fleet, sent: seq<Command>, network: Network, b: nat)
    requires Addressed(|fleet|, sent) && sent != [] && b < |fleet|
    ensures var last := |sent| - 1;
      var before := Replay(fleet, sent[..last], network)[b];
      Replay(fleet, sent, network)[b]
        == if sent[last].burrow == b then Deliver(sent[last].verb, before, Fate(network, last)).0 else before
  {
  }

  /** As long as nothing is committed, exactly the orphaned Burrows are left prepared. */
  lemma {:induction false} OrphansStayPrepared(fleet: Fleet, sent: seq<Command>, network: Network, b: nat)
    requires Begun(fleet) && Addressed(|fleet|, sent) && Quiet(sent) && VotesFirst(sent) && b < |fleet|
    ensures Replay(fleet, sent, network)[b].Prepared? <==> fleet[b].Open? && Orphaned(b, sent, network)
  {
    if sent == [] {
      Untouched(fleet, sent, network, b);
    } else {
      var last := |sent| - 1;
      ReplayLast(fleet, sent, network, b);
      RanLast(Command(Prepare, b), sent, network);
      RanLast(Command(RollbackPrepared, b), sent, network);
      if sent[last] == Command(Prepare, b) {
        Untouched(fleet, sent[..last], network, b);
      } else {
        OrphansStayPrepared(fleet, sent[..last], network, b);
      }
    }
  }

  /** The commit decision of one transaction over the recorded write participants.  `votes` is the
      part of the command log before the first COMMIT PREPARED: it holds no committing command,
      and after it every participant has voted. */
  method CommitTwoPhase(participants: set<nat>, fleet: Fleet, network: Network)
    returns (outcome: Outcome, after: Fleet, sent: seq<Command>, ghost votes: seq<Command>, ghost failed: nat)
    requires Begun(fleet) && (forall b <- participants :: b < |fleet|)
    ensures Addressed(|fleet|, sent) && after == Replay(fleet, sent, network)
    ensures votes <= sent && Quiet(votes)
    ensures outcome.Error? ==> votes == sent && NoneCommitted(after)
    ensures outcome.Error? ==> FirstFailure(network, 0, failed) && failed < |sent|
    ensures outcome.Error? && (exists c <- sent :: c.verb.Prepare?) ==> CleanedUp(participants, sent, failed)
    ensures outcome.Error? ==> forall b :: 0 <= b < |fleet| ==>
      (after[b].Prepared? <==> fleet[b].Open? && Orphaned(b, sent, network))
    ensures outcome.Error? && (forall j :: failed < j < |sent| ==> Fate(network, j).Answered?) ==>
      forall b :: 0 <= b < |fleet| && after[b].Prepared? ==>
        sent[failed] == Command(Prepare, b) && Fate(network, failed) == Lost(true)
    ensures !outcome.Error? ==> AllAnswered(network, |votes|) && Committing(participants, |fleet|, |votes|, sent)
    ensures outcome.InDoubt? ==> FirstFailureOf(network, fleet, sent, |votes|)
    ensures !outcome.Error? ==>
      forall b <- participants :: Replay(fleet, votes, network)[b] == Effect(Prepare, fleet[b])
    ensures outcome.Success? ==> forall b <- participants :: after[b].Committed? && fleet[b].Open?
    ensures outcome.InDoubt? ==>
      forall b <- participants :: (after[b].Committed? || after[b].Prepared?) <==> fleet[b].Open?
    ensures network == [] && (forall b <- participants :: fleet[b].Open?) ==> outcome.Success?
    ensures !outcome.Error? ==> forall b :: 0 <= b < |fleet| && b !in participants ==> after[b].RolledBack?
  {
    outcome, after, sent := ReleaseOthers(participants, fleet, network);
    votes, failed := sent, if sent == [] then 0 else |sent| - 1;
    if outcome.Success? {
      outcome, after, sent, failed := PrepareAll(participants, fleet, after, sent, network);
      votes := sent;
    }
    if outcome.Success? {
      outcome, after, sent := CommitAll(participants, fleet, after, sent, network);
    } else {
      forall b | 0 <= b < |fleet|
        ensures after[b].Prepared? <==> fleet[b].Open? && Orphaned(b, sent, network)
        ensures after[b].Prepared? && (forall j :: failed < j < |sent| ==> Fate(network, j).Answered?) ==>
          sent[failed] == Command(Prepare, b) && Fate(network, failed) == Lost(true)
      {
        OrphansStayPrepared(fleet, sent, network, b);
        if after[b].Prepared? && (forall j :: failed < j < |sent| ==> Fate(network, j).Answered?) {
          OnlyTheLost(participants, sent, network, failed, b);
        }
      }
    }
  }

  /** If all after the failed vote is answered, the one orphan is that vote's Burrow. */
  lemma OnlyTheLost(participants: set<nat>, sent: seq<Command>, network: Network, k: nat, b: nat)
    requires FirstFailure(network, 0, k) && k < |sent| && Orphaned(b, sent, network)
    requires (exists c <- sent :: c.verb.Prepare?) ==> CleanedUp(participants, sent, k)
    requires forall j :: k < j < |sent| ==> Fate(network, j).Answered?
    requires VotesOf(participants, sent)
    ensures sent[k] == Command(Prepare, b) && Fate(network, k) == Lost(true)
  {
    var i :| 0 <= i < |sent| && sent[i] == Command(Prepare, b) && Executed(Fate(network, i));
    assert sent[i] in sent;
    VoteUndone(participants, sent, network, k, b, i);
  }

  lemma VoteUndone(participants: set<nat>, sent: seq<Command>, network: Network, k: nat, b: nat, i: nat)
    requires CleanedUp(participants, sent, k) && b in participants && i < |sent| && sent[i] == Command(Prepare, b)
    requires forall j :: k < j < |sent| ==> Fate(network, j).Answered?
    ensures i < k ==> Ran(Command(RollbackPrepared, b), sent, network)
  {
    if i < k {
      assert sent[..k][i] == Command(Prepare, b);
      var undo := Command(RollbackPrepared, b);
      assert undo in sent[k + 1..];
      var j :| 0 <= j < |sent[k + 1..]| && sent[k + 1..][j] == undo;
      assert sent[k + 1 + j] == undo && Executed(Fate(network, k + 1 + j));
    }
  }

  /** From that position on there are only COMMIT PREPAREDs, one a participant, in routing order. */
  ghost predicate Committing(participants: set<nat>, i: nat, from: nat, sent: seq<Command>) {
    && (forall j :: from <= j < |sent| ==>
          sent[j].verb.CommitPrepared? && sent[j].burrow < i && sent[j].burrow in participants)
    && (forall j, k :: from <= j < k < |sent| ==> sent[j].burrow < sent[k].burrow)
  }

  /** The last COMMIT PREPARED was not carried out with an answer, and every one before it was. */
  ghost predicate FirstFailureOf(network: Network, fleet: Fleet, sent: seq<Command>, from: nat) {
    && from < |sent| && AnsweredFrom(network, from, |sent| - 1)
    && sent[|sent| - 1].burrow < |fleet|
    && (Fate(network, |sent| - 1).Answered? ==> !fleet[sent[|sent| - 1].burrow].Open?)
  }

  ghost predicate AllAnswered(network: Network, n: nat) {
    AnsweredFrom(network, 0, n)
  }

  lemma AnsweredAppended(network: Network, from: nat, n: nat)
    requires AnsweredFrom(network, from, n) && Fate(network, n).Answered?
    ensures AnsweredFrom(network, from, n + 1)
  {
  }

  lemma CommitPassed(
      participants: set<nat>, i: nat, from: nat, sent: seq<Command>, fleet: Fleet, start: Fleet, after: Fleet)
    requires Committing(participants, i, from, sent) && CommittedBelow(i, participants, fleet, start, after)
    requires i !in participants
    ensures Committing(participants, i + 1, from, sent) && CommittedBelow(i + 1, participants, fleet, start, after)
  {
  }

  lemma CommitAppended(participants: set<nat>, i: nat, from: nat, sent: seq<Command>)
    requires Committing(participants, i, from, sent) && i in participants && from <= |sent|
    ensures Committing(participants, i + 1, from, sent + [Command(CommitPrepared, i)])
  {
  }

  /** The participants below i were healthy and have committed, everything else is as it was. */
  ghost predicate CommittedBelow(i: nat, participants: set<nat>, fleet: Fleet, start: Fleet, after: Fleet) {
    && |after| == |start| == |fleet|
    && (forall b :: 0 <= b < |start| ==> after[b] == if b < i && b in participants then Committed else start[b])
    && (forall b :: 0 <= b < |fleet| && b < i && b in participants ==> fleet[b].Open?)
  }

  /** Every Burrow outside the participants is rolled back, and they are as they were. */
  ghost predicate Released(participants: set<nat>, fleet: Fleet, after: Fleet) {
    |after| == |fleet| && forall b :: 0 <= b < |fleet| ==>
      after[b] == if b in participants then fleet[b] else RolledBack
  }

  /** Every participant has answered its PREPARE, and the others are rolled back. */
  ghost predicate AllVoted(participants: set<nat>, fleet: Fleet, after: Fleet) {
    |after| == |fleet| && forall b :: 0 <= b < |fleet| ==>
      after[b] == if b in participants then Effect(Prepare, fleet[b]) else RolledBack
  }

  /** Rolls back every Burrow that is not a participant, and stops at the first failure. */
  method ReleaseOthers(participants: set<nat>, fleet: Fleet, network: Network)
    returns (outcome: Outcome, after: Fleet, sent: seq<Command>)
    requires Begun(fleet)
    ensures Addressed(|fleet|, sent) && after == Replay(fleet, sent, network)
    ensures Quiet(sent) && NoneCommitted(after)
    ensures forall i :: 0 <= i < |sent| ==> sent[i].verb.Rollback? && sent[i].burrow !in participants
    ensures outcome.Success? || outcome.Error?
    ensures outcome.Error? ==> sent != [] && FirstFailure(network, 0, |sent| - 1)
    ensures outcome.Success? ==> AllAnswered(network, |sent|)
    ensures network == [] ==> outcome.Success?
    ensures outcome.Success? ==> Released(participants, fleet, after)
  {
    var ok;
    after, sent := fleet, [];
    for i := 0 to |fleet|
      invariant Addressed(|fleet|, sent) && after == Replay(fleet, sent, network)
      invariant Quiet(sent) && forall k :: 0 <= k < |sent| ==> sent[k].verb.Rollback? && sent[k].burrow !in participants
      invariant AllAnswered(network, |sent|)
      invariant forall b :: 0 <= b < |fleet| ==>
        after[b] == if b < i && b !in participants then RolledBack else fleet[b]
    {
      if i !in participants {
        ok, after, sent := RunTransactionCommand(Rollback, i, after, sent, network, fleet);
        if !ok {
          return Error, after, sent;
        }
      }
    }
    return Success, after, sent;
  }

  /** Of the participants only those below i have been asked anything. */
  ghost predicate AskedBelow(i: nat, participants: set<nat>, sent: seq<Command>) {
    forall k :: 0 <= k < |sent| && sent[k].burrow in participants ==> sent[k].burrow < i
  }

  /** So far there are only roll backs, and votes of participants. */
  ghost predicate Asking(participants: set<nat>, sent: seq<Command>) {
    forall k :: 0 <= k < |sent| ==> sent[k].verb.Rollback? || (sent[k].verb.Prepare? && sent[k].burrow in participants)
  }

  /** The participants asked for their vote are exactly those below i. */
  ghost predicate VotesBelow(i: nat, participants: set<nat>, sent: seq<Command>) {
    forall b <- participants :: Command(Prepare, b) in sent <==> b < i
  }

  /** The participants below i have voted, the other Burrows are as they were. */
  ghost predicate Voted(i: nat, participants: set<nat>, fleet: Fleet, start: Fleet, after: Fleet) {
    |after| == |fleet| == |start| && forall b :: 0 <= b < |fleet| ==>
      after[b] == if b < i && b in participants then Effect(Prepare, fleet[b]) else start[b]
  }

  /** Where the first phase is before Burrow i. */
  ghost predicate Voting(
      i: nat, participants: set<nat>, fleet: Fleet, start: Fleet, after: Fleet, sent: seq<Command>) {
    && Asking(participants, sent) && VotesFirst(sent) && AskedBelow(i, participants, sent)
    && VotesBelow(i, participants, sent) && Voted(i, participants, fleet, start, after) && NoneCommitted(after)
  }

  lemma VotingStarts(participants: set<nat>, fleet: Fleet, start: Fleet, log: seq<Command>)
    requires forall i :: 0 <= i < |log| ==> log[i].verb.Rollback? && log[i].burrow !in participants
    requires Begun(fleet)
    requires Released(participants, fleet, start)
    ensures Voting(0, participants, fleet, start, start, log)
  {
  }

  lemma VotePassed(i: nat, participants: set<nat>, fleet: Fleet, start: Fleet, after: Fleet, sent: seq<Command>)
    requires i !in participants && Voting(i, participants, fleet, start, after, sent)
    ensures Voting(i + 1, participants, fleet, start, after, sent)
  {
  }

  lemma VoteAsked(i: nat, participants: set<nat>, fleet: Fleet, start: Fleet, after: Fleet, sent: seq<Command>)
    requires Voting(i, participants, fleet, start, after, sent) && i in participants
    ensures var log := sent + [Command(Prepare, i)];
      && Asking(participants, log) && VotesFirst(log) && AskedBelow(i + 1, participants, log)
      && VotesBelow(i + 1, participants, log)
  {
  }

  lemma VoteCounted(
      i: nat, participants: set<nat>, fleet: Fleet, start: Fleet, before: Fleet, after: Fleet, sent: seq<Command>,
      delivery: Delivery)
    requires Voting(i, participants, fleet, start, before, sent) && i in participants && i < |fleet|
    requires Released(participants, fleet, start)
    requires after == before[i := Deliver(Prepare, before[i], delivery).0] && Deliver(Prepare, before[i], delivery).1
    ensures delivery.Answered? && Voting(i + 1, participants, fleet, start, after, sent + [Command(Prepare, i)])
  {
    VoteAsked(i, participants, fleet, start, before, sent);
  }

  lemma VotingEnds(participants: set<nat>, fleet: Fleet, start: Fleet, after: Fleet, sent: seq<Command>)
    requires Voting(|fleet|, participants, fleet, start, after, sent)
    requires Released(participants, fleet, start)
    ensures Quiet(sent) && VotesOf(participants, sent)
    ensures AllVoted(participants, fleet, after)
  {
  }

  /** The first phase; on a failed vote, the clean-up of every participant. */
  method PrepareAll(participants: set<nat>, fleet: Fleet, start: Fleet, log: seq<Command>, network: Network)
    returns (outcome: Outcome, after: Fleet, sent: seq<Command>, ghost failed: nat)
    requires Begun(fleet) && (forall b <- participants :: b < |fleet|)
    requires Addressed(|fleet|, log) && start == Replay(fleet, log, network) && AllAnswered(network, |log|)
    requires forall i :: 0 <= i < |log| ==> log[i].verb.Rollback? && log[i].burrow !in participants
    requires Released(participants, fleet, start)
    ensures Addressed(|fleet|, sent) && after == Replay(fleet, sent, network)
    ensures Quiet(sent) && VotesFirst(sent) && VotesOf(participants, sent) && NoneCommitted(after)
    ensures outcome.Success? || outcome.Error?
    ensures network == [] ==> outcome.Success?
    ensures outcome.Error? ==> FirstFailure(network, 0, failed) && CleanedUp(participants, sent, failed)
    ensures outcome.Success? ==> AllAnswered(network, |sent|)
    ensures outcome.Success? ==> AllVoted(participants, fleet, after)
  {
    var ok;
    after, sent := start, log;
    VotingStarts(participants, fleet, start, log);
    for i := 0 to |fleet|
      invariant Addressed(|fleet|, sent) && after == Replay(fleet, sent, network) && AllAnswered(network, |sent|)
      invariant Voting(i, participants, fleet, start, after, sent)
    {
      if i in participants {
        VoteAsked(i, participants, fleet, start, after, sent);
        ghost var before, prior, fate := after, sent, Fate(network, |sent|);
        failed := |sent|;
        ok, after, sent := RunTransactionCommand(Prepare, i, after, sent, network, fleet);
        if !ok {
          after, sent := CleanUp(i, participants, fleet, after, sent, network, prior);
          return Error, after, sent, failed;
        }
        VoteCounted(i, participants, fleet, start, before, after, prior, fate);
        AnsweredAppended(network, 0, |sent| - 1);
      } else {
        VotePassed(i, participants, fleet, start, after, sent);
      }
    }
    VotingEnds(participants, fleet, start, after, sent);
    return Success, after, sent, 0;
  }

  ghost predicate VotesOf(participants: set<nat>, sent: seq<Command>) {
    forall j :: 0 <= j < |sent| && sent[j].verb.Prepare? ==> sent[j].burrow in participants
  }

  /** Rolls back the participants before the failed vote, which are prepared, and then the rest. */
  method CleanUp(
    failed: nat, participants: set<nat>, fleet: Fleet, start: Fleet, log: seq<Command>, network: Network,
    ghost prior: seq<Command>) returns (after: Fleet, sent: seq<Command>)
    requires failed < |fleet| && (forall b <- participants :: b < |fleet|)
    requires Addressed(|fleet|, log) && start == Replay(fleet, log, network)
    requires Asking(participants, log) && VotesFirst(log) && NoneCommitted(start)
    requires log == prior + [Command(Prepare, failed)] && VotesBelow(failed, participants, prior)
    ensures Addressed(|fleet|, sent) && after == Replay(fleet, sent, network)
    ensures Quiet(sent) && VotesFirst(sent) && VotesOf(participants, sent) && NoneCommitted(after)
    ensures log <= sent && CleanedUp(participants, sent, |log| - 1)
  {
    after, sent := UndoAll(RollbackPrepared, 0, failed, participants, fleet, start, log, network);
    ghost var undone := sent;
    after, sent := UndoAll(Rollback, failed, |fleet|, participants, fleet, after, sent, network);
    UndoneInTurn(failed, |fleet|, participants, prior, log, undone, sent);
  }

  lemma UndoneInTurn(
      failed: nat, n: nat, participants: set<nat>, prior: seq<Command>, log: seq<Command>, undone: seq<Command>, sent: seq<Command>)
    requires Asking(participants, log) && (forall b <- participants :: b < n)
    requires log == prior + [Command(Prepare, failed)] && VotesBelow(failed, participants, prior)
    requires Undone(RollbackPrepared, 0, failed, participants, log, undone)
    requires Undone(Rollback, failed, n, participants, undone, sent)
    ensures CleanedUp(participants, sent, |log| - 1) && VotesOf(participants, sent)
  {
    var k := |log| - 1;
    assert sent[..k] == prior;
    forall b <- participants
      ensures var undo := if Command(Prepare, b) in sent[..k] then Command(RollbackPrepared, b) else Command(Rollback, b);
        undo in sent[k + 1..]
    {
      assert undone[|log|..] <= sent[|log|..];
      if b < failed {
        assert Command(RollbackPrepared, b) in undone[|log|..];
      } else {
        assert Command(Rollback, b) in sent[|undone|..];
        assert sent[|undone|..] == sent[|log|..][|undone| - |log|..];
      }
    }
  }

  /** Beyond the first log, the second holds the command for every participant from lo up to hi, and nothing of
      another kind. */
  ghost predicate Undone(
      verb: Verb, lo: nat, hi: nat, participants: set<nat>, log: seq<Command>, sent: seq<Command>) {
    && log <= sent && (forall j :: |log| <= j < |sent| ==> sent[j].verb == verb)
    && (forall b <- participants :: lo <= b < hi ==> Command(verb, b) in sent[|log|..])
  }

  lemma UndoAppended(
      verb: Verb, i: nat, lo: nat, participants: set<nat>, log: seq<Command>, sent: seq<Command>, more: seq<Command>)
    requires Undone(verb, lo, i, participants, log, sent)
    requires more == sent + if i in participants then [Command(verb, i)] else []
    ensures Undone(verb, lo, i + 1, participants, log, more)
  {
    assert more[|log|..] == sent[|log|..] + more[|sent|..];
    if i in participants {
      assert more[|sent|..] == [Command(verb, i)];
    }
  }

  /** Best-effort roll back of the participants from `lo` up to `hi`; every answer is ignored. */
  method UndoAll(
    verb: Verb, lo: nat, hi: nat, participants: set<nat>, fleet: Fleet, start: Fleet, log: seq<Command>,
    network: Network) returns (after: Fleet, sent: seq<Command>)
    requires verb.Rollback? || verb.RollbackPrepared?
    requires lo <= hi <= |fleet|
    requires Addressed(|fleet|, log) && start == Replay(fleet, log, network)
    requires Quiet(log) && VotesFirst(log) && NoneCommitted(start)
    ensures Addressed(|fleet|, sent) && after == Replay(fleet, sent, network)
    ensures Quiet(sent) && VotesFirst(sent) && NoneCommitted(after)
    ensures Undone(verb, lo, hi, participants, log, sent)
  {
    after, sent := start, log;
    for i := lo to hi
      invariant Addressed(|fleet|, sent) && after == Replay(fleet, sent, network)
      invariant Quiet(sent) && VotesFirst(sent) && NoneCommitted(after)
      invariant Undone(verb, lo, i, participants, log, sent)
    {
      ghost var before := sent;
      if i in participants {
        var _, after', sent' := RunTransactionCommand(verb, i, after, sent, network, fleet);
        after, sent := after', sent';
      }
      UndoAppended(verb, i, lo, participants, log, before, sent);
    }
  }

  lemma CommitTaken(
      i: nat, participants: set<nat>, fleet: Fleet, start: Fleet, before: Fleet, after: Fleet, delivery: Delivery)
    requires CommittedBelow(i, participants, fleet, start, before) && i in participants && i < |fleet|
    requires Begun(fleet) && AllVoted(participants, fleet, start)
    requires after == before[i := Deliver(CommitPrepared, before[i], delivery).0]
    requires Deliver(CommitPrepared, before[i], delivery).1
    ensures delivery.Answered? && fleet[i].Open? && CommittedBelow(i + 1, participants, fleet, start, after)
  {
  }

  lemma StoppedFirst(i: nat, fleet: Fleet, from: nat, log: seq<Command>, network: Network)
    requires AnsweredFrom(network, from, |log|) && from <= |log| && i < |fleet|
    requires Fate(network, |log|).Answered? ==> !fleet[i].Open?
    ensures FirstFailureOf(network, fleet, log + [Command(CommitPrepared, i)], from)
  {
  }

  lemma CommitStopped(
      i: nat, participants: set<nat>, fleet: Fleet, start: Fleet, before: Fleet, after: Fleet, delivery: Delivery)
    requires CommittedBelow(i, participants, fleet, start, before) && i in participants && i < |fleet|
    requires Begun(fleet) && AllVoted(participants, fleet, start)
    requires forall b <- participants :: b < |fleet|
    requires after == before[i := Deliver(CommitPrepared, before[i], delivery).0]
    requires !Deliver(CommitPrepared, before[i], delivery).1
    ensures delivery.Answered? ==> !fleet[i].Open?
    ensures forall b <- participants :: (after[b].Committed? || after[b].Prepared?) <==> fleet[b].Open?
    ensures forall b :: 0 <= b < |fleet| && b !in participants ==> after[b].RolledBack?
  {
  }

  /** The second phase.  The first failure leaves the rest prepared and reports the commit as in
      doubt. */
  method CommitAll(participants: set<nat>, fleet: Fleet, start: Fleet, log: seq<Command>, network: Network)
    returns (outcome: Outcome, after: Fleet, sent: seq<Command>)
    requires Begun(fleet) && (forall b <- participants :: b < |fleet|)
    requires Addressed(|fleet|, log) && start == Replay(fleet, log, network)
    requires AllVoted(participants, fleet, start)
    ensures Addressed(|fleet|, sent) && after == Replay(fleet, sent, network)
    ensures log <= sent && Committing(participants, |fleet|, |log|, sent)
    ensures outcome.Success? || outcome.InDoubt?
    ensures outcome.InDoubt? ==> FirstFailureOf(network, fleet, sent, |log|)
    ensures network == [] && (forall b <- participants :: fleet[b].Open?) ==> outcome.Success?
    ensures outcome.Success? ==> forall b <- participants :: after[b].Committed? && fleet[b].Open?
    ensures outcome.InDoubt? ==>
      forall b <- participants :: (after[b].Committed? || after[b].Prepared?) <==> fleet[b].Open?
    ensures forall b :: 0 <= b < |fleet| && b !in participants ==> after[b].RolledBack?
  {
    var ok;
    after, sent := start, log;
    for i := 0 to |fleet|
      invariant Addressed(|fleet|, sent) && after == Replay(fleet, sent, network)
      invariant log <= sent && Committing(participants, i, |log|, sent) && AnsweredFrom(network, |log|, |sent|)
      invariant CommittedBelow(i, participants, fleet, start, after)
    {
      if i in participants {
        CommitAppended(participants, i, |log|, sent);
        ghost var before, prior, fate := after, sent, Fate(network, |sent|);
        ok, after, sent := RunTransactionCommand(CommitPrepared, i, after, sent, network, fleet);
        if !ok {
          CommitStopped(i, participants, fleet, start, before, after, fate);
          StoppedFirst(i, fleet, |log|, prior, network);
          return InDoubt, after, sent;
        }
        CommitTaken(i, participants, fleet, start, before, after, fate);
        AnsweredAppended(network, |log|, |sent| - 1);
      } else {
        CommitPassed(participants, i, |log|, sent, fleet, start, after);
      }
    }
    return Success, after, sent;
  }
}
