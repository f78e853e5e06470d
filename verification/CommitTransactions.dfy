/** Write participants of one explicit transaction, and the atomicity of its COMMIT.

    The statements of a transaction body all succeed.  A body may hold a redundant BEGIN:
    PostgreSQL answers it with a warning and keeps the transaction, while the Proxy's bookkeeping
    starts over.  That is the only way the recorded participants can miss a written Burrow. */
module Transactions {
  import opened TwoPhase

  datatype Statement =
    | Begin
    | Savepoint
    | RollbackTo
    | Release
    | Read
    | RoutedWrite(targets: set<nat>)  // led by INSERT, UPDATE, DELETE or MERGE
    | CopyFrom(targets: set<nat>)
    | FleetDdl

  /** The Burrows on which a statement writes, in a fleet of n Burrows. */
  function Targets(statement: Statement, n: nat): set<nat> {
    match statement
    case RoutedWrite(targets) => targets
    case CopyFrom(targets) => targets
    case FleetDdl => AllBurrows(n)
    case _ => {}
  }

  predicate InFleet(body: seq<Statement>, n: nat) {
    forall i :: 0 <= i < |body| ==> forall b <- Targets(body[i], n) :: b < n
  }

  /** Every Burrow the body writes. */
  function Written(body: seq<Statement>, n: nat): set<nat> {
    if body == [] then {} else Written(body[..|body| - 1], n) + Targets(body[|body| - 1], n)
  }

  /** Those written after the last redundant BEGIN, or at all when there is none. */
  function SinceBegin(body: seq<Statement>, n: nat): set<nat> {
    if body == [] || body[|body| - 1].Begin? then
      {}
    else
      SinceBegin(body[..|body| - 1], n) + Targets(body[|body| - 1], n)
  }

  /** Those written before the last redundant BEGIN. */
  function BeforeBegin(body: seq<Statement>, n: nat): set<nat> {
    if body == [] then
      {}
    else if body[|body| - 1].Begin? then
      Written(body[..|body| - 1], n)
    else
      BeforeBegin(body[..|body| - 1], n)
  }

  lemma {:induction false} WrittenSplitsAtBegin(body: seq<Statement>, n: nat)
    ensures Written(body, n) == BeforeBegin(body, n) + SinceBegin(body, n)
  {
    if body != [] && !body[|body| - 1].Begin? {
      WrittenSplitsAtBegin(body[..|body| - 1], n);
    }
  }

  lemma {:induction false} WrittenInFleet(body: seq<Statement>, n: nat)
    requires InFleet(body, n)
    ensures forall b <- Written(body, n) :: b < n
    ensures forall b <- SinceBegin(body, n) :: b < n
  {
    if body != [] {
      WrittenInFleet(body[..|body| - 1], n);
    }
  }

  class ExtendedState {
    var transaction: bool
    var mutated: bool
    var participants: set<nat>

    constructor ()
      ensures !transaction && !mutated && participants == {}
    {
      transaction, mutated, participants := false, false, {};
    }

    /** Fleet-wide order is asked for only when a schema change has two targets or more. */
    method RecordWriteParticipants(statement: Statement, targets: set<nat>, targetCount: nat)
      modifies this
      ensures transaction == old(transaction)
      ensures transaction && (statement.RoutedWrite? || (statement.FleetDdl? && targetCount >= 2)) ==>
        mutated && participants == old(participants) + targets
      ensures !(transaction && (statement.RoutedWrite? || (statement.FleetDdl? && targetCount >= 2))) ==>
        mutated == old(mutated) && participants == old(participants)
    {
      if !transaction || (!statement.RoutedWrite? && !(statement.FleetDdl? && targetCount >= 2)) {
        return;
      }
      participants := participants + targets;
      mutated := true;
    }

    method MarkWriteParticipants(targets: set<nat>)
      modifies this
      ensures transaction == old(transaction)
      ensures transaction ==> mutated && participants == old(participants) + targets
      ensures !transaction ==> mutated == old(mutated) && participants == old(participants)
    {
      if transaction {
        participants := participants + targets;
        mutated := true;
      }
    }

    method UpdateTransactionStatement(statement: Statement)
      modifies this
      ensures statement.Begin? ==> transaction && !mutated && participants == {}
      ensures !statement.Begin? ==> mutated == old(mutated) && participants == old(participants)
      ensures !statement.Begin? ==> transaction == (old(transaction) || statement.RollbackTo?)
    {
      match statement
      case Begin => transaction, mutated, participants := true, false, {};
      case RollbackTo => transaction := true;
      case _ =>
    }

    /** The bookkeeping after one successful statement. */
    method ApplySuccessful(statement: Statement, n: nat)
      requires n >= 2
      modifies this
      ensures statement.Begin? ==> transaction && !mutated && participants == {}
      ensures !statement.Begin? && old(transaction) ==>
        && transaction
        && participants == old(participants) + Targets(statement, n)
        && (old(mutated) || Targets(statement, n) != {} ==> mutated)
    {
      var targets := Targets(statement, n);
      if statement.CopyFrom? {
        MarkWriteParticipants(targets);
      } else {
        RecordWriteParticipants(statement, targets, if statement.FleetDdl? then n else |targets|);
      }
      UpdateTransactionStatement(statement);
    }
  }

  ghost predicate AllCommitted(written: set<nat>, after: Fleet)
    requires forall b <- written :: b < |after|
  {
    forall b <- written :: after[b].Committed?
  }

  /** All of the written Burrows have committed, none have, or the result says in doubt. */
  ghost predicate Atomic(written: set<nat>, after: Fleet, outcome: Outcome)
    requires forall b <- written :: b < |after|
  {
    outcome.InDoubt? || AllCommitted(written, after) || (forall b <- written :: !after[b].Committed?)
  }

  /** The state each Burrow reaches on a COMMIT broadcast to the whole fleet. */
  ghost predicate Broadcast(after: Fleet, network: Network) {
    forall b :: 0 <= b < |after| ==> after[b] == Deliver(Commit, Open, Fate(network, b)).0
  }

  method CommitEverywhere(n: nat, network: Network) returns (outcome: Outcome, after: Fleet)
    ensures |after| == n && Broadcast(after, network)
    ensures outcome.Success? ==> forall b :: 0 <= b < n ==> after[b].Committed?
    ensures !outcome.InDoubt?
  {
    outcome, after := Success, [];
    for b := 0 to n
      invariant |after| == b && Broadcast(after, network) && !outcome.InDoubt?
      invariant outcome.Success? ==> forall i :: 0 <= i < b ==> after[i].Committed?
    {
      var answer := Deliver(Commit, Open, Fate(network, b));
      after := after + [answer.0];
      if !answer.1 {
        outcome := Error;
      }
    }
  }

  /** BEGIN, the body, COMMIT.  When every Burrow written before the last redundant BEGIN is
      written again after it, the commit is atomic on every network, and otherwise two-phase
      commit commits exactly the Burrows written since that BEGIN. */
  method RunTransaction(body: seq<Statement>, n: nat, network: Network) returns (outcome: Outcome, after: Fleet)
    requires n >= 2 && InFleet(body, n)
    ensures |after| == n && (forall b <- Written(body, n) :: b < n)
    ensures BeforeBegin(body, n) <= SinceBegin(body, n) ==> Atomic(Written(body, n), after, outcome)
    ensures BeforeBegin(body, n) <= SinceBegin(body, n) && outcome.Success? ==>
      AllCommitted(Written(body, n), after)
    ensures |SinceBegin(body, n)| > 1 && outcome.Success? ==>
      forall b :: 0 <= b < n ==> (after[b].Committed? <==> b in SinceBegin(body, n))
    ensures |SinceBegin(body, n)| > 1 && network == [] ==> outcome.Success?
    ensures |SinceBegin(body, n)| <= 1 ==> Broadcast(after, network) && !outcome.InDoubt?
  {
    var state := new ExtendedState();
    state.ApplySuccessful(Begin, n);
    for i := 0 to |body|
      invariant state.transaction
      invariant state.participants == SinceBegin(body[..i], n)
      invariant state.participants != {} ==> state.mutated
    {
      assert body[..i + 1][..i] == body[..i];
      state.ApplySuccessful(body[i], n);
    }
    assert body[..|body|] == body;
    WrittenInFleet(body, n);
    WrittenSplitsAtBegin(body, n);
    if state.transaction && state.mutated && |state.participants| > 1 {
      var fleet := seq(n, _ => Open);
      var sent;
      ghost var votes, failed;
      outcome, after, sent, votes, failed := CommitTwoPhase(state.participants, fleet, network);
    } else {
      outcome, after := CommitEverywhere(n, network);
      if |state.participants| <= 1 {
        AtMostOneElement(state.participants);
      }
    }
  }

  lemma AtMostOneElement(s: set<nat>)
    requires |s| <= 1
    ensures forall a, b :: a in s && b in s ==> a == b
  {
    forall a, b | a in s && b in s
      ensures a == b
    {
      assert |s - {a}| == |s| - 1;
      assert b !in s - {a};
    }
  }

  /** The condition of `RunTransaction` is exact as soon as two Burrows are written: for any other
      body there is a network on which some written Burrows commit, others do not, and the result
      is not in doubt.  With two or more recorded participants that network loses nothing. */
  method SplitTransaction(body: seq<Statement>, n: nat) returns (network: Network, outcome: Outcome, after: Fleet)
    requires n >= 2 && InFleet(body, n)
    requires !(BeforeBegin(body, n) <= SinceBegin(body, n)) && |Written(body, n)| > 1
    ensures |after| == n && (forall b <- Written(body, n) :: b < n)
    ensures !Atomic(Written(body, n), after, outcome)
    ensures |SinceBegin(body, n)| > 1 ==> network == [] && outcome.Success?
  {
    ghost var since, written := SinceBegin(body, n), Written(body, n);
    WrittenInFleet(body, n);
    WrittenSplitsAtBegin(body, n);
    var lost: nat :| lost in Written(body, n);
    if |SinceBegin(body, n)| > 1 {
      // The answered network: a Burrow missing from the participants is rolled back.
      network := [];
      ghost var kept :| kept in since;
      ghost var missed :| missed in BeforeBegin(body, n) && missed !in since;
      outcome, after := RunTransaction(body, n, network);
    } else {
      // A plain broadcast: losing the COMMIT to one written Burrow is enough.
      network := seq(n, b => if b == lost then Lost(false) else Answered);
      ghost var kept := AnotherElement(written, lost);
      assert Fate(network, lost) == Lost(false) && Fate(network, kept) == Answered;
      outcome, after := RunTransaction(body, n, network);
      assert !after[lost].Committed? && after[kept].Committed?;
    }
  }

  lemma AnotherElement(s: set<nat>, x: nat) returns (y: nat)
    requires |s| > 1 && x in s
    ensures y in s && y != x
  {
    var rest := s - {x};
    assert |rest| == |s| - 1;
    y :| y in rest;
  }
}
