/**
 The release state graph and its single write path, a compare-and-set on the
 status column that also appends to the audit trail
 (internal/release/statemachine.go, TransitionTx in store/postgres/release.go).
 */
module ReleaseStates {

  datatype Status =
    | Pending | Planning | Ready | Executing | Paused
    | Succeeded | Failed | RollingBack | RolledBack | Cancelled

  function Targets(from: Status): seq<Status> {
    match from
    case Pending => [Planning, Cancelled]
    case Planning => [Ready, Cancelled, Failed]
    case Ready => [Executing, Cancelled]
    case Executing => [Paused, Status.Succeeded, Failed]
    case Paused => [Executing, RollingBack, Cancelled]
    case Succeeded => []
    case Failed => [RollingBack, Cancelled]
    case RollingBack => [RolledBack, Failed]
    case RolledBack => []
    case Cancelled => []
  }

  predicate CanTransition(from: Status, to: Status) {
    to in Targets(from)
  }

  predicate IsTerminal(st: Status) {
    Targets(st) == []
  }

  /** Who may enter each state. */
  lemma EntriesAre(from: Status, to: Status)
    ensures CanTransition(from, to) <==>
              match to
              case Pending => false
              case Planning => from == Pending
              case Ready => from == Planning
              case Executing => from in {Ready, Paused}
              case Paused => from == Executing
              case Succeeded => from == Executing
              case Failed => from in {Planning, Executing, RollingBack}
              case RollingBack => from in {Paused, Failed}
              case RolledBack => from == RollingBack
              case Cancelled => from in {Pending, Planning, Ready, Paused, Failed}
    ensures IsTerminal(from) <==> from in {Status.Succeeded, RolledBack, Cancelled}
  {
  }

  datatype Edge = Edge(from: Status, to: Status)

  /** The status column together with the committed rows of release_state_history. */
  datatype Row = Row(status: Status, history: seq<Edge>)

  const NEW_ROW := Row(Pending, [])

  predicate Wins(r: Row, from: Status, to: Status) {
    CanTransition(from, to) && r.status == from
  }

  /** One committed or rejected transition; `from` is whatever the caller read earlier. */
  function Cas(r: Row, from: Status, to: Status): Row {
    if Wins(r, from, to) then Row(to, r.history + [Edge(from, to)]) else r
  }

  /** The audit trail read backwards: each edge is legal and starts where the previous one ended. */
  predicate LegalTrail(h: seq<Edge>, st: Status) {
    if h == [] then st == Pending
    else
      var last := h[|h| - 1];
      last.to == st && CanTransition(last.from, last.to) && LegalTrail(h[..|h| - 1], last.from)
  }

  predicate ValidRow(r: Row) {
    LegalTrail(r.history, r.status)
  }

  /** Whether a rollback was ever started. */
  predicate EverRollingBack(h: seq<Edge>) {
    h != [] && (h[|h| - 1].to == RollingBack || EverRollingBack(h[..|h| - 1]))
  }

  predicate RollbackStarted(r: Row) {
    EverRollingBack(r.history)
  }

  /** The states a release can still visit once it has failed or started rolling back. */
  predicate AfterFailure(st: Status) {
    st in {Failed, RollingBack, RolledBack, Cancelled}
  }

  /** The audit trail is a connected path of legal edges from Pending to the current status. */
  ghost predicate ConnectedPath(r: Row) {
    var h := r.history;
    && (forall i :: 0 <= i < |h| ==> CanTransition(h[i].from, h[i].to))
    && (forall i :: 0 < i < |h| ==> h[i].from == h[i - 1].to)
    && (if h == [] then r.status == Pending else h[0].from == Pending && h[|h| - 1].to == r.status)
  }

  /** Terminal states are never left, and neither execution nor success follows a failure. */
  ghost predicate NoReturn(r: Row) {
    var h := r.history;
    && (forall i :: 0 <= i < |h| ==> !IsTerminal(h[i].from))
    && (forall i, j :: 0 <= i <= j < |h| && h[i].to in {Failed, RollingBack} ==> AfterFailure(h[j].to))
  }

  lemma StepFacts(from: Status, to: Status)
    requires CanTransition(from, to)
    ensures !IsTerminal(from)
    ensures AfterFailure(from) ==> AfterFailure(to)
  {
  }

  lemma {:induction false} ValidRowIsConnected(r: Row)
    requires ValidRow(r)
    ensures ConnectedPath(r)
    decreases |r.history|
  {
    var h := r.history;
    if h != [] {
      var n := |h| - 1;
      var front := Row(h[n].from, h[..n]);
      ValidRowIsConnected(front);
      forall i | 0 <= i < |h|
        ensures CanTransition(h[i].from, h[i].to) && (i > 0 ==> h[i].from == h[i - 1].to)
      {
        assert i < n ==> h[i] == front.history[i];
        assert 0 < i <= n ==> h[i - 1] == front.history[i - 1];
      }
    }
  }

  lemma {:induction false} ConnectedPathNeverReturns(r: Row)
    requires ConnectedPath(r)
    ensures NoReturn(r)
  {
    var h := r.history;
    forall i | 0 <= i < |h|
      ensures !IsTerminal(h[i].from)
    {
      StepFacts(h[i].from, h[i].to);
    }
    forall i, j | 0 <= i <= j < |h| && h[i].to in {Failed, RollingBack}
      ensures AfterFailure(h[j].to)
    {
      FailureCarries(r, i, j);
    }
  }

  lemma {:induction false} FailureCarries(r: Row, i: nat, j: nat)
    requires ConnectedPath(r) && i <= j < |r.history| && AfterFailure(r.history[i].to)
    ensures AfterFailure(r.history[j].to)
    decreases j
  {
    if i < j {
      FailureCarries(r, i, j - 1);
      StepFacts(r.history[j].from, r.history[j].to);
    }
  }

  lemma {:induction false} RollbackStartedIsAfterFailure(r: Row)
    requires ValidRow(r) && RollbackStarted(r)
    ensures AfterFailure(r.status)
    decreases |r.history|
  {
    var h := r.history;
    if h[|h| - 1].to != RollingBack {
      RollbackStartedIsAfterFailure(Row(h[|h| - 1].from, h[..|h| - 1]));
    }
  }

  /** Every swap keeps the trail legal, and only a committed swap to RollingBack starts a rollback. */
  lemma CasFacts(r: Row, from: Status, to: Status)
    ensures ValidRow(r) ==> ValidRow(Cas(r, from, to))
    ensures RollbackStarted(Cas(r, from, to)) <==> RollbackStarted(r) || (Wins(r, from, to) && to == RollingBack)
  {
    if Wins(r, from, to) {
      assert (r.history + [Edge(from, to)])[..|r.history|] == r.history;
    }
  }

  // ── Concurrent callers ─────────────────────────────────────────────────────
  //
  // The row lock makes each attempt atomic, so any interleaving of concurrent
  // callers is some sequence of attempts, each with a `from` that may be stale.

  datatype Attempt = Attempt(from: Status, to: Status)

  function Commit(r: Row, attempts: seq<Attempt>): Row
    decreases |attempts|
  {
    if attempts == [] then r
    else Commit(Cas(r, attempts[0].from, attempts[0].to), attempts[1..])
  }

  /** How many of the attempts committed. */
  function Commits(r: Row, attempts: seq<Attempt>): nat
    decreases |attempts|
  {
    if attempts == [] then 0
    else
      var a := attempts[0];
      (if Wins(r, a.from, a.to) then 1 else 0) + Commits(Cas(r, a.from, a.to), attempts[1..])
  }

  /** Whatever the interleaving, the audit trail stays a legal connected path that only grows,
      one row per committed attempt. */
  lemma {:induction false} HistoryIsALegalPath(r: Row, attempts: seq<Attempt>)
    requires ValidRow(r)
    ensures ValidRow(Commit(r, attempts)) && ConnectedPath(Commit(r, attempts)) && NoReturn(Commit(r, attempts))
    ensures r.history <= Commit(r, attempts).history
    ensures |Commit(r, attempts).history| == |r.history| + Commits(r, attempts)
    decreases |attempts|
  {
    if attempts == [] {
      ValidRowIsConnected(r);
      ConnectedPathNeverReturns(r);
    } else {
      var a := attempts[0];
      CasFacts(r, a.from, a.to);
      HistoryIsALegalPath(Cas(r, a.from, a.to), attempts[1..]);
    }
  }

  /** Succeeded, rolled-back and cancelled releases are frozen: row and audit trail. */
  lemma {:induction false} TerminalIsFrozen(r: Row, attempts: seq<Attempt>)
    requires IsTerminal(r.status)
    ensures Commit(r, attempts) == r
    decreases |attempts|
  {
    if attempts != [] {
      TerminalIsFrozen(r, attempts[1..]);
    }
  }

  /** Once failed or rolling back, a release never executes or succeeds again. */
  lemma {:induction false} FailureIsFinal(r: Row, attempts: seq<Attempt>)
    requires AfterFailure(r.status)
    ensures AfterFailure(Commit(r, attempts).status)
    decreases |attempts|
  {
    if attempts != [] {
      var a := attempts[0];
      FailureIsFinal(Cas(r, a.from, a.to), attempts[1..]);
    }
  }

  /** Of any number of racing callers that all request the same edge from the current status,
      exactly one commits. */
  lemma {:induction false} ExactlyOneRacerWins(r: Row, attempts: seq<Attempt>, from: Status, to: Status)
    requires forall i :: 0 <= i < |attempts| ==> attempts[i] == Attempt(from, to)
    requires CanTransition(from, to)
    ensures Commits(r, attempts) == if r.status == from && attempts != [] then 1 else 0
    decreases |attempts|
  {
    if attempts != [] {
      ExactlyOneRacerWins(Cas(r, from, to), attempts[1..], from, to);
    }
  }
}
