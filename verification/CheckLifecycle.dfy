/** What a dependency's deletion, its pausing, a blocked URL and an abort rule out, over whole runs. */
module CheckLifecycle {
  import opened CheckQuorum
  import opened Options
  import opened OrderedQuery
  import Runs

  // ---------------------------------------------------------------- deletion

  /** An evaluation on a deleted dependency reads no row and decides nothing. */
  lemma DeletedDecidesNothing(s: State, t: TxId, own: Row, recent: seq<TxId>)
    requires !s.live && Evaluating(s, t, own, recent).Some?
    ensures Evaluating(s, t, own, recent) == Some(Decision(false, Keep))
  {
    assert RecentKeys(s, t, own) == map[];
  }

  predicate Undecided(tx: Tx) {
    Judged(tx) ==> !tx.row.quorumConfirmed && (tx.Evaluated? ==> tx.change.Keep?)
  }

  /** Since `start` the dependency is deleted: no check has begun, and none has decided anything. */
  ghost predicate Stopped(start: State, s: State) {
    && !s.live && s.txs.Keys == start.txs.Keys
    && (forall t :: t in s.txs ==> Judged(start.txs[t]) || Undecided(s.txs[t]))
  }

  lemma EvaluationUndecided(start: State, s: State, a: Action, s': State)
    requires Stopped(start, s) && a.Evaluate? && Step(s, a) == Some(s')
    ensures Stopped(start, s')
  {
    DeletedDecidesNothing(s, a.tx, s.txs[a.tx].row, a.recent);
    assert forall t :: t in s.txs && t != a.tx ==> s'.txs[t] == s.txs[t];
  }

  lemma StoppedKept(start: State, s: State, a: Action, s': State)
    requires Stopped(start, s) && Step(s, a) == Some(s')
    ensures Stopped(start, s')
  {
    if a.Evaluate? {
      EvaluationUndecided(start, s, a, s');
    } else if !a.Pass? && !a.SoftDelete? && !a.SetActive? {
      assert forall t :: t in s.txs && t != a.tx ==> s'.txs[t] == s.txs[t];
    }
  }

  /** Once a dependency is soft-deleted, in every continuation no check of it begins, and no check that
      had not been evaluated by then is confirmed or changes an incident. */
  lemma DeletionStopsChecks(before: State, s: State, actions: seq<Action>, s': State)
    requires Step(before, SoftDelete) == Some(s) && Runs.Run(Step, s, actions) == Some(s')
    ensures !s.active && !s'.live && s'.txs.Keys == s.txs.Keys
    ensures forall t :: t in s'.txs && Judged(s'.txs[t]) && !Judged(s.txs[t]) ==>
              !s'.txs[t].row.quorumConfirmed && (s'.txs[t].Evaluated? ==> s'.txs[t].change == Keep)
  {
    var stopped := (x: State) => Stopped(s, x);
    forall x, a | stopped(x) && Step(x, a).Some? ensures stopped(Step(x, a).value) {
      StoppedKept(s, x, a, Step(x, a).value);
    }
    Runs.RunPreserves(Step, stopped, s, actions);
  }

  // ---------------------------------------------------------------- aborts

  /** Until it has committed, a check can abort in any state; its row is then never stored, the lock is
      not its own any more, and no other transaction and no incident has changed. */
  lemma AbortLeavesNothing(now: int, actions: seq<Action>, s: State, t: TxId)
    requires Runs.Run(Step, Fresh(now), actions) == Some(s)
    requires t in s.txs && !Stored(s.txs[t]) && !s.txs[t].Aborted?
    ensures Step(s, Abort(t)).Some?
    ensures var s' := Step(s, Abort(t)).value;
            && s'.txs == s.txs[t := Aborted] && s'.incidents == s.incidents && s'.log == s.log
            && s'.lock == if HasLocked(s.txs[t]) then None else s.lock
  {
    ReachableInv(now, actions, s);
    assert TxSane(s, t, s.txs[t]);
  }

  // ---------------------------------------------------------------- pausing

  ghost function PausedStep(s: State, a: Action): Option<State> {
    if a == SetActive(true) then None else Step(s, a)
  }

  /** While a dependency is paused no check of it begins, whatever the checks under way do. */
  lemma PausedBeginsNothing(s: State, actions: seq<Action>, s': State)
    requires !s.active && Runs.Run(PausedStep, s, actions) == Some(s')
    ensures !s'.active && s'.txs.Keys == s.txs.Keys
  {
    var paused := (x: State) => !x.active && x.txs.Keys == s.txs.Keys;
    forall x, a | paused(x) && PausedStep(x, a).Some? ensures paused(PausedStep(x, a).value) {
      PausedKept(x, a, PausedStep(x, a).value);
    }
    Runs.RunPreserves(PausedStep, paused, s, actions);
  }

  lemma PausedKept(s: State, a: Action, s': State)
    requires !s.active && PausedStep(s, a) == Some(s')
    ensures !s'.active && s'.txs.Keys == s.txs.Keys
  {
    if !a.Pass? && !a.SoftDelete? && !a.SetActive? {
      assert s'.active == s.active;
    }
  }

  // ---------------------------------------------------------------- blocked checks

  /** The transaction of a check whose URL was blocked: its failure is stored as it is, or not at all. */
  predicate StaysBlocked(tx: Tx, row: Row) {
    || (tx.Inserted? && tx.blocked && tx.row == row)
    || (tx.CommittedBlocked? && tx.row == row)
    || tx.Aborted?
  }

  lemma BlockedKept(s: State, a: Action, s': State, t: TxId, row: Row)
    requires t in s.txs && StaysBlocked(s.txs[t], row) && Step(s, a) == Some(s')
    ensures t in s'.txs && StaysBlocked(s'.txs[t], row)
  {
    if !a.Pass? && !a.SoftDelete? && !a.SetActive? && a.tx != t {
      assert s'.txs[t] == s.txs[t];
    }
  }

  /** A check whose URL was blocked records a failure and never takes the lock, evaluates or is
      confirmed, in any continuation. */
  lemma BlockedNeverEvaluates(
    before: State, t: TxId, s: State, actions: seq<Action>, s': State)
    requires Step(before, InsertBlocked(t)) == Some(s) && Runs.Run(Step, s, actions) == Some(s')
    ensures t in s'.txs && !HasLocked(s'.txs[t])
    ensures Stored(s'.txs[t]) ==> !s'.txs[t].row.isUp && !s'.txs[t].row.quorumConfirmed
  {
    var row := s.txs[t].row;
    var blocked := (x: State) => t in x.txs && StaysBlocked(x.txs[t], row);
    forall x, a | blocked(x) && Step(x, a).Some? ensures blocked(Step(x, a).value) {
      BlockedKept(x, a, Step(x, a).value, t, row);
    }
    Runs.RunPreserves(Step, blocked, s, actions);
  }
}
