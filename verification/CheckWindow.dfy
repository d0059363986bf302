/** What opening and resolving incidents means in terms of the 60 s window and of consecutive
    successes: the exact conditions, over every run of the check transactions. */
module CheckWindow {
  import opened CheckQuorum
  import opened Options
  import opened OrderedQuery
  import Runs

  // ---------------------------------------------------------------- times

  predicate HasRow(tx: Tx) {
    !tx.Probing? && !tx.Aborted?
  }

  /** Rows carry times that have passed, and what was committed before an evaluation is no later. */
  ghost predicate TimesOrdered(s: State) {
    && (forall t :: t in s.txs && HasRow(s.txs[t]) ==> s.txs[t].row.executedAt <= s.now)
    && (forall t :: t in s.txs && Judged(s.txs[t]) ==> s.txs[t].row.executedAt <= s.txs[t].eval.at <= s.now)
    && (forall r, q :: r in s.txs && q in s.txs && Stored(s.txs[r]) && Judged(s.txs[q]) &&
                       s.txs[r].commitTick < s.txs[q].eval.tick ==>
          s.txs[r].row.executedAt <= s.txs[q].eval.at)
  }

  /** How a step treats a transaction's times. */
  predicate KeepsTimes(s: State, t: TxId, after: Tx) {
    || !HasRow(after)
    || (after.Inserted? && after.row.executedAt == s.now)
    || (t in s.txs && HasRow(s.txs[t]) && after.row.executedAt == s.txs[t].row.executedAt
        && (Stored(after) ==> after == s.txs[t] || after.commitTick == s.tick)
        && (Judged(after) ==>
              || (Judged(s.txs[t]) && after.eval == s.txs[t].eval)
              || (after.eval.tick == s.tick && after.eval.at == s.now)))
  }

  lemma StepKeepsTimes(s: State, a: Action, s': State, t: TxId)
    requires Step(s, a) == Some(s') && t in s'.txs
    ensures s'.now >= s.now && KeepsTimes(s, t, s'.txs[t])
  {
    if a.Evaluate? {
      EvaluateKeepsTimes(s, a.tx, a.recent, s', t);
    } else {
      OthersKeepTimes(s, a, s', t);
    }
  }

  lemma EvaluateShapes(s: State, x: TxId, recent: seq<TxId>, s': State)
    requires Step(s, Evaluate(x, recent)) == Some(s')
    ensures x in s.txs && s.txs[x].Locked? && x in s'.txs && s'.txs == s.txs[x := s'.txs[x]] && s'.now == s.now
    ensures s'.txs[x].Evaluated? && s'.txs[x].row.executedAt == s.txs[x].row.executedAt
    ensures s'.txs[x].eval == Evaluation(s.tick, s.now, s.live)
  {
    var d := Evaluating(s, x, s.txs[x].row, recent);
    assert d.Some?;
  }

  lemma EvaluateKeepsTimes(s: State, x: TxId, recent: seq<TxId>, s': State, t: TxId)
    requires Step(s, Evaluate(x, recent)) == Some(s') && t in s'.txs
    ensures s'.now == s.now && KeepsTimes(s, t, s'.txs[t])
  {
    EvaluateShapes(s, x, recent, s');
    if t != x {
      assert s'.txs[t] == s.txs[t];
    }
  }

  lemma OthersKeepTimes(s: State, a: Action, s': State, t: TxId)
    requires !a.Evaluate? && Step(s, a) == Some(s') && t in s'.txs
    ensures s'.now >= s.now && KeepsTimes(s, t, s'.txs[t])
  {
  }

  lemma TimesOrderedKept(s: State, a: Action, s': State)
    requires Bookkeeping(s) && TimesOrdered(s) && Step(s, a) == Some(s')
    ensures TimesOrdered(s')
  {
    forall t | t in s'.txs ensures s'.now >= s.now && KeepsTimes(s, t, s'.txs[t]) {
      StepKeepsTimes(s, a, s', t);
    }
    OrderKept(s, s');
  }

  lemma OrderKept(s: State, s': State)
    requires Bookkeeping(s) && TimesOrdered(s) && s'.now >= s.now
    requires forall t :: t in s'.txs ==> KeepsTimes(s, t, s'.txs[t])
    ensures TimesOrdered(s')
  {
    forall r, q | r in s'.txs && q in s'.txs && Stored(s'.txs[r]) && Judged(s'.txs[q]) &&
                  s'.txs[r].commitTick < s'.txs[q].eval.tick
      ensures s'.txs[r].row.executedAt <= s'.txs[q].eval.at
    {
      assert KeepsTimes(s, r, s'.txs[r]) && KeepsTimes(s, q, s'.txs[q]);
      assert TxSane(s, r, s.txs[r]) && TxSane(s, q, s.txs[q]);
    }
  }

  // ---------------------------------------------------------------- two regions inside the window

  /** A failure `q` could count at its evaluation: inside the window, its own or committed. */
  ghost predicate Counted(s: State, q: Tx, row: Row)
    requires Judged(q)
  {
    && !row.isUp && q.eval.at - 60_000_000 <= row.executedAt <= q.eval.at
    && (row == q.row || exists r :: r in s.txs && ReadFailure(q, s.txs[r]) && s.txs[r].row == row)
  }

  predicate ReadFailure(q: Tx, r: Tx)
    requires Judged(q)
  {
    && Stored(r) && !r.row.isUp && r.commitTick < q.eval.tick
    && q.eval.at - 60_000_000 <= r.row.executedAt <= q.eval.at
  }

  ghost predicate TwoRegionsInWindow(s: State, q: Tx)
    requires Judged(q)
  {
    exists a, b :: Counted(s, q, a) && Counted(s, q, b) && a.region != b.region
  }

  /** The failing rows read from the table cover two regions before the check adds its own. */
  ghost predicate TableSuffices(s: State, q: Tx)
    requires Judged(q)
  {
    exists r, u :: r in s.txs && u in s.txs && ReadFailure(q, s.txs[r]) && ReadFailure(q, s.txs[u]) &&
                   s.txs[r].row.region != s.txs[u].row.region
  }

  lemma ReachableTimes(now: int, actions: seq<Action>, s: State)
    requires Runs.Run(Step, Fresh(now), actions) == Some(s)
    ensures Inv(s) && TimesOrdered(s)
  {
    var inv := (x: State) => Inv(x) && TimesOrdered(x);
    forall x, a | inv(x) && Step(x, a).Some? ensures inv(Step(x, a).value) {
      InvKept(x, a, Step(x, a).value);
      TimesOrderedKept(x, a, Step(x, a).value);
    }
    Runs.RunPreserves(Step, inv, Fresh(now), actions);
  }

  ghost predicate WaitedInWindow(q: Tx)
    requires Judged(q)
  {
    q.eval.at - q.row.executedAt <= 60_000_000
  }

  lemma InWindowWhen(s: State, t: TxId)
    requires Inv(s) && TimesOrdered(s) && t in s.txs && Judged(s.txs[t]) && s.txs[t].row.quorumConfirmed
    requires WaitedInWindow(s.txs[t]) || TableSuffices(s, s.txs[t])
    ensures TwoRegionsInWindow(s, s.txs[t])
  {
    var q := s.txs[t];
    if WaitedInWindow(q) {
      var w :| w in s.txs && Saw(q, s.txs[w], false);
      assert Counted(s, q, s.txs[w].row) && Counted(s, q, q.row);
    } else {
      var r, u :| r in s.txs && u in s.txs && ReadFailure(q, s.txs[r]) && ReadFailure(q, s.txs[u]) &&
                  s.txs[r].row.region != s.txs[u].row.region;
      assert Counted(s, q, s.txs[r].row) && Counted(s, q, s.txs[u].row);
    }
  }

  lemma InWindowOnlyWhen(s: State, q: Tx)
    requires Judged(q) && TwoRegionsInWindow(s, q)
    ensures WaitedInWindow(q) || TableSuffices(s, q)
  {
    var a, b :| Counted(s, q, a) && Counted(s, q, b) && a.region != b.region;
  }

  lemma ConfirmedIffInWindow(s: State, t: TxId)
    requires Inv(s) && TimesOrdered(s) && t in s.txs && Judged(s.txs[t]) && s.txs[t].row.quorumConfirmed
    ensures TwoRegionsInWindow(s, s.txs[t]) <==> WaitedInWindow(s.txs[t]) || TableSuffices(s, s.txs[t])
  {
    if TwoRegionsInWindow(s, s.txs[t]) {
      InWindowOnlyWhen(s, s.txs[t]);
    } else if WaitedInWindow(s.txs[t]) || TableSuffices(s, s.txs[t]) {
      InWindowWhen(s, t);
    }
  }

  /** The evaluating check's own region counts however old its row is, so a confirmation rests on
      two distinct regions inside the window exactly when the check waited at most 60 s between
      its insert and its evaluation, or the rows already in the table cover two regions. */
  lemma ConfirmedInWindowIff(now: int, actions: seq<Action>, s: State, t: TxId)
    requires Runs.Run(Step, Fresh(now), actions) == Some(s)
    requires t in s.txs && s.txs[t].Committed? && s.txs[t].row.quorumConfirmed
    ensures TwoRegionsInWindow(s, s.txs[t]) <==>
            s.txs[t].eval.at - s.txs[t].row.executedAt <= 60_000_000 || TableSuffices(s, s.txs[t])
  {
    ReachableTimes(now, actions, s);
    ConfirmedIffInWindow(s, t);
  }

  /** Every opening in the log was made by a confirmed check, which saw another region's failure; it
      had failures of two distinct regions in the 60 s up to its evaluation exactly when it waited
      at most that long, or the rows it read covered two regions.  Every automatic resolution was
      made by a successful check that saw another region's success.  What was seen lies in the
      60 s up to the evaluation and was committed by then. */
  lemma EventsInWindow(now: int, actions: seq<Action>, s: State, i: nat)
    requires Runs.Run(Step, Fresh(now), actions) == Some(s) && i < |s.log|
    ensures s.log[i].tx in s.txs && s.txs[s.log[i].tx].Committed?
    ensures var q := s.txs[s.log[i].tx];
            && q.eval.at == s.log[i].at && q.row.isUp == s.log[i].Resolved?
            && (exists r :: r in s.txs && Saw(q, s.txs[r], s.log[i].Resolved?) &&
                            s.log[i].at - 60_000_000 <= s.txs[r].row.executedAt <= s.log[i].at)
            && (s.log[i].Opened? ==>
                  && q.row.quorumConfirmed
                  && (TwoRegionsInWindow(s, q) <==>
                        q.eval.at - q.row.executedAt <= 60_000_000 || TableSuffices(s, q)))
  {
    EventsAreWitnessed(now, actions, s, i);
    ReachableTimes(now, actions, s);
    if s.log[i].Opened? {
      ConfirmedIffInWindow(s, s.log[i].tx);
    }
  }

  // ---------------------------------------------------------------- the soft time limit

  /** A check's task raises once it has run for 60 s; its row is inserted after it started. */
  const SOFT_TIME_LIMIT: int := 60_000_000

  /** Steps when the limit is enforced: no evaluation later than that after the insert. */
  ghost function LimitedStep(s: State, a: Action): Option<State> {
    if a.Evaluate? && a.tx in s.txs && HasRow(s.txs[a.tx]) && s.now - s.txs[a.tx].row.executedAt > SOFT_TIME_LIMIT
    then None
    else Step(s, a)
  }

  /** The limit forbids an evaluation more than 60 s after the insert, and nothing else. */
  lemma LimitedStepIff(s: State, a: Action)
    requires Step(s, a).Some?
    ensures LimitedStep(s, a).None? <==>
            a.Evaluate? && a.tx in s.txs && HasRow(s.txs[a.tx]) && s.now - s.txs[a.tx].row.executedAt > 60_000_000
    ensures LimitedStep(s, a).Some? ==> LimitedStep(s, a) == Step(s, a)
  {
  }

  ghost predicate EvaluatedInTime(s: State) {
    forall t :: t in s.txs && Judged(s.txs[t]) ==> WaitedInWindow(s.txs[t])
  }

  lemma EvaluatedInTimeKept(s: State, a: Action, s': State)
    requires Bookkeeping(s) && EvaluatedInTime(s) && LimitedStep(s, a) == Some(s')
    ensures EvaluatedInTime(s')
  {
    forall t | t in s'.txs && Judged(s'.txs[t]) ensures WaitedInWindow(s'.txs[t]) {
      StepKeepsTimes(s, a, s', t);
      EvaluationIsOwn(s, a, s', t);
    }
  }

  /** Only a transaction's own evaluation judges it. */
  lemma EvaluationIsOwn(s: State, a: Action, s': State, t: TxId)
    requires Step(s, a) == Some(s') && t in s'.txs && Judged(s'.txs[t])
    ensures t in s.txs && HasRow(s.txs[t])
    ensures Judged(s.txs[t]) || (a.Evaluate? && a.tx == t && s'.txs[t].eval.at == s.now)
    ensures Judged(s.txs[t]) ==> s'.txs[t].eval == s.txs[t].eval
  {
  }

  /** With the task's soft time limit in force, every opening rests on failures of two distinct
      regions inside the window, and so does every confirmation. */
  lemma SoftLimitKeepsWindow(now: int, actions: seq<Action>, s: State)
    requires Runs.Run(LimitedStep, Fresh(now), actions) == Some(s)
    ensures forall t :: t in s.txs && Judged(s.txs[t]) && s.txs[t].row.quorumConfirmed ==>
              TwoRegionsInWindow(s, s.txs[t])
    ensures forall i :: 0 <= i < |s.log| && s.log[i].Opened? ==>
              s.log[i].tx in s.txs && Judged(s.txs[s.log[i].tx]) && TwoRegionsInWindow(s, s.txs[s.log[i].tx])
  {
    var inv := (x: State) => Inv(x) && TimesOrdered(x) && EvaluatedInTime(x);
    forall x, a | inv(x) && LimitedStep(x, a).Some? ensures inv(LimitedStep(x, a).value) {
      InvKept(x, a, Step(x, a).value);
      TimesOrderedKept(x, a, Step(x, a).value);
      EvaluatedInTimeKept(x, a, Step(x, a).value);
    }
    Runs.RunPreserves(LimitedStep, inv, Fresh(now), actions);
    forall t | t in s.txs && Judged(s.txs[t]) && s.txs[t].row.quorumConfirmed
      ensures TwoRegionsInWindow(s, s.txs[t])
    {
      ConfirmedIffInWindow(s, t);
    }
    forall i | 0 <= i < |s.log| && s.log[i].Opened?
      ensures s.log[i].tx in s.txs && Judged(s.txs[s.log[i].tx]) && TwoRegionsInWindow(s, s.txs[s.log[i].tx])
    {
      assert Witnessed(s, s.log[i]);
    }
  }

  /** A run in which the limit is not enforced and the window not kept: the us-east check waits 61 s
      for the lock, and then opens an incident although only eu-west failed within the last 60 s. */
  lemma StaleOwnRowOpens()
    ensures exists actions, s ::
              Runs.Run(Step, Fresh(0), actions) == Some(s) && HasOpen(s.incidents) &&
              0 in s.txs && s.txs[0].Committed? && s.txs[0].row.quorumConfirmed &&
              !TwoRegionsInWindow(s, s.txs[0])
  {
    var acts, s := EastEvaluatesLate();
    acts, s := Runs.Extend(Step, Fresh(0), acts, s, Commit(0));
    assert s.incidents == [Incident(true, 0)] && s.incidents[0].isOpen;
    var q := s.txs[0];
    assert forall row :: Counted(s, q, row) ==> row.region == "eu-west";
  }

  const WEST_ROW := Row("eu-west", 61_000_000, false, false)
  const EAST_ROW := Row("us-east", 0, false, false)

  function EastState(tick: nat, east: Tx, lock: Option<TxId>): State {
    State(61_000_000, tick, true, true, map[0 := east, 1 := CommittedBlocked(WEST_ROW, 5)], lock, [], [])
  }

  lemma EastDecides()
    ensures Evaluating(EastState(7, Locked(EAST_ROW, 6), Some(0)), 0, EAST_ROW, [1]) == Some(Decision(true, Open))
  {
    var s := EastState(7, Locked(EAST_ROW, 6), Some(0));
    var keys := RecentKeys(s, 0, EAST_ROW);
    assert keys == map[1 := -61_000_000];
    var rows := RowsAt(VisibleRows(s, 0, EAST_ROW), [1]);
    assert rows[0] == WEST_ROW && WEST_ROW.region[0] != EAST_ROW.region[0];
    assert OtherRegion(rows, false, EAST_ROW.region);
  }

  lemma EastLocks()
    ensures Step(EastState(6, Inserted(EAST_ROW, false), None), Lock(0)) ==
            Some(EastState(7, Locked(EAST_ROW, 6), Some(0)))
  {
    var s := EastState(6, Inserted(EAST_ROW, false), None);
    assert s.txs[0 := Locked(EAST_ROW, 6)] == map[0 := Locked(EAST_ROW, 6), 1 := CommittedBlocked(WEST_ROW, 5)];
  }

  lemma EastEvaluates()
    ensures Step(EastState(7, Locked(EAST_ROW, 6), Some(0)), Evaluate(0, [1])) ==
            Some(EastState(8, Evaluated(EAST_ROW.(quorumConfirmed := true), 6,
                                        Evaluation(7, 61_000_000, true), Open), Some(0)))
  {
    EastDecides();
    var s := EastState(7, Locked(EAST_ROW, 6), Some(0));
    assert s.txs[0] == Locked(EAST_ROW, 6);
    var after := Evaluated(EAST_ROW.(quorumConfirmed := true), 6, Evaluation(7, 61_000_000, true), Open);
    assert TxStep(s, 0, s.txs[0], Evaluate(0, [1])) == Some(Put(s, 0, after));
    assert s.txs[0 := after] == map[0 := after, 1 := CommittedBlocked(WEST_ROW, 5)];
  }

  lemma EastEvaluatesLate() returns (acts: seq<Action>, s: State)
    ensures Runs.Run(Step, Fresh(0), acts) == Some(s)
    ensures s == EastState(8, Evaluated(EAST_ROW.(quorumConfirmed := true), 6,
                                        Evaluation(7, 61_000_000, true), Open), Some(0))
  {
    EastLocks();
    EastEvaluates();
    acts, s := WestFailsLater();
    acts, s := Runs.Extend(Step, Fresh(0), acts, s, Lock(0));
    acts, s := Runs.Extend(Step, Fresh(0), acts, s, Evaluate(0, [1]));
  }

  lemma WestFailsLater() returns (acts: seq<Action>, s: State)
    ensures Runs.Run(Step, Fresh(0), acts) == Some(s)
    ensures s == EastState(6, Inserted(EAST_ROW, false), None)
  {
    acts, s := Runs.Extend(Step, Fresh(0), [], Fresh(0), Begin(0, "us-east"));
    acts, s := Runs.Extend(Step, Fresh(0), acts, s, Insert(0, false));
    acts, s := Runs.Extend(Step, Fresh(0), acts, s, Pass(61_000_000));
    assert s == State(61_000_000, 3, true, true, map[0 := Inserted(EAST_ROW, false)], None, [], []);
    acts, s := Runs.Extend(Step, Fresh(0), acts, s, Begin(1, "eu-west"));
    acts, s := Runs.Extend(Step, Fresh(0), acts, s, InsertBlocked(1));
    acts, s := Runs.Extend(Step, Fresh(0), acts, s, Commit(1));
  }

  // ---------------------------------------------------------------- consecutive successes

  predicate OtherSuccess(row: Row, own: Region) {
    row.isUp && row.region != own
  }

  /** A success of another region with no failure newer than it. */
  ghost predicate UnbrokenSuccess(recent: seq<Row>, own: Region) {
    exists i :: 0 <= i < |recent| && OtherSuccess(recent[i], own) && forall j :: 0 <= j < i ==> recent[j].isUp
  }

  /** Where the newest success of another region stands, or the number of rows. */
  function FirstOther(recent: seq<Row>, own: Region): (n: nat)
    ensures n <= |recent| && forall j :: 0 <= j < n ==> !OtherSuccess(recent[j], own)
    ensures n < |recent| ==> OtherSuccess(recent[n], own)
  {
    if recent == [] || OtherSuccess(recent[0], own) then 0
    else
      var rest := FirstOther(recent[1..], own);
      assert forall j :: 0 < j < |recent| ==> recent[j] == recent[1..][j - 1];
      rest + 1
  }

  /** Recovery does not ask for consecutive successes: an open incident is resolved exactly when one
      of the four newest rows is another region's success, whatever failures are newer. */
  lemma ResolvesIffOtherAmongFour(own: Row, recent: seq<Row>, open: nat)
    requires own.isUp
    ensures Decide(own, recent, Some(open)).change.Resolve? <==>
            FirstOther(recent, own.region) < |recent| && FirstOther(recent, own.region) < 4
  {
    var newest := Newest(recent, CONSECUTIVE_RECOVERY_CHECKS * 2);
    var n := FirstOther(recent, own.region);
    if n < |recent| && n < 4 {
      assert newest[n] == recent[n];
    }
    if OtherRegion(newest, true, own.region) {
      var i :| 0 <= i < |newest| && newest[i].isUp && newest[i].region != own.region;
      assert OtherSuccess(recent[i], own.region);
    }
  }

  /** A resolution rests on a success of another region that no failure is newer than, exactly when
      no failing row precedes the newest success of another region. */
  lemma ResolutionIsUnbrokenIff(own: Row, recent: seq<Row>, open: nat)
    requires Decide(own, recent, Some(open)).change.Resolve?
    ensures UnbrokenSuccess(recent, own.region) <==>
            forall j :: 0 <= j < FirstOther(recent, own.region) ==> recent[j].isUp
  {
    var n := FirstOther(recent, own.region);
    ResolvesIffOtherAmongFour(own, recent, open);
    if UnbrokenSuccess(recent, own.region) {
      var i :| 0 <= i < |recent| && OtherSuccess(recent[i], own.region) && forall j :: 0 <= j < i ==> recent[j].isUp;
      assert n <= i;
    }
  }

  /** So it is for every evaluation, in any state, that decides to resolve. */
  lemma ResolvingStepIsUnbrokenIff(s: State, t: TxId, recent: seq<TxId>, s': State)
    requires Step(s, Evaluate(t, recent)) == Some(s') && t in s'.txs && s'.txs[t].Evaluated?
    requires s'.txs[t].change.Resolve?
    ensures t in s.txs && s.txs[t].Locked?
    ensures forall i :: 0 <= i < |recent| ==> recent[i] in VisibleRows(s, t, s.txs[t].row)
    ensures var rows, own := RowsAt(VisibleRows(s, t, s.txs[t].row), recent), s.txs[t].row.region;
            UnbrokenSuccess(rows, own) <==> forall j :: 0 <= j < FirstOther(rows, own) ==> rows[j].isUp
  {
    var own := s.txs[t].row;
    var rows := RowsAt(VisibleRows(s, t, own), recent);
    var d := Evaluating(s, t, own, recent).value;
    assert d == Decide(own, rows, FirstOpen(s.incidents)) && s'.txs[t].change == d.change;
    ResolutionIsUnbrokenIff(own, rows, FirstOpen(s.incidents).value);
  }

  // A whole check, from its begin to its commit, while no other transaction is under way.

  ghost function Checked(s: State, t: TxId, region: Region, isUp: bool, d: Decision): State {
    var incidents := Apply(s.incidents, d.change, t);
    var tx := Committed(Row(region, s.now, isUp, d.confirmed), s.tick + 2,
                        Evaluation(s.tick + 3, s.now, s.live), s.tick + 4, HasOpen(incidents));
    s.(txs := s.txs[t := tx], tick := s.tick + 5, incidents := incidents,
       log := s.log + EventsOf(d.change, t, s.now))
  }

  function BlockedCheck(s: State, t: TxId, region: Region): State {
    s.(txs := s.txs[t := CommittedBlocked(Row(region, s.now, false, false), s.tick + 2)], tick := s.tick + 3)
  }

  lemma CheckToLock(start: State, acts: seq<Action>, s: State, t: TxId, region: Region, isUp: bool)
    returns (acts': seq<Action>, s': State)
    requires Runs.Run(Step, start, acts) == Some(s)
    requires t !in s.txs && s.live && s.active && s.lock.None?
    ensures Runs.Run(Step, start, acts') == Some(s')
    ensures s' == s.(txs := s.txs[t := Locked(Row(region, s.now, isUp, false), s.tick + 2)],
                     tick := s.tick + 3, lock := Some(t))
  {
    acts', s' := Runs.Extend(Step, start, acts, s, Begin(t, region));
    acts', s' := Runs.Extend(Step, start, acts', s', Insert(t, isUp));
    acts', s' := Runs.Extend(Step, start, acts', s', Lock(t));
    assert s'.txs == s.txs[t := Locked(Row(region, s.now, isUp, false), s.tick + 2)];
  }

  lemma SameView(s: State, s': State, t: TxId, own: Row, tx: Tx)
    requires t !in s.txs && s'.txs == s.txs[t := tx] && !Stored(tx)
    requires s'.live == s.live && s'.now == s.now && s'.incidents == s.incidents
    ensures forall recent :: Evaluating(s', t, own, recent) == Evaluating(s, t, own, recent)
  {
    assert VisibleRows(s', t, own) == VisibleRows(s, t, own);
    assert RecentKeys(s', t, own) == RecentKeys(s, t, own);
  }

  lemma EvaluateLocked(start: State, acts: seq<Action>, s: State, t: TxId, row: Row, lockTick: nat,
                       recent: seq<TxId>, d: Decision)
    returns (acts': seq<Action>, s': State)
    requires Runs.Run(Step, start, acts) == Some(s)
    requires t in s.txs && s.txs[t] == Locked(row, lockTick) && Evaluating(s, t, row, recent) == Some(d)
    ensures Runs.Run(Step, start, acts') == Some(s')
    ensures s' == Put(s, t, Evaluated(row.(quorumConfirmed := d.confirmed), lockTick,
                                      Evaluation(s.tick, s.now, s.live), d.change))
  {
    assert TxStep(s, t, s.txs[t], Evaluate(t, recent)).Some?;
    acts', s' := Runs.Extend(Step, start, acts, s, Evaluate(t, recent));
  }

  lemma CommitEvaluated(start: State, acts: seq<Action>, s: State, t: TxId)
    returns (acts': seq<Action>, s': State)
    requires Runs.Run(Step, start, acts) == Some(s) && t in s.txs && s.txs[t].Evaluated?
    ensures Runs.Run(Step, start, acts') == Some(s') && s' == Committing(s, t, s.txs[t])
  {
    acts', s' := Runs.Extend(Step, start, acts, s, Commit(t));
  }

  lemma PutTwice(txs: map<TxId, Tx>, t: TxId, a: Tx, b: Tx)
    ensures txs[t := a][t := b] == txs[t := b]
  {
  }

  lemma CheckedAtOnce(s: State, s1: State, t: TxId, region: Region, isUp: bool, d: Decision)
    requires t !in s.txs && s.lock.None?
    requires s1 == s.(txs := s.txs[t := Locked(Row(region, s.now, isUp, false), s.tick + 2)],
                      tick := s.tick + 3, lock := Some(t))
    ensures var row := Row(region, s.now, isUp, d.confirmed);
            var tx := Evaluated(row, s.tick + 2, Evaluation(s1.tick, s1.now, s1.live), d.change);
            Committing(Put(s1, t, tx), t, tx) == Checked(s, t, region, isUp, d)
  {
    var row := Row(region, s.now, isUp, d.confirmed);
    var tx := Evaluated(row, s.tick + 2, Evaluation(s1.tick, s1.now, s1.live), d.change);
    PutTwice(s.txs, t, s1.txs[t], tx);
    PutTwice(s.txs, t, tx, Checked(s, t, region, isUp, d).txs[t]);
  }

  lemma WholeCheck(start: State, acts: seq<Action>, s: State, t: TxId, region: Region, isUp: bool,
                   recent: seq<TxId>, d: Decision)
    returns (acts': seq<Action>)
    requires Runs.Run(Step, start, acts) == Some(s)
    requires t !in s.txs && s.live && s.active && s.lock.None?
    requires Evaluating(s, t, Row(region, s.now, isUp, false), recent) == Some(d)
    ensures Runs.Run(Step, start, acts') == Some(Checked(s, t, region, isUp, d))
  {
    var row, s1, s2, s3 := Row(region, s.now, isUp, false), s, s, s;
    acts', s1 := CheckToLock(start, acts, s, t, region, isUp);
    SameView(s, s1, t, row, s1.txs[t]);
    acts', s2 := EvaluateLocked(start, acts', s1, t, row, s.tick + 2, recent, d);
    acts', s3 := CommitEvaluated(start, acts', s2, t);
    CheckedAtOnce(s, s1, t, region, isUp, d);
  }

  lemma BlockedInserted(start: State, acts: seq<Action>, s: State, t: TxId, region: Region)
    returns (acts': seq<Action>, s': State)
    requires Runs.Run(Step, start, acts) == Some(s)
    requires t !in s.txs && s.live && s.active
    ensures Runs.Run(Step, start, acts') == Some(s')
    ensures s' == s.(txs := s.txs[t := Inserted(Row(region, s.now, false, false), true)], tick := s.tick + 2)
  {
    acts', s' := Runs.Extend(Step, start, acts, s, Begin(t, region));
    acts', s' := Runs.Extend(Step, start, acts', s', InsertBlocked(t));
    PutTwice(s.txs, t, Probing(region), s'.txs[t]);
  }

  lemma WholeBlocked(start: State, acts: seq<Action>, s: State, t: TxId, region: Region)
    returns (acts': seq<Action>)
    requires Runs.Run(Step, start, acts) == Some(s)
    requires t !in s.txs && s.live && s.active
    ensures Runs.Run(Step, start, acts') == Some(BlockedCheck(s, t, region))
  {
    var s1, s2 := s, s;
    acts', s1 := BlockedInserted(start, acts, s, t, region);
    acts', s2 := Runs.Extend(Step, start, acts', s1, Commit(t));
    PutTwice(s.txs, t, s1.txs[t], s2.txs[t]);
  }

  // A run that resolves over a newer failure.

  const EAST: Region := "us-east"
  const WEST: Region := "eu-west"

  const EAST_DOWN := CommittedBlocked(Row(EAST, 0, false, false), 2)
  const WEST_OPENS := Committed(Row(WEST, 0, false, true), 5, Evaluation(6, 0, true), 7, true)
  const EAST_UP := Committed(Row(EAST, 0, true, false), 10, Evaluation(11, 0, true), 12, true)
  const WEST_DOWN := CommittedBlocked(Row(WEST, 1, false, false), 16)
  const WEST_RESOLVES := Committed(Row(WEST, 2, true, false), 20, Evaluation(21, 2, true), 22, false)

  const AFTER_EAST := State(0, 3, true, true, map[0 := EAST_DOWN], None, [], [])
  const AFTER_OPENING := State(0, 8, true, true, map[0 := EAST_DOWN, 1 := WEST_OPENS], None,
                              [Incident(true, 1)], [Opened(1, 0)])
  const AFTER_EAST_UP := AFTER_OPENING.(txs := map[0 := EAST_DOWN, 1 := WEST_OPENS, 2 := EAST_UP], tick := 13)
  const AFTER_WEST_DOWN := AFTER_OPENING.(
    now := 2, tick := 18, txs := map[0 := EAST_DOWN, 1 := WEST_OPENS, 2 := EAST_UP, 3 := WEST_DOWN])
  const AFTER_RESOLVING := AFTER_WEST_DOWN.(
    tick := 23, txs := map[0 := EAST_DOWN, 1 := WEST_OPENS, 2 := EAST_UP, 3 := WEST_DOWN, 4 := WEST_RESOLVES],
    incidents := [Incident(false, 1)], log := [Opened(1, 0), Resolved(4, 2)])

  lemma RegionsDiffer()
    ensures EAST != WEST
  {
    assert EAST[0] != WEST[0];
  }

  const WEST_FIRST := Row(WEST, 0, false, false)
  const EAST_AGAIN := Row(EAST, 0, true, false)
  const WEST_AGAIN := Row(WEST, 2, true, false)

  const FIRST_ROWS := [WEST_FIRST, EAST_DOWN.row]
  const SECOND_ROWS := [EAST_AGAIN, WEST_OPENS.row, EAST_DOWN.row]
  const THIRD_ROWS := [WEST_AGAIN, WEST_DOWN.row, EAST_UP.row, WEST_OPENS.row, EAST_DOWN.row]

  lemma FirstDecision()
    ensures Decide(WEST_FIRST, FIRST_ROWS, None) == Decision(true, Open)
  {
    RegionsDiffer();
    assert FIRST_ROWS[1].region == EAST;
  }

  lemma SecondDecision()
    ensures Decide(EAST_AGAIN, SECOND_ROWS, Some(0)) == Decision(false, Keep)
  {
    assert Newest(SECOND_ROWS, 4) == SECOND_ROWS;
  }

  lemma ThirdDecision()
    ensures Decide(WEST_AGAIN, THIRD_ROWS, Some(0)) == Decision(false, Resolve(0))
  {
    RegionsDiffer();
    assert Newest(THIRD_ROWS, 4)[2] == EAST_UP.row;
  }

  ghost predicate Read(s: State, t: TxId, own: Row, recent: seq<TxId>, rows: seq<Row>) {
    && OrderedPrefix(RecentKeys(s, t, own), |RecentKeys(s, t, own)|, recent)
    && |recent| == |rows|
    && (forall i :: 0 <= i < |recent| ==>
          recent[i] in VisibleRows(s, t, own) && rows[i] == VisibleRows(s, t, own)[recent[i]])
  }

  lemma EvaluatesTo(s: State, t: TxId, own: Row, recent: seq<TxId>, rows: seq<Row>, d: Decision)
    requires Read(s, t, own, recent, rows) && Decide(own, rows, FirstOpen(s.incidents)) == d
    ensures Evaluating(s, t, own, recent) == Some(d)
  {
    assert RowsAt(VisibleRows(s, t, own), recent) == rows;
  }

  lemma OpenIsFirst()
    ensures FirstOpen([Incident(true, 1)]) == Some(0)
  {
    assert [Incident(true, 1)][0].isOpen;
  }

  lemma FirstReads()
    ensures Read(AFTER_EAST, 1, WEST_FIRST, [1, 0], FIRST_ROWS)
  {
    SortedListing(RecentKeys(AFTER_EAST, 1, WEST_FIRST), [1, 0]);
  }

  lemma FirstDecides()
    ensures Evaluating(AFTER_EAST, 1, WEST_FIRST, [1, 0]) == Some(Decision(true, Open))
  {
    FirstReads();
    FirstDecision();
    EvaluatesTo(AFTER_EAST, 1, WEST_FIRST, [1, 0], FIRST_ROWS, Decision(true, Open));
  }

  const SECOND_VIEW: map<TxId, Row> := map[0 := EAST_DOWN.row, 1 := WEST_OPENS.row, 2 := EAST_AGAIN]
  const SECOND_KEYS: map<TxId, int> := map[0 := 0, 1 := 0, 2 := 0]
  const SECOND_IDS: seq<TxId> := [2, 1, 0]

  lemma SecondVisible()
    ensures VisibleRows(AFTER_OPENING, 2, EAST_AGAIN) == SECOND_VIEW
  {
  }

  lemma SecondAdmitted()
    ensures RecentKeys(AFTER_OPENING, 2, EAST_AGAIN) == SECOND_KEYS
  {
    SecondVisible();
  }

  lemma SecondSorted()
    ensures OrderedPrefix(SECOND_KEYS, |SECOND_KEYS|, SECOND_IDS)
  {
    SortedListing(SECOND_KEYS, SECOND_IDS);
  }

  lemma SecondReads()
    ensures Read(AFTER_OPENING, 2, EAST_AGAIN, SECOND_IDS, SECOND_ROWS)
  {
    SecondVisible();
    SecondAdmitted();
    SecondSorted();
  }

  lemma SecondDecides()
    ensures Evaluating(AFTER_OPENING, 2, EAST_AGAIN, SECOND_IDS) == Some(Decision(false, Keep))
  {
    SecondReads();
    SecondDecision();
    OpenIsFirst();
    EvaluatesTo(AFTER_OPENING, 2, EAST_AGAIN, SECOND_IDS, SECOND_ROWS, Decision(false, Keep));
  }

  const THIRD_VIEW: map<TxId, Row> :=
    map[0 := EAST_DOWN.row, 1 := WEST_OPENS.row, 2 := EAST_UP.row, 3 := WEST_DOWN.row, 4 := WEST_AGAIN]
  const THIRD_KEYS: map<TxId, int> := map[0 := 0, 1 := 0, 2 := 0, 3 := -1, 4 := -2]
  const THIRD_IDS: seq<TxId> := [4, 3, 2, 1, 0]

  lemma ThirdVisible()
    ensures VisibleRows(AFTER_WEST_DOWN, 4, WEST_AGAIN) == THIRD_VIEW
  {
  }

  lemma ThirdAdmitted()
    ensures RecentKeys(AFTER_WEST_DOWN, 4, WEST_AGAIN) == THIRD_KEYS
  {
    ThirdVisible();
  }

  lemma ThirdSorted()
    ensures OrderedPrefix(THIRD_KEYS, |THIRD_KEYS|, THIRD_IDS)
  {
    SortedListing(THIRD_KEYS, THIRD_IDS);
  }

  lemma ThirdListed()
    ensures forall i :: 0 <= i < |THIRD_IDS| ==> THIRD_IDS[i] in THIRD_VIEW && THIRD_ROWS[i] == THIRD_VIEW[THIRD_IDS[i]]
  {
  }

  lemma ThirdReads()
    ensures Read(AFTER_WEST_DOWN, 4, WEST_AGAIN, THIRD_IDS, THIRD_ROWS)
  {
    ThirdVisible();
    ThirdAdmitted();
    ThirdSorted();
    ThirdListed();
  }

  lemma ThirdDecides()
    ensures Evaluating(AFTER_WEST_DOWN, 4, WEST_AGAIN, THIRD_IDS) == Some(Decision(false, Resolve(0)))
  {
    ThirdReads();
    ThirdDecision();
    OpenIsFirst();
    EvaluatesTo(AFTER_WEST_DOWN, 4, WEST_AGAIN, THIRD_IDS, THIRD_ROWS, Decision(false, Resolve(0)));
  }

  lemma HasOpenOne()
    ensures HasOpen([Incident(true, 1)]) && !HasOpen([Incident(false, 1)])
  {
    assert [Incident(true, 1)][0].isOpen;
  }

  lemma RunToOpening() returns (acts: seq<Action>)
    ensures Runs.Run(Step, Fresh(0), acts) == Some(AFTER_OPENING)
  {
    acts := WholeBlocked(Fresh(0), [], Fresh(0), 0, EAST);
    assert BlockedCheck(Fresh(0), 0, EAST) == AFTER_EAST;
    FirstDecides();
    acts := WholeCheck(Fresh(0), acts, AFTER_EAST, 1, WEST, false, [1, 0], Decision(true, Open));
    HasOpenOne();
    assert Apply([], Open, 1) == [Incident(true, 1)];
    assert Checked(AFTER_EAST, 1, WEST, false, Decision(true, Open)) == AFTER_OPENING;
  }

  lemma RunToEastUp() returns (acts: seq<Action>)
    ensures Runs.Run(Step, Fresh(0), acts) == Some(AFTER_EAST_UP)
  {
    acts := RunToOpening();
    SecondDecides();
    acts := WholeCheck(Fresh(0), acts, AFTER_OPENING, 2, EAST, true, SECOND_IDS, Decision(false, Keep));
    HasOpenOne();
    assert Checked(AFTER_OPENING, 2, EAST, true, Decision(false, Keep)) == AFTER_EAST_UP;
  }

  lemma RunToWestDown() returns (acts: seq<Action>)
    ensures Runs.Run(Step, Fresh(0), acts) == Some(AFTER_WEST_DOWN)
  {
    var s := AFTER_EAST_UP;
    acts := RunToEastUp();
    acts, s := Runs.Extend(Step, Fresh(0), acts, s, Pass(1));
    acts := WholeBlocked(Fresh(0), acts, s, 3, WEST);
    acts, s := Runs.Extend(Step, Fresh(0), acts, BlockedCheck(s, 3, WEST), Pass(1));
    assert s == AFTER_WEST_DOWN;
  }

  lemma ThirdCommits()
    ensures Checked(AFTER_WEST_DOWN, 4, WEST, true, Decision(false, Resolve(0))) == AFTER_RESOLVING
  {
    HasOpenOne();
    assert Apply([Incident(true, 1)], Resolve(0), 4) == [Incident(false, 1)];
  }

  lemma RunToResolving() returns (acts: seq<Action>)
    ensures Runs.Run(Step, Fresh(0), acts) == Some(AFTER_RESOLVING)
  {
    acts := RunToWestDown();
    ThirdDecides();
    acts := WholeCheck(Fresh(0), acts, AFTER_WEST_DOWN, 4, WEST, true, THIRD_IDS, Decision(false, Resolve(0)));
    ThirdCommits();
  }

  /** A run in which an incident is resolved although a failure newer than every success of another
      region had been committed, and although no region had two successes at all. */
  lemma ResolvesOverNewerFailure() returns (acts: seq<Action>, s: State)
    ensures Runs.Run(Step, Fresh(0), acts) == Some(s)
    ensures s.log == [Opened(1, 0), Resolved(4, 2)] && 3 in s.txs && 4 in s.txs && s.txs[4].Committed?
    ensures Stored(s.txs[3]) && !s.txs[3].row.isUp && s.txs[3].commitTick < s.txs[4].eval.tick
    ensures forall r :: r in s.txs && Saw(s.txs[4], s.txs[r], true) ==>
              s.txs[r].row.executedAt < s.txs[3].row.executedAt
    ensures forall r, q :: r in s.txs && q in s.txs && r != q && HasRow(s.txs[r]) && HasRow(s.txs[q]) &&
                           s.txs[r].row.isUp && s.txs[q].row.isUp ==>
              s.txs[r].row.region != s.txs[q].row.region
  {
    acts := RunToResolving();
    s := AFTER_RESOLVING;
    RegionsDiffer();
  }
}
