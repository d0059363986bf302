/** Check quorum and the incident lifecycle of one dependency, as concurrent transactions.

    Every check task is one database transaction: it inserts its own result row (flushed, not yet
    committed), takes the `FOR UPDATE` lock on the dependency row, reads the committed rows of the
    last 60 s plus its own, evaluates the quorum, opens or resolves an incident, and commits.  A
    check whose URL the SSRF policy blocks records its failure and commits without the lock.  Any
    uncommitted transaction may abort at any time (deadlock, time limit, crash); a retry is a new
    transaction.  Times are microseconds. */
module CheckQuorum {
  import opened Options
  import opened OrderedQuery
  import Runs

  const QUORUM_WINDOW: int := 60_000_000
  const QUORUM_MIN_REGIONS: nat := 2
  const CONSECUTIVE_RECOVERY_CHECKS: nat := 2

  type Region = string
  type TxId = nat

  datatype Row = Row(region: Region, executedAt: int, isUp: bool, quorumConfirmed: bool)
  datatype Incident = Incident(isOpen: bool, openedBy: TxId)
  datatype Change = Keep | Open | Resolve(index: nat)
  datatype Event = Opened(tx: TxId, at: int) | Resolved(tx: TxId, at: int)
  datatype Decision = Decision(confirmed: bool, change: Change)

  // ---------------------------------------------------------------- the evaluation itself

  function Regions(rows: seq<Row>, up: bool, own: Region): set<Region> {
    (set r | r in rows && r.isUp == up :: r.region) + {own}
  }

  predicate OtherRegion(rows: seq<Row>, up: bool, own: Region) {
    exists i :: 0 <= i < |rows| && rows[i].isUp == up && rows[i].region != own
  }

  function Newest(rows: seq<Row>, n: nat): seq<Row> {
    if |rows| <= n then rows else rows[..n]
  }

  lemma TwoRegions(rows: seq<Row>, up: bool, own: Region)
    ensures |Regions(rows, up, own)| >= QUORUM_MIN_REGIONS <==> OtherRegion(rows, up, own)
  {
    var regions := Regions(rows, up, own);
    if OtherRegion(rows, up, own) {
      var i :| 0 <= i < |rows| && rows[i].isUp == up && rows[i].region != own;
      assert rows[i] in rows;
      SubsetCardinality({own, rows[i].region}, regions);
    } else {
      assert regions == {own};
    }
  }

  /** The quorum decision for the row `own`, given the recent rows newest first and the open
      incident, if any.  The row's own region always counts, in the window or not. */
  function Decide(own: Row, recent: seq<Row>, open: Option<nat>): (d: Decision)
    ensures d.confirmed <==> !own.isUp && OtherRegion(recent, false, own.region)
    ensures d.change.Open? <==> d.confirmed && open.None?
    ensures d.change.Resolve? <==>
            own.isUp && open.Some? &&
            OtherRegion(Newest(recent, CONSECUTIVE_RECOVERY_CHECKS * 2), true, own.region)
    ensures d.change.Resolve? ==> open == Some(d.change.index)
  {
    TwoRegions(recent, false, own.region);
    TwoRegions(Newest(recent, CONSECUTIVE_RECOVERY_CHECKS * 2), true, own.region);
    if !own.isUp then
      if |Regions(recent, false, own.region)| >= QUORUM_MIN_REGIONS
      then Decision(true, if open.Some? then Keep else Open)
      else Decision(false, Keep)
    else if open.Some? &&
            |Regions(Newest(recent, CONSECUTIVE_RECOVERY_CHECKS * 2), true, own.region)| >= QUORUM_MIN_REGIONS
    then Decision(false, Resolve(open.value))
    else Decision(false, Keep)
  }

  /** A success resolves an open incident exactly when one of the four newest rows is a success of
      another region. */
  lemma RecoveryReadsFour(own: Row, recent: seq<Row>, open: nat)
    requires own.isUp
    ensures Decide(own, recent, Some(open)).change.Resolve? <==>
            exists i :: 0 <= i < 4 && i < |recent| && recent[i].isUp && recent[i].region != own.region
  {
    var newest := Newest(recent, CONSECUTIVE_RECOVERY_CHECKS * 2);
    if i :| 0 <= i < 4 && i < |recent| && recent[i].isUp && recent[i].region != own.region {
      assert newest[i] == recent[i];
    }
    if OtherRegion(newest, true, own.region) {
      var i :| 0 <= i < |newest| && newest[i].isUp && newest[i].region != own.region;
      assert newest[i] == recent[i];
    }
  }

  /** A failure is confirmed exactly when some recent row is a failure of another region, and opens an
      incident exactly when none is open then. */
  lemma FailureNeedsAnother(own: Row, recent: seq<Row>, open: Option<nat>)
    requires !own.isUp
    ensures Decide(own, recent, open).confirmed <==>
            exists i :: 0 <= i < |recent| && !recent[i].isUp && recent[i].region != own.region
    ensures Decide(own, recent, open).change == if Decide(own, recent, open).confirmed && open.None? then Open else Keep
  {
  }

  ghost predicate HasOpen(incidents: seq<Incident>) {
    exists i :: 0 <= i < |incidents| && incidents[i].isOpen
  }

  ghost predicate AtMostOneOpen(incidents: seq<Incident>) {
    forall i, j :: 0 <= i < j < |incidents| ==> !(incidents[i].isOpen && incidents[j].isOpen)
  }

  function FirstOpen(incidents: seq<Incident>): (r: Option<nat>)
    ensures r.None? <==> !HasOpen(incidents)
    ensures r.Some? ==> r.value < |incidents| && incidents[r.value].isOpen
    ensures r.Some? ==> forall i :: 0 <= i < r.value ==> !incidents[i].isOpen
  {
    if incidents == [] then None
    else
      var n := |incidents| - 1;
      match FirstOpen(incidents[..n])
      case Some(i) => assert incidents[i].isOpen; Some(i)
      case None => if incidents[n].isOpen then Some(n) else None
  }

  function Apply(incidents: seq<Incident>, change: Change, tx: TxId): seq<Incident> {
    match change
    case Keep => incidents
    case Open => incidents + [Incident(true, tx)]
    case Resolve(i) => if i < |incidents| then incidents[i := incidents[i].(isOpen := false)] else incidents
  }

  /** What the evaluation of a failure does to the incidents: one that another region confirms appends
      an open one if none is open; nothing else changes. */
  lemma FailureMeans(own: Row, recent: seq<Row>, all: seq<Incident>, tx: TxId, after: seq<Incident>)
    requires !own.isUp && after == Apply(all, Decide(own, recent, FirstOpen(all)).change, tx)
    ensures HasOpen(all) ==> after == all
    ensures !HasOpen(all) ==>
              after == all + if exists i :: 0 <= i < |recent| && !recent[i].isUp && recent[i].region != own.region
                             then [Incident(true, tx)] else []
    ensures AtMostOneOpen(all) ==> AtMostOneOpen(after)
    ensures OtherRegion(recent, false, own.region) ==> HasOpen(after)
  {
    FailureNeedsAnother(own, recent, FirstOpen(all));
    assert (all + [Incident(true, tx)])[|all|].isOpen;
  }

  /** What the evaluation of a success does to the incidents: one that another region confirms among the
      four newest rows closes the open one; nothing else changes. */
  lemma SuccessMeans(own: Row, recent: seq<Row>, all: seq<Incident>, tx: TxId, after: seq<Incident>)
    requires own.isUp && after == Apply(all, Decide(own, recent, FirstOpen(all)).change, tx)
    ensures !HasOpen(all) ==> after == all
    ensures HasOpen(all) ==>
              var open := FirstOpen(all).value;
              && |after| == |all| && after[open].openedBy == all[open].openedBy
              && (forall j :: 0 <= j < |after| && j != open ==> after[j] == all[j])
              && (!after[open].isOpen <==>
                    exists i :: 0 <= i < 4 && i < |recent| && recent[i].isUp && recent[i].region != own.region)
    ensures AtMostOneOpen(all) ==> AtMostOneOpen(after)
  {
    if HasOpen(all) {
      RecoveryReadsFour(own, recent, FirstOpen(all).value);
    }
  }

  /** The rows one check's session writes while it holds the dependency's row lock. */
  class CheckSession {
    const tx: TxId
    var result: Row
    var incidents: seq<Incident>

    constructor (tx: TxId, result: Row, incidents: seq<Incident>)
      ensures this.tx == tx && this.result == result && this.incidents == incidents
    {
      this.tx := tx;
      this.result := result;
      this.incidents := incidents;
    }

    method EvaluateQuorum(recent: seq<Row>)
      modifies this
      ensures var d := Decide(old(result), recent, FirstOpen(old(incidents)));
              result == old(result).(quorumConfirmed := old(result).quorumConfirmed || d.confirmed) &&
              incidents == Apply(old(incidents), d.change, tx)
      ensures !old(result).isUp && OtherRegion(recent, false, old(result).region) ==>
                result.quorumConfirmed && HasOpen(incidents)
      ensures old(AtMostOneOpen(incidents)) ==> AtMostOneOpen(incidents)
      ensures !old(result).isUp && !old(result).quorumConfirmed ==>
                (result.quorumConfirmed <==>
                   exists i :: 0 <= i < |recent| && !recent[i].isUp && recent[i].region != old(result).region)
      ensures !old(result).isUp && !HasOpen(old(incidents)) ==>
                incidents == old(incidents) +
                  if exists i :: 0 <= i < |recent| && !recent[i].isUp && recent[i].region != old(result).region
                  then [Incident(true, tx)] else []
      ensures (if old(result).isUp then !HasOpen(old(incidents)) else HasOpen(old(incidents))) ==>
                incidents == old(incidents)
      ensures old(result).isUp && HasOpen(old(incidents)) ==>
                var open := FirstOpen(old(incidents)).value;
                && |incidents| == |old(incidents)|
                && incidents[open].openedBy == old(incidents)[open].openedBy
                && (forall j :: 0 <= j < |incidents| && j != open ==> incidents[j] == old(incidents)[j])
                && (!incidents[open].isOpen <==>
                      exists i :: && 0 <= i < 4 && i < |recent|
                                  && recent[i].isUp && recent[i].region != old(result).region)
    {
      ghost var own, all := result, incidents;
      if !result.isUp {
        var failing := Regions(recent, false, result.region);
        TwoRegions(recent, false, result.region);
        if |failing| >= QUORUM_MIN_REGIONS {
          result := result.(quorumConfirmed := true);
          var existing := FirstOpen(incidents);
          if existing.None? {
            incidents := incidents + [Incident(true, tx)];
          }
        }
      } else {
        var open := FirstOpen(incidents);
        if open.Some? {
          var succeeding := Regions(Newest(recent, CONSECUTIVE_RECOVERY_CHECKS * 2), true, result.region);
          TwoRegions(Newest(recent, CONSECUTIVE_RECOVERY_CHECKS * 2), true, result.region);
          if |succeeding| >= QUORUM_MIN_REGIONS {
            incidents := incidents[open.value := incidents[open.value].(isOpen := false)];
          }
        }
      }
      if own.isUp {
        SuccessMeans(own, recent, all, tx, incidents);
      } else {
        FailureMeans(own, recent, all, tx, incidents);
      }
    }
  }

  // ---------------------------------------------------------------- the transactions

  /** When a transaction took the lock; when it evaluated, by which clock, and whether the
      dependency was still live.  Kept to state the theorems: no step reads the ticks. */
  datatype Evaluation = Evaluation(tick: nat, at: int, live: bool)

  /** The rows of `Committed` transactions are the committed contents of the results table. */
  datatype Tx =
    | Probing(region: Region)
    | Inserted(row: Row, blocked: bool)
    | Locked(row: Row, lockTick: nat)
    | Evaluated(row: Row, lockTick: nat, eval: Evaluation, change: Change)
    | Committed(row: Row, lockTick: nat, eval: Evaluation, commitTick: nat, incidentOpen: bool)
    | CommittedBlocked(row: Row, commitTick: nat)
    | Aborted

  datatype State = State(
    now: int,
    tick: nat,
    live: bool,
    active: bool,
    txs: map<TxId, Tx>,
    lock: Option<TxId>,
    incidents: seq<Incident>,
    log: seq<Event>)

  datatype Action =
    | Pass(duration: nat)
    | SoftDelete
    | SetActive(on: bool)
    | Begin(tx: TxId, region: Region)
    | Insert(tx: TxId, isUp: bool)
    | InsertBlocked(tx: TxId)
    | Lock(tx: TxId)
    | Evaluate(tx: TxId, recent: seq<TxId>)
    | Commit(tx: TxId)
    | Abort(tx: TxId)

  function Fresh(now: int): State {
    State(now, 0, true, true, map[], None, [], [])
  }

  predicate Stored(tx: Tx) {
    tx.Committed? || tx.CommittedBlocked?
  }

  predicate Finished(tx: Tx) {
    Stored(tx) || tx.Aborted?
  }

  /** Rows a transaction reads: committed ones and its own. */
  function VisibleRows(s: State, t: TxId, own: Row): map<TxId, Row> {
    (map u | u in s.txs && Stored(s.txs[u]) :: s.txs[u].row)[t := own]
  }

  /** Sort keys of the rows the recent-results query admits: newest first. */
  function RecentKeys(s: State, t: TxId, own: Row): map<TxId, int> {
    var rows := VisibleRows(s, t, own);
    map u | u in rows && s.live && rows[u].executedAt >= s.now - QUORUM_WINDOW :: -rows[u].executedAt
  }

  function RowsAt(rows: map<TxId, Row>, ids: seq<TxId>): (r: seq<Row>)
    requires forall i :: 0 <= i < |ids| ==> ids[i] in rows
    ensures |r| == |ids| && forall i :: 0 <= i < |ids| ==> r[i] == rows[ids[i]]
  {
    seq(|ids|, i requires 0 <= i < |ids| => rows[ids[i]])
  }

  ghost function Evaluating(s: State, t: TxId, own: Row, recent: seq<TxId>): Option<Decision> {
    var keys := RecentKeys(s, t, own);
    if !OrderedPrefix(keys, |keys|, recent) then None
    else Some(Decide(own, RowsAt(VisibleRows(s, t, own), recent), FirstOpen(s.incidents)))
  }

  function EventsOf(change: Change, t: TxId, at: int): seq<Event> {
    match change
    case Keep => []
    case Open => [Opened(t, at)]
    case Resolve(_) => [Resolved(t, at)]
  }

  function Put(s: State, t: TxId, tx: Tx): State {
    s.(txs := s.txs[t := tx], tick := s.tick + 1)
  }

  function Release(s: State, t: TxId): State {
    if s.lock == Some(t) then s.(lock := None) else s
  }

  ghost function Committing(s: State, t: TxId, tx: Tx): State
    requires tx.Evaluated?
  {
    var incidents := Apply(s.incidents, tx.change, t);
    Put(Release(s, t), t, Committed(tx.row, tx.lockTick, tx.eval, s.tick, HasOpen(incidents)))
    .(incidents := incidents, log := s.log + EventsOf(tx.change, t, tx.eval.at))
  }

  ghost function TxStep(s: State, t: TxId, tx: Tx, a: Action): Option<State> {
    match a
    case Insert(_, isUp) =>
      if tx.Probing? then Some(Put(s, t, Inserted(Row(tx.region, s.now, isUp, false), false))) else None
    case InsertBlocked(_) =>
      if tx.Probing? then Some(Put(s, t, Inserted(Row(tx.region, s.now, false, false), true))) else None
    case Lock(_) =>
      if tx.Inserted? && !tx.blocked && s.lock.None?
      then Some(Put(s, t, Locked(tx.row, s.tick)).(lock := Some(t))) else None
    case Evaluate(_, recent) =>
      if !tx.Locked? then None
      else
        var d := Evaluating(s, t, tx.row, recent);
        if d.None? then None
        else Some(Put(s, t, Evaluated(tx.row.(quorumConfirmed := d.value.confirmed), tx.lockTick,
                                      Evaluation(s.tick, s.now, s.live), d.value.change)))
    case Commit(_) =>
      if tx.Evaluated? then Some(Committing(s, t, tx))
      else if tx.Inserted? && tx.blocked then Some(Put(s, t, CommittedBlocked(tx.row, s.tick)))
      else None
    case Abort(_) =>
      if Finished(tx) then None else Some(Put(Release(s, t), t, Aborted))
    case _ => None
  }

  ghost function Step(s: State, a: Action): Option<State> {
    match a
    case Pass(d) => Some(s.(now := s.now + d, tick := s.tick + 1))
    case SoftDelete => Some(s.(live := false, active := false, tick := s.tick + 1))
    case SetActive(on) => Some(s.(active := on, tick := s.tick + 1))
    case Begin(t, region) =>
      if t in s.txs || !s.live || !s.active then None else Some(Put(s, t, Probing(region)))
    case _ => if a.tx in s.txs then TxStep(s, a.tx, s.txs[a.tx], a) else None
  }

  // ---------------------------------------------------------------- invariants

  predicate Judged(tx: Tx) {
    tx.Evaluated? || tx.Committed?
  }

  predicate HasLocked(tx: Tx) {
    tx.Locked? || Judged(tx)
  }

  predicate TxSane(s: State, t: TxId, tx: Tx) {
    && (tx.Locked? || tx.Evaluated? <==> s.lock == Some(t))
    && (HasLocked(tx) ==> tx.lockTick < s.tick)
    && (Judged(tx) ==> tx.lockTick < tx.eval.tick < s.tick)
    && (tx.Committed? ==> tx.eval.tick < tx.commitTick)
    && (Stored(tx) ==> tx.commitTick < s.tick)
    && (tx.CommittedBlocked? ==> !tx.row.isUp && !tx.row.quorumConfirmed)
    && (tx.Inserted? ==> !tx.row.quorumConfirmed && (tx.blocked ==> !tx.row.isUp))
  }

  ghost predicate Bookkeeping(s: State) {
    && (s.lock.Some? ==> s.lock.value in s.txs)
    && (forall t :: t in s.txs ==> TxSane(s, t, s.txs[t]))
  }

  /** The row lock serialises: whoever locked earlier had committed before the later lock. */
  predicate LockedBefore(r: Tx, q: Tx)
    requires HasLocked(r) && HasLocked(q)
  {
    r.Committed? && r.commitTick < q.lockTick
  }

  ghost predicate LocksSerialise(s: State) {
    forall r, q :: r in s.txs && q in s.txs && r != q && HasLocked(s.txs[r]) && HasLocked(s.txs[q]) ==>
      LockedBefore(s.txs[r], s.txs[q]) || LockedBefore(s.txs[q], s.txs[r])
  }

  /** `r` was committed when `q` evaluated, with outcome `up`, from another region, in the window. */
  ghost predicate Saw(q: Tx, r: Tx, up: bool)
    requires Judged(q)
  {
    && Stored(r)
    && r.commitTick < q.eval.tick
    && r.row.isUp == up
    && r.row.region != q.row.region
    && r.row.executedAt >= q.eval.at - QUORUM_WINDOW
  }

  ghost predicate SawSome(s: State, q: Tx, up: bool)
    requires Judged(q)
  {
    exists r :: r in s.txs && Saw(q, s.txs[r], up)
  }

  ghost predicate QuorumExact(s: State) {
    forall t :: t in s.txs && Judged(s.txs[t]) ==>
      var q := s.txs[t];
      q.row.quorumConfirmed <==> !q.row.isUp && q.eval.live && SawSome(s, q, false)
  }

  ghost predicate Alternates(log: seq<Event>) {
    forall i :: 0 <= i < |log| ==> (log[i].Opened? <==> i % 2 == 0)
  }

  ghost predicate PendingChange(s: State, q: Tx)
    requires q.Evaluated?
  {
    && (q.change.Open? ==> q.row.quorumConfirmed && !HasOpen(s.incidents))
    && (q.change.Resolve? ==>
          q.change.index < |s.incidents| && s.incidents[q.change.index].isOpen &&
          q.row.isUp && SawSome(s, q, true))
    && (q.row.quorumConfirmed ==> q.change.Open? || (q.change.Keep? && HasOpen(s.incidents)))
  }

  ghost predicate Witnessed(s: State, e: Event) {
    && e.tx in s.txs && s.txs[e.tx].Committed? && s.txs[e.tx].eval.at == e.at
    && s.txs[e.tx].row.isUp == e.Resolved?
    && (e.Opened? ==> s.txs[e.tx].row.quorumConfirmed)
    && SawSome(s, s.txs[e.tx], e.Resolved?)
  }

  ghost predicate IncidentsSound(s: State) {
    && AtMostOneOpen(s.incidents)
    && Alternates(s.log)
    && (HasOpen(s.incidents) <==> |s.log| % 2 == 1)
    && (forall t :: t in s.txs && s.txs[t].Evaluated? ==> PendingChange(s, s.txs[t]))
    && (forall t :: t in s.txs && s.txs[t].Committed? && s.txs[t].row.quorumConfirmed ==> s.txs[t].incidentOpen)
    && (forall i :: 0 <= i < |s.log| ==> Witnessed(s, s.log[i]))
  }

  ghost predicate Inv(s: State) {
    Bookkeeping(s) && LocksSerialise(s) && QuorumExact(s) && IncidentsSound(s)
  }

  /** How a step changes one transaction. */
  predicate Moves(s: State, before: Tx, after: Tx) {
    && !Finished(before)
    && (HasLocked(after) ==>
          if HasLocked(before) then after.lockTick == before.lockTick
          else s.lock.None? && after.lockTick == s.tick)
    && (Stored(after) ==> after.commitTick == s.tick)
  }

  /** The shape of every step: at most the transaction `t` changes, to `after`. */
  ghost predicate Shape(s: State, s': State, t: TxId, after: Tx) {
    && s'.tick == s.tick + 1
    && ((s'.txs == s.txs && s'.lock == s.lock)
        || (t !in s.txs && after.Probing? && s'.txs == s.txs[t := after] && s'.lock == s.lock)
        || (t in s.txs && s'.txs == s.txs[t := after] && Moves(s, s.txs[t], after) &&
            (after.Locked? ==> s.lock.None?) && (after.Evaluated? ==> s.txs[t].Locked?) &&
            (TxSane(s, t, s.txs[t]) ==>
               TxSane(s', t, after) &&
               s'.lock == if after.Locked? || after.Evaluated? then Some(t)
                          else if s.lock == Some(t) then None else s.lock)))
  }

  lemma EvaluateShape(s: State, t: TxId, recent: seq<TxId>, s': State)
    requires t in s.txs && TxStep(s, t, s.txs[t], Evaluate(t, recent)) == Some(s')
    ensures t in s'.txs && Shape(s, s', t, s'.txs[t])
  {
    var d := Evaluating(s, t, s.txs[t].row, recent);
    var after := Evaluated(s.txs[t].row.(quorumConfirmed := d.value.confirmed), s.txs[t].lockTick,
                           Evaluation(s.tick, s.now, s.live), d.value.change);
    assert s' == Put(s, t, after);
  }

  lemma TxStepShape(s: State, t: TxId, a: Action, s': State)
    requires !a.Evaluate? && t in s.txs && TxStep(s, t, s.txs[t], a) == Some(s')
    ensures t in s'.txs && Shape(s, s', t, s'.txs[t])
  {
  }

  lemma StepShape(s: State, a: Action, s': State) returns (t: TxId, after: Tx)
    requires Step(s, a) == Some(s')
    ensures Shape(s, s', t, after)
  {
    if a.Pass? || a.SoftDelete? || a.SetActive? {
      t, after := 0, Aborted;
    } else if a.Begin? {
      t, after := a.tx, Probing(a.region);
    } else if a.Evaluate? {
      EvaluateShape(s, a.tx, a.recent, s');
      t, after := a.tx, s'.txs[a.tx];
    } else {
      TxStepShape(s, a.tx, a, s');
      t, after := a.tx, s'.txs[a.tx];
    }
  }

  lemma ShapeKeepsBookkeeping(s: State, s': State, t: TxId, after: Tx)
    requires Bookkeeping(s) && Shape(s, s', t, after)
    ensures Bookkeeping(s')
  {
    forall u | u in s'.txs ensures TxSane(s', u, s'.txs[u]) {
      if u in s.txs {
        assert TxSane(s, u, s.txs[u]);
      }
    }
  }

  ghost predicate TouchesOne(s: State, s': State) {
    && s'.tick == s.tick + 1
    && (forall t :: t in s.txs ==> t in s'.txs && (s'.txs[t] == s.txs[t] || Moves(s, s.txs[t], s'.txs[t])))
    && (forall t :: t in s'.txs && t !in s.txs ==> s'.txs[t].Probing?)
    && (forall t, u :: t in s.txs && u in s.txs && t != u ==>
          s'.txs[t] == s.txs[t] || s'.txs[u] == s.txs[u])
  }

  lemma ShapeTouchesOne(s: State, s': State, t: TxId, after: Tx)
    requires Shape(s, s', t, after)
    ensures TouchesOne(s, s')
  {
  }

  lemma StepTouchesOne(s: State, a: Action, s': State)
    requires Step(s, a) == Some(s')
    ensures TouchesOne(s, s')
  {
    var t, after := StepShape(s, a, s');
    ShapeTouchesOne(s, s', t, after);
  }

  lemma BookkeepingKept(s: State, a: Action, s': State)
    requires Bookkeeping(s) && Step(s, a) == Some(s')
    ensures Bookkeeping(s')
  {
    var t, after := StepShape(s, a, s');
    ShapeKeepsBookkeeping(s, s', t, after);
  }

  lemma LocksSerialiseKept(s: State, s': State)
    requires Bookkeeping(s) && LocksSerialise(s) && TouchesOne(s, s')
    ensures LocksSerialise(s')
  {
    forall r, q | r in s'.txs && q in s'.txs && r != q && HasLocked(s'.txs[r]) && HasLocked(s'.txs[q])
      ensures LockedBefore(s'.txs[r], s'.txs[q]) || LockedBefore(s'.txs[q], s'.txs[r])
    {
      assert TxSane(s, r, s.txs[r]) && TxSane(s, q, s.txs[q]);
      assert s'.txs[r] == s.txs[r] || s'.txs[q] == s.txs[q];
    }
  }

  lemma SawStays(s: State, s': State, q: Tx, up: bool)
    requires TouchesOne(s, s') && Judged(q) && q.eval.tick < s.tick
    ensures SawSome(s, q, up) <==> SawSome(s', q, up)
  {
    if SawSome(s, q, up) {
      var r :| r in s.txs && Saw(q, s.txs[r], up);
      assert r in s'.txs && Saw(q, s'.txs[r], up);
    }
    if SawSome(s', q, up) {
      var r :| r in s'.txs && Saw(q, s'.txs[r], up);
      assert r in s.txs && Saw(q, s.txs[r], up);
    }
  }

  /** What a transaction saw when it evaluated never changes afterwards. */
  lemma SawIsStable(s: State, a: Action, s': State, q: Tx, up: bool)
    requires Step(s, a) == Some(s')
    requires Judged(q) && q.eval.tick < s.tick
    ensures SawSome(s, q, up) <==> SawSome(s', q, up)
  {
    StepTouchesOne(s, a, s');
    SawStays(s, s', q, up);
  }

  // Evaluation: the recent rows are exactly what the transaction is entitled to see.

  /** The query's rows contain another region's outcome iff such a row was committed and recent. */
  lemma RecentHasOther(s: State, t: TxId, own: Row, recent: seq<TxId>, up: bool)
    requires OrderedPrefix(RecentKeys(s, t, own), |RecentKeys(s, t, own)|, recent)
    ensures OtherRegion(RowsAt(VisibleRows(s, t, own), recent), up, own.region) <==>
            s.live && exists r :: r in s.txs && r != t && Stored(s.txs[r]) && s.txs[r].row.isUp == up &&
                        s.txs[r].row.region != own.region && s.txs[r].row.executedAt >= s.now - QUORUM_WINDOW
  {
    var keys := RecentKeys(s, t, own);
    var rows := VisibleRows(s, t, own);
    ShortResultIsComplete(keys, |keys|, recent);
    var list := RowsAt(rows, recent);
    if OtherRegion(list, up, own.region) {
      var i :| 0 <= i < |list| && list[i].isUp == up && list[i].region != own.region;
      assert recent[i] in keys;
      assert recent[i] in s.txs && Stored(s.txs[recent[i]]);
    }
    if s.live {
      forall r | r in s.txs && r != t && Stored(s.txs[r]) && s.txs[r].row.isUp == up &&
                 s.txs[r].row.region != own.region && s.txs[r].row.executedAt >= s.now - QUORUM_WINDOW
        ensures OtherRegion(list, up, own.region)
      {
        assert r in keys;
        assert r in SeqToSet(recent);
        var i :| 0 <= i < |recent| && recent[i] == r;
        assert list[i].region != own.region;
      }
    }
  }

  /** Right after its evaluation a transaction's decision says exactly what it saw. */
  lemma EvaluationSees(s: State, a: Action, s': State, up: bool)
    requires Bookkeeping(s) && a.Evaluate? && Step(s, a) == Some(s')
    ensures a.tx in s'.txs && s'.txs[a.tx].Evaluated?
    ensures var own := s.txs[a.tx].row;
            var q := s'.txs[a.tx];
            q.eval.live && SawSome(s', q, up) <==>
            OtherRegion(RowsAt(VisibleRows(s, a.tx, own), a.recent), up, own.region)
  {
    var t := a.tx;
    var own := s.txs[t].row;
    var q := s'.txs[t];
    RecentHasOther(s, t, own, a.recent, up);
    if SawSome(s', q, up) {
      var r :| r in s'.txs && Saw(q, s'.txs[r], up);
      assert r in s.txs && r != t && Stored(s.txs[r]);
    }
    if r :| r in s.txs && r != t && Stored(s.txs[r]) && s.txs[r].row.isUp == up &&
            s.txs[r].row.region != own.region && s.txs[r].row.executedAt >= s.now - QUORUM_WINDOW {
      assert r in s'.txs && Saw(q, s'.txs[r], up);
    }
  }

  lemma QuorumExactKept(s: State, a: Action, s': State)
    requires Bookkeeping(s) && QuorumExact(s) && Step(s, a) == Some(s')
    ensures QuorumExact(s')
  {
    forall t | t in s'.txs && Judged(s'.txs[t])
      ensures var q := s'.txs[t];
              q.row.quorumConfirmed <==> !q.row.isUp && q.eval.live && SawSome(s', q, false)
    {
      if a.Evaluate? && a.tx == t {
        EvaluationSees(s, a, s', false);
      } else {
        var q := s.txs[t];
        assert Judged(q) && q.eval == s'.txs[t].eval && q.row == s'.txs[t].row;
        SawIsStable(s, a, s', q, false);
        assert SawSome(s', q, false) <==> SawSome(s', s'.txs[t], false);
      }
    }
  }

  lemma ApplyKeepsOneOpen(incidents: seq<Incident>, change: Change, t: TxId)
    requires AtMostOneOpen(incidents)
    requires change.Open? ==> !HasOpen(incidents)
    requires change.Resolve? ==> change.index < |incidents| && incidents[change.index].isOpen
    ensures AtMostOneOpen(Apply(incidents, change, t))
    ensures change.Open? ==> HasOpen(Apply(incidents, change, t))
    ensures change.Resolve? ==> !HasOpen(Apply(incidents, change, t))
  {
    var after := Apply(incidents, change, t);
    if change.Open? {
      assert after[|after| - 1].isOpen;
      assert forall i :: 0 <= i < |incidents| ==> after[i] == incidents[i];
    }
  }

  lemma NewestHasOther(rows: seq<Row>, n: nat, up: bool, own: Region)
    requires OtherRegion(Newest(rows, n), up, own)
    ensures OtherRegion(rows, up, own)
  {
  }

  lemma PendingAfterEvaluation(s: State, a: Action, s': State)
    requires Bookkeeping(s) && a.Evaluate? && Step(s, a) == Some(s')
    ensures a.tx in s'.txs && s'.txs[a.tx].Evaluated? && PendingChange(s', s'.txs[a.tx])
  {
    EvaluationSees(s, a, s', true);
    var own := s.txs[a.tx].row;
    var list := RowsAt(VisibleRows(s, a.tx, own), a.recent);
    if s'.txs[a.tx].change.Resolve? {
      NewestHasOther(list, CONSECUTIVE_RECOVERY_CHECKS * 2, true, own.region);
    }
  }

  lemma CommitWitness(s: State, a: Action, s': State)
    requires Inv(s) && a.Commit? && Step(s, a) == Some(s') && s.txs[a.tx].Evaluated?
    requires !s.txs[a.tx].change.Keep?
    ensures Witnessed(s', if s.txs[a.tx].change.Open? then Opened(a.tx, s.txs[a.tx].eval.at)
                          else Resolved(a.tx, s.txs[a.tx].eval.at))
  {
    var q := s.txs[a.tx];
    assert PendingChange(s, q);
    SawIsStable(s, a, s', q, q.change.Resolve?);
    assert SawSome(s', s'.txs[a.tx], q.change.Resolve?) <==> SawSome(s', q, q.change.Resolve?);
  }

  lemma CommitKeepsIncidents(s: State, a: Action, s': State)
    requires Inv(s) && a.Commit? && Step(s, a) == Some(s') && s.txs[a.tx].Evaluated?
    ensures AtMostOneOpen(s'.incidents) && Alternates(s'.log)
    ensures HasOpen(s'.incidents) <==> |s'.log| % 2 == 1
    ensures s.txs[a.tx].row.quorumConfirmed ==> s'.txs[a.tx].incidentOpen
    ensures s'.log == s.log + EventsOf(s.txs[a.tx].change, a.tx, s.txs[a.tx].eval.at)
  {
    var q := s.txs[a.tx];
    assert PendingChange(s, q);
    ApplyKeepsOneOpen(s.incidents, q.change, a.tx);
  }

  lemma WitnessesStay(s: State, a: Action, s': State)
    requires Inv(s) && Step(s, a) == Some(s')
    ensures forall e :: Witnessed(s, e) ==> Witnessed(s', e)
  {
    StepTouchesOne(s, a, s');
    forall e | Witnessed(s, e) ensures Witnessed(s', e) {
      SawIsStable(s, a, s', s.txs[e.tx], e.Resolved?);
    }
  }

  lemma PendingStays(s: State, a: Action, s': State, t: TxId)
    requires Inv(s) && Step(s, a) == Some(s')
    requires t in s.txs && s.txs[t].Evaluated? && t in s'.txs && s'.txs[t] == s.txs[t]
    ensures s'.incidents == s.incidents
    ensures PendingChange(s', s'.txs[t])
  {
    assert s.lock == Some(t);
    SawIsStable(s, a, s', s.txs[t], true);
  }

  lemma PendingChangesKept(s: State, a: Action, s': State)
    requires Inv(s) && Step(s, a) == Some(s')
    ensures forall t :: t in s'.txs && s'.txs[t].Evaluated? ==> PendingChange(s', s'.txs[t])
  {
    forall t | t in s'.txs && s'.txs[t].Evaluated? ensures PendingChange(s', s'.txs[t]) {
      if a.Evaluate? && a.tx == t {
        PendingAfterEvaluation(s, a, s');
      } else {
        PendingStays(s, a, s', t);
      }
    }
  }

  lemma LogKept(s: State, a: Action, s': State)
    requires Inv(s) && Step(s, a) == Some(s')
    ensures AtMostOneOpen(s'.incidents) && Alternates(s'.log) && (HasOpen(s'.incidents) <==> |s'.log| % 2 == 1)
  {
    if a.Commit? && s.txs[a.tx].Evaluated? {
      CommitKeepsIncidents(s, a, s');
    }
  }

  lemma ConfirmedKept(s: State, a: Action, s': State)
    requires Inv(s) && Step(s, a) == Some(s')
    ensures forall t :: t in s'.txs && s'.txs[t].Committed? && s'.txs[t].row.quorumConfirmed ==> s'.txs[t].incidentOpen
  {
    if a.Commit? && s.txs[a.tx].Evaluated? {
      CommitKeepsIncidents(s, a, s');
    }
  }

  lemma WitnessesKept(s: State, a: Action, s': State)
    requires Inv(s) && Step(s, a) == Some(s')
    ensures forall i :: 0 <= i < |s'.log| ==> Witnessed(s', s'.log[i])
  {
    WitnessesStay(s, a, s');
    if a.Commit? && s.txs[a.tx].Evaluated? {
      CommitKeepsIncidents(s, a, s');
      if !s.txs[a.tx].change.Keep? {
        CommitWitness(s, a, s');
      }
    }
  }

  lemma IncidentsSoundKept(s: State, a: Action, s': State)
    requires Inv(s) && Step(s, a) == Some(s')
    ensures IncidentsSound(s')
  {
    LogKept(s, a, s');
    ConfirmedKept(s, a, s');
    WitnessesKept(s, a, s');
    PendingChangesKept(s, a, s');
  }

  lemma InvKept(s: State, a: Action, s': State)
    requires Inv(s) && Step(s, a) == Some(s')
    ensures Inv(s')
  {
    BookkeepingKept(s, a, s');
    StepTouchesOne(s, a, s');
    LocksSerialiseKept(s, s');
    QuorumExactKept(s, a, s');
    IncidentsSoundKept(s, a, s');
  }

  // ---------------------------------------------------------------- theorems over whole runs

  lemma ReachableInv(now: int, actions: seq<Action>, s: State)
    requires Runs.Run(Step, Fresh(now), actions) == Some(s)
    ensures Inv(s)
  {
    forall s0, a | Inv(s0) && Step(s0, a).Some? ensures Inv(Step(s0, a).value) {
      InvKept(s0, a, Step(s0, a).value);
    }
    Runs.RunPreserves(Step, Inv, Fresh(now), actions);
  }

  /** In every reachable state at most one incident is open, and openings and resolutions of the
      committed log strictly alternate, starting with an opening. */
  lemma IncidentsAlternate(now: int, actions: seq<Action>, s: State)
    requires Runs.Run(Step, Fresh(now), actions) == Some(s)
    ensures AtMostOneOpen(s.incidents)
    ensures Alternates(s.log)
    ensures HasOpen(s.incidents) <==> |s.log| % 2 == 1
  {
    ReachableInv(now, actions, s);
  }

  /** Every opening (every automatic resolution) was made by a committed failing (succeeding) check
      that, when it evaluated, had seen a failure (success) of another region that was committed by
      then and at most 60 s old; and every check that opens an incident is quorum-confirmed. */
  lemma EventsAreWitnessed(now: int, actions: seq<Action>, s: State, i: nat)
    requires Runs.Run(Step, Fresh(now), actions) == Some(s)
    requires i < |s.log|
    ensures s.log[i].tx in s.txs && s.txs[s.log[i].tx].Committed?
    ensures s.txs[s.log[i].tx].eval.at == s.log[i].at
    ensures s.txs[s.log[i].tx].row.isUp == s.log[i].Resolved?
    ensures s.log[i].Opened? ==> s.txs[s.log[i].tx].row.quorumConfirmed
    ensures exists r :: r in s.txs && Saw(s.txs[s.log[i].tx], s.txs[r], s.log[i].Resolved?)
    ensures exists r :: r in s.txs && Stored(s.txs[r]) && s.txs[r].commitTick < s.txs[s.log[i].tx].eval.tick &&
                        s.txs[r].row.isUp == s.log[i].Resolved? &&
                        s.txs[r].row.region != s.txs[s.log[i].tx].row.region &&
                        s.txs[r].row.executedAt >= s.log[i].at - 60_000_000
  {
    ReachableInv(now, actions, s);
    assert Witnessed(s, s.log[i]);
    var r :| r in s.txs && Saw(s.txs[s.log[i].tx], s.txs[r], s.log[i].Resolved?);
  }

  /** A committed check is quorum-confirmed exactly when it failed while the dependency was live
      and a failure of another region, at most 60 s old, was committed at its evaluation; and
      whenever it is confirmed an incident was open when it committed. */
  lemma ConfirmedIff(now: int, actions: seq<Action>, s: State, t: TxId)
    requires Runs.Run(Step, Fresh(now), actions) == Some(s)
    requires t in s.txs && s.txs[t].Committed?
    ensures var q := s.txs[t];
            q.row.quorumConfirmed <==>
            !q.row.isUp && q.eval.live &&
            exists r :: r in s.txs && Stored(s.txs[r]) && s.txs[r].commitTick < q.eval.tick && !s.txs[r].row.isUp &&
                        s.txs[r].row.region != q.row.region && s.txs[r].row.executedAt >= q.eval.at - 60_000_000
    ensures s.txs[t].row.quorumConfirmed ==> s.txs[t].incidentOpen
  {
    ReachableInv(now, actions, s);
    var q := s.txs[t];
    if SawSome(s, q, false) {
      var r :| r in s.txs && Saw(q, s.txs[r], false);
    }
    forall r | r in s.txs && Stored(s.txs[r]) && s.txs[r].commitTick < q.eval.tick && !s.txs[r].row.isUp &&
               s.txs[r].row.region != q.row.region && s.txs[r].row.executedAt >= q.eval.at - 60_000_000
      ensures Saw(q, s.txs[r], false)
    {
    }
  }

  function RegionsOf(s: State, probes: set<TxId>): set<Region> {
    set p | p in probes && p in s.txs && Stored(s.txs[p]) :: s.txs[p].row.region
  }

  lemma AnotherRegion(s: State, probes: set<TxId>, last: TxId) returns (p: TxId)
    requires forall p :: p in probes ==> p in s.txs && Stored(s.txs[p])
    requires last in probes && |RegionsOf(s, probes)| >= QUORUM_MIN_REGIONS
    ensures p in probes && s.txs[p].row.region != s.txs[last].row.region
  {
    var mine := s.txs[last].row.region;
    if forall p :: p in probes ==> s.txs[p].row.region == mine {
      SubsetCardinality(RegionsOf(s, probes), {mine});
    }
    p :| p in probes && s.txs[p].row.region != mine;
  }

  /** Quorum is never missed: whatever the interleaving, if committed failing probes cover two
      regions and all lie within 60 s when the last of them to take the row lock evaluates, that
      last one is confirmed and an incident is open when it commits. */
  lemma QuorumNeverMissed(now: int, actions: seq<Action>, s: State, probes: set<TxId>, last: TxId)
    requires Runs.Run(Step, Fresh(now), actions) == Some(s)
    requires forall p :: p in probes ==> p in s.txs && Stored(s.txs[p]) && !s.txs[p].row.isUp
    requires |RegionsOf(s, probes)| >= QUORUM_MIN_REGIONS
    requires last in probes && s.txs[last].Committed? && s.txs[last].eval.live
    requires forall p :: p in probes ==>
               if s.txs[p].Committed? then s.txs[p].lockTick <= s.txs[last].lockTick
               else s.txs[p].commitTick < s.txs[last].eval.tick
    requires forall p :: p in probes ==> s.txs[p].row.executedAt >= s.txs[last].eval.at - 60_000_000
    ensures s.txs[last].row.quorumConfirmed && s.txs[last].incidentOpen
  {
    ReachableInv(now, actions, s);
    var p := AnotherRegion(s, probes, last);
    assert Saw(s.txs[last], s.txs[p], false);
  }

  // ---------------------------------------------------------------- row locks

  /** PostgreSQL's row locks on top of the steps: the foreign key gives every uncommitted insert a
      key-share lock on the dependency row, which conflicts with `FOR UPDATE`. */
  predicate HoldsKeyShare(tx: Tx) {
    tx.Inserted? || tx.Locked? || tx.Evaluated?
  }

  ghost function KeyShareStep(s: State, a: Action): Option<State> {
    if a.Lock? && exists u :: u in s.txs && u != a.tx && HoldsKeyShare(s.txs[u]) then None
    else if (a.Insert? || a.InsertBlocked?) && s.lock.Some? then None
    else Step(s, a)
  }

  ghost function NeitherAborts(t: TxId, u: TxId): (State, Action) -> Option<State> {
    (s, a) => if a == Abort(t) || a == Abort(u) then None else KeyShareStep(s, a)
  }

  ghost predicate BothWait(s: State, t: TxId, u: TxId) {
    && t in s.txs && s.txs[t].Inserted? && !s.txs[t].blocked
    && u in s.txs && s.txs[u].Inserted? && !s.txs[u].blocked
  }

  lemma BothWaitKept(t: TxId, u: TxId, s: State, a: Action)
    requires t != u && BothWait(s, t, u)
    requires a != Abort(t) && a != Abort(u) && KeyShareStep(s, a).Some?
    ensures BothWait(KeyShareStep(s, a).value, t, u)
  {
    if a.Lock? {
      assert HoldsKeyShare(s.txs[t]) && HoldsKeyShare(s.txs[u]);
    }
  }

  /** Two checks that have both inserted are deadlocked: in every continuation in which neither
      is aborted, neither ever takes the row lock. */
  lemma TwoInsertsDeadlock(t: TxId, u: TxId, s: State, actions: seq<Action>, s': State)
    requires t != u && BothWait(s, t, u)
    requires Runs.Run(NeitherAborts(t, u), s, actions) == Some(s')
    ensures BothWait(s', t, u)
  {
    var wait := (x: State) => BothWait(x, t, u);
    forall x, a | BothWait(x, t, u) && NeitherAborts(t, u)(x, a).Some?
      ensures BothWait(NeitherAborts(t, u)(x, a).value, t, u)
    {
      BothWaitKept(t, u, x, a);
    }
    Runs.RunPreserves(NeitherAborts(t, u), wait, s, actions);
  }

  lemma LockIsAloneKept(s: State, a: Action, s': State)
    requires Bookkeeping(s) && LockIsAlone(s) && KeyShareStep(s, a) == Some(s')
    ensures LockIsAlone(s')
  {
  }

  /** With these locks no failing check can overlap another's evaluation: at every evaluation all
      other rows of the dependency are committed or gone. */
  lemma EvaluationIsAlone(now: int, actions: seq<Action>, s: State, t: TxId)
    requires Runs.Run(KeyShareStep, Fresh(now), actions) == Some(s)
    requires t in s.txs && s.lock == Some(t)
    ensures forall u :: u in s.txs && u != t ==> s.txs[u].Probing? || Finished(s.txs[u])
    ensures Inv(s)
  {
    var inv := (x: State) => Inv(x) && LockIsAlone(x);
    forall x, a | inv(x) && KeyShareStep(x, a).Some? ensures inv(KeyShareStep(x, a).value) {
      InvKept(x, a, KeyShareStep(x, a).value);
      LockIsAloneKept(x, a, KeyShareStep(x, a).value);
    }
    Runs.RunPreserves(KeyShareStep, inv, Fresh(now), actions);
  }

  ghost predicate LockIsAlone(s: State) {
    s.lock.Some? ==> forall u :: u in s.txs && Some(u) != s.lock ==> !HoldsKeyShare(s.txs[u])
  }
}
