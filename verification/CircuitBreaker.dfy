/** The circuit breaker of one dependency: a small counter document and a half-open probe lease,
    both in Redis.  Times are seconds. */
module CircuitBreaker {
  import opened Options
  import Runs

  const FAILURE_THRESHOLD: nat := 3
  const SUCCESS_THRESHOLD: nat := 2
  const HALF_OPEN_INTERVAL: real := 60.0
  const PROBE_LEASE: real := 60.0

  datatype Document = Document(open: bool, failures: nat, successes: nat, openedAt: Option<real>)

  const EMPTY_DOCUMENT := Document(false, 0, 0, None)

  /** The document after one more outcome. */
  function Recorded(d: Document, success: bool, now: real): Document {
    if success then
      if d.successes + 1 >= SUCCESS_THRESHOLD then Document(false, 0, 0, None)
      else d.(failures := 0, successes := d.successes + 1)
    else if d.failures + 1 >= FAILURE_THRESHOLD then Document(true, d.failures + 1, 0, Some(now))
    else d.(successes := 0, failures := d.failures + 1)
  }

  predicate LeaseHeld(lease: Option<real>, now: real) {
    lease.Some? && now < lease.value
  }

  function OpenedAt(d: Document): real {
    if d.openedAt.Some? then d.openedAt.value else 0.0
  }

  /** The success that closes the breaker deletes the lease. */
  function LeaseAfter(d: Document, lease: Option<real>, success: bool): Option<real> {
    if success && d.successes + 1 >= SUCCESS_THRESHOLD then None else lease
  }

  /** An open breaker grants a probe once the interval has passed and nobody holds the lease. */
  predicate Grants(d: Document, lease: Option<real>, now: real) {
    d.open && now - OpenedAt(d) >= HALF_OPEN_INTERVAL && !LeaseHeld(lease, now)
  }

  class Breaker {
    var stored: Option<Document>
    var lease: Option<real>

    constructor ()
      ensures stored == None && lease == None
    {
      stored, lease := None, None;
    }

    function Load(): Document
      reads this
    {
      if stored.Some? then stored.value else EMPTY_DOCUMENT
    }

    method ShouldDispatch(now: real) returns (dispatch: bool)
      modifies this`lease
      ensures dispatch <==> !Load().open || Grants(Load(), old(lease), now)
      ensures Load().open ==>
                (dispatch <==> now - OpenedAt(Load()) >= 60.0 && (old(lease).Some? ==> now >= old(lease).value))
      ensures lease == if Load().open && dispatch then Some(now + 60.0) else old(lease)
    {
      var state := Load();
      if !state.open {
        return true;
      }
      if now - OpenedAt(state) < HALF_OPEN_INTERVAL {
        return false;
      }
      if LeaseHeld(lease, now) {
        return false;
      }
      lease := Some(now + PROBE_LEASE);
      return true;
    }

    /** `_record`: the branches update the loaded document field by field and save it. */
    method Record(success: bool, now: real)
      modifies this
      ensures stored == Some(Recorded(old(Load()), success, now))
      ensures lease == LeaseAfter(old(Load()), old(lease), success)
      ensures success && old(Load()).successes >= 1 ==> !stored.value.open && lease == None
    {
      var state := Load();
      if success {
        state := state.(failures := 0);
        state := state.(successes := state.successes + 1);
        if state.successes >= SUCCESS_THRESHOLD {
          state := state.(open := false, successes := 0, openedAt := None);
          lease := None;
        }
      } else {
        state := state.(successes := 0);
        state := state.(failures := state.failures + 1);
        if state.failures >= FAILURE_THRESHOLD {
          state := state.(open := true, openedAt := Some(now));
        }
      }
      stored := Some(state);
    }
  }

  // ---------------------------------------------------------------- counters against history

  datatype Outcome = Outcome(success: bool, at: real)

  function Replay(h: seq<Outcome>): Document
    decreases |h|
  {
    if h == [] then EMPTY_DOCUMENT
    else
      var last := h[|h| - 1];
      Recorded(Replay(h[..|h| - 1]), last.success, last.at)
  }

  /** Outcome `i` is a failure that ends a run of at least three. */
  predicate EndsFailureRun(h: seq<Outcome>, i: int) {
    2 <= i < |h| && !h[i].success && !h[i - 1].success && !h[i - 2].success
  }

  predicate EndsSuccessPair(h: seq<Outcome>, i: int) {
    1 <= i < |h| && h[i].success && h[i - 1].success
  }

  /** `i` is the latest run-ending failure, and no two consecutive successes follow it. */
  ghost predicate OpenSince(h: seq<Outcome>, i: int) {
    && EndsFailureRun(h, i)
    && (forall j :: i < j < |h| ==> !EndsFailureRun(h, j))
    && (forall j :: i < j < |h| ==> !EndsSuccessPair(h, j))
  }

  /** Three consecutive failures not followed later by two consecutive successes. */
  ghost predicate OpenByHistory(h: seq<Outcome>) {
    exists i :: EndsFailureRun(h, i) && forall j :: i < j < |h| ==> !EndsSuccessPair(h, j)
  }

  predicate FailureTail(h: seq<Outcome>, n: nat) {
    n <= |h| && (forall i :: |h| - n <= i < |h| ==> !h[i].success) && (n < |h| ==> h[|h| - n - 1].success)
  }

  ghost predicate Refines(d: Document, h: seq<Outcome>) {
    && FailureTail(h, d.failures)
    && d.successes <= 1
    && (d.successes == 1 ==> |h| > 0 && h[|h| - 1].success)
    && (d.open ==> |h| > 0 && (d.successes == 1 <==> h[|h| - 1].success))
    && (d.open <==> OpenByHistory(h))
    && (d.open ==> exists i :: OpenSince(h, i) && d.openedAt == Some(h[i].at))
    && (!d.open ==> d.openedAt == None)
  }

  lemma FailureRefines(h: seq<Outcome>, o: Outcome)
    requires Refines(Replay(h), h) && !o.success
    ensures Refines(Recorded(Replay(h), false, o.at), h + [o])
  {
    var d, h' := Replay(h), h + [o];
    var d' := Recorded(d, false, o.at);
    var n := |h|;
    assert forall i :: i < n ==> (EndsFailureRun(h', i) <==> EndsFailureRun(h, i));
    assert forall i :: i < n ==> (EndsSuccessPair(h', i) <==> EndsSuccessPair(h, i));
    if d.failures >= 2 {
      assert EndsFailureRun(h', n) && OpenSince(h', n);
    } else {
      assert !EndsFailureRun(h', n);
      if d.open {
        var i :| OpenSince(h, i) && d.openedAt == Some(h[i].at);
        assert OpenSince(h', i);
      }
      if OpenByHistory(h') {
        var i :| EndsFailureRun(h', i) && forall j :: i < j < |h'| ==> !EndsSuccessPair(h', j);
        assert EndsFailureRun(h, i);
      }
    }
  }

  lemma SuccessRefines(h: seq<Outcome>, o: Outcome)
    requires Refines(Replay(h), h) && o.success
    ensures Refines(Recorded(Replay(h), true, o.at), h + [o])
  {
    var d, h' := Replay(h), h + [o];
    var n := |h|;
    assert forall i :: i < n ==> (EndsFailureRun(h', i) <==> EndsFailureRun(h, i));
    assert forall i :: i < n ==> (EndsSuccessPair(h', i) <==> EndsSuccessPair(h, i));
    assert !EndsFailureRun(h', n);
    if OpenByHistory(h') {
      var i :| EndsFailureRun(h', i) && forall j :: i < j < |h'| ==> !EndsSuccessPair(h', j);
      assert EndsFailureRun(h, i);
      assert !EndsSuccessPair(h', n);
    }
    if d.open && d.successes == 0 {
      var i :| OpenSince(h, i) && d.openedAt == Some(h[i].at);
      assert OpenSince(h', i);
    }
    if d.successes == 1 {
      assert EndsSuccessPair(h', n);
    }
  }

  /** After any sequence of outcomes the breaker is open exactly when some three consecutive
      failures are not followed later by two consecutive successes; while it is open, `openedAt` is
      the time of the latest failure that ended a run of three or more. */
  lemma {:induction false} CountersRefineHistory(h: seq<Outcome>)
    ensures Replay(h).open <==> OpenByHistory(h)
    ensures Replay(h).open ==> exists i :: OpenSince(h, i) && Replay(h).openedAt == Some(h[i].at)
    ensures Refines(Replay(h), h)
    decreases |h|
  {
    if h != [] {
      var n := |h| - 1;
      CountersRefineHistory(h[..n]);
      assert h == h[..n] + [h[n]];
      if h[n].success {
        SuccessRefines(h[..n], h[n]);
      } else {
        FailureRefines(h[..n], h[n]);
      }
    }
  }

  // ---------------------------------------------------------------- load and save as separate steps

  type TaskId = nat

  /** What a record has loaded: the document, the outcomes that one counts, and how many records had
      been saved by then. */
  datatype Loaded = Loaded(document: Document, success: bool, counted: seq<Outcome>, saves: nat)

  /** `history` holds all saved outcomes, `counted` those the stored document counts; `overlapped` says
      whether some record was saved between another one's load and its save. */
  datatype Records = Records(
    document: Document, counted: seq<Outcome>, history: seq<Outcome>, loaded: map<TaskId, Loaded>, overlapped: bool)

  datatype RecordAction = Load(task: TaskId, success: bool) | Save(task: TaskId, at: real)

  const NO_RECORDS := Records(EMPTY_DOCUMENT, [], [], map[], false)

  function RecordStep(r: Records, a: RecordAction): Option<Records> {
    match a
    case Load(t, success) =>
      if t in r.loaded then None
      else Some(r.(loaded := r.loaded[t := Loaded(r.document, success, r.counted, |r.history|)]))
    case Save(t, at) =>
      if t !in r.loaded then None
      else
        var l := r.loaded[t];
        Some(Records(Recorded(l.document, l.success, at), l.counted + [Outcome(l.success, at)],
                     r.history + [Outcome(l.success, at)], r.loaded - {t},
                     r.overlapped || l.saves < |r.history|))
  }

  predicate CountedUpTo(counted: seq<Outcome>, history: seq<Outcome>, overlapped: bool) {
    if overlapped then |counted| < |history| else counted == history
  }

  ghost predicate RecordInv(r: Records) {
    && r.document == Replay(r.counted)
    && CountedUpTo(r.counted, r.history, r.overlapped)
    && (forall t :: t in r.loaded ==>
          var l := r.loaded[t];
          && l.document == Replay(l.counted) && |l.counted| <= l.saves <= |r.history|
          && (l.saves == |r.history| ==> l.counted == r.counted))
  }

  lemma ReplayNext(h: seq<Outcome>, o: Outcome)
    ensures Replay(h + [o]) == Recorded(Replay(h), o.success, o.at)
  {
    assert (h + [o])[..|h|] == h;
  }

  lemma RecordStepKeepsInv(r: Records, a: RecordAction)
    requires RecordInv(r) && RecordStep(r, a).Some?
    ensures RecordInv(RecordStep(r, a).value)
  {
    if a.Save? {
      var l := r.loaded[a.task];
      ReplayNext(l.counted, Outcome(l.success, a.at));
    }
  }

  /** However loads and saves interleave, the breaker is what the outcomes it counts say; it counts
      every recorded outcome if and only if no record was saved between another one's load and save. */
  lemma OutcomesCountedIff(actions: seq<RecordAction>, r: Records)
    requires Runs.Run(RecordStep, NO_RECORDS, actions) == Some(r)
    ensures r.document.open <==> OpenByHistory(r.counted)
    ensures r.document.open ==> exists i :: OpenSince(r.counted, i) && r.document.openedAt == Some(r.counted[i].at)
    ensures r.counted == r.history <==> !r.overlapped
  {
    forall x, a | RecordInv(x) && RecordStep(x, a).Some? ensures RecordInv(RecordStep(x, a).value) {
      RecordStepKeepsInv(x, a);
    }
    Runs.RunPreserves(RecordStep, RecordInv, NO_RECORDS, actions);
    CountersRefineHistory(r.counted);
  }

  const FAILED := Outcome(false, 0.0)
  const ONE_FAILURE := Document(false, 1, 0, None)
  const TWO_FAILURES := Document(false, 2, 0, None)

  lemma OneSaved() returns (acts: seq<RecordAction>, r: Records)
    ensures Runs.Run(RecordStep, NO_RECORDS, acts) == Some(r)
    ensures r == Records(ONE_FAILURE, [FAILED], [FAILED], map[], false)
  {
    acts, r := Runs.Extend(RecordStep, NO_RECORDS, [], NO_RECORDS, Load(0, false));
    acts, r := Runs.Extend(RecordStep, NO_RECORDS, acts, r, Save(0, 0.0));
  }

  lemma TwoLoaded() returns (acts: seq<RecordAction>, r: Records)
    ensures Runs.Run(RecordStep, NO_RECORDS, acts) == Some(r)
    ensures var l := Loaded(ONE_FAILURE, false, [FAILED], 1);
            r == Records(ONE_FAILURE, [FAILED], [FAILED], map[1 := l, 2 := l], false)
  {
    acts, r := OneSaved();
    acts, r := Runs.Extend(RecordStep, NO_RECORDS, acts, r, Load(1, false));
    acts, r := Runs.Extend(RecordStep, NO_RECORDS, acts, r, Load(2, false));
  }

  /** A run of three failures of which the last two overlap: one is lost, and the breaker stays closed
      although the history says open. */
  lemma OverlappingRecordsLoseAFailure() returns (acts: seq<RecordAction>, r: Records)
    ensures Runs.Run(RecordStep, NO_RECORDS, acts) == Some(r)
    ensures r.history == [FAILED, FAILED, FAILED] && OpenByHistory(r.history) && !r.document.open
  {
    acts, r := TwoLoaded();
    acts, r := Runs.Extend(RecordStep, NO_RECORDS, acts, r, Save(1, 0.0));
    assert r.document == TWO_FAILURES;
    acts, r := Runs.Extend(RecordStep, NO_RECORDS, acts, r, Save(2, 0.0));
    assert r.document == TWO_FAILURES && r.history == [FAILED, FAILED, FAILED];
    assert EndsFailureRun(r.history, 2);
  }

  // ---------------------------------------------------------------- probe grants over whole runs

  /** A granted probe, with the time of the latest opening before it. */
  datatype Grant = Grant(at: real, latestOpening: real)

  /** `grantsAtClose` is the number of grants made before the breaker last closed. */
  datatype State = State(
    now: real, document: Document, lease: Option<real>, latestOpening: real, grants: seq<Grant>, grantsAtClose: nat)

  datatype Action = Report(success: bool, at: real) | Dispatch(at: real)

  function Start(now: real): State {
    State(now, EMPTY_DOCUMENT, None, 0.0, [], 0)
  }

  /** Atomic steps of any number of schedulers and checks, with a nondecreasing clock. */
  function Step(s: State, a: Action): Option<State> {
    if a.at < s.now then None
    else if a.Report? then
      var d := Recorded(s.document, a.success, a.at);
      Some(s.(now := a.at, document := d,
              lease := LeaseAfter(s.document, s.lease, a.success),
              latestOpening :=
                if !a.success && s.document.failures + 1 >= FAILURE_THRESHOLD then a.at else s.latestOpening,
              grantsAtClose := if s.document.open && !d.open then |s.grants| else s.grantsAtClose))
    else if Grants(s.document, s.lease, a.at) then
      Some(s.(now := a.at, lease := Some(a.at + PROBE_LEASE),
              grants := s.grants + [Grant(a.at, s.latestOpening)]))
    else Some(s.(now := a.at))
  }

  ghost predicate GrantsSpaced(grants: seq<Grant>) {
    && (forall i, j :: 0 <= i < j < |grants| ==> grants[j].at - grants[i].at >= 60.0)
    && (forall i :: 0 <= i < |grants| ==> grants[i].at - grants[i].latestOpening >= 60.0)
  }

  /** The lease belongs to the last grant since the breaker last closed, if there is one. */
  ghost predicate LeaseIsLastGrant(s: State) {
    && s.grantsAtClose <= |s.grants|
    && (s.grantsAtClose < |s.grants| ==> s.document.open && s.lease == Some(s.grants[|s.grants| - 1].at + 60.0))
    && (s.grantsAtClose == |s.grants| ==> s.lease == None)
  }

  ghost predicate GrantInv(s: State) {
    && GrantsSpaced(s.grants) && LeaseIsLastGrant(s)
    && s.latestOpening <= s.now
    && (s.document.open ==> s.document.openedAt == Some(s.latestOpening))
    && (forall i :: 0 <= i < |s.grants| ==> s.grants[i].at <= s.now)
    && (s.document.open && s.grants != [] ==>
          var last := s.grants[|s.grants| - 1].at;
          s.lease == Some(last + PROBE_LEASE) || s.latestOpening >= last)
  }

  lemma StepKeepsGrantInv(s: State, a: Action, s': State)
    requires GrantInv(s) && Step(s, a) == Some(s')
    ensures GrantInv(s')
  {
    if |s'.grants| > |s.grants| {
      forall i | 0 <= i < |s.grants| ensures a.at - s.grants[i].at >= 60.0 {
        var last := s.grants[|s.grants| - 1].at;
        assert s.grants[i].at <= last;
      }
    }
  }

  lemma ReachableGrantInv(now: real, actions: seq<Action>, s: State)
    requires now >= 0.0
    requires Runs.Run(Step, Start(now), actions) == Some(s)
    ensures GrantInv(s)
  {
    forall s0, a | GrantInv(s0) && Step(s0, a).Some? ensures GrantInv(Step(s0, a).value) {
      StepKeepsGrantInv(s0, a, Step(s0, a).value);
    }
    Runs.RunPreserves(Step, GrantInv, Start(now), actions);
  }

  /** In every run any two half-open grants are at least 60 s apart, even across a close and a
      reopen that deletes the lease, and each is at least 60 s after the latest opening. */
  lemma GrantsAreSpaced(now: real, actions: seq<Action>, s: State)
    requires now >= 0.0
    requires Runs.Run(Step, Start(now), actions) == Some(s)
    ensures forall i, j :: 0 <= i < j < |s.grants| ==> s.grants[j].at - s.grants[i].at >= 60.0
    ensures forall i :: 0 <= i < |s.grants| ==> s.grants[i].at - s.grants[i].latestOpening >= 60.0
  {
    ReachableGrantInv(now, actions, s);
  }

  /** And probes are not withheld: in every reachable state an open breaker grants one if and only if
      its latest opening, and every grant since it last closed, are at least 60 s ago. */
  lemma ProbeGrantedIff(now: real, actions: seq<Action>, s: State, at: real)
    requires now >= 0.0
    requires Runs.Run(Step, Start(now), actions) == Some(s)
    requires s.document.open && at >= s.now
    ensures s.document.openedAt == Some(s.latestOpening) && Step(s, Dispatch(at)).Some?
    ensures |Step(s, Dispatch(at)).value.grants| > |s.grants| <==>
            && at - s.latestOpening >= 60.0
            && forall i :: s.grantsAtClose <= i < |s.grants| ==> at - s.grants[i].at >= 60.0
  {
    ReachableGrantInv(now, actions, s);
    if s.grantsAtClose < |s.grants| {
      var last := |s.grants| - 1;
      assert forall i :: 0 <= i < last ==> s.grants[last].at - s.grants[i].at >= 60.0;
    }
  }
}
