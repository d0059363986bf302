/** Any run of partition maintenance and row insertion, in the order of a clock that never goes back. */
module PartitionRuns {
  import opened Calendar
  import opened Options
  import opened Partitions
  import Runs

  /** `months` are the months that have a partition, `defaults` the rows in DEFAULT. */
  datatype State = State(months: set<int>, defaults: set<DateTime>, clock: DateTime)

  datatype Action = Maintain(now: DateTime, count: int) | Insert(now: DateTime)

  ghost function Maintained(s: State, now: DateTime, count: int): State {
    if CanMaintain(s.months, s.defaults, Index(now), count)
    then State(s.months + Window(Index(now), count), s.defaults, now)
    else s.(clock := now)
  }

  function Inserted(s: State, now: DateTime): State {
    if Index(now) in s.months then s.(clock := now) else State(s.months, s.defaults + {now}, now)
  }

  ghost function Step(s: State, a: Action): Option<State> {
    if !Valid(a.now) || Before(a.now, s.clock) then None
    else if a.Maintain? then Some(Maintained(s, a.now, a.count))
    else Some(Inserted(s, a.now))
  }

  ghost function RunFrom(s: State, actions: seq<Action>): Option<State> {
    Runs.Run(Step, s, actions)
  }

  // ---------------------------------------------------------------- one home for every row

  /** No row in DEFAULT belongs to a month that has a partition. */
  ghost predicate Inv(s: State) {
    && Valid(s.clock)
    && (forall m :: m in s.months ==> FIRST_MONTH <= m < LAST_MONTH)
    && (forall row :: row in s.defaults ==> Valid(row) && Index(row) !in s.months)
  }

  predicate Fresh(s: State) {
    s.months == {} && s.defaults == {} && Valid(s.clock)
  }

  lemma StepKeepsInv(s: State, a: Action)
    requires Inv(s) && Step(s, a).Some?
    ensures Inv(Step(s, a).value)
  {
    if a.Maintain? && CanMaintain(s.months, s.defaults, Index(a.now), a.count) {
      forall row | row in s.defaults ensures Index(row) !in Window(Index(a.now), a.count) {
        assert HasRowIn(s.defaults, Index(row));
      }
    }
  }

  lemma RunKeepsInv(s: State, actions: seq<Action>)
    requires Inv(s)
    ensures RunFrom(s, actions).Some? ==> Inv(RunFrom(s, actions).value)
  {
    forall t: State, a: Action | Inv(t) && Step(t, a).Some? ensures Inv(Step(t, a).value) {
      StepKeepsInv(t, a);
    }
    Runs.RunPreserves(Step, Inv, s, actions);
  }

  /** A timestamp lies in a partition just when its month has one, and then in no second one. */
  lemma OnePartitionAtMost(parts: Tables, months: set<int>, t: DateTime)
    requires Represents(parts, months) && Valid(t)
    ensures (exists name :: name in parts && Contains(parts[name], t)) <==> Index(t) in months
    ensures forall name :: name in parts && Contains(parts[name], t) ==> name == PartitionName(Index(t))
  {
    forall name | name in parts ensures Contains(parts[name], t) <==> name.month == Index(t) {
      var m :| m in months && HasMonth(parts, m) && name == PartitionName(m);
      MonthRangeIsTheMonth(m, t);
    }
    if Index(t) in months {
      assert HasMonth(parts, Index(t));
      assert PartitionName(Index(t)) in parts;
    }
  }

  /** At every point of every run, a row in DEFAULT lies in none of the monthly partitions. */
  lemma DefaultRowsHaveNoPartition(start: State, actions: seq<Action>, parts: Tables, row: DateTime)
    requires Inv(start) && RunFrom(start, actions).Some?
    requires Represents(parts, RunFrom(start, actions).value.months)
    requires row in RunFrom(start, actions).value.defaults
    ensures forall name :: name in parts ==> !Contains(parts[name], row)
  {
    RunKeepsInv(start, actions);
    OnePartitionAtMost(parts, RunFrom(start, actions).value.months, row);
  }

  // ---------------------------------------------------------------- which months are covered

  /** The `k`th action was a maintenance run that went through and whose window holds month `m`. */
  ghost predicate Covers(start: State, actions: seq<Action>, k: int, m: int) {
    && 0 <= k < |actions| && actions[k].Maintain?
    && RunFrom(start, actions[..k]).Some?
    && (var s := RunFrom(start, actions[..k]).value;
        CanMaintain(s.months, s.defaults, Index(actions[k].now), actions[k].count))
    && Index(actions[k].now) <= m < Index(actions[k].now) + actions[k].count
  }

  lemma CoversOfPrefix(start: State, actions: seq<Action>, k: int, m: int)
    requires 0 <= k < |actions| - 1
    ensures Covers(start, actions[..|actions| - 1], k, m) <==> Covers(start, actions, k, m)
  {
    assert actions[..|actions| - 1][..k] == actions[..k];
  }

  /** A month has a partition just when some earlier run that went through had it in its window. */
  lemma {:induction false} CoveredIff(start: State, actions: seq<Action>, m: int)
    requires Fresh(start) && RunFrom(start, actions).Some?
    ensures m in RunFrom(start, actions).value.months <==> exists k :: Covers(start, actions, k, m)
    decreases |actions|
  {
    if actions != [] {
      var n := |actions| - 1;
      var before := actions[..n];
      CoveredIff(start, before, m);
      forall k | 0 <= k < n ensures Covers(start, before, k, m) <==> Covers(start, actions, k, m) {
        CoversOfPrefix(start, actions, k, m);
      }
      var s := RunFrom(start, before).value;
      assert m in RunFrom(start, actions).value.months <==> m in s.months || Covers(start, actions, n, m);
    }
  }

  /** The `k`th action inserted the row when its month had no partition. */
  ghost predicate Missed(start: State, actions: seq<Action>, k: int, row: DateTime) {
    && 0 <= k < |actions| && actions[k] == Insert(row)
    && RunFrom(start, actions[..k]).Some? && Index(row) !in RunFrom(start, actions[..k]).value.months
  }

  lemma MissedOfPrefix(start: State, actions: seq<Action>, k: int, row: DateTime)
    requires 0 <= k < |actions| - 1
    ensures Missed(start, actions[..|actions| - 1], k, row) <==> Missed(start, actions, k, row)
  {
    assert actions[..|actions| - 1][..k] == actions[..k];
  }

  /** DEFAULT holds exactly the rows that were inserted while their month had no partition. */
  lemma {:induction false} InDefaultIff(start: State, actions: seq<Action>, row: DateTime)
    requires Fresh(start) && RunFrom(start, actions).Some?
    ensures row in RunFrom(start, actions).value.defaults <==> exists k :: Missed(start, actions, k, row)
    decreases |actions|
  {
    if actions != [] {
      var n := |actions| - 1;
      var before := actions[..n];
      InDefaultIff(start, before, row);
      forall k | 0 <= k < n ensures Missed(start, before, k, row) <==> Missed(start, actions, k, row) {
        MissedOfPrefix(start, actions, k, row);
      }
      var s := RunFrom(start, before).value;
      assert row in RunFrom(start, actions).value.defaults <==> row in s.defaults || Missed(start, actions, n, row);
    }
  }

  // ---------------------------------------------------------------- timely runs

  /** The month of the last maintenance run. */
  function LastRun(actions: seq<Action>): int
    decreases |actions|
  {
    if actions == [] then 0
    else if actions[|actions| - 1].Maintain? then Index(actions[|actions| - 1].now)
    else LastRun(actions[..|actions| - 1])
  }

  /** Maintenance comes first and again within `count` months of the last time, before any row that
      its window does not hold. */
  ghost predicate Timely(actions: seq<Action>, count: int) {
    && (forall k :: 0 <= k < |actions| && actions[k].Maintain? ==>
          actions[k].count == count && Index(actions[k].now) + count <= LAST_MONTH)
    && (|actions| > 0 ==> actions[0].Maintain?)
    && (forall k :: 0 < k < |actions| ==> OnTime(actions[..k], actions[k], count))
  }

  predicate OnTime(before: seq<Action>, a: Action, count: int) {
    if a.Maintain? then Index(a.now) <= LastRun(before) + count else Index(a.now) < LastRun(before) + count
  }

  lemma TimelyPrefix(actions: seq<Action>, n: nat, count: int)
    requires Timely(actions, count) && n <= |actions|
    ensures Timely(actions[..n], count)
  {
    var before := actions[..n];
    forall k | 0 < k < |before| ensures OnTime(before[..k], before[k], count) {
      assert before[..k] == actions[..k];
    }
  }

  /** The months with a partition are those from `first` to the end of the last run's window. */
  ghost predicate CoveredSince(s: State, first: int, last: int, count: int) {
    && Valid(s.clock) && s.defaults == {} && first <= last <= Index(s.clock) < last + count
    && s.months == Window(first, last + count - first)
  }

  lemma MaintainExtends(s: State, first: int, last: int, now: DateTime, count: int)
    requires CoveredSince(s, first, last, count) && Valid(now) && !Before(now, s.clock)
    requires Index(now) <= last + count && Index(now) + count <= LAST_MONTH
    ensures CoveredSince(Maintained(s, now, count), first, Index(now), count)
  {
    assert Index(s.clock) <= Index(now);
    assert Window(first, last + count - first) + Window(Index(now), count) == Window(first, Index(now) + count - first);
  }

  /** When every run is on time, each one goes through, the partitions have no gap, every row falls in
      one of them, and DEFAULT stays empty. */
  lemma {:induction false} TimelyRunsLeaveNoGap(start: State, actions: seq<Action>, count: int)
    requires Fresh(start) && count >= 1 && actions != []
    requires Timely(actions, count) && RunFrom(start, actions).Some?
    ensures CoveredSince(RunFrom(start, actions).value, Index(actions[0].now), LastRun(actions), count)
    decreases |actions|
  {
    var n := |actions| - 1;
    var before, a := actions[..n], actions[n];
    if n == 0 {
      assert RunFrom(start, before) == Some(start);
      assert {} + Window(Index(a.now), count) == Window(Index(a.now), count);
    } else {
      TimelyPrefix(actions, n, count);
      TimelyRunsLeaveNoGap(start, before, count);
      var s := RunFrom(start, before).value;
      assert OnTime(before, a, count);
      if a.Maintain? {
        MaintainExtends(s, Index(actions[0].now), LastRun(before), a.now, count);
      }
    }
  }

  /** The state after `n` actions, and that its months keep their partitions to the end. */
  lemma MonthsStay(start: State, actions: seq<Action>, n: nat, m: int)
    requires n <= |actions| && RunFrom(start, actions).Some?
    ensures RunFrom(start, actions[..n]).Some?
    ensures m in RunFrom(start, actions[..n]).value.months ==> m in RunFrom(start, actions).value.months
  {
    assert actions[..n] + actions[n..] == actions;
    Runs.RunAppend(Step, start, actions[..n], actions[n..]);
    var s := RunFrom(start, actions[..n]).value;
    if m in s.months {
      Runs.RunPreserves(Step, (t: State) => m in t.months, s, actions[n..]);
    }
  }

  lemma InsertedMonthIsCovered(start: State, actions: seq<Action>, count: int, k: nat)
    requires Fresh(start) && count >= 1 && Timely(actions, count) && RunFrom(start, actions).Some?
    requires k < |actions| && actions[k].Insert?
    ensures Valid(actions[k].now) && Index(actions[k].now) in RunFrom(start, actions).value.months
  {
    var upTo := actions[..k + 1];
    assert upTo[..k] == actions[..k];
    MonthsStay(start, actions, k + 1, Index(actions[k].now));
    TimelyPrefix(actions, k + 1, count);
    TimelyRunsLeaveNoGap(start, upTo, count);
    assert RunFrom(start, upTo).value.clock == actions[k].now;
  }

  /** On timely runs every row that was inserted lies in exactly one of the tables' partitions. */
  lemma TimelyRowsHaveOnePartition(start: State, actions: seq<Action>, count: int, k: nat, parts: Tables)
    requires Fresh(start) && count >= 1 && Timely(actions, count) && RunFrom(start, actions).Some?
    requires k < |actions| && actions[k].Insert?
    requires Represents(parts, RunFrom(start, actions).value.months)
    ensures exists name :: name in parts && Contains(parts[name], actions[k].now)
    ensures forall a :: a in parts && Contains(parts[a], actions[k].now) ==> a == NameFor(actions[k].now)
  {
    InsertedMonthIsCovered(start, actions, count, k);
    OnePartitionAtMost(parts, RunFrom(start, actions).value.months, actions[k].now);
  }

  // ---------------------------------------------------------------- late runs

  lemma DefaultsOnlyGrow(s: State, actions: seq<Action>, row: DateTime)
    requires row in s.defaults && RunFrom(s, actions).Some?
    ensures row in RunFrom(s, actions).value.defaults
  {
    Runs.RunPreserves(Step, (t: State) => row in t.defaults, s, actions);
  }

  /** Once a row of a month is in DEFAULT, no later run gives that month a partition, and every
      maintenance run whose window holds the month fails as a whole. */
  lemma LateMonthIsNeverRepaired(start: State, actions: seq<Action>, later: seq<Action>, row: DateTime)
    requires Inv(start) && RunFrom(start, actions).Some?
    requires row in RunFrom(start, actions).value.defaults
    requires RunFrom(start, actions + later).Some?
    ensures var s := RunFrom(start, actions + later).value;
            && Index(row) !in s.months
            && (forall now, count :: Index(now) <= Index(row) < Index(now) + count ==>
                  !CanMaintain(s.months, s.defaults, Index(now), count))
  {
    Runs.RunAppend(Step, start, actions, later);
    DefaultsOnlyGrow(RunFrom(start, actions).value, later, row);
    RunKeepsInv(start, actions + later);
    assert HasRowIn(RunFrom(start, actions + later).value.defaults, Index(row));
  }
}
