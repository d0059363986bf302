/** The due-check scheduler: a bounded, oldest-first batch pass.

    Each pass selects at most 500 due dependencies, oldest `next_check_at` first, advances every
    one of them by its interval, and dispatches one task per region.  Clocks are microseconds. */
module DueScheduler {
  import opened Options
  import opened OrderedQuery

  type DepId = nat
  type Region = string

  const BATCH_LIMIT: nat := 500
  const SECOND: int := 1_000_000
  const DEFAULT_REGIONS: seq<Region> := ["us-east", "eu-west"]

  datatype Dependency = Dependency(
    active: bool, deleted: bool, intervalSeconds: int, nextCheckAt: Option<int>, regions: seq<Region>)

  type Table = map<DepId, Dependency>

  predicate Due(d: Dependency, now: int) {
    d.active && !d.deleted && d.nextCheckAt.Some? && d.nextCheckAt.value <= now
  }

  function DueKeys(table: Table, now: int): map<DepId, int> {
    map id | id in table && Due(table[id], now) :: table[id].nextCheckAt.value
  }

  /** `batch` is a possible result of the due query: rows with equal times come in any order. */
  ghost predicate DueBatch(table: Table, now: int, batch: seq<DepId>) {
    OrderedPrefix(DueKeys(table, now), BATCH_LIMIT, batch)
  }

  function RegionsOf(d: Dependency): seq<Region> {
    if d.regions == [] then DEFAULT_REGIONS else d.regions
  }

  function Next(d: Dependency, now: int): Dependency {
    d.(nextCheckAt := Some(now + d.intervalSeconds * SECOND))
  }

  function Advanced(table: Table, batch: seq<DepId>, now: int): Table {
    map id | id in table ::
      if id in batch then Next(table[id], now) else table[id]
  }

  function Tasks(id: DepId, regions: seq<Region>): (tasks: seq<(DepId, Region)>)
    ensures |tasks| == |regions| && forall i :: 0 <= i < |tasks| ==> tasks[i] == (id, regions[i])
  {
    seq(|regions|, i requires 0 <= i < |regions| => (id, regions[i]))
  }

  function Dispatches(table: Table, batch: seq<DepId>): seq<(DepId, Region)>
    requires forall i :: 0 <= i < |batch| ==> batch[i] in table
  {
    if batch == [] then []
    else
      var n := |batch| - 1;
      Dispatches(table, batch[..n]) + Tasks(batch[n], RegionsOf(table[batch[n]]))
  }

  /** The query's rows are due, oldest first and at most 500 of them; and when there are fewer, they are
      all the due rows. */
  lemma BatchIsDue(table: Table, now: int, batch: seq<DepId>)
    requires DueBatch(table, now, batch)
    ensures |batch| <= 500 && NoDuplicates(batch)
    ensures forall id :: id in batch ==>
              && id in table && table[id].active && !table[id].deleted
              && table[id].nextCheckAt.Some? && table[id].nextCheckAt.value <= now
    ensures forall i, j :: 0 <= i < j < |batch| ==>
              table[batch[i]].nextCheckAt.value <= table[batch[j]].nextCheckAt.value
    ensures |batch| < 500 ==>
              forall id | id in table && table[id].active && !table[id].deleted && table[id].nextCheckAt.Some? ::
                table[id].nextCheckAt.value <= now ==> id in batch
  {
    var keys := DueKeys(table, now);
    assert forall i :: 0 <= i < |batch| ==> batch[i] in keys;
    if |batch| < 500 {
      ShortResultIsComplete(keys, BATCH_LIMIT, batch);
      forall id | id in keys ensures id in batch {
        assert id in SeqToSet(batch);
      }
    }
  }

  /** After a pass, a row of the batch is due again exactly its interval after the pass, as long as it is
      active and not deleted; its other fields, and all other rows, are as before. */
  lemma AdvancedMeans(table: Table, batch: seq<DepId>, now: int, id: DepId, at: int)
    requires id in table
    ensures id in Advanced(table, batch, now)
    ensures id !in batch ==> Advanced(table, batch, now)[id] == table[id]
    ensures id in batch ==>
              var after := Advanced(table, batch, now)[id];
              && (Due(after, at) <==>
                    table[id].active && !table[id].deleted && at >= now + table[id].intervalSeconds * 1_000_000)
              && after.(nextCheckAt := table[id].nextCheckAt) == table[id]
  {
  }

  class Scheduler {
    var deps: Table
    var queue: seq<(DepId, Region)>

    constructor (deps: Table)
      ensures this.deps == deps && queue == []
    {
      this.deps := deps;
      queue := [];
    }

    /** One pass.  `now` is read before the query reads its own clock `queryNow`. */
    method ScheduleDueChecks(now: int, ghost queryNow: int, batch: seq<DepId>) returns (dispatched: nat)
      requires DueBatch(deps, queryNow, batch)
      modifies this
      ensures deps == Advanced(old(deps), batch, now)
      ensures deps.Keys == old(deps).Keys
      ensures forall id :: id in batch ==>
                && id in old(deps) && old(deps)[id].active && !old(deps)[id].deleted
                && old(deps)[id].nextCheckAt.Some? && old(deps)[id].nextCheckAt.value <= queryNow
                && deps[id] == old(deps)[id].(nextCheckAt := Some(now + old(deps)[id].intervalSeconds * 1_000_000))
      ensures forall id :: id in old(deps) && id !in batch ==> deps[id] == old(deps)[id]
      ensures forall i :: 0 <= i < |batch| ==> batch[i] in old(deps)
      ensures queue == old(queue) + Dispatches(old(deps), batch)
      ensures dispatched == |queue| - |old(queue)|
    {
      BatchIsDue(deps, queryNow, batch);
      dispatched := Dispatch(now, batch);
    }

    method Dispatch(now: int, batch: seq<DepId>) returns (dispatched: nat)
      requires NoDuplicates(batch) && forall i :: 0 <= i < |batch| ==> batch[i] in deps
      modifies this
      ensures deps == Advanced(old(deps), batch, now)
      ensures forall id :: id in batch ==>
                deps[id] == old(deps)[id].(nextCheckAt := Some(now + old(deps)[id].intervalSeconds * 1_000_000))
      ensures queue == old(queue) + Dispatches(old(deps), batch)
      ensures dispatched == |queue| - |old(queue)|
    {
      dispatched := 0;
      ghost var table, tasks := deps, queue;
      for k := 0 to |batch|
        invariant deps == Advanced(table, batch[..k], now)
        invariant queue == tasks + Dispatches(table, batch[..k])
        invariant dispatched == |queue| - |tasks|
      {
        AdvanceNext(table, batch, k, now, tasks);
        var n := DispatchOne(now, batch[k]);
        dispatched := dispatched + n;
      }
      assert batch[..|batch|] == batch;
    }

    /** Advance one dependency and queue one task per region. */
    method DispatchOne(now: int, id: DepId) returns (n: nat)
      requires id in deps
      modifies this
      ensures deps == old(deps)[id := Next(old(deps)[id], now)]
      ensures deps[id].nextCheckAt == Some(now + old(deps)[id].intervalSeconds * 1_000_000)
      ensures queue == old(queue) + Tasks(id, RegionsOf(old(deps)[id])) && n == |RegionsOf(old(deps)[id])|
    {
      var dep := deps[id];
      deps := deps[id := dep.(nextCheckAt := Some(now + dep.intervalSeconds * SECOND))];
      n := Enqueue(id, RegionsOf(dep));
    }

    method Enqueue(id: DepId, regions: seq<Region>) returns (n: nat)
      modifies this`queue
      ensures queue == old(queue) + Tasks(id, regions) && n == |regions|
    {
      n := 0;
      for r := 0 to |regions|
        invariant queue == old(queue) + Tasks(id, regions)[..r] && n == r
      {
        queue := queue + [(id, regions[r])];
        n := n + 1;
        assert Tasks(id, regions)[..r + 1] == Tasks(id, regions)[..r] + [(id, regions[r])];
      }
    }
  }

  lemma AdvanceNext(table: Table, batch: seq<DepId>, k: nat, now: int, queued: seq<(DepId, Region)>)
    requires NoDuplicates(batch) && k < |batch|
    requires forall i :: 0 <= i < |batch| ==> batch[i] in table
    ensures Advanced(table, batch[..k], now)[batch[k]] == table[batch[k]]
    ensures Advanced(table, batch[..k], now)[batch[k] := Next(table[batch[k]], now)] ==
            Advanced(table, batch[..k + 1], now)
    ensures queued + Dispatches(table, batch[..k + 1]) ==
            queued + Dispatches(table, batch[..k]) + Tasks(batch[k], RegionsOf(table[batch[k]]))
  {
    assert batch[..k + 1] == batch[..k] + [batch[k]];
    assert batch[..k + 1][..k] == batch[..k];
  }

  // ---------------------------------------------------------------- what one pass dispatches

  lemma {:induction false} DispatchedPairs(table: Table, batch: seq<DepId>, id: DepId, region: Region)
    requires forall i :: 0 <= i < |batch| ==> batch[i] in table
    ensures (id, region) in Dispatches(table, batch) <==> id in batch && region in RegionsOf(table[id])
    decreases |batch|
  {
    if batch != [] {
      var n := |batch| - 1;
      var last := Tasks(batch[n], RegionsOf(table[batch[n]]));
      DispatchedPairs(table, batch[..n], id, region);
      assert batch == batch[..n] + [batch[n]];
      if id == batch[n] && region in RegionsOf(table[id]) {
        var j :| 0 <= j < |RegionsOf(table[id])| && RegionsOf(table[id])[j] == region;
        assert last[j] == (id, region);
      }
    }
  }

  lemma {:induction false} DispatchesDistinct(table: Table, batch: seq<DepId>)
    requires forall i :: 0 <= i < |batch| ==> batch[i] in table && NoDuplicates(RegionsOf(table[batch[i]]))
    requires NoDuplicates(batch)
    ensures NoDuplicates(Dispatches(table, batch))
    decreases |batch|
  {
    if batch != [] {
      var n := |batch| - 1;
      DispatchesDistinct(table, batch[..n]);
      var before := Dispatches(table, batch[..n]);
      var last := Tasks(batch[n], RegionsOf(table[batch[n]]));
      forall i, j | 0 <= i < |before| && 0 <= j < |last| ensures before[i] != last[j] {
        DispatchedPairs(table, batch[..n], before[i].0, before[i].1);
      }
    }
  }

  /** Each pass dispatches every (dependency, region) pair of its batch, no other pair, and none
      twice when no dependency lists a region twice (the API removes duplicates). */
  lemma DispatchesEachPairOnce(table: Table, batch: seq<DepId>)
    requires forall i :: 0 <= i < |batch| ==> batch[i] in table && NoDuplicates(RegionsOf(table[batch[i]]))
    requires NoDuplicates(batch)
    ensures NoDuplicates(Dispatches(table, batch))
    ensures forall id, region ::
              (id, region) in Dispatches(table, batch) <==>
              id in batch &&
              if table[id].regions == [] then region == "us-east" || region == "eu-west"
              else region in table[id].regions
  {
    DispatchesDistinct(table, batch);
    forall id, region
      ensures (id, region) in Dispatches(table, batch) <==>
              id in batch &&
              if table[id].regions == [] then region == "us-east" || region == "eu-west"
              else region in table[id].regions
    {
      DispatchedPairs(table, batch, id, region);
    }
  }

  // ---------------------------------------------------------------- no starvation

  datatype Pass = Pass(now: int, queryNow: int, batch: seq<DepId>)

  /** The other rows due at or before `due`, active or not. */
  function Rivals(table: Table, target: DepId, due: int): set<DepId> {
    set id | id in table && id != target && table[id].nextCheckAt.Some? && table[id].nextCheckAt.value <= due
  }

  ghost predicate Waiting(table: Table, target: DepId, due: int) {
    target in table && table[target].active && !table[target].deleted && table[target].nextCheckAt == Some(due)
  }

  /** Between two passes anyone may add, change or delete other rows, as long as no further row
      becomes due at or before `due`; the target is left alone. */
  ghost predicate Interference(before: Table, after: Table, target: DepId, due: int) {
    && (target in before ==> target in after && after[target] == before[target])
    && Rivals(after, target, due) <= Rivals(before, target, due)
  }

  ghost predicate PassAt(table: Table, pass: Pass) {
    && DueBatch(table, pass.queryNow, pass.batch)
    && pass.now <= pass.queryNow
    && forall i :: 0 <= i < |pass.batch| ==> table[pass.batch[i]].intervalSeconds >= 1
  }

  /** A pass that leaves a waiting row out is full, and all its 500 rows were rivals. */
  lemma SkippedPassIsFull(table: Table, pass: Pass, target: DepId, due: int)
    requires PassAt(table, pass) && Waiting(table, target, due) && due <= pass.now
    requires target !in pass.batch
    ensures |pass.batch| == 500
    ensures SeqToSet(pass.batch) <= Rivals(table, target, due)
  {
    var keys := DueKeys(table, pass.queryNow);
    assert target in keys;
    if |pass.batch| < BATCH_LIMIT {
      ShortResultIsComplete(keys, BATCH_LIMIT, pass.batch);
    }
    forall id | id in SeqToSet(pass.batch) ensures id in Rivals(table, target, due) {
      var i :| 0 <= i < |pass.batch| && pass.batch[i] == id;
      assert keys[pass.batch[i]] <= keys[target];
    }
  }

  /** A pass that leaves a waiting row out takes 500 rivals out of its way. */
  lemma SkippedPassRemovesRivals(table: Table, pass: Pass, target: DepId, due: int)
    requires PassAt(table, pass) && Waiting(table, target, due) && due <= pass.now
    requires target !in pass.batch
    ensures Waiting(Advanced(table, pass.batch, pass.now), target, due)
    ensures |Rivals(Advanced(table, pass.batch, pass.now), target, due)| ==
            |Rivals(table, target, due)| - 500
  {
    SkippedPassIsFull(table, pass, target, due);
    NoDuplicatesCardinality(pass.batch);
    var gone := SeqToSet(pass.batch);
    var after := Rivals(Advanced(table, pass.batch, pass.now), target, due);
    forall id | id in gone ensures id !in after {
      var i :| 0 <= i < |pass.batch| && pass.batch[i] == id;
      assert table[pass.batch[i]].intervalSeconds >= 1;
    }
    assert after == Rivals(table, target, due) - gone;
    assert Rivals(table, target, due) == after + gone;
  }

  /** No starvation: an active overdue dependency with A other rows due at or before it is in the
      batch of one of the next A/500 + 1 passes, whatever later-due rows are added meanwhile. */
  lemma {:induction false} NoStarvation(tables: seq<Table>, passes: seq<Pass>, target: DepId, due: int)
    requires |tables| == |passes| > 0
    requires Waiting(tables[0], target, due) && due <= passes[0].now
    requires |passes| == |Rivals(tables[0], target, due)| / 500 + 1
    requires forall k :: 0 <= k < |passes| ==> PassAt(tables[k], passes[k])
    requires forall j, k :: 0 <= j < k < |passes| ==> passes[j].now <= passes[k].now
    requires forall k :: 0 <= k < |passes| - 1 ==>
               Interference(Advanced(tables[k], passes[k].batch, passes[k].now), tables[k + 1], target, due)
    ensures exists k :: 0 <= k < |passes| && target in passes[k].batch
    decreases |passes|
  {
    if target !in passes[0].batch {
      SkippedPassRemovesRivals(tables[0], passes[0], target, due);
      var after := Rivals(Advanced(tables[0], passes[0].batch, passes[0].now), target, due);
      assert |passes| > 1;
      SubsetCardinality(Rivals(tables[1], target, due), after);
      var m := |Rivals(tables[1], target, due)| / 500 + 1;
      assert m < |passes|;
      NoStarvation(tables[1..m + 1], passes[1..m + 1], target, due);
      var k :| 0 <= k < m && target in passes[1..m + 1][k].batch;
      assert target in passes[k + 1].batch;
    }
  }

  // ---------------------------------------------------------------- the rate of checks

  /** Passes one after another; whatever happens between them leaves the target row alone. */
  ghost predicate Passes(tables: seq<Table>, passes: seq<Pass>, target: DepId) {
    && |tables| == |passes|
    && (forall k :: 0 <= k < |passes| ==> DueBatch(tables[k], passes[k].queryNow, passes[k].batch))
    && (forall j, k :: 0 <= j < k < |passes| ==> passes[j].now <= passes[k].now)
    && (forall k :: 0 <= k < |passes| - 1 ==> Untouched(tables[k], passes[k], tables[k + 1], target))
  }

  predicate Untouched(before: Table, pass: Pass, after: Table, target: DepId) {
    && target in before && target in after
    && after[target] == Advanced(before, pass.batch, pass.now)[target]
  }

  lemma {:induction false} NotDueBefore(tables: seq<Table>, passes: seq<Pass>, target: DepId, j: nat, k: nat)
    requires Passes(tables, passes, target) && j < k < |passes| && target in passes[j].batch
    requires target in tables[j]
    ensures target in tables[k] && tables[k][target].intervalSeconds == tables[j][target].intervalSeconds
    ensures tables[k][target].nextCheckAt.Some?
    ensures tables[k][target].nextCheckAt.value >= passes[j].now + tables[j][target].intervalSeconds * 1_000_000
    decreases k
  {
    assert Untouched(tables[k - 1], passes[k - 1], tables[k], target);
    if j < k - 1 {
      NotDueBefore(tables, passes, target, j, k - 1);
      assert passes[j].now <= passes[k - 1].now;
    }
  }

  /** Two dispatches of one dependency are at least its interval apart. */
  lemma DispatchesAreSpaced(tables: seq<Table>, passes: seq<Pass>, target: DepId, j: nat, k: nat)
    requires Passes(tables, passes, target) && j < k < |passes|
    requires target in passes[j].batch && target in passes[k].batch
    ensures target in tables[j]
    ensures passes[k].queryNow >= passes[j].now + tables[j][target].intervalSeconds * 1_000_000
  {
    BatchIsDue(tables[j], passes[j].queryNow, passes[j].batch);
    BatchIsDue(tables[k], passes[k].queryNow, passes[k].batch);
    NotDueBefore(tables, passes, target, j, k);
  }

  lemma {:induction false} StillDueAfter(tables: seq<Table>, passes: seq<Pass>, target: DepId, j: nat, k: nat)
    requires Passes(tables, passes, target) && j < k < |passes| && target in passes[j].batch
    requires target in tables[j] && forall m :: j < m < k ==> target !in passes[m].batch
    ensures target in tables[k]
    ensures tables[k][target] ==
            tables[j][target].(nextCheckAt := Some(passes[j].now + tables[j][target].intervalSeconds * 1_000_000))
    decreases k
  {
    assert Untouched(tables[k - 1], passes[k - 1], tables[k], target);
    if j < k - 1 {
      StillDueAfter(tables, passes, target, j, k - 1);
    }
  }

  /** And an active dependency is dispatched again by the first pass, its batch not full, whose query
      comes at least the interval after the last dispatch. */
  lemma DispatchedAfterInterval(tables: seq<Table>, passes: seq<Pass>, target: DepId, j: nat, k: nat)
    requires Passes(tables, passes, target) && j < k < |passes| && target in passes[j].batch
    requires target in tables[j] && tables[j][target].active && !tables[j][target].deleted
    requires |passes[k].batch| < 500
    requires passes[k].queryNow >= passes[j].now + tables[j][target].intervalSeconds * 1_000_000
    ensures exists m :: j < m <= k && target in passes[m].batch
  {
    if forall m :: j < m < k ==> target !in passes[m].batch {
      StillDueAfter(tables, passes, target, j, k);
      BatchIsDue(tables[k], passes[k].queryNow, passes[k].batch);
    }
  }
}
