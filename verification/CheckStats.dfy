/** Uptime statistics: one dependency at a time, and many in one grouped query.

    Percentages and latencies are whole hundredths, rounded half to even. */
module CheckStats {
  import opened Rounding

  type Id = nat

  datatype CheckRow = CheckRow(dependency: Id, executedAt: int, latency: real, isUp: bool)

  /** `live` are the dependencies that are not soft-deleted. */
  datatype Database = Database(results: seq<CheckRow>, live: set<Id>)

  // ---------------------------------------------------------------- aggregation

  /** Count, sum of latencies and number of successes of a group. */
  datatype Group = Group(checks: nat, latency: real, ups: nat)

  const NO_ROWS := Group(0, 0.0, 0)

  predicate Admits(live: set<Id>, since: int, row: CheckRow) {
    row.dependency in live && row.executedAt >= since
  }

  function Add(g: Group, row: CheckRow): Group {
    Group(g.checks + 1, g.latency + row.latency, g.ups + if row.isUp then 1 else 0)
  }

  /** The aggregation query for one dependency. */
  function Aggregate(rows: seq<CheckRow>, live: set<Id>, since: int, id: Id): Group {
    if rows == [] then NO_ROWS
    else
      var row := rows[|rows| - 1];
      var before := Aggregate(rows[..|rows| - 1], live, since, id);
      if row.dependency == id && Admits(live, since, row) then Add(before, row) else before
  }

  datatype Stats = Stats(uptime: int, latency: int, checks: nat, ups: nat, downs: int)

  const NO_CHECKS := Stats(10000, 0, 0, 0, 0)

  function StatsFromRow(g: Group): Stats {
    if g.checks == 0 then NO_CHECKS
    else
      Stats(RoundHalfEven(10000.0 * (g.ups as real / g.checks as real)),
            RoundHalfEven(100.0 * (g.latency / g.checks as real)),
            g.checks, g.ups, g.checks - g.ups)
  }

  function GetAggregatedStats(db: Database, since: int, id: Id): Stats {
    StatsFromRow(Aggregate(db.results, db.live, since, id))
  }

  // ---------------------------------------------------------------- the grouped query

  /** One pass over the table, a group for each dependency that has a row in the window. */
  method GroupByDependency(db: Database, ids: set<Id>, since: int) returns (groups: map<Id, Group>)
    ensures forall id :: id in groups <==> id in ids && Aggregate(db.results, db.live, since, id).checks > 0
    ensures forall id :: id in groups ==> groups[id] == Aggregate(db.results, db.live, since, id)
  {
    groups := map[];
    var i := 0;
    while i < |db.results|
      invariant i <= |db.results|
      invariant forall id :: id in groups <==> id in ids && Aggregate(db.results[..i], db.live, since, id).checks > 0
      invariant forall id :: id in groups ==> groups[id] == Aggregate(db.results[..i], db.live, since, id)
    {
      var row := db.results[i];
      assert db.results[..i + 1][..i] == db.results[..i];
      if row.dependency in ids && Admits(db.live, since, row) {
        var before := if row.dependency in groups then groups[row.dependency] else NO_ROWS;
        EmptyGroup(db.results[..i], db.live, since, row.dependency);
        groups := groups[row.dependency := Add(before, row)];
      }
      i := i + 1;
    }
    assert db.results[..i] == db.results;
  }

  lemma {:induction false} EmptyGroup(rows: seq<CheckRow>, live: set<Id>, since: int, id: Id)
    ensures Aggregate(rows, live, since, id).checks == 0 ==> Aggregate(rows, live, since, id) == NO_ROWS
    ensures Aggregate(rows, live, since, id).ups <= Aggregate(rows, live, since, id).checks
  {
    if rows != [] {
      EmptyGroup(rows[..|rows| - 1], live, since, id);
    }
  }

  /** The first loop: one entry for every row the grouped query returned. */
  method StatsOfGroups(groups: map<Id, Group>) returns (stats: map<Id, Stats>)
    ensures stats.Keys == groups.Keys
    ensures forall id :: id in stats ==> stats[id] == StatsFromRow(groups[id])
  {
    stats := map[];
    var rows := groups.Keys;
    while rows != {}
      invariant rows <= groups.Keys && stats.Keys == groups.Keys - rows
      invariant forall id :: id in stats ==> stats[id] == StatsFromRow(groups[id])
      decreases |rows|
    {
      var id :| id in rows;
      stats := stats[id := StatsFromRow(groups[id])];
      rows := rows - {id};
    }
  }

  /** The second loop: ids the query returned nothing for. */
  method SetDefaults(found: map<Id, Stats>, ids: seq<Id>) returns (stats: map<Id, Stats>)
    ensures forall id :: id in stats <==> id in found || id in ids
    ensures forall id :: id in stats ==> stats[id] == if id in found then found[id] else NO_CHECKS
  {
    stats := found;
    var i := 0;
    while i < |ids|
      invariant i <= |ids|
      invariant forall id :: id in found ==> id in stats
      invariant forall j :: 0 <= j < i ==> ids[j] in stats
      invariant forall id :: id in stats ==> id in found || id in ids
      invariant forall id :: id in stats ==> stats[id] == if id in found then found[id] else NO_CHECKS
    {
      if ids[i] !in stats {
        stats := stats[ids[i] := NO_CHECKS];
      }
      i := i + 1;
    }
  }

  /** Repeated ids, ids without results and soft-deleted dependencies included, the one query gives
      each id what the query for it alone gives. */
  method GetAggregatedStatsBulk(db: Database, ids: seq<Id>, since: int) returns (stats: map<Id, Stats>)
    ensures forall id :: id in stats <==> id in ids
    ensures forall id :: id in stats ==> stats[id] == GetAggregatedStats(db, since, id)
  {
    if ids == [] {
      return map[];
    }
    var wanted := set id | id in ids;
    var groups := GroupByDependency(db, wanted, since);
    stats := StatsOfGroups(groups);
    stats := SetDefaults(stats, ids);
  }

  // ---------------------------------------------------------------- what the figures say

  function Matching(rows: seq<CheckRow>, live: set<Id>, since: int, ids: set<Id>): nat {
    if rows == [] then 0
    else
      var row := rows[|rows| - 1];
      Matching(rows[..|rows| - 1], live, since, ids) +
      if row.dependency in ids && Admits(live, since, row) then 1 else 0
  }

  ghost function TotalChecks(rows: seq<CheckRow>, live: set<Id>, since: int, ids: set<Id>): nat
    decreases |ids|
  {
    if ids == {} then 0
    else
      var id :| id in ids;
      Aggregate(rows, live, since, id).checks + TotalChecks(rows, live, since, ids - {id})
  }

  lemma {:induction false} MatchingSplits(rows: seq<CheckRow>, live: set<Id>, since: int, ids: set<Id>, id: Id)
    requires id in ids
    ensures Matching(rows, live, since, ids) ==
            Aggregate(rows, live, since, id).checks + Matching(rows, live, since, ids - {id})
  {
    if rows != [] {
      MatchingSplits(rows[..|rows| - 1], live, since, ids, id);
    }
  }

  lemma {:induction false} NoneMatching(rows: seq<CheckRow>, live: set<Id>, since: int)
    ensures Matching(rows, live, since, {}) == 0
  {
    if rows != [] {
      NoneMatching(rows[..|rows| - 1], live, since);
    }
  }

  /** Grouping loses no row and counts none twice: the groups' counts add up to the rows in the window. */
  lemma {:induction false} GroupsPartitionRows(rows: seq<CheckRow>, live: set<Id>, since: int, ids: set<Id>)
    ensures TotalChecks(rows, live, since, ids) == Matching(rows, live, since, ids)
    decreases |ids|
  {
    if ids == {} {
      NoneMatching(rows, live, since);
    } else {
      var id :| id in ids &&
        TotalChecks(rows, live, since, ids) ==
          Aggregate(rows, live, since, id).checks + TotalChecks(rows, live, since, ids - {id});
      GroupsPartitionRows(rows, live, since, ids - {id});
      MatchingSplits(rows, live, since, ids, id);
    }
  }

  lemma UptimeOf(total: real, ups: real, downs: real)
    requires total > 0.0 && ups >= 0.0 && downs >= 0.0 && ups + downs == total
    ensures 10000.0 * (ups / total) <= 10000.0
    ensures 10000.0 * (ups / total) >= 9999.5 <==> 20000.0 * downs <= total
    ensures 10000.0 * (ups / total) >= 0.0
  {
    var q := ups / total;
    assert q * total == ups;
    SignOfProduct(q, total);
    SignOfProduct(1.0 - q, total);
    assert (1.0 - q) * total == downs;
    assert (1.0 - 20000.0 * (1.0 - q)) * total == total - 20000.0 * downs;
    SignOfProduct(1.0 - 20000.0 * (1.0 - q), total);
  }

  /** A row counts for a dependency exactly when it is a result of it, executed in the window, and the
      dependency is not deleted; and the aggregate of a table is that of its parts, added up. */
  lemma OneRowAggregates(row: CheckRow, live: set<Id>, since: int, id: Id)
    ensures Aggregate([row], live, since, id) ==
            if row.dependency == id && id in live && row.executedAt >= since
            then Group(1, row.latency, if row.isUp then 1 else 0)
            else Group(0, 0.0, 0)
  {
    assert [row][..0] == [];
  }

  lemma {:induction false} AggregateAdds(a: seq<CheckRow>, b: seq<CheckRow>, live: set<Id>, since: int, id: Id)
    ensures var x, y := Aggregate(a, live, since, id), Aggregate(b, live, since, id);
            Aggregate(a + b, live, since, id) == Group(x.checks + y.checks, x.latency + y.latency, x.ups + y.ups)
  {
    if b == [] {
      assert a + b == a;
    } else {
      var n := |b| - 1;
      AggregateAdds(a, b[..n], live, since, id);
      assert (a + b)[..|a + b| - 1] == a + b[..n];
    }
  }

  lemma NearestQuotient(factor: real, part: real, total: real, rounded: real)
    requires total > 0.0 && -0.5 <= factor * (part / total) - rounded <= 0.5
    ensures -total <= 2.0 * (factor * part - rounded * total) <= total
  {
    var q := part / total;
    assert q * total == part;
    var rest := factor * q - rounded;
    assert factor * part - rounded * total == rest * total by {
      assert factor * part == factor * q * total;
    }
    SignOfProduct(0.5 - rest, total);
    SignOfProduct(rest + 0.5, total);
  }

  /** The reported percentage is a nearest hundredth to the share of successes, and the reported latency
      one to the mean latency. */
  lemma FiguresAreNearest(g: Group, n: real, ups: real, uptime: real, latency: real)
    requires g.checks > 0 && n == g.checks as real && ups == g.ups as real
    requires uptime == StatsFromRow(g).uptime as real && latency == StatsFromRow(g).latency as real
    ensures -n <= 2.0 * (10000.0 * ups - uptime * n) <= n
    ensures -n <= 2.0 * (100.0 * g.latency - latency * n) <= n
  {
    RoundIsNearest(10000.0 * (ups / n), StatsFromRow(g).uptime);
    NearestQuotient(10000.0, ups, n, uptime);
    RoundIsNearest(100.0 * (g.latency / n), StatsFromRow(g).latency);
    NearestQuotient(100.0, g.latency, n, latency);
  }

  /** The counts are the aggregate's, and ups and downs make up the checks; a percentage lies in 0..100;
      100.00 is reported just when at most one check in 20000 was down, and latency 0.00 without checks. */
  lemma StatsMeaning(db: Database, since: int, id: Id)
    ensures var s := GetAggregatedStats(db, since, id);
            && s.checks == Aggregate(db.results, db.live, since, id).checks
            && s.ups == Aggregate(db.results, db.live, since, id).ups
            && s.ups + s.downs == s.checks && s.downs >= 0
            && (s.checks == 0 ==> s.latency == 0)
            && 0 <= s.uptime <= 10000
            && (s.uptime == 10000 <==> 20000 * s.downs <= s.checks)
  {
    EmptyGroup(db.results, db.live, since, id);
    var g := Aggregate(db.results, db.live, since, id);
    if g.checks > 0 {
      UptimeOf(g.checks as real, g.ups as real, (g.checks - g.ups) as real);
      RoundsToFull(10000.0 * (g.ups as real / g.checks as real));
    }
  }

  lemma RoundsToFull(x: real)
    requires 0.0 <= x <= 10000.0
    ensures 0 <= RoundHalfEven(x) <= 10000
    ensures RoundHalfEven(x) == 10000 <==> x >= 9999.5
  {
    RoundIsMonotone(0.0, x);
    RoundIsMonotone(x, 10000.0);
  }

  /** A soft-deleted dependency is reported like one without results. */
  lemma {:induction false} DeletedHasNoChecks(rows: seq<CheckRow>, live: set<Id>, since: int, id: Id)
    requires id !in live
    ensures StatsFromRow(Aggregate(rows, live, since, id)) == NO_CHECKS
  {
    if rows != [] {
      DeletedHasNoChecks(rows[..|rows| - 1], live, since, id);
    }
  }
}
