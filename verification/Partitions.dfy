/** The monthly partitions of `check_results`, over all maintenance runs.

    A row goes to the partition whose range holds its timestamp, or to the DEFAULT partition when
    there is none.  PostgreSQL refuses a new partition that overlaps another one or whose range
    already has a row in DEFAULT. */
module Partitions {
  import opened Calendar
  import opened Options

  type Tables = map<PartitionName, Range>

  // ---------------------------------------------------------------- one statement

  predicate Refused(parts: Tables, defaults: set<DateTime>, range: Range) {
    || (exists name :: name in parts && Overlap(parts[name], range))
    || (exists row :: row in defaults && Contains(range, row))
  }

  /** `CREATE TABLE IF NOT EXISTS name PARTITION OF ... FOR VALUES ...`; `None` when refused. */
  function CreateIfNotExists(parts: Tables, defaults: set<DateTime>, name: PartitionName, range: Range)
    : Option<Tables>
  {
    if name in parts then Some(parts)
    else if Refused(parts, defaults, range) then None
    else Some(parts[name := range])
  }

  /** Whatever the names and ranges, a statement that goes through leaves the ranges pairwise apart, with
      no DEFAULT row inside the one it created. */
  lemma CreationKeepsApart(parts: Tables, defaults: set<DateTime>, name: PartitionName, range: Range, after: Tables)
    requires forall p, q :: p in parts && q in parts && p != q ==> !Overlap(parts[p], parts[q])
    requires CreateIfNotExists(parts, defaults, name, range) == Some(after)
    ensures forall p, q :: p in after && q in after && p != q ==> !Overlap(after[p], after[q])
    ensures name !in parts ==> forall row :: row in defaults ==> !Contains(after[name], row)
    ensures forall p :: p in parts ==> p in after && after[p] == parts[p]
  {
  }

  function MonthRange(m: int): Range {
    Range(FirstOf(m), FirstOf(m + 1))
  }

  predicate HasMonth(parts: Tables, m: int) {
    && FIRST_MONTH <= m < LAST_MONTH
    && PartitionName(m) in parts
    && parts[PartitionName(m)] == MonthRange(m)
  }

  /** The tables are one partition for each of `months`, under that month's name and bounds. */
  ghost predicate Represents(parts: Tables, months: set<int>) {
    && (forall m :: m in months ==> HasMonth(parts, m))
    && (forall name :: name in parts ==> exists m :: m in months && HasMonth(parts, m) && name == PartitionName(m))
  }

  predicate HasRowIn(defaults: set<DateTime>, m: int) {
    exists row :: row in defaults && Index(row) == m
  }

  lemma RangesAreDisjoint(a: int, b: int)
    requires FIRST_MONTH <= a < LAST_MONTH && FIRST_MONTH <= b < LAST_MONTH
    ensures Overlap(MonthRange(a), MonthRange(b)) <==> a == b
  {
    assert a < b ==> !Before(FirstOf(b), FirstOf(a + 1));
    assert b < a ==> !Before(FirstOf(a), FirstOf(b + 1));
  }

  lemma MonthRangeIsTheMonth(m: int, t: DateTime)
    requires FIRST_MONTH <= m < LAST_MONTH && Valid(t)
    ensures Contains(MonthRange(m), t) <==> Index(t) == m
  {
    FirstOfIndex(m);
    BoundsRunToNextMonth(FirstOf(m));
    BoundsAreTheMonth(FirstOf(m), t);
  }

  lemma NamedMonthIsThere(parts: Tables, months: set<int>, m: int)
    requires Represents(parts, months) && FIRST_MONTH <= m < LAST_MONTH
    ensures PartitionName(m) in parts <==> m in months
  {
  }

  lemma NewMonthOverlapsNone(parts: Tables, months: set<int>, m: int, name: PartitionName)
    requires Represents(parts, months) && FIRST_MONTH <= m < LAST_MONTH && m !in months && name in parts
    ensures !Overlap(parts[name], MonthRange(m))
  {
    var k :| k in months && HasMonth(parts, k) && name == PartitionName(k);
    RangesAreDisjoint(k, m);
  }

  lemma RefusedByDefaultRows(parts: Tables, months: set<int>, defaults: set<DateTime>, m: int)
    requires Represents(parts, months) && FIRST_MONTH <= m < LAST_MONTH && m !in months
    requires forall row :: row in defaults ==> Valid(row)
    ensures Refused(parts, defaults, MonthRange(m)) <==> HasRowIn(defaults, m)
  {
    forall name | name in parts ensures !Overlap(parts[name], MonthRange(m)) {
      NewMonthOverlapsNone(parts, months, m, name);
    }
    forall row | row in defaults ensures Contains(MonthRange(m), row) <==> Index(row) == m {
      MonthRangeIsTheMonth(m, row);
    }
  }

  lemma AddedMonth(parts: Tables, months: set<int>, m: int)
    requires Represents(parts, months) && FIRST_MONTH <= m < LAST_MONTH && PartitionName(m) !in parts
    ensures Represents(parts[PartitionName(m) := MonthRange(m)], months + {m})
  {
    var after := parts[PartitionName(m) := MonthRange(m)];
    forall k | k in months ensures HasMonth(after, k) {
      assert HasMonth(parts, k);
    }
    forall name | name in after
      ensures exists k :: k in months + {m} && HasMonth(after, k) && name == PartitionName(k)
    {
      if name in parts {
        var k :| k in months && HasMonth(parts, k) && name == PartitionName(k);
        assert HasMonth(after, k);
      } else {
        assert HasMonth(after, m);
      }
    }
  }

  /** One statement adds its month, and is refused just when the month is new and DEFAULT already
      holds a row of it. */
  lemma CreateAddsMonth(parts: Tables, months: set<int>, defaults: set<DateTime>, m: int)
    requires Represents(parts, months) && FIRST_MONTH <= m < LAST_MONTH
    requires forall row :: row in defaults ==> Valid(row)
    ensures var after := CreateIfNotExists(parts, defaults, PartitionName(m), MonthRange(m));
            && (after.None? <==> m !in months && HasRowIn(defaults, m))
            && (after.Some? ==> Represents(after.value, months + {m}))
  {
    NamedMonthIsThere(parts, months, m);
    if m in months {
      assert months + {m} == months;
    } else {
      RefusedByDefaultRows(parts, months, defaults, m);
      AddedMonth(parts, months, m);
    }
  }

  // ---------------------------------------------------------------- one maintenance run

  ghost function Window(from: int, count: int): (w: set<int>)
    ensures forall m :: m in w <==> from <= m < from + count
    decreases count
  {
    if count <= 0 then {} else Window(from, count - 1) + {from + count - 1}
  }

  /** No row in DEFAULT stands in the way of a missing month of the window. */
  ghost predicate Unblocked(months: set<int>, defaults: set<DateTime>, from: int, count: int) {
    forall m :: from <= m < from + count && m !in months ==> !HasRowIn(defaults, m)
  }

  ghost predicate CanMaintain(months: set<int>, defaults: set<DateTime>, from: int, count: int) {
    && (count > 0 ==> from + count <= 12 * 9999 + 11)
    && Unblocked(months, defaults, from, count)
  }

  predicate NameMonths(names: seq<PartitionName>, from: int) {
    forall k :: 0 <= k < |names| ==> names[k] == PartitionName(from + k)
  }

  /** How far the loop of a maintenance run has come. */
  ghost predicate Progress(
    parts: Tables, months: set<int>, defaults: set<DateTime>, from: int, names: seq<PartitionName>)
  {
    && CanMaintain(months, defaults, from, |names|)
    && Represents(parts, months + Window(from, |names|))
    && NameMonths(names, from)
  }

  lemma NextUnblocked(months: set<int>, defaults: set<DateTime>, from: int, n: nat)
    requires CanMaintain(months, defaults, from, n) && from + n < LAST_MONTH
    requires from + n in months || !HasRowIn(defaults, from + n)
    ensures CanMaintain(months, defaults, from, n + 1)
  {
  }

  lemma NextName(names: seq<PartitionName>, from: int)
    requires NameMonths(names, from)
    ensures NameMonths(names + [PartitionName(from + |names|)], from)
  {
  }

  lemma NextWindow(months: set<int>, from: int, n: nat)
    ensures months + Window(from, n + 1) == months + Window(from, n) + {from + n}
  {
  }

  lemma NextProgress(
    parts: Tables, months: set<int>, defaults: set<DateTime>, from: int, names: seq<PartitionName>)
    requires CanMaintain(months, defaults, from, |names|) && NameMonths(names, from)
    requires Represents(parts, months + Window(from, |names|) + {from + |names|}) && from + |names| < LAST_MONTH
    requires from + |names| in months || !HasRowIn(defaults, from + |names|)
    ensures Progress(parts, months, defaults, from, names + [PartitionName(from + |names|)])
  {
    NextWindow(months, from, |names|);
    NextUnblocked(months, defaults, from, |names|);
    NextName(names, from);
  }

  lemma Blocked(months: set<int>, defaults: set<DateTime>, from: int, n: nat, count: nat)
    requires n < count
    requires from + n >= LAST_MONTH || (from + n !in months && HasRowIn(defaults, from + n))
    ensures !CanMaintain(months, defaults, from, count)
  {
  }

  predicate Consecutive(list: seq<DateTime>, from: int) {
    forall k :: 0 <= k < |list| ==>
      Valid(list[k]) && Index(list[k]) == from + k && list[k].day == 1 && list[k].micros == 0
  }

  /** The first instants of `count` consecutive months, the current one included; `None` past year 9999. */
  method MonthsAhead(now: DateTime, count: int) returns (months: Option<seq<DateTime>>)
    requires Valid(now)
    ensures months.Some? <==> count <= 0 || 12 * now.year + now.month - 1 + count - 1 <= 12 * 9999 + 11
    ensures months.Some? ==> |months.value| == (if count <= 0 then 0 else count)
    ensures months.Some? ==> Consecutive(months.value, Index(now))
  {
    var list: seq<DateTime> := [];
    var year, month := now.year, now.month;
    while |list| < count
      invariant |list| <= (if count <= 0 then 0 else count)
      invariant 1 <= month <= 12 && 12 * year + month - 1 == Index(now) + |list|
      invariant |list| > 0 ==> Index(now) + |list| - 1 <= LAST_MONTH
      invariant Consecutive(list, Index(now))
    {
      if year > MAX_YEAR {
        return None;
      }
      list := list + [DateTime(year, month, 1, 0)];
      month := month + 1;
      if month > 12 {
        month := 1;
        year := year + 1;
      }
    }
    months := Some(list);
  }

  /** A database session on the partitioned table: what is committed, and what the open transaction sees. */
  class PartitionManager {
    var committed: Tables
    var session: Tables
    var defaults: set<DateTime>

    constructor ()
      ensures committed == map[] && session == map[] && defaults == {}
    {
      committed, session, defaults := map[], map[], {};
    }

    method Execute(name: PartitionName, range: Range) returns (ok: bool)
      modifies this`session
      ensures ok == CreateIfNotExists(old(session), defaults, name, range).Some?
      ensures session == if ok then CreateIfNotExists(old(session), defaults, name, range).value else old(session)
    {
      var after := CreateIfNotExists(session, defaults, name, range);
      ok := after.Some?;
      if ok {
        session := after.value;
      }
    }

    /** One month's statement. */
    method CreateMonth(month: DateTime, ghost months: set<int>) returns (name: Option<PartitionName>)
      requires Valid(month) && Represents(session, months)
      requires forall row :: row in defaults ==> Valid(row)
      modifies this`session
      ensures name.Some? <==> Index(month) < LAST_MONTH && (Index(month) in months || !HasRowIn(defaults, Index(month)))
      ensures name.Some? ==> name.value == NameFor(month) && Represents(session, months + {Index(month)})
    {
      BoundsRunToNextMonth(month);
      var range := MonthBounds(month);
      if range.None? {
        return None;
      }
      CreateAddsMonth(session, months, defaults, Index(month));
      var ok := Execute(NameFor(month), range.value);
      name := if ok then Some(NameFor(month)) else None;
    }

    method CreateNext(ahead: seq<DateTime>, from: int, list: seq<PartitionName>, ghost months: set<int>)
      returns (longer: Option<seq<PartitionName>>)
      requires Consecutive(ahead, from) && |list| < |ahead| && Progress(session, months, defaults, from, list)
      requires forall row :: row in defaults ==> Valid(row)
      modifies this`session
      ensures longer.Some? ==> |longer.value| == |list| + 1 && Progress(session, months, defaults, from, longer.value)
      ensures longer.None? ==> !CanMaintain(months, defaults, from, |ahead|)
    {
      var name := CreateMonth(ahead[|list|], months + Window(from, |list|));
      if name.None? {
        Blocked(months, defaults, from, |list|, |ahead|);
        return None;
      }
      NextProgress(session, months, defaults, from, list);
      longer := Some(list + [name.value]);
    }

    /** The loop over the months ahead, in the open transaction. */
    method CreateAll(ahead: seq<DateTime>, from: int, ghost months: set<int>)
      returns (names: Option<seq<PartitionName>>)
      requires Represents(session, months) && Consecutive(ahead, from)
      requires forall row :: row in defaults ==> Valid(row)
      modifies this`session
      ensures names.Some? <==> CanMaintain(months, defaults, from, |ahead|)
      ensures names.Some? ==> |names.value| == |ahead| && Progress(session, months, defaults, from, names.value)
    {
      names := Some([]);
      assert months + Window(from, 0) == months;
      while |names.value| < |ahead|
        invariant names.Some? && |names.value| <= |ahead|
        invariant Progress(session, months, defaults, from, names.value)
      {
        var longer := CreateNext(ahead, from, names.value, months);
        if longer.None? {
          return None;
        }
        names := longer;
      }
    }

    /** All the window's partitions are committed together, or none when one of them fails. */
    method EnsurePartitions(now: DateTime, count: int, ghost months: set<int>)
      returns (names: Option<seq<PartitionName>>)
      requires Valid(now) && session == committed && Represents(committed, months)
      requires forall row :: row in defaults ==> Valid(row)
      modifies this`session, this`committed
      ensures session == committed
      ensures names.Some? <==> CanMaintain(months, defaults, Index(now), count)
      ensures names.None? ==> committed == old(committed)
      ensures names.Some? ==> Represents(committed, months + Window(Index(now), count))
      ensures names.Some? ==> |names.value| == (if count <= 0 then 0 else count) && NameMonths(names.value, Index(now))
    {
      var ahead := MonthsAhead(now, count);
      if ahead.None? {
        return None;
      }
      names := CreateAll(ahead.value, Index(now), months);
      if names.Some? {
        committed := session;
      } else {
        session := committed;
      }
    }
  }
}
