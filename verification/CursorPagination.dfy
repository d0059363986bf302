/** Walking the dependency list by cursor while rows are inserted and soft-deleted.

    A page request reads `limit + 1` rows, newest first, older than the cursor row, and slices them.
    The cursor row may itself have been deleted since: its `created_at` still counts. */
module CursorPagination {
  import opened Options
  import opened OrderedQuery

  type RowId = nat

  datatype Row = Row(createdAt: int, deleted: bool)

  /** The rows of one organization; soft deletion keeps them in the table. */
  type Table = map<RowId, Row>

  datatype Page = Page(items: seq<RowId>, nextCursor: Option<RowId>, hasMore: bool, limit: nat)

  // ---------------------------------------------------------------- one page

  predicate Before(table: Table, id: RowId, cursor: Option<RowId>) {
    && id in table
    && (cursor.None? || (cursor.value in table && table[id].createdAt < table[cursor.value].createdAt))
  }

  ghost predicate AllBefore(table: Table, ids: seq<RowId>, cursor: Option<RowId>) {
    forall i :: 0 <= i < |ids| ==> Before(table, ids[i], cursor)
  }

  /** Sort keys of the rows the list query admits: newest first. */
  function ListKeys(table: Table, cursor: Option<RowId>): map<RowId, int> {
    map id | id in table && !table[id].deleted && Before(table, id, cursor) :: -table[id].createdAt
  }

  function SlicePage(rows: seq<RowId>, limit: nat): (page: Page)
    ensures page.items <= rows && |page.items| == (if |rows| <= limit then |rows| else limit)
    ensures page.hasMore <==> page.items != rows
    ensures page.nextCursor.Some? <==> page.hasMore && limit > 0
    ensures page.nextCursor.Some? ==> page.nextCursor == Some(page.items[limit - 1])
  {
    var hasMore := |rows| > limit;
    var items := if hasMore then rows[..limit] else rows;
    var next := if hasMore && items != [] then Some(items[|items| - 1]) else None;
    Page(items, next, hasMore, limit)
  }

  ghost predicate Fetch(table: Table, cursor: Option<RowId>, limit: nat, page: Page) {
    exists rows: seq<RowId> :: OrderedPrefix(ListKeys(table, cursor), limit + 1, rows) && page == SlicePage(rows, limit)
  }

  ghost predicate DistinctTimes(table: Table) {
    forall a, b :: a in table && b in table && a != b ==> table[a].createdAt != table[b].createdAt
  }

  ghost predicate Descending(table: Table, ids: seq<RowId>) {
    && (forall i :: 0 <= i < |ids| ==> ids[i] in table)
    && (forall i, j :: 0 <= i < j < |ids| ==> table[ids[i]].createdAt > table[ids[j]].createdAt)
  }

  lemma PageRowsAreListed(table: Table, cursor: Option<RowId>, limit: nat, rows: seq<RowId>)
    requires DistinctTimes(table) && OrderedPrefix(ListKeys(table, cursor), limit + 1, rows)
    ensures Descending(table, SlicePage(rows, limit).items)
    ensures forall id :: id in SlicePage(rows, limit).items ==> id in ListKeys(table, cursor)
  {
    var keys := ListKeys(table, cursor);
    var items := SlicePage(rows, limit).items;
    assert forall i :: 0 <= i < |items| ==> items[i] == rows[i];
    forall i, j | 0 <= i < j < |items| ensures table[items[i]].createdAt > table[items[j]].createdAt {
      assert rows[i] != rows[j] && keys[rows[i]] <= keys[rows[j]];
    }
  }

  lemma LeftOutIsNotNewer(table: Table, cursor: Option<RowId>, limit: nat, rows: seq<RowId>, id: RowId)
    requires limit >= 1 && OrderedPrefix(ListKeys(table, cursor), limit + 1, rows)
    requires id in ListKeys(table, cursor) && id !in SlicePage(rows, limit).items
    ensures |rows| > limit && rows[limit - 1] in table
    ensures table[id].createdAt <= table[rows[limit - 1]].createdAt
  {
    var keys := ListKeys(table, cursor);
    if |rows| <= limit {
      ShortResultIsComplete(keys, limit + 1, rows);
    } else {
      NotAmongFirst(keys, limit + 1, rows, limit, id);
      assert rows[limit - 1] in keys;
    }
  }

  lemma PageIsFull(table: Table, cursor: Option<RowId>, limit: nat, page: Page)
    requires limit >= 1 && Fetch(table, cursor, limit, page) && page.nextCursor.Some?
    ensures |page.items| == limit && page.nextCursor.value == page.items[limit - 1]
  {
  }

  /** A page holds live rows older than the cursor in strictly descending order. */
  lemma PageDescends(table: Table, cursor: Option<RowId>, limit: nat, page: Page)
    requires DistinctTimes(table) && Fetch(table, cursor, limit, page)
    ensures Descending(table, page.items) && AllBefore(table, page.items, cursor)
    ensures forall id :: id in page.items ==> id in table && !table[id].deleted
    ensures forall id :: id in page.items && cursor.Some? ==>
              cursor.value in table && table[id].createdAt < table[cursor.value].createdAt
  {
    var rows: seq<RowId> :| OrderedPrefix(ListKeys(table, cursor), limit + 1, rows) && page == SlicePage(rows, limit);
    PageRowsAreListed(table, cursor, limit, rows);
    forall i | 0 <= i < |page.items| ensures Before(table, page.items[i], cursor) {
      assert page.items[i] in page.items;
    }
  }

  lemma PageIsListed(table: Table, cursor: Option<RowId>, limit: nat, page: Page, id: RowId)
    requires Fetch(table, cursor, limit, page) && id in page.items
    ensures id in table && !table[id].deleted && Before(table, id, cursor)
  {
  }

  /** An admitted row that the page leaves out is not newer than the next cursor, which the page then
      has; with distinct creation times it is older. */
  lemma PageLeavesOlder(table: Table, cursor: Option<RowId>, limit: nat, page: Page, id: RowId)
    requires limit >= 1 && Fetch(table, cursor, limit, page)
    requires id in table && !table[id].deleted && Before(table, id, cursor) && id !in page.items
    ensures page.nextCursor.Some? && page.nextCursor.value in table
    ensures table[id].createdAt <= table[page.nextCursor.value].createdAt
    ensures DistinctTimes(table) ==> Before(table, id, page.nextCursor)
  {
    var rows: seq<RowId> :| OrderedPrefix(ListKeys(table, cursor), limit + 1, rows) && page == SlicePage(rows, limit);
    LeftOutIsNotNewer(table, cursor, limit, rows, id);
    assert page.items[limit - 1] in page.items;
  }

  // ---------------------------------------------------------------- the walk

  /** Between two requests newer rows may be inserted and any rows soft-deleted. */
  ghost predicate Evolves(before: Table, after: Table) {
    && (forall id :: id in before ==> id in after && after[id].createdAt == before[id].createdAt)
    && (forall id, older :: id in after && id !in before && older in before ==>
          after[id].createdAt > before[older].createdAt)
  }

  /** The requests of a client that follows `nextCursor`: the table each one saw, and its answer. */
  datatype Visits = Last(table: Table, page: Page) | More(table: Table, page: Page, rest: Visits)

  ghost predicate Walk(v: Visits, cursor: Option<RowId>, limit: nat) {
    && Fetch(v.table, cursor, limit, v.page)
    && (v.More? ==>
          && v.page.nextCursor.Some?
          && Evolves(v.table, v.rest.table)
          && Walk(v.rest, v.page.nextCursor, limit))
  }

  ghost predicate TimesDistinct(v: Visits) {
    DistinctTimes(v.table) && (v.More? ==> TimesDistinct(v.rest))
  }

  predicate Finished(v: Visits) {
    match v
    case Last(_, page) => page.nextCursor.None?
    case More(_, _, rest) => Finished(rest)
  }

  function Items(v: Visits): seq<RowId> {
    match v
    case Last(_, page) => page.items
    case More(_, page, rest) => page.items + Items(rest)
  }

  function Requests(v: Visits): nat {
    match v
    case Last(_, _) => 1
    case More(_, _, rest) => 1 + Requests(rest)
  }

  predicate LiveThroughout(v: Visits, id: RowId) {
    id in v.table && !v.table[id].deleted && (v.More? ==> LiveThroughout(v.rest, id))
  }

  predicate Unchanged(v: Visits, table: Table) {
    v.table == table && (v.More? ==> Unchanged(v.rest, table))
  }

  /** Rows older than an existing cursor are old rows, at the same place. */
  lemma OlderRowsAreOld(before: Table, after: Table, cursor: RowId, id: RowId)
    requires Evolves(before, after) && cursor in before
    requires id in after && Before(after, id, Some(cursor))
    ensures id in before && Before(before, id, Some(cursor))
    ensures after[id].createdAt == before[id].createdAt
  {
  }

  lemma RestIsOld(before: Table, after: Table, last: RowId, rest: seq<RowId>)
    requires Evolves(before, after) && last in before
    requires Descending(after, rest) && AllBefore(after, rest, Some(last))
    ensures Descending(before, rest) && AllBefore(before, rest, Some(last))
  {
    forall i | 0 <= i < |rest|
      ensures rest[i] in before && before[rest[i]].createdAt == after[rest[i]].createdAt
      ensures Before(before, rest[i], Some(last))
    {
      OlderRowsAreOld(before, after, last, rest[i]);
    }
  }

  /** One page followed by the rows of the rest of the walk. */
  lemma PageThenRest(before: Table, after: Table, cursor: Option<RowId>, first: seq<RowId>, rest: seq<RowId>)
    requires Evolves(before, after) && Descending(before, first) && AllBefore(before, first, cursor)
    requires |first| > 0 && Descending(after, rest) && AllBefore(after, rest, Some(first[|first| - 1]))
    ensures Descending(before, first + rest) && AllBefore(before, first + rest, cursor)
  {
    var last := first[|first| - 1];
    RestIsOld(before, after, last, rest);
    AppendDescends(before, first, rest, last);
    forall i | 0 <= i < |first + rest| ensures Before(before, (first + rest)[i], cursor) {
      assert Before(before, last, cursor);
      if i >= |first| {
        assert Before(before, rest[i - |first|], Some(last));
      }
    }
  }

  lemma {:induction false} WalkDescends(v: Visits, cursor: Option<RowId>, limit: nat)
    requires limit >= 1 && Walk(v, cursor, limit) && TimesDistinct(v)
    ensures Descending(v.table, Items(v)) && AllBefore(v.table, Items(v), cursor)
  {
    PageDescends(v.table, cursor, limit, v.page);
    if v.More? {
      PageIsFull(v.table, cursor, limit, v.page);
      WalkDescends(v.rest, v.page.nextCursor, limit);
      PageThenRest(v.table, v.rest.table, cursor, v.page.items, Items(v.rest));
    }
  }

  lemma AppendDescends(table: Table, first: seq<RowId>, rest: seq<RowId>, last: RowId)
    requires Descending(table, first) && Descending(table, rest)
    requires |first| > 0 && first[|first| - 1] == last
    requires AllBefore(table, rest, Some(last))
    ensures Descending(table, first + rest)
  {
    forall i, j | 0 <= i < j < |first + rest|
      ensures table[(first + rest)[i]].createdAt > table[(first + rest)[j]].createdAt
    {
      if i < |first| <= j {
        assert table[first[i]].createdAt >= table[last].createdAt;
        assert Before(table, rest[j - |first|], Some(last));
      }
    }
  }

  lemma {:induction false} WalkFindsLiveRows(v: Visits, cursor: Option<RowId>, limit: nat, id: RowId)
    requires limit >= 1 && Walk(v, cursor, limit) && TimesDistinct(v) && Finished(v)
    requires LiveThroughout(v, id) && Before(v.table, id, cursor)
    ensures id in Items(v)
  {
    if id !in v.page.items {
      PageLeavesOlder(v.table, cursor, limit, v.page, id);
      assert v.More? && Before(v.rest.table, id, v.page.nextCursor);
      WalkFindsLiveRows(v.rest, v.page.nextCursor, limit, id);
    }
  }

  /** How many rows `pages` full pages hold. */
  function Slots(pages: nat, limit: nat): nat {
    if pages == 0 then 0 else Slots(pages - 1, limit) + limit
  }

  lemma {:induction false} SlotsIsProduct(pages: nat, limit: nat)
    ensures Slots(pages, limit) == pages * limit
  {
    if pages > 0 {
      SlotsIsProduct(pages - 1, limit);
    }
  }

  lemma {:induction false} FullPages(v: Visits, cursor: Option<RowId>, limit: nat)
    requires limit >= 1 && Walk(v, cursor, limit)
    ensures |Items(v)| >= Slots(Requests(v) - 1, limit)
  {
    if v.More? {
      PageIsFull(v.table, cursor, limit, v.page);
      FullPages(v.rest, v.page.nextCursor, limit);
    }
  }

  lemma DescendingIsDistinct(table: Table, ids: seq<RowId>)
    requires Descending(table, ids)
    ensures NoDuplicates(ids)
  {
  }

  lemma DescendingCount(table: Table, ids: seq<RowId>)
    requires Descending(table, ids)
    ensures NoDuplicates(ids) && |ids| <= |table|
  {
    DescendingIsDistinct(table, ids);
    NoDuplicatesCardinality(ids);
    SubsetCardinality(SeqToSet(ids), table.Keys);
  }

  /** A walk from the start returns no row twice, in descending order, all of them rows that existed
      when it began. */
  lemma WalkRepeatsNothing(v: Visits, limit: nat)
    requires limit >= 1 && Walk(v, None, limit) && TimesDistinct(v)
    ensures Descending(v.table, Items(v)) && NoDuplicates(Items(v)) && |Items(v)| <= |v.table|
  {
    WalkDescends(v, None, limit);
    DescendingCount(v.table, Items(v));
  }

  /** A walk ends: every request but the last takes `limit` of the rows that existed at its start. */
  lemma WalkTerminates(v: Visits, limit: nat)
    requires limit >= 1 && Walk(v, None, limit) && TimesDistinct(v)
    ensures Slots(Requests(v) - 1, limit) <= |v.table|
  {
    WalkRepeatsNothing(v, limit);
    FullPages(v, None, limit);
  }

  /** A finished walk returns exactly once every row that was live throughout. */
  lemma WalkReturnsLiveRowsOnce(v: Visits, limit: nat, id: RowId)
    requires limit >= 1 && Walk(v, None, limit) && TimesDistinct(v) && Finished(v)
    requires LiveThroughout(v, id)
    ensures id in Items(v)
    ensures forall i, j :: 0 <= i < j < |Items(v)| && Items(v)[i] == id ==> Items(v)[j] != id
  {
    WalkFindsLiveRows(v, None, limit, id);
    WalkRepeatsNothing(v, limit);
  }

  lemma {:induction false} UnchangedIsLive(v: Visits, table: Table, id: RowId)
    requires Unchanged(v, table) && id in table && !table[id].deleted
    ensures LiveThroughout(v, id)
  {
    if v.More? {
      UnchangedIsLive(v.rest, table, id);
    }
  }

  lemma {:induction false} ItemsAreListed(v: Visits, table: Table, cursor: Option<RowId>, limit: nat)
    requires limit >= 1 && Walk(v, cursor, limit) && TimesDistinct(v) && Unchanged(v, table)
    ensures forall id :: id in Items(v) ==> id in table && !table[id].deleted
  {
    PageDescends(table, cursor, limit, v.page);
    if v.More? {
      ItemsAreListed(v.rest, table, v.page.nextCursor, limit);
    }
  }

  /** On a table nobody changes, the pages of a finished walk concatenate to the whole list: the rows not
      deleted, each once, newest first. */
  lemma StaticWalkIsWholeList(v: Visits, limit: nat)
    requires limit >= 1 && Walk(v, None, limit) && TimesDistinct(v) && Finished(v) && Unchanged(v, v.table)
    ensures forall id :: id in Items(v) <==> id in v.table && !v.table[id].deleted
    ensures Descending(v.table, Items(v)) && NoDuplicates(Items(v))
  {
    WalkRepeatsNothing(v, limit);
    ItemsAreListed(v, v.table, None, limit);
    forall id | id in v.table && !v.table[id].deleted ensures id in Items(v) {
      UnchangedIsLive(v, v.table, id);
      WalkFindsLiveRows(v, None, limit, id);
    }
  }

  /** Some request of the walk returned the row while it was not deleted. */
  predicate ReturnedLive(v: Visits, id: RowId) {
    || (id in v.page.items && id in v.table && !v.table[id].deleted)
    || (v.More? && ReturnedLive(v.rest, id))
  }

  /** Whatever changes between the requests, a walk never returns a row deleted by then. */
  lemma {:induction false} WalkReturnsOnlyLive(v: Visits, cursor: Option<RowId>, limit: nat, id: RowId)
    requires Walk(v, cursor, limit) && id in Items(v)
    ensures ReturnedLive(v, id)
  {
    if id in v.page.items {
      PageIsListed(v.table, cursor, limit, v.page, id);
    } else {
      WalkReturnsOnlyLive(v.rest, v.page.nextCursor, limit, id);
    }
  }

  // ---------------------------------------------------------------- equal creation times

  /** The walk passes a page border whose last row was created at the same time as row `id`, which it
      has not returned by then. */
  predicate TiedAtBorder(v: Visits, id: RowId) {
    && id !in v.page.items
    && (|| (v.page.nextCursor.Some? && v.page.nextCursor.value in v.table && id in v.table
            && v.table[v.page.nextCursor.value].createdAt == v.table[id].createdAt)
        || (v.More? && TiedAtBorder(v.rest, id)))
  }

  lemma {:induction false} WalkStaysBefore(v: Visits, cursor: Option<RowId>, limit: nat, id: RowId)
    requires limit >= 1 && Walk(v, cursor, limit) && id in Items(v)
    ensures Before(v.table, id, cursor)
  {
    if id in v.page.items {
      PageIsListed(v.table, cursor, limit, v.page, id);
    } else {
      var border := v.page.nextCursor.value;
      WalkStaysBefore(v.rest, v.page.nextCursor, limit, id);
      PageIsFull(v.table, cursor, limit, v.page);
      PageIsListed(v.table, cursor, limit, v.page, border);
      OlderRowsAreOld(v.table, v.rest.table, border, id);
    }
  }

  /** Whatever the creation times, a finished walk returns a row that stays live if and only if it
      passes no page border tied with that row before returning it. */
  lemma {:induction false} ReturnedIffNotTied(v: Visits, cursor: Option<RowId>, limit: nat, id: RowId)
    requires limit >= 1 && Walk(v, cursor, limit) && Finished(v)
    requires LiveThroughout(v, id) && Before(v.table, id, cursor)
    ensures id in Items(v) <==> !TiedAtBorder(v, id)
  {
    if id !in v.page.items {
      PageLeavesOlder(v.table, cursor, limit, v.page, id);
      var border := v.page.nextCursor.value;
      assert v.rest.table[id].createdAt == v.table[id].createdAt;
      assert v.rest.table[border].createdAt == v.table[border].createdAt;
      if v.table[id].createdAt < v.table[border].createdAt {
        ReturnedIffNotTied(v.rest, v.page.nextCursor, limit, id);
      } else if id in Items(v.rest) {
        WalkStaysBefore(v.rest, v.page.nextCursor, limit, id);
      }
    }
  }

  const TIED: Table := map[0 := Row(5, false), 1 := Row(5, false)]
  const TIED_VISITS := More(TIED, Page([0], Some(0), true, 1), Last(TIED, Page([], None, false, 1)))

  lemma TiedFirstPage()
    ensures Fetch(TIED, None, 1, TIED_VISITS.page)
  {
    assert ListKeys(TIED, None) == map[0 := -5, 1 := -5];
    var rows: seq<RowId> := [0, 1];
    assert SlicePage(rows, 1) == TIED_VISITS.page;
  }

  lemma TiedSecondPage()
    ensures Fetch(TIED, Some(0), 1, TIED_VISITS.rest.page)
  {
    assert ListKeys(TIED, Some(0)) == map[];
    var rows: seq<RowId> := [];
    assert SlicePage(rows, 1) == TIED_VISITS.rest.page;
  }

  /** Such a walk: of two rows created at the same time with a page border between them, the second
      is never returned, although it is live throughout. */
  lemma TiedRowIsSkipped()
    ensures Walk(TIED_VISITS, None, 1)
    ensures Finished(TIED_VISITS) && LiveThroughout(TIED_VISITS, 1) && 1 !in Items(TIED_VISITS)
  {
    TiedFirstPage();
    TiedSecondPage();
  }
}
