/** What `SELECT ... ORDER BY key ASC LIMIT limit` promises.

    `keys` holds the sort key of every row the WHERE clause admits.  Rows with equal keys may
    come back in any order, so this is a relation and not a function. */
module OrderedQuery {

  function SeqToSet<T>(s: seq<T>): set<T> {
    set x | x in s
  }

  ghost predicate NoDuplicates<T>(s: seq<T>) {
    forall i, j :: 0 <= i < j < |s| ==> s[i] != s[j]
  }

  ghost predicate OrderedPrefix<Id>(keys: map<Id, int>, limit: nat, rows: seq<Id>) {
    && |rows| == (if |keys| <= limit then |keys| else limit)
    && NoDuplicates(rows)
    && (forall i :: 0 <= i < |rows| ==> rows[i] in keys)
    && (forall i, j :: 0 <= i < j < |rows| ==> keys[rows[i]] <= keys[rows[j]])
    && (forall id, i :: id in keys && id !in rows && 0 <= i < |rows| ==> keys[rows[i]] <= keys[id])
  }

  lemma {:induction false} NoDuplicatesCardinality<T>(s: seq<T>)
    requires NoDuplicates(s)
    ensures |SeqToSet(s)| == |s|
    decreases |s|
  {
    if s != [] {
      var n := |s| - 1;
      NoDuplicatesCardinality(s[..n]);
      assert SeqToSet(s) == SeqToSet(s[..n]) + {s[n]};
    }
  }

  lemma SubsetCardinality<T>(a: set<T>, b: set<T>)
    requires a <= b
    ensures |a| <= |b|
    ensures |a| == |b| ==> a == b
  {
    assert b == a + (b - a);
  }

  /** A query that did not fill its limit returned every admitted row. */
  lemma ShortResultIsComplete<Id>(keys: map<Id, int>, limit: nat, rows: seq<Id>)
    requires OrderedPrefix(keys, limit, rows)
    requires |rows| < limit || |keys| <= limit
    ensures SeqToSet(rows) == keys.Keys
  {
    NoDuplicatesCardinality(rows);
    assert SeqToSet(rows) <= keys.Keys;
    SubsetCardinality(SeqToSet(rows), keys.Keys);
  }

  /** An admitted row that is not among the first `m` rows does not sort before them. */
  lemma NotAmongFirst<Id>(keys: map<Id, int>, limit: nat, rows: seq<Id>, m: nat, id: Id)
    requires OrderedPrefix(keys, limit, rows) && 0 < m <= |rows|
    requires id in keys && id !in rows[..m]
    ensures keys[rows[m - 1]] <= keys[id]
  {
    if id in rows {
      assert rows == rows[..m] + rows[m..];
      var j :| 0 <= j < |rows| - m && rows[m..][j] == id;
      assert keys[rows[m - 1]] <= keys[rows[m + j]];
    }
  }

  /** A sorted list of all admitted rows, each once, is what the query without a limit returns. */
  lemma SortedListing<Id>(keys: map<Id, int>, rows: seq<Id>)
    requires NoDuplicates(rows) && forall id :: id in keys <==> id in rows
    requires forall i, j :: 0 <= i < j < |rows| ==> keys[rows[i]] <= keys[rows[j]]
    ensures OrderedPrefix(keys, |keys|, rows)
  {
    NoDuplicatesCardinality(rows);
    assert SeqToSet(rows) == keys.Keys;
    assert |keys| == |keys.Keys|;
  }
}
