/** Request sessions that commit only when they wrote something.

    A session buffers added, changed and deleted objects until a flush writes them inside its
    transaction.  Flushes that write, and statements other than SELECT, set a flag; at the end of a
    request the session commits if the flag is set or something is still buffered. */
module SessionCommit {
  import opened Options
  import Runs

  type Key = nat
  type Value = int
  type Table = map<Key, Value>

  /** Rows to write; `None` deletes. */
  type Delta = map<Key, Option<Value>>

  function Apply(table: Table, delta: Delta): Table {
    map k | k in table.Keys + delta.Keys && (k in delta ==> delta[k].Some?) ::
      if k in delta then delta[k].value else table[k]
  }

  datatype Session = Session(
    added: map<Key, Value>, changed: map<Key, Value>, deleted: set<Key>,
    written: Delta, writeFlag: bool, active: bool)

  const NEW_SESSION := Session(map[], map[], {}, map[], false, true)

  predicate HasBuffered(s: Session) {
    s.added != map[] || s.changed != map[] || s.deleted != {}
  }

  /** What flushing the buffered objects writes. */
  function Buffered(s: Session): Delta {
    map k | k in s.added.Keys + s.changed.Keys + s.deleted ::
      if k in s.deleted then None else if k in s.changed then Some(s.changed[k]) else Some(s.added[k])
  }

  datatype Op =
    | Add(key: Key, value: Value)
    | Change(key: Key, value: Value)
    | Delete(key: Key)
    | Flush
    | FlushFails
    | Execute(isSelect: bool, writes: Delta)
    | Rollback

  /** `None` when the operation raises.  After a failed flush nothing but a rollback reaches the database. */
  function Step(s: Session, op: Op): Option<Session> {
    match op
    case Add(k, v) => Some(s.(added := s.added[k := v]))
    case Change(k, v) =>
      Some(if k in s.added then s.(added := s.added[k := v]) else s.(changed := s.changed[k := v]))
    case Delete(k) => if k in s.added then None else Some(s.(deleted := s.deleted + {k}))
    case Flush =>
      if !s.active then None
      else if !HasBuffered(s) then Some(s)
      else Some(Session(map[], map[], {}, s.written + Buffered(s), true, true))
    case FlushFails =>
      if s.active && HasBuffered(s) then Some(s.(written := map[], active := false)) else None
    case Execute(isSelect, writes) =>
      if !s.active then None
      else Some(s.(written := s.written + writes, writeFlag := s.writeFlag || !isSelect))
    case Rollback => Some(Session(map[], map[], {}, map[], s.writeFlag, true))
  }

  /** The end of a request whose handler did not raise; `table` is what others have committed by then. */
  function EndRequest(s: Session, table: Table): Table {
    if s.active && (s.writeFlag || HasBuffered(s)) then Apply(table, s.written + Buffered(s)) else table
  }

  /** The same end, committing whatever happened. */
  function AlwaysCommit(s: Session, table: Table): Table {
    if s.active then Apply(table, s.written + Buffered(s)) else table
  }

  predicate SelectsOnlyRead(ops: seq<Op>) {
    forall i :: 0 <= i < |ops| && ops[i].Execute? && ops[i].isSelect ==> ops[i].writes == map[]
  }

  function After(ops: seq<Op>): Option<Session> {
    Runs.Run(Step, NEW_SESSION, ops)
  }

  lemma ApplyNothing(table: Table)
    ensures Apply(table, map[]) == table
  {
  }

  /** An unset flag means the transaction has written nothing. */
  lemma {:induction false} UnflaggedWroteNothing(ops: seq<Op>)
    requires SelectsOnlyRead(ops) && After(ops).Some? && !After(ops).value.writeFlag
    ensures After(ops).value.written == map[]
    decreases |ops|
  {
    if ops != [] {
      var before := ops[..|ops| - 1];
      if !After(before).value.writeFlag {
        UnflaggedWroteNothing(before);
      }
    }
  }

  /** Leaving out the commit of an unflagged session with nothing buffered loses nothing. */
  lemma ElisionIsSound(ops: seq<Op>, table: Table)
    requires SelectsOnlyRead(ops) && After(ops).Some?
    ensures EndRequest(After(ops).value, table) == AlwaysCommit(After(ops).value, table)
  {
    var s := After(ops).value;
    if s.active && !s.writeFlag && !HasBuffered(s) {
      UnflaggedWroteNothing(ops);
      assert s.written + Buffered(s) == map[];
      ApplyNothing(table);
    }
  }

  lemma ApplyChanges(delta: Delta)
    requires delta != map[]
    ensures exists table :: Apply(table, delta) != table
  {
    var k :| k in delta;
    if delta[k].Some? {
      assert k in Apply(map[], delta);
    } else {
      assert k !in Apply(map[k := 0], delta);
    }
  }

  /** For any operations, writing SELECTs included: the elision agrees with an unconditional commit on
      every database exactly when the guard commits, or the transaction wrote nothing. */
  lemma ElisionSoundIff(s: Session)
    ensures (forall table :: EndRequest(s, table) == AlwaysCommit(s, table)) <==>
            !s.active || s.writeFlag || HasBuffered(s) || s.written == map[]
  {
    if s.active && !s.writeFlag && !HasBuffered(s) {
      assert s.written + Buffered(s) == s.written;
      if s.written == map[] {
        forall table ensures EndRequest(s, table) == AlwaysCommit(s, table) {
          ApplyNothing(table);
        }
      } else {
        ApplyChanges(s.written);
        var table :| Apply(table, s.written) != table;
        assert EndRequest(s, table) != AlwaysCommit(s, table);
      }
    }
  }

  /** The `k`th operation reached the database with something to write. */
  ghost predicate SetsFlag(ops: seq<Op>, k: int) {
    && 0 <= k < |ops|
    && (|| (ops[k].Execute? && !ops[k].isSelect)
        || (ops[k].Flush? && After(ops[..k]).Some? && HasBuffered(After(ops[..k]).value)))
  }

  lemma SetsFlagOfPrefix(ops: seq<Op>, k: int)
    requires 0 <= k < |ops| - 1
    ensures SetsFlag(ops[..|ops| - 1], k) <==> SetsFlag(ops, k)
  {
    assert ops[..|ops| - 1][..k] == ops[..k];
  }

  /** The flag is set just when some statement other than SELECT was executed or some flush had
      something to write: a request that did neither, and buffers nothing, does not commit. */
  lemma {:induction false} FlagIff(ops: seq<Op>)
    requires After(ops).Some?
    ensures After(ops).value.writeFlag <==> exists k :: SetsFlag(ops, k)
    decreases |ops|
  {
    if ops != [] {
      var n := |ops| - 1;
      FlagIff(ops[..n]);
      forall k | 0 <= k < n ensures SetsFlag(ops[..n], k) <==> SetsFlag(ops, k) {
        SetsFlagOfPrefix(ops, k);
      }
      assert After(ops).value.writeFlag <==> After(ops[..n]).value.writeFlag || SetsFlag(ops, n);
    }
  }

  /** A SELECT that writes, as one with a data-modifying subquery does, sets no flag: its write is
      rolled back where an unconditional commit would keep it. */
  lemma WritingSelectIsLost() returns (ops: seq<Op>)
    ensures After(ops).Some?
    ensures EndRequest(After(ops).value, map[]) == map[]
    ensures AlwaysCommit(After(ops).value, map[]) == map[0 := 1]
  {
    var op := Execute(true, map[0 := Some(1)]);
    var s: Session;
    assert Runs.Run(Step, NEW_SESSION, []) == Some(NEW_SESSION);
    ops, s := Runs.Extend(Step, NEW_SESSION, [], NEW_SESSION, op);
    assert s.written + Buffered(s) == map[0 := Some(1)];
  }

  // ---------------------------------------------------------------- what a request leaves

  /** Objects are added under keys the session does not hold yet, a deleted object is not changed again,
      and statements write no row that is still buffered, since statements do not flush. */
  function TidyStep(s: Session, op: Op): Option<Session> {
    if op.Add? && (op.key in s.changed || op.key in s.deleted) then None
    else if op.Change? && op.key in s.deleted then None
    else if op.Execute? && (exists k :: k in op.writes && k in Buffered(s)) then None
    else Step(s, op)
  }

  /** The table after the operations done one by one on it, and whether the transaction is intact: a
      failed flush takes everything back, and nothing counts until the rollback after it. */
  function Intended(ops: seq<Op>, start: Table): (Table, bool)
    decreases |ops|
  {
    if ops == [] then (start, true)
    else
      var op := ops[|ops| - 1];
      var (table, intact) := Intended(ops[..|ops| - 1], start);
      if op.Rollback? then (start, true)
      else if op.FlushFails? || !intact then (start, false)
      else if op.Add? || op.Change? then (table[op.key := op.value], true)
      else if op.Delete? then (table - {op.key}, true)
      else if op.Execute? then (Apply(table, op.writes), true)
      else (table, true)
  }

  lemma ApplySet(table: Table, delta: Delta, k: Key, v: Value)
    ensures Apply(table, delta[k := Some(v)]) == Apply(table, delta)[k := v]
  {
  }

  lemma ApplyRemove(table: Table, delta: Delta, k: Key)
    ensures Apply(table, delta[k := None]) == Apply(table, delta) - {k}
  {
  }

  lemma ApplyThen(table: Table, first: Delta, second: Delta)
    ensures Apply(table, first + second) == Apply(Apply(table, first), second)
  {
  }

  lemma AddReaches(s: Session, op: Op, s': Session, start: Table)
    requires (op.Add? || op.Change?) && TidyStep(s, op) == Some(s') && s.active && s.added.Keys !! s.changed.Keys
    ensures AlwaysCommit(s', start) == AlwaysCommit(s, start)[op.key := op.value]
  {
    BufferedValue(s, op, s');
    var delta := s.written + Buffered(s);
    assert s'.written + Buffered(s') == delta[op.key := Some(op.value)];
    ApplySet(start, delta, op.key, op.value);
  }

  lemma BufferedValue(s: Session, op: Op, s': Session)
    requires (op.Add? || op.Change?) && TidyStep(s, op) == Some(s') && s.added.Keys !! s.changed.Keys
    ensures Buffered(s') == Buffered(s)[op.key := Some(op.value)]
  {
  }

  lemma DeleteReaches(s: Session, op: Op, s': Session, start: Table)
    requires op.Delete? && TidyStep(s, op) == Some(s') && s.active
    ensures AlwaysCommit(s', start) == AlwaysCommit(s, start) - {op.key}
  {
    BufferedDeletion(s, op, s');
    var delta := s.written + Buffered(s);
    assert s'.written + Buffered(s') == delta[op.key := None];
    ApplyRemove(start, delta, op.key);
  }

  lemma BufferedDeletion(s: Session, op: Op, s': Session)
    requires op.Delete? && TidyStep(s, op) == Some(s')
    ensures Buffered(s') == Buffered(s)[op.key := None]
  {
  }

  lemma ExecuteReaches(s: Session, op: Op, s': Session, start: Table)
    requires op.Execute? && TidyStep(s, op) == Some(s')
    ensures AlwaysCommit(s', start) == Apply(AlwaysCommit(s, start), op.writes)
  {
    var buffered := Buffered(s);
    assert Buffered(s') == buffered;
    WritesCommute(s.written, op.writes, buffered);
    ApplyThen(start, s.written + buffered, op.writes);
  }

  lemma WritesCommute(written: Delta, writes: Delta, buffered: Delta)
    requires forall k :: k in writes ==> k !in buffered
    ensures written + writes + buffered == written + buffered + writes
  {
  }

  lemma FlushKeeps(s: Session, s': Session, start: Table)
    requires TidyStep(s, Flush) == Some(s')
    ensures AlwaysCommit(s', start) == AlwaysCommit(s, start)
  {
    assert s'.written + Buffered(s') == s.written + Buffered(s);
  }

  lemma TidyStepIntended(s: Session, op: Op, s': Session, start: Table)
    requires TidyStep(s, op) == Some(s') && s.added.Keys !! s.changed.Keys
    ensures s'.added.Keys !! s'.changed.Keys
    ensures op.Rollback? ==> s'.active && AlwaysCommit(s', start) == start
    ensures op.FlushFails? ==> !s'.active
    ensures !op.Rollback? && !s.active ==> !s'.active
    ensures s.active && !op.FlushFails? ==> s'.active
    ensures s.active && (op.Add? || op.Change?) ==>
              AlwaysCommit(s', start) == AlwaysCommit(s, start)[op.key := op.value]
    ensures s.active && op.Delete? ==> AlwaysCommit(s', start) == AlwaysCommit(s, start) - {op.key}
    ensures op.Execute? ==> AlwaysCommit(s', start) == Apply(AlwaysCommit(s, start), op.writes)
    ensures op.Flush? ==> AlwaysCommit(s', start) == AlwaysCommit(s, start)
  {
    if (op.Add? || op.Change?) && s.active {
      AddReaches(s, op, s', start);
    } else if op.Delete? && s.active {
      DeleteReaches(s, op, s', start);
    } else if op.Execute? {
      ExecuteReaches(s, op, s', start);
    } else if op.Flush? {
      FlushKeeps(s, s', start);
    } else if op.Rollback? {
      ApplyNothing(start);
      assert s'.written + Buffered(s') == map[];
    }
  }

  /** A request leaves the table that its operations, done one by one, leave: every addition, change,
      deletion and statement reaches it unless a rollback or a failed flush came after. */
  lemma {:induction false} RequestLeavesIntended(ops: seq<Op>, s: Session, start: Table)
    requires Runs.Run(TidyStep, NEW_SESSION, ops) == Some(s)
    ensures After(ops) == Some(s)
    ensures AlwaysCommit(s, start) == Intended(ops, start).0
    ensures SelectsOnlyRead(ops) ==> EndRequest(s, start) == Intended(ops, start).0
    ensures s.active == Intended(ops, start).1 && s.added.Keys !! s.changed.Keys
    decreases |ops|
  {
    if ops == [] {
      ApplyNothing(start);
      assert s.written + Buffered(s) == map[];
    } else {
      var before := Runs.Run(TidyStep, NEW_SESSION, ops[..|ops| - 1]).value;
      RequestLeavesIntended(ops[..|ops| - 1], before, start);
      TidyStepIntended(before, ops[|ops| - 1], s, start);
    }
    if SelectsOnlyRead(ops) {
      ElisionIsSound(ops, start);
    }
  }

  // ---------------------------------------------------------------- the request

  /** A database and the session of one request on it. */
  class Database {
    var table: Table
    var session: Session

    constructor (table: Table)
      ensures this.table == table && session == NEW_SESSION
    {
      this.table, session := table, NEW_SESSION;
    }

    method Perform(op: Op) returns (ok: bool)
      modifies this`session
      ensures ok == Step(old(session), op).Some?
      ensures session == if ok then Step(old(session), op).value else old(session)
    {
      var next := Step(session, op);
      ok := next.Some?;
      if ok {
        session := next.value;
      }
    }

    /** A request that raises leaves the table as it was; any other leaves what an unconditional
        commit would. */
    method GetDb(ops: seq<Op>, handlerRaises: bool)
      requires SelectsOnlyRead(ops)
      modifies this
      ensures handlerRaises || After(ops).None? ==> table == old(table)
      ensures !handlerRaises && After(ops).Some? ==> table == AlwaysCommit(After(ops).value, old(table))
    {
      session := NEW_SESSION;
      var i := 0;
      assert ops[..0] == [];
      while i < |ops|
        invariant i <= |ops| && table == old(table)
        invariant After(ops[..i]) == Some(session)
      {
        var ok := Perform(ops[i]);
        NextOp(ops, i);
        if !ok {
          RaisedBefore(ops, i + 1);
          return;
        }
        i := i + 1;
      }
      assert ops[..i] == ops;
      if !handlerRaises {
        ElisionIsSound(ops, table);
        table := EndRequest(session, table);
      }
    }
  }

  lemma NextOp(ops: seq<Op>, i: nat)
    requires i < |ops|
    ensures After(ops[..i + 1]) == if After(ops[..i]).None? then None else Step(After(ops[..i]).value, ops[i])
  {
    assert ops[..i + 1][..i] == ops[..i];
  }

  lemma {:induction false} RaisedBefore(ops: seq<Op>, i: nat)
    requires i <= |ops| && After(ops[..i]).None?
    ensures After(ops).None?
    decreases |ops| - i
  {
    if i < |ops| {
      NextOp(ops, i);
      RaisedBefore(ops, i + 1);
    } else {
      assert ops[..i] == ops;
    }
  }
}
