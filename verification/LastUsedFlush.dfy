/** API-key `last_used_at`: recorded in Redis at each use, flushed to the table in batches.

    A use overwrites the key's Redis entry; entries may expire at any time.  A flush reads entries one
    by one, updates the rows in its transaction, deletes the entries it read, and commits last. */
module LastUsedFlush {
  import opened Options
  import Runs

  type KeyId = nat
  type Time = int

  const BATCH_SIZE := 500

  // ---------------------------------------------------------------- the batched update

  /** PostgreSQL's `greatest` ignores NULL. */
  function Greatest(stored: Option<Time>, value: Time): Time {
    if stored.None? || stored.value < value then value else stored.value
  }

  predicate AtLeast(stored: Option<Time>, value: Time) {
    stored.Some? && stored.value >= value
  }

  type Rows = map<KeyId, Option<Time>>

  /** `CASE WHEN id = k1 THEN ... WHEN id = k2 THEN ... ELSE last_used_at END`: the first match decides. */
  function CaseValue(whens: seq<(KeyId, Time)>, id: KeyId, stored: Option<Time>): Option<Time> {
    if whens == [] then stored
    else if whens[0].0 == id then Some(Greatest(stored, whens[0].1))
    else CaseValue(whens[1..], id, stored)
  }

  function UpdateLastUsedBatch(rows: Rows, whens: seq<(KeyId, Time)>): Rows {
    map id | id in rows ::
      if exists i :: 0 <= i < |whens| && whens[i].0 == id then CaseValue(whens, id, rows[id]) else rows[id]
  }

  /** `whens` lists a dictionary: every entry once, in any order. */
  ghost predicate Lists(whens: seq<(KeyId, Time)>, timestamps: map<KeyId, Time>) {
    && (forall i :: 0 <= i < |whens| ==> whens[i].0 in timestamps && timestamps[whens[i].0] == whens[i].1)
    && (forall k :: k in timestamps ==> (k, timestamps[k]) in whens)
  }

  /** The pointwise maximum. */
  function MaxRows(rows: Rows, timestamps: map<KeyId, Time>): Rows {
    map id | id in rows :: if id in timestamps then Some(Greatest(rows[id], timestamps[id])) else rows[id]
  }

  lemma {:induction false} FirstMatchDecides(whens: seq<(KeyId, Time)>, id: KeyId, stored: Option<Time>, value: Time)
    requires (id, value) in whens
    requires forall i :: 0 <= i < |whens| && whens[i].0 == id ==> whens[i].1 == value
    ensures CaseValue(whens, id, stored) == Some(Greatest(stored, value))
  {
    if whens[0].0 != id {
      assert (id, value) in whens[1..];
      FirstMatchDecides(whens[1..], id, stored, value);
    }
  }

  /** The batched statement is a pointwise maximum, whatever the order of its branches. */
  lemma BatchIsPointwiseMax(rows: Rows, whens: seq<(KeyId, Time)>, timestamps: map<KeyId, Time>)
    requires Lists(whens, timestamps)
    ensures UpdateLastUsedBatch(rows, whens) == MaxRows(rows, timestamps)
  {
    forall id | id in rows ensures UpdateLastUsedBatch(rows, whens)[id] == MaxRows(rows, timestamps)[id] {
      if id in timestamps {
        assert (id, timestamps[id]) in whens;
        FirstMatchDecides(whens, id, rows[id], timestamps[id]);
      }
    }
  }

  // ---------------------------------------------------------------- one flush on its own

  /** Redis and the table, and a flush that nothing runs beside. */
  class Flusher {
    var redis: map<KeyId, Time>
    var rows: Rows

    constructor (rows: Rows)
      ensures this.rows == rows && redis == map[]
    {
      this.rows, redis := rows, map[];
    }

    method RecordLastUsed(key: KeyId, now: Time)
      modifies this`redis
      ensures redis == old(redis)[key := now]
    {
      redis := redis[key := now];
    }

    /** `scanned` is what the scan yields, repeats and vanished keys included. */
    method DrainLastUsed(scanned: seq<KeyId>) returns (drained: map<KeyId, Time>)
      ensures |drained| <= 500
      ensures forall k :: k in drained ==> k in redis && k in scanned && drained[k] == redis[k]
      ensures |drained| < 500 ==> forall k :: k in scanned && k in redis ==> k in drained
    {
      drained := map[];
      var i := 0;
      while i < |scanned| && |drained| < BATCH_SIZE
        invariant i <= |scanned| && |drained| <= BATCH_SIZE
        invariant forall k :: k in drained ==> k in redis && k in scanned && drained[k] == redis[k]
        invariant forall j :: 0 <= j < i && scanned[j] in redis ==> scanned[j] in drained
      {
        var key := scanned[i];
        if key in redis {
          OneMoreKey(drained, key, redis[key]);
          drained := drained[key := redis[key]];
        }
        i := i + 1;
      }
    }

    /** Every drained entry moves to its row, no other row changes, and fewer than a full batch means
        that nothing scanned stays behind. */
    method Flush(scanned: seq<KeyId>) returns (drained: map<KeyId, Time>)
      modifies this
      ensures rows == MaxRows(old(rows), drained)
      ensures redis == old(redis) - drained.Keys
      ensures |drained| <= 500
      ensures forall k :: k in drained ==> k in old(redis) && drained[k] == old(redis)[k]
      ensures |drained| < 500 ==> forall k :: k in redis ==> k !in scanned
    {
      drained := DrainLastUsed(scanned);
      var whens := Listing(drained);
      BatchIsPointwiseMax(rows, whens, drained);
      rows := UpdateLastUsedBatch(rows, whens);
      redis := redis - drained.Keys;
    }
  }

  lemma OneMoreKey(m: map<KeyId, Time>, k: KeyId, t: Time)
    ensures |m[k := t]| <= |m| + 1
  {
    assert m[k := t].Keys == m.Keys + {k};
  }

  /** The branches of the statement, in whatever order the dictionary has. */
  method Listing(timestamps: map<KeyId, Time>) returns (whens: seq<(KeyId, Time)>)
    ensures Lists(whens, timestamps)
  {
    whens := [];
    var todo := timestamps.Keys;
    while todo != {}
      invariant todo <= timestamps.Keys
      invariant forall i :: 0 <= i < |whens| ==> whens[i].0 in timestamps && timestamps[whens[i].0] == whens[i].1
      invariant forall k :: k in timestamps && k !in todo ==> (k, timestamps[k]) in whens
      decreases |todo|
    {
      var k :| k in todo;
      whens := whens + [(k, timestamps[k])];
      todo := todo - {k};
    }
  }

  // ---------------------------------------------------------------- interleaved flushes

  datatype Phase = Draining | Updated | Cleared

  /** `pending` are the row versions the flush has written but not committed. */
  datatype Flush = Flush(drained: map<KeyId, Time>, pending: map<KeyId, Time>, phase: Phase)

  type FlushId = nat

  /** `last` is each key's latest use; `uses` all uses so far; `lost` the keys whose latest use was
      dropped from Redis without any flush carrying it. */
  datatype State = State(
    rows: Rows, redis: map<KeyId, Time>, flushes: map<FlushId, Flush>,
    last: map<KeyId, Time>, uses: set<(KeyId, Time)>, lost: set<KeyId>)

  datatype Action =
    | Use(key: KeyId, now: Time)
    | Expire(key: KeyId)
    | Begin(f: FlushId)
    | Drain(f: FlushId, key: KeyId)
    | Update(f: FlushId)
    | Clear(f: FlushId)
    | Commit(f: FlushId)
    | Abort(f: FlushId)

  /** Row locks: the rows a flush has updated are its own until it ends. */
  predicate CanLock(s: State, f: FlushId) {
    forall g :: g in s.flushes && g != f ==>
      s.flushes[g].pending.Keys !! (if f in s.flushes then s.flushes[f].drained.Keys else {})
  }

  function PendingFor(rows: Rows, drained: map<KeyId, Time>): map<KeyId, Time> {
    map k | k in drained && k in rows :: Greatest(rows[k], drained[k])
  }

  function Committed(rows: Rows, pending: map<KeyId, Time>): Rows {
    map k | k in rows :: if k in pending then Some(pending[k]) else rows[k]
  }

  /** Entries that were overwritten by a later use after the flush read them. */
  function Overwritten(redis: map<KeyId, Time>, drained: map<KeyId, Time>): set<KeyId> {
    set k | k in drained && k in redis && drained[k] < redis[k]
  }

  function Without<K, V>(m: map<K, V>, k: K): map<K, V> {
    m - {k}
  }

  function StepUse(s: State, k: KeyId, t: Time): State {
    s.(redis := s.redis[k := t], last := s.last[k := t], uses := s.uses + {(k, t)}, lost := s.lost - {k})
  }

  function StepClear(s: State, f: FlushId): State
    requires f in s.flushes
  {
    var fl := s.flushes[f];
    s.(redis := s.redis - fl.drained.Keys,
       flushes := s.flushes[f := fl.(phase := Cleared)],
       lost := s.lost + Overwritten(s.redis, fl.drained))
  }

  function Step(s: State, a: Action): Option<State> {
    match a
    case Use(k, t) => Some(StepUse(s, k, t))
    case Expire(k) =>
      if k in s.redis then Some(s.(redis := Without(s.redis, k), lost := s.lost + {k})) else None
    case Begin(f) =>
      if f in s.flushes then None else Some(s.(flushes := s.flushes[f := Flush(map[], map[], Draining)]))
    case Drain(f, k) =>
      if f in s.flushes && s.flushes[f].phase == Draining && k in s.redis && |s.flushes[f].drained| < BATCH_SIZE
      then Some(s.(flushes := s.flushes[f := s.flushes[f].(drained := s.flushes[f].drained[k := s.redis[k]])]))
      else None
    case Update(f) =>
      if f in s.flushes && s.flushes[f].phase == Draining && CanLock(s, f)
      then
        var pending := PendingFor(s.rows, s.flushes[f].drained);
        Some(s.(flushes := s.flushes[f := s.flushes[f].(pending := pending, phase := Updated)]))
      else None
    case Clear(f) =>
      if f in s.flushes && s.flushes[f].phase == Updated then Some(StepClear(s, f)) else None
    case Commit(f) =>
      if f in s.flushes && s.flushes[f].phase == Cleared
      then Some(s.(rows := Committed(s.rows, s.flushes[f].pending), flushes := Without(s.flushes, f)))
      else None
    case Abort(f) =>
      if f in s.flushes
      then Some(s.(flushes := Without(s.flushes, f),
                   lost := s.lost + if s.flushes[f].phase == Cleared then s.flushes[f].drained.Keys else {}))
      else None
  }

  function Start(rows: Rows): State {
    State(rows, map[], map[], map[], {}, {})
  }

  /** A flush that is draining reads the current value of any key in Redis as long as it has fewer than
      500, and no more after that. */
  lemma DrainsUpToBatch(s: State, f: FlushId, k: KeyId)
    requires f in s.flushes && s.flushes[f].phase == Draining && k in s.redis
    ensures Step(s, Drain(f, k)).Some? <==> |s.flushes[f].drained| < 500
    ensures Step(s, Drain(f, k)).Some? ==>
              var s' := Step(s, Drain(f, k)).value;
              && s'.flushes[f].drained == s.flushes[f].drained[k := s.redis[k]]
              && s'.rows == s.rows && s'.redis == s.redis
  {
  }

  // ---------------------------------------------------------------- rows never go back

  /** What a flush holds, against the current rows. */
  predicate FlushOk(s: State, fl: Flush) {
    && (forall k :: k in fl.drained ==> (k, fl.drained[k]) in s.uses)
    && (fl.phase == Draining ==> fl.pending == map[])
    && (fl.phase != Draining ==> fl.pending == PendingFor(s.rows, fl.drained))
  }

  ghost predicate Inv(s: State) {
    && (forall k :: k in s.redis ==> (k, s.redis[k]) in s.uses)
    && (forall f :: f in s.flushes ==> FlushOk(s, s.flushes[f]))
    && (forall f, g :: f in s.flushes && g in s.flushes && f != g ==>
          s.flushes[f].pending.Keys !! s.flushes[g].pending.Keys)
  }

  /** Committing one flush leaves the rows of every other flush as that one read them. */
  lemma CommitLeavesOthers(rows: Rows, pending: map<KeyId, Time>, drained: map<KeyId, Time>)
    requires pending.Keys !! PendingFor(rows, drained).Keys
    ensures PendingFor(Committed(rows, pending), drained) == PendingFor(rows, drained)
  {
  }

  lemma CommitKeepsInv(s: State, f: FlushId)
    requires Inv(s) && Step(s, Commit(f)).Some?
    ensures Inv(Step(s, Commit(f)).value)
  {
    var s' := Step(s, Commit(f)).value;
    forall g | g in s'.flushes ensures FlushOk(s', s'.flushes[g]) {
      assert FlushOk(s, s.flushes[g]);
      if s.flushes[g].phase != Draining {
        CommitLeavesOthers(s.rows, s.flushes[f].pending, s.flushes[g].drained);
      }
    }
  }

  lemma OthersKeepFlushOk(s: State, a: Action)
    requires Inv(s) && Step(s, a).Some? && !a.Commit?
    ensures forall g :: g in Step(s, a).value.flushes ==> FlushOk(Step(s, a).value, Step(s, a).value.flushes[g])
  {
    var s' := Step(s, a).value;
    forall g | g in s'.flushes ensures FlushOk(s', s'.flushes[g]) {
      if g in s.flushes {
        assert FlushOk(s, s.flushes[g]);
      }
    }
  }

  lemma StepKeepsInv(s: State, a: Action)
    requires Inv(s) && Step(s, a).Some?
    ensures Inv(Step(s, a).value)
  {
    if a.Commit? {
      CommitKeepsInv(s, a.f);
    } else {
      OthersKeepFlushOk(s, a);
    }
  }

  predicate NotBelow(after: Option<Time>, before: Option<Time>) {
    before.Some? ==> AtLeast(after, before.value)
  }

  ghost predicate Above(base: Rows, s: State) {
    s.rows.Keys == base.Keys && forall k :: k in base ==> NotBelow(s.rows[k], base[k])
  }

  lemma StepKeepsAbove(base: Rows, s: State, a: Action)
    requires Inv(s) && Above(base, s) && Step(s, a).Some?
    ensures Above(base, Step(s, a).value)
  {
    if a.Commit? {
      assert FlushOk(s, s.flushes[a.f]);
    }
  }

  /** Whatever interleaves, no row's `last_used_at` ever decreases. */
  lemma RowsNeverGoBack(s: State, actions: seq<Action>)
    requires Inv(s) && Runs.Run(Step, s, actions).Some?
    ensures Above(s.rows, Runs.Run(Step, s, actions).value)
  {
    var inv := (t: State) => Inv(t) && Above(s.rows, t);
    forall t: State, a: Action | inv(t) && Step(t, a).Some? ensures inv(Step(t, a).value) {
      StepKeepsInv(t, a);
      StepKeepsAbove(s.rows, t, a);
    }
    Runs.RunPreserves(Step, inv, s, actions);
  }

  ghost predicate Witnessed(initial: Rows, s: State) {
    && s.rows.Keys == initial.Keys
    && (forall k :: k in s.rows ==>
          s.rows[k] == initial[k] || (s.rows[k].Some? && (k, s.rows[k].value) in s.uses))
  }

  lemma StepKeepsWitnessed(initial: Rows, s: State, a: Action)
    requires Inv(s) && Witnessed(initial, s) && Step(s, a).Some?
    ensures Witnessed(initial, Step(s, a).value)
  {
    if a.Commit? {
      assert FlushOk(s, s.flushes[a.f]);
    }
  }

  /** Every stored value is the initial one or the time of a use. */
  lemma StoredIsAUse(rows: Rows, actions: seq<Action>)
    requires Runs.Run(Step, Start(rows), actions).Some?
    ensures Witnessed(rows, Runs.Run(Step, Start(rows), actions).value)
  {
    var inv := (t: State) => Inv(t) && Witnessed(rows, t);
    forall t: State, a: Action | inv(t) && Step(t, a).Some? ensures inv(Step(t, a).value) {
      StepKeepsInv(t, a);
      StepKeepsWitnessed(rows, t, a);
    }
    Runs.RunPreserves(Step, inv, Start(rows), actions);
  }

  // ---------------------------------------------------------------- uses reach the table

  /** A flush that commits leaves every row it drained at the drained time or later. */
  lemma CommitDelivers(s: State, f: FlushId, k: KeyId)
    requires Inv(s) && Step(s, Commit(f)).Some? && k in s.flushes[f].drained && k in s.rows
    ensures AtLeast(Step(s, Commit(f)).value.rows[k], s.flushes[f].drained[k])
  {
    assert FlushOk(s, s.flushes[f]);
  }

  predicate CarriedBy(fl: Flush, k: KeyId, t: Time) {
    fl.phase == Cleared && k in fl.pending && fl.pending[k] >= t
  }

  /** The latest use of a key is in Redis, in the table, or in a flush that has deleted its entry but
      not yet committed. */
  ghost predicate Carried(s: State, k: KeyId)
    requires k in s.last && k in s.rows
  {
    || k in s.redis
    || AtLeast(s.rows[k], s.last[k])
    || (exists f :: f in s.flushes && CarriedBy(s.flushes[f], k, s.last[k]))
  }

  ghost predicate NothingDropped(s: State) {
    && (forall k :: k in s.redis ==> k in s.last && s.redis[k] == s.last[k])
    && (forall k :: k in s.last && k in s.rows && k !in s.lost ==> Carried(s, k))
  }

  lemma ClearCarries(s: State, f: FlushId, k: KeyId)
    requires Inv(s) && NothingDropped(s) && Step(s, Clear(f)).Some?
    requires k in s.last && k in s.rows && k !in Step(s, Clear(f)).value.lost
    ensures Carried(Step(s, Clear(f)).value, k)
  {
    var s' := Step(s, Clear(f)).value;
    assert FlushOk(s, s.flushes[f]);
    if k in s.redis {
      if k in s.flushes[f].drained {
        assert CarriedBy(s'.flushes[f], k, s.last[k]);
      }
    } else if !AtLeast(s.rows[k], s.last[k]) {
      var g :| g in s.flushes && CarriedBy(s.flushes[g], k, s.last[k]);
      assert CarriedBy(s'.flushes[g], k, s.last[k]);
    }
  }

  lemma EndCarries(s: State, a: Action, k: KeyId)
    requires Inv(s) && NothingDropped(s) && Step(s, a).Some? && (a.Commit? || a.Abort?)
    requires k in s.last && k in s.rows && k !in Step(s, a).value.lost
    ensures Carried(Step(s, a).value, k)
  {
    var s' := Step(s, a).value;
    assert FlushOk(s, s.flushes[a.f]);
    if k !in s.redis && !AtLeast(s.rows[k], s.last[k]) {
      var g :| g in s.flushes && CarriedBy(s.flushes[g], k, s.last[k]);
      assert FlushOk(s, s.flushes[g]);
      if g != a.f {
        assert CarriedBy(s'.flushes[g], k, s.last[k]);
      }
    }
  }

  lemma OtherCarries(s: State, a: Action, k: KeyId)
    requires Inv(s) && NothingDropped(s) && Step(s, a).Some? && !a.Clear? && !a.Commit? && !a.Abort?
    requires k in Step(s, a).value.last && k in s.rows && k !in Step(s, a).value.lost
    ensures Carried(Step(s, a).value, k)
  {
    var s' := Step(s, a).value;
    if k !in s'.redis && !AtLeast(s.rows[k], s.last[k]) {
      var g :| g in s.flushes && CarriedBy(s.flushes[g], k, s.last[k]);
      assert CarriedBy(s'.flushes[g], k, s'.last[k]);
    }
  }

  lemma StepKeepsNothingDropped(s: State, a: Action)
    requires Inv(s) && NothingDropped(s) && Step(s, a).Some?
    ensures NothingDropped(Step(s, a).value)
  {
    var s' := Step(s, a).value;
    forall k | k in s'.last && k in s'.rows && k !in s'.lost ensures Carried(s', k) {
      if a.Clear? {
        ClearCarries(s, a.f, k);
      } else if a.Commit? || a.Abort? {
        EndCarries(s, a, k);
      } else {
        OtherCarries(s, a, k);
      }
    }
  }

  /** At the end of a run with nothing left in Redis or in flight, every key's latest use is in the
      table, unless its entry expired, was overwritten between a flush's read and its delete, or
      was deleted by a flush that then failed to commit. */
  lemma QuietMeansDelivered(rows: Rows, actions: seq<Action>, k: KeyId)
    requires Runs.Run(Step, Start(rows), actions).Some?
    ensures var s := Runs.Run(Step, Start(rows), actions).value;
            s.redis == map[] && s.flushes == map[] && k in s.last && k in s.rows && k !in s.lost ==>
              AtLeast(s.rows[k], s.last[k])
  {
    var inv := (t: State) => Inv(t) && NothingDropped(t);
    forall t: State, a: Action | inv(t) && Step(t, a).Some? ensures inv(Step(t, a).value) {
      StepKeepsInv(t, a);
      StepKeepsNothingDropped(t, a);
    }
    Runs.RunPreserves(Step, inv, Start(rows), actions);
  }

  // ---------------------------------------------------------------- exactly what reaches the table

  /** The `i`th action committed a flush that had read time `t` or a later one for key `k`. */
  ghost predicate Delivers(rows: Rows, actions: seq<Action>, i: int, k: KeyId, t: Time) {
    && 0 <= i < |actions| && actions[i].Commit?
    && Runs.Run(Step, Start(rows), actions[..i]).Some?
    && CarriesTime(Runs.Run(Step, Start(rows), actions[..i]).value, actions[i].f, k, t)
  }

  predicate CarriesTime(s: State, f: FlushId, k: KeyId, t: Time) {
    f in s.flushes && k in s.flushes[f].drained && s.flushes[f].drained[k] >= t
  }

  lemma DeliveriesSplit(rows: Rows, before: seq<Action>, actions: seq<Action>, k: KeyId, t: Time)
    requires actions != [] && before == actions[..|actions| - 1]
    ensures (exists i :: Delivers(rows, actions, i, k, t)) <==>
            || (exists i :: Delivers(rows, before, i, k, t))
            || Delivers(rows, actions, |actions| - 1, k, t)
  {
    forall i | 0 <= i < |before| ensures Delivers(rows, before, i, k, t) <==> Delivers(rows, actions, i, k, t) {
      assert before[..i] == actions[..i];
    }
  }

  lemma StepDelivers(s: State, a: Action, k: KeyId, t: Time)
    requires Inv(s) && Step(s, a).Some? && k in s.rows
    ensures k in Step(s, a).value.rows
    ensures AtLeast(Step(s, a).value.rows[k], t) <==>
            AtLeast(s.rows[k], t) || (a.Commit? && CarriesTime(s, a.f, k, t))
  {
    if a.Commit? {
      assert FlushOk(s, s.flushes[a.f]);
    }
  }

  lemma ReachableInv(rows: Rows, actions: seq<Action>)
    requires Runs.Run(Step, Start(rows), actions).Some?
    ensures Inv(Runs.Run(Step, Start(rows), actions).value)
  {
    forall t: State, a: Action | Inv(t) && Step(t, a).Some? ensures Inv(Step(t, a).value) {
      StepKeepsInv(t, a);
    }
    Runs.RunPreserves(Step, Inv, Start(rows), actions);
  }

  /** Over every run, a key's row has reached time `t` if and only if it started there or some flush
      that committed had read a time at least as late for it. */
  lemma {:induction false} StoredIff(rows: Rows, actions: seq<Action>, k: KeyId, t: Time)
    requires Runs.Run(Step, Start(rows), actions).Some? && k in rows
    ensures k in Runs.Run(Step, Start(rows), actions).value.rows
    ensures AtLeast(Runs.Run(Step, Start(rows), actions).value.rows[k], t) <==>
            AtLeast(rows[k], t) || exists i :: Delivers(rows, actions, i, k, t)
    decreases |actions|
  {
    if actions != [] {
      var n := |actions| - 1;
      var before := actions[..n];
      StoredIff(rows, before, k, t);
      ReachableInv(rows, before);
      DeliveriesSplit(rows, before, actions, k, t);
      StepDelivers(Runs.Run(Step, Start(rows), before).value, actions[n], k, t);
    }
  }

  /** The promise that every recorded use reaches the table holds for a key's latest use exactly when
      a flush that read it (or a later time) commits, or the row already stood there. */
  lemma LatestUseDeliveredIff(rows: Rows, actions: seq<Action>, k: KeyId)
    requires Runs.Run(Step, Start(rows), actions).Some? && k in rows
    requires k in Runs.Run(Step, Start(rows), actions).value.last
    ensures var s := Runs.Run(Step, Start(rows), actions).value;
            && k in s.rows
            && (AtLeast(s.rows[k], s.last[k]) <==>
                  AtLeast(rows[k], s.last[k]) || exists i :: Delivers(rows, actions, i, k, s.last[k]))
  {
    StoredIff(rows, actions, k, Runs.Run(Step, Start(rows), actions).value.last[k]);
  }

  // ---------------------------------------------------------------- a clock that does not go back

  ghost predicate Clocked(actions: seq<Action>) {
    forall i, j :: 0 <= i < j < |actions| && actions[i].Use? && actions[j].Use? ==> actions[i].now <= actions[j].now
  }

  /** Every use recorded so far was some action, and none is later than its key's latest one. */
  ghost predicate UsesOrdered(s: State, actions: seq<Action>) {
    && (forall k, t :: (k, t) in s.uses ==> exists i :: 0 <= i < |actions| && actions[i] == Use(k, t))
    && (forall k, t :: (k, t) in s.uses ==> k in s.last && t <= s.last[k])
  }

  lemma StepKeepsUsesOrdered(s: State, before: seq<Action>, a: Action)
    requires UsesOrdered(s, before) && Clocked(before + [a]) && Step(s, a).Some?
    ensures UsesOrdered(Step(s, a).value, before + [a])
  {
    var s', actions := Step(s, a).value, before + [a];
    forall k, t | (k, t) in s'.uses
      ensures exists i :: 0 <= i < |actions| && actions[i] == Use(k, t)
      ensures k in s'.last && t <= s'.last[k]
    {
      if (k, t) in s.uses {
        var i :| 0 <= i < |before| && before[i] == Use(k, t);
        assert actions[i] == Use(k, t) && actions[|before|] == a;
      } else {
        assert actions[|before|] == Use(k, t);
      }
    }
  }

  lemma {:induction false} RunKeepsUsesOrdered(rows: Rows, actions: seq<Action>)
    requires Clocked(actions) && Runs.Run(Step, Start(rows), actions).Some?
    ensures UsesOrdered(Runs.Run(Step, Start(rows), actions).value, actions)
    decreases |actions|
  {
    if actions != [] {
      var n := |actions| - 1;
      RunKeepsUsesOrdered(rows, actions[..n]);
      assert actions[..n] + [actions[n]] == actions;
      StepKeepsUsesOrdered(Runs.Run(Step, Start(rows), actions[..n]).value, actions[..n], actions[n]);
    }
  }

  /** With a clock that does not go back, a stored time that any flush has changed is never later than
      the key's latest use. */
  lemma NeverLaterThanLatestUse(rows: Rows, actions: seq<Action>, k: KeyId)
    requires Clocked(actions) && Runs.Run(Step, Start(rows), actions).Some? && k in rows
    ensures var s := Runs.Run(Step, Start(rows), actions).value;
            && k in s.rows
            && (s.rows[k] == rows[k] || (s.rows[k].Some? && k in s.last && s.rows[k].value <= s.last[k]))
  {
    StoredIsAUse(rows, actions);
    RunKeepsUsesOrdered(rows, actions);
  }

  // ---------------------------------------------------------------- a use that is lost

  /** A use between a flush's read and its delete is lost for good, whatever else is going on: the
      flush deletes it from Redis, and the row it then commits holds an earlier time. */
  lemma OverwrittenUseIsLost(s: State, f: FlushId, k: KeyId)
    requires Inv(s) && NothingDropped(s) && f in s.flushes && s.flushes[f].phase == Updated
    requires k in s.rows && k in s.flushes[f].drained && k in s.redis && s.flushes[f].drained[k] < s.redis[k]
    requires !AtLeast(s.rows[k], s.last[k])
    ensures Step(s, Clear(f)).Some? && Step(Step(s, Clear(f)).value, Commit(f)).Some?
    ensures var after := Step(Step(s, Clear(f)).value, Commit(f)).value;
            k !in after.redis && after.last == s.last && !AtLeast(after.rows[k], s.last[k])
  {
    assert FlushOk(s, s.flushes[f]);
  }

  const ONE_KEY: Rows := map[0 := None]

  predicate OneFlush(s: State, redis: Time, flush: Flush) {
    s.rows == ONE_KEY && s.redis == map[0 := redis] && s.last == map[0 := redis] && s.flushes == map[0 := flush]
  }

  lemma UsedOnce() returns (actions: seq<Action>, s: State)
    ensures Runs.Run(Step, Start(ONE_KEY), actions) == Some(s)
    ensures OneFlush(s, 1, Flush(map[], map[], Draining))
  {
    actions, s := [], Start(ONE_KEY);
    actions, s := Runs.Extend(Step, Start(ONE_KEY), actions, s, Use(0, 1));
    actions, s := Runs.Extend(Step, Start(ONE_KEY), actions, s, Begin(0));
  }

  lemma ReadOnce() returns (actions: seq<Action>, s: State)
    ensures Runs.Run(Step, Start(ONE_KEY), actions) == Some(s)
    ensures OneFlush(s, 1, Flush(map[0 := 1], map[], Draining))
  {
    actions, s := UsedOnce();
    actions, s := Runs.Extend(Step, Start(ONE_KEY), actions, s, Drain(0, 0));
  }

  lemma UsedTwice() returns (actions: seq<Action>, s: State)
    ensures Runs.Run(Step, Start(ONE_KEY), actions) == Some(s)
    ensures OneFlush(s, 2, Flush(map[0 := 1], map[], Draining))
  {
    actions, s := ReadOnce();
    actions, s := Runs.Extend(Step, Start(ONE_KEY), actions, s, Use(0, 2));
  }

  /** The state in which that happens is reached by two uses and one flush. */
  lemma OverwriteIsReachable() returns (actions: seq<Action>, s: State)
    ensures Runs.Run(Step, Start(ONE_KEY), actions) == Some(s)
    ensures s.rows == ONE_KEY && s.redis == map[0 := 2] && 0 in s.flushes
    ensures s.flushes[0].phase == Updated && s.flushes[0].drained == map[0 := 1]
  {
    actions, s := UsedTwice();
    actions, s := Runs.Extend(Step, Start(ONE_KEY), actions, s, Update(0));
  }
}
