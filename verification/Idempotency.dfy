/** The idempotency middleware: a response cache and a single-flight lock in Redis.

    The state machine follows all requests of one (principal, key) pair; GET, SET NX, the handler,
    DEL and SETEX are separate steps, so requests interleave anywhere.  Times are seconds. */
module Idempotency {
  import opened Options
  import Runs

  const LOCK_SECONDS: real := 60.0
  const CACHE_SECONDS: real := 86400.0

  // ---------------------------------------------------------------- the two Redis keys

  function CacheKey(principal: string, key: string): string {
    "idempotency:" + principal + ":" + key
  }

  function LockKey(principal: string, key: string): string {
    CacheKey(principal, key) + ":lock"
  }

  predicate EndsWith(s: string, suffix: string) {
    |s| >= |suffix| && s[|s| - |suffix|..] == suffix
  }

  lemma SuffixAfterColon(prefix: string, key: string)
    ensures EndsWith(prefix + ":" + key, ":lock") <==> key == "lock" || EndsWith(key, ":lock")
  {
    var s := prefix + ":" + key;
    var n := |s|;
    assert s[n - |key| - 1] == ':' && s[n - |key|..] == key;
    if |key| >= 5 {
      assert s[n - 5..] == key[|key| - 5..];
    } else if |key| == 4 {
      assert s[n - 5..] == ":" + key;
      assert (":" + key)[1..] == key && ":lock"[1..] == "lock";
    } else if n >= 5 {
      assert s[n - 5..][4 - |key|] == ':' && ":lock"[4 - |key|] != ':';
    }
  }

  /** A cache key can be some request's lock key only when the client's key is "lock" or ends in
      ":lock"; for all other keys the two never meet. */
  lemma CacheKeyLooksLikeLock(principal: string, key: string)
    ensures EndsWith(CacheKey(principal, key), ":lock") <==> key == "lock" || EndsWith(key, ":lock")
    ensures !(key == "lock" || EndsWith(key, ":lock")) ==>
              forall p, k :: CacheKey(principal, key) != LockKey(p, k)
  {
    SuffixAfterColon("idempotency:" + principal, key);
    forall p, k ensures EndsWith(LockKey(p, k), ":lock") {
    }
  }

  /** Two different principals can meet in the cache, for some keys of their clients, exactly when one
      principal continues the other past a colon. */
  lemma PrincipalsMeetIff(p: string, q: string)
    requires p != q
    ensures (exists k, l :: k != "" && l != "" && CacheKey(p, k) == CacheKey(q, l)) <==>
            p + ":" <= q || q + ":" <= p
  {
    var head := "idempotency:";
    forall k, l | CacheKey(p, k) == CacheKey(q, l) ensures p + ":" <= q || q + ":" <= p {
      assert CacheKey(p, k)[|head|..] == p + ":" + k;
      assert CacheKey(q, l)[|head|..] == q + ":" + l;
      PrefixesOfOne(p, k, q, l);
    }
    if p + ":" <= q {
      assert CacheKey(p, q[|p| + 1..] + ":" + "k") == CacheKey(q, "k");
    } else if q + ":" <= p {
      assert CacheKey(p, "k") == CacheKey(q, p[|q| + 1..] + ":" + "k");
    }
  }

  lemma PrefixesOfOne(p: string, k: string, q: string, l: string)
    requires p + ":" + k == q + ":" + l && p != q
    ensures p + ":" <= q || q + ":" <= p
  {
    var s := p + ":" + k;
    assert s[..|p|] == p && s[..|p| + 1] == p + ":";
    assert s == q + ":" + l && s[..|q|] == q && s[..|q| + 1] == q + ":";
  }

  /** Principals of signed-in users and of API keys, whose names have no colon, never share a cache key:
      equal cache keys mean the same kind of principal, the same name and the same client key. */
  lemma CredentialsAreApart(kind: string, name: string, key: string, kind': string, name': string, key': string)
    requires kind in {"user", "key", "ip"} && kind' in {"user", "key", "ip"}
    requires ':' !in name && ':' !in name' && key != "" && key' != ""
    ensures CacheKey(kind + ":" + name, key) == CacheKey(kind' + ":" + name', key') <==>
            kind == kind' && name == name' && key == key'
  {
    var p, q := kind + ":" + name, kind' + ":" + name';
    OneColon(kind, name, kind', name');
    OneColon(kind', name', kind, name);
    if CacheKey(p, key) == CacheKey(q, key') {
      if p != q {
        PrincipalsMeetIff(p, q);
      }
      assert CacheKey(p, key)[12 + |p| + 1..] == key && CacheKey(q, key')[12 + |q| + 1..] == key';
    }
  }

  lemma PrefixAgrees(s: string, t: string)
    ensures s <= t ==> forall i :: 0 <= i < |s| ==> s[i] == t[i]
  {
  }

  lemma OneColon(kind: string, name: string, kind': string, name': string)
    requires ':' !in kind && ':' !in kind' && ':' !in name && ':' !in name'
    ensures !(kind + ":" + name + ":" <= kind' + ":" + name')
    ensures kind + ":" + name == kind' + ":" + name' ==> kind == kind' && name == name'
  {
    var p, q := kind + ":" + name, kind' + ":" + name';
    assert p[|kind|] == ':' && q[|kind'|] == ':' && (p + ":")[|p|] == ':' && (p + ":")[|kind|] == ':';
    PrefixAgrees(p + ":", q);
    assert forall i :: 0 <= i < |q| && q[i] == ':' ==> i == |kind'|;
    assert p[..|kind|] == kind && q[..|kind'|] == kind' && p[|kind| + 1..] == name && q[|kind'| + 1..] == name';
  }

  // ---------------------------------------------------------------- one request, uninterrupted

  datatype Response = Response(status: int, content: string)

  predicate Cacheable(status: int) {
    200 <= status < 300 || status == 404 || status == 409 || status == 422
  }

  datatype Entry = Entry(response: Response, expiresAt: real)

  datatype Outcome = Replayed(response: Response) | InFlight | Executed(response: Response)

  datatype Cells = Cells(cache: Option<Entry>, lock: Option<real>)

  predicate CacheHit(c: Cells, now: real) {
    c.cache.Some? && now < c.cache.value.expiresAt
  }

  predicate LockTaken(c: Cells, now: real) {
    c.lock.Some? && now < c.lock.value
  }

  /** One request served without interruption; its handler, if it runs, answers `response` at `done`. */
  function Served(c: Cells, now: real, done: real, response: Response): (Cells, Outcome) {
    if CacheHit(c, now) then (c, Replayed(c.cache.value.response))
    else if LockTaken(c, now) then (c, InFlight)
    else (Cells(if Cacheable(response.status) then Some(Entry(response, done + CACHE_SECONDS)) else c.cache, None),
          Executed(response))
  }

  class Middleware {
    var cache: Option<Entry>
    var lock: Option<real>

    constructor ()
      ensures cache == None && lock == None
    {
      cache, lock := None, None;
    }

    method Dispatch(now: real, done: real, response: Response) returns (outcome: Outcome)
      modifies this
      ensures (Cells(cache, lock), outcome) == Served(old(Cells(cache, lock)), now, done, response)
      ensures outcome.Replayed? <==> old(cache).Some? && now < old(cache).value.expiresAt
      ensures outcome.InFlight? <==> !outcome.Replayed? && old(lock).Some? && now < old(lock).value
      ensures outcome.Replayed? ==> outcome.response == old(cache).value.response
      ensures !outcome.Executed? ==> cache == old(cache) && lock == old(lock)
      ensures outcome.Executed? ==> outcome.response == response && lock == None
      ensures outcome.Executed? && (200 <= response.status <= 299 || response.status in {404, 409, 422}) ==>
                cache == Some(Entry(response, done + 86400.0))
      ensures outcome.Executed? && !(200 <= response.status <= 299 || response.status in {404, 409, 422}) ==>
                cache == old(cache)
    {
      if cache.Some? && now < cache.value.expiresAt {
        return Replayed(cache.value.response);
      }
      if lock.Some? && now < lock.value {
        return InFlight;
      }
      lock := Some(now + LOCK_SECONDS);
      // the handler runs here and returns `response` at `done`
      lock := None;
      if Cacheable(response.status) {
        cache := Some(Entry(response, done + CACHE_SECONDS));
      }
      return Executed(response);
    }
  }

  /** After a 2xx, 404, 409 or 422 answer, retries within 24 h get that answer and change nothing; a
      later one runs the handler again. */
  lemma RetryIsReplayed(c: Cells, now: real, done: real, first: Response, retryAt: real, done': real, second: Response)
    requires Served(c, now, done, first).1.Executed?
    requires 200 <= first.status <= 299 || first.status in {404, 409, 422}
    ensures var c' := Served(c, now, done, first).0;
            if retryAt < done + 86400.0 then Served(c', retryAt, done', second) == (c', Replayed(first))
            else Served(c', retryAt, done', second).1 == Executed(second)
  {
  }

  /** After any other answer, every retry runs the handler again: nothing is stored or replayed. */
  lemma RetryIsExecuted(c: Cells, now: real, done: real, first: Response, retryAt: real, done': real, second: Response)
    requires Served(c, now, done, first).1.Executed? && now <= retryAt
    requires !(200 <= first.status <= 299 || first.status in {404, 409, 422})
    ensures var c' := Served(c, now, done, first).0;
            c'.cache == c.cache && Served(c', retryAt, done', second).1 == Executed(second)
  {
  }

  // ---------------------------------------------------------------- interleaved requests

  type RequestId = nat

  datatype Phase =
    | Missed
    | Handling(lockedAt: real)
    | Answered(lockedAt: real, response: Response)
    | Unlocked(response: Response)
    | Raised
    | HandlingAgain
    | Done(outcome: Outcome)

  /** A cache read that missed, and a SETEX of a cacheable response: kept to state the theorems. */
  datatype Read = Read(tick: nat, at: real)
  datatype Store = Store(request: RequestId, tick: nat, at: real, response: Response)

  datatype State = State(
    now: real, tick: nat, cells: Cells, requests: map<RequestId, Phase>,
    misses: map<RequestId, Read>, stores: seq<Store>)

  datatype Action =
    | Pass(duration: real)
    | Get(request: RequestId)
    | TryLock(request: RequestId)
    | Answer(request: RequestId, response: Response)
    | Raise(request: RequestId)
    | Release(request: RequestId)
    | Finish(request: RequestId)
    | AnswerAgain(request: RequestId, response: Response)

  function Start(now: real): State {
    State(now, 0, Cells(None, None), map[], map[], [])
  }

  function Move(s: State, r: RequestId, p: Phase): State {
    s.(requests := s.requests[r := p], tick := s.tick + 1)
  }

  function PhaseStep(s: State, r: RequestId, p: Phase, a: Action): Option<State> {
    match a
    case TryLock(_) =>
      if !p.Missed? then None
      else if LockTaken(s.cells, s.now) then Some(Move(s, r, Done(InFlight)))
      else Some(Move(s, r, Handling(s.now))
                .(cells := s.cells.(lock := Some(s.now + LOCK_SECONDS))))
    case Answer(_, response) =>
      if !p.Handling? then None else Some(Move(s, r, Answered(p.lockedAt, response)))
    case Raise(_) =>
      if !p.Handling? then None else Some(Move(s, r, Raised))
    case Release(_) =>
      // DEL in the finally clause; after an exception the handler is called once more, unlocked
      if p.Answered? then
        Some(Move(s, r, Unlocked(p.response)).(cells := s.cells.(lock := None)))
      else if p.Raised? then Some(Move(s, r, HandlingAgain).(cells := s.cells.(lock := None)))
      else None
    case Finish(_) =>
      if !p.Unlocked? then None
      else if Cacheable(p.response.status) then
        Some(Move(s, r, Done(Executed(p.response)))
             .(cells := s.cells.(cache := Some(Entry(p.response, s.now + CACHE_SECONDS))),
               stores := s.stores + [Store(r, s.tick, s.now, p.response)]))
      else Some(Move(s, r, Done(Executed(p.response))))
    case AnswerAgain(_, response) =>
      if !p.HandlingAgain? then None else Some(Move(s, r, Done(Executed(response))))
    case _ => None
  }

  function Step(s: State, a: Action): Option<State> {
    match a
    case Pass(d) => if d < 0.0 then None else Some(s.(now := s.now + d, tick := s.tick + 1))
    case Get(r) =>
      if r in s.requests then None
      else if CacheHit(s.cells, s.now) then Some(Move(s, r, Done(Replayed(s.cells.cache.value.response))))
      else Some(Move(s, r, Missed).(misses := s.misses[r := Read(s.tick, s.now)]))
    case _ => if a.request in s.requests then PhaseStep(s, a.request, s.requests[a.request], a) else None
  }

  lemma RunToLock(s: State, r: RequestId)
    returns (acts: seq<Action>, s': State)
    requires r !in s.requests && !CacheHit(s.cells, s.now) && !LockTaken(s.cells, s.now)
    ensures Runs.Run(Step, s, acts) == Some(s')
    ensures s'.now == s.now && s'.cells.cache == s.cells.cache
    ensures r in s'.requests && s'.requests[r].Handling?
  {
    acts, s' := Runs.Extend(Step, s, [], s, Get(r));
    acts, s' := Runs.Extend(Step, s, acts, s', TryLock(r));
  }

  lemma RunToAnswer(s: State, r: RequestId, wait: real, response: Response)
    returns (acts: seq<Action>, s': State)
    requires r !in s.requests && wait >= 0.0 && !CacheHit(s.cells, s.now) && !LockTaken(s.cells, s.now)
    ensures Runs.Run(Step, s, acts) == Some(s')
    ensures s'.now == s.now + wait && s'.cells.cache == s.cells.cache
    ensures r in s'.requests && s'.requests[r].Answered? && s'.requests[r].response == response
  {
    acts, s' := RunToLock(s, r);
    acts, s' := Runs.Extend(Step, s, acts, s', Pass(wait));
    acts, s' := Runs.Extend(Step, s, acts, s', Answer(r, response));
  }

  lemma RunToReplay(s: State, r: RequestId) returns (acts: seq<Action>, s': State)
    requires r !in s.requests && CacheHit(s.cells, s.now)
    ensures Runs.Run(Step, s, acts) == Some(s') && r in s'.requests
    ensures s'.cells == s.cells && s'.requests[r] == Done(Replayed(s.cells.cache.value.response))
  {
    acts, s' := Runs.Extend(Step, s, [], s, Get(r));
  }

  lemma RunToConflict(s: State, r: RequestId) returns (acts: seq<Action>, s': State)
    requires r !in s.requests && !CacheHit(s.cells, s.now) && LockTaken(s.cells, s.now)
    ensures Runs.Run(Step, s, acts) == Some(s') && r in s'.requests
    ensures s'.cells == s.cells && s'.requests[r] == Done(InFlight)
  {
    acts, s' := Runs.Extend(Step, s, [], s, Get(r));
    acts, s' := Runs.Extend(Step, s, acts, s', TryLock(r));
  }

  lemma RunToStore(s: State, r: RequestId, wait: real, response: Response)
    returns (acts: seq<Action>, s': State)
    requires r !in s.requests && wait >= 0.0 && !CacheHit(s.cells, s.now) && !LockTaken(s.cells, s.now)
    ensures Runs.Run(Step, s, acts) == Some(s') && r in s'.requests
    ensures s'.requests[r] == Done(Executed(response)) && s'.cells.lock == None
    ensures s'.cells.cache ==
            if Cacheable(response.status) then Some(Entry(response, s.now + wait + CACHE_SECONDS)) else s.cells.cache
  {
    acts, s' := RunToAnswer(s, r, wait, response);
    acts, s' := Runs.Extend(Step, s, acts, s', Release(r));
    acts, s' := Runs.Extend(Step, s, acts, s', Finish(r));
  }

  /** A request served without interruption is a run of these steps. */
  lemma ServedIsARun(s: State, r: RequestId, wait: real, response: Response)
    returns (acts: seq<Action>, s': State)
    requires r !in s.requests && wait >= 0.0
    ensures Runs.Run(Step, s, acts) == Some(s') && r in s'.requests
    ensures var (cells, outcome) := Served(s.cells, s.now, s.now + wait, response);
            s'.cells == cells && s'.requests[r] == Done(outcome)
  {
    if CacheHit(s.cells, s.now) {
      acts, s' := RunToReplay(s, r);
    } else if LockTaken(s.cells, s.now) {
      acts, s' := RunToConflict(s, r);
    } else {
      acts, s' := RunToStore(s, r, wait, response);
    }
  }

  predicate InHandler(p: Phase) {
    p.Handling? || p.HandlingAgain?
  }

  predicate HoldsLock(p: Phase) {
    p.Handling? || p.Answered?
  }

  /** Handlers do not raise, and each has answered and released within its 60 s lock. */
  ghost predicate Timely(s: State) {
    forall r :: r in s.requests && HoldsLock(s.requests[r]) ==> s.now < s.requests[r].lockedAt + 60.0
  }

  ghost function CalmStep(s: State, a: Action): Option<State> {
    if a.Raise? || Step(s, a).None? || !Timely(Step(s, a).value) then None else Step(s, a)
  }

  ghost predicate SingleFlight(s: State) {
    && (forall r :: r in s.requests && HoldsLock(s.requests[r]) ==>
          s.cells.lock == Some(s.requests[r].lockedAt + LOCK_SECONDS))
    && (forall r, q :: r in s.requests && q in s.requests && r != q ==>
          !HoldsLock(s.requests[r]) || !HoldsLock(s.requests[q]))
    && (forall r :: r in s.requests ==> !s.requests[r].HandlingAgain? && !s.requests[r].Raised?)
    && Timely(s)
  }

  lemma TryLockKeepsSingleFlight(s: State, r: RequestId, s': State)
    requires SingleFlight(s) && r in s.requests && s.requests[r].Missed?
    requires PhaseStep(s, r, Missed, TryLock(r)) == Some(s') && Timely(s')
    ensures SingleFlight(s')
  {
    if LockTaken(s.cells, s.now) {
      assert s'.cells == s.cells;
    }
  }

  lemma CalmKeepsSingleFlight(s: State, a: Action, s': State)
    requires SingleFlight(s) && CalmStep(s, a) == Some(s')
    ensures SingleFlight(s')
  {
    if a.TryLock? {
      TryLockKeepsSingleFlight(s, a.request, s');
    } else if !a.Release? {
      assert s'.cells.lock == s.cells.lock;
    }
  }

  /** When handlers do not raise and finish inside the lock's 60 s, no two handlers for one key are
      ever in flight together. */
  lemma AtMostOneInFlight(now: real, actions: seq<Action>, s: State, r: RequestId, q: RequestId)
    requires Runs.Run(CalmStep, Start(now), actions) == Some(s)
    requires r in s.requests && q in s.requests && InHandler(s.requests[r]) && InHandler(s.requests[q])
    ensures r == q
  {
    forall s0, a | SingleFlight(s0) && CalmStep(s0, a).Some? ensures SingleFlight(CalmStep(s0, a).value) {
      CalmKeepsSingleFlight(s0, a, CalmStep(s0, a).value);
    }
    Runs.RunPreserves(CalmStep, SingleFlight, Start(now), actions);
  }

  /** A lock that is present was taken by a request that still holds it. */
  ghost predicate LockHasHolder(s: State) {
    s.cells.lock.Some? ==> exists r :: r in s.requests && HoldsLock(s.requests[r])
  }

  lemma TakingLeavesHolder(s: State, r: RequestId, s': State)
    requires LockHasHolder(s) && r in s.requests && Step(s, TryLock(r)) == Some(s')
    ensures LockHasHolder(s')
  {
    if LockTaken(s.cells, s.now) {
      var q :| q in s.requests && HoldsLock(s.requests[q]);
      assert q in s'.requests && HoldsLock(s'.requests[q]);
    } else {
      assert HoldsLock(s'.requests[r]);
    }
  }

  lemma CalmKeepsHolder(s: State, a: Action, s': State)
    requires SingleFlight(s) && LockHasHolder(s) && CalmStep(s, a) == Some(s')
    ensures LockHasHolder(s')
  {
    if a.TryLock? {
      TakingLeavesHolder(s, a.request, s');
    } else if !a.Release? && s'.cells.lock.Some? {
      var q :| q in s.requests && HoldsLock(s.requests[q]);
      assert q in s'.requests && HoldsLock(s'.requests[q]);
    }
  }

  /** On calm runs a request that has missed the cache starts the handler when it tries the lock if
      and only if no request is then between taking the lock and releasing it, whether or not an
      answer has been stored since its miss. */
  lemma HandlerStartsIff(now: real, actions: seq<Action>, s: State, r: RequestId)
    requires Runs.Run(CalmStep, Start(now), actions) == Some(s)
    requires r in s.requests && s.requests[r].Missed?
    ensures Step(s, TryLock(r)).Some? && r in Step(s, TryLock(r)).value.requests
    ensures InHandler(Step(s, TryLock(r)).value.requests[r]) <==>
            forall q :: q in s.requests ==> !HoldsLock(s.requests[q])
  {
    var inv := (x: State) => SingleFlight(x) && LockHasHolder(x);
    forall x, a | inv(x) && CalmStep(x, a).Some? ensures inv(CalmStep(x, a).value) {
      CalmKeepsSingleFlight(x, a, CalmStep(x, a).value);
      CalmKeepsHolder(x, a, CalmStep(x, a).value);
    }
    Runs.RunPreserves(CalmStep, inv, Start(now), actions);
  }

  // ---------------------------------------------------------------- the cache over whole runs

  /** The request's handler has been called: it is running, has answered, or has raised. */
  predicate Ran(p: Phase) {
    !p.Missed? && !(p.Done? && !p.outcome.Executed?)
  }

  ghost predicate StoreFits(s: State, e: Store) {
    && e.tick < s.tick && e.at <= s.now
    && e.request in s.requests && s.requests[e.request] == Done(Executed(e.response))
    && Cacheable(e.response.status)
    && s.cells.cache.Some? && e.at + CACHE_SECONDS <= s.cells.cache.value.expiresAt
  }

  /** A miss comes before a store, or at least 24 h after it. */
  predicate ReadFits(read: Read, e: Store) {
    read.tick <= e.tick || read.at >= e.at + CACHE_SECONDS
  }

  ghost predicate FromStore(s: State, response: Response) {
    exists i :: 0 <= i < |s.stores| && s.stores[i].response == response
  }

  ghost predicate CacheInv(s: State) {
    && (forall i :: 0 <= i < |s.stores| ==> StoreFits(s, s.stores[i]))
    && (s.cells.cache.Some? ==> FromStore(s, s.cells.cache.value.response))
    && (forall r :: r in s.requests && s.requests[r].Done? && s.requests[r].outcome.Replayed? ==>
          FromStore(s, s.requests[r].outcome.response))
    && (forall r :: r in s.requests && (s.requests[r].Missed? || Ran(s.requests[r])) ==> r in s.misses)
    && (forall r :: r in s.misses ==> s.misses[r].tick < s.tick)
    && (forall r, i :: r in s.misses && 0 <= i < |s.stores| ==> ReadFits(s.misses[r], s.stores[i]))
  }

  lemma FinishKeepsCacheInv(s: State, a: Action, s': State)
    requires CacheInv(s) && a.Finish? && Step(s, a) == Some(s')
    ensures CacheInv(s')
  {
    assert forall i :: 0 <= i < |s.stores| ==> s'.stores[i] == s.stores[i];
    forall i | 0 <= i < |s'.stores| ensures StoreFits(s', s'.stores[i]) {
      if i < |s.stores| {
        assert StoreFits(s, s.stores[i]);
      }
    }
    forall response | FromStore(s, response) ensures FromStore(s', response) {
      var i :| 0 <= i < |s.stores| && s.stores[i].response == response;
      assert s'.stores[i].response == response;
    }
    if |s'.stores| > |s.stores| {
      assert s'.stores[|s.stores|].response == s'.cells.cache.value.response;
    }
  }

  /** The shape of every step but a store: one request moves, the cache stays. */
  ghost predicate Moves(s: State, s': State, r: RequestId, p: Phase) {
    && s'.tick == s.tick + 1 && s'.now >= s.now
    && s'.stores == s.stores && s'.cells.cache == s.cells.cache
    && (s'.requests == s.requests
        || (s'.requests == s.requests[r := p] && (r in s.requests ==> !s.requests[r].Done?)))
    && (s'.misses == s.misses
        || (s'.misses == s.misses[r := Read(s.tick, s.now)] && !CacheHit(s.cells, s.now)))
    && (s'.requests != s.requests && (p.Missed? || Ran(p)) ==>
          r in s'.misses || (r in s.requests && (s.requests[r].Missed? || Ran(s.requests[r]))))
    && (p.Done? && p.outcome.Replayed? ==>
          s.cells.cache.Some? && p.outcome.response == s.cells.cache.value.response)
  }

  lemma StepMoves(s: State, a: Action, s': State) returns (r: RequestId, p: Phase)
    requires !a.Finish? && Step(s, a) == Some(s')
    ensures Moves(s, s', r, p)
  {
    if a.Pass? {
      r, p := 0, HandlingAgain;
    } else {
      r, p := a.request, s'.requests[a.request];
    }
  }

  lemma MovesKeepCacheInv(s: State, s': State, r: RequestId, p: Phase)
    requires CacheInv(s) && Moves(s, s', r, p)
    ensures CacheInv(s')
  {
    forall i | 0 <= i < |s'.stores| ensures StoreFits(s', s'.stores[i]) {
      assert StoreFits(s, s.stores[i]);
    }
    assert forall response :: FromStore(s, response) ==> FromStore(s', response);
  }

  lemma ReachableCacheInv(now: real, actions: seq<Action>, s: State)
    requires Runs.Run(Step, Start(now), actions) == Some(s)
    ensures CacheInv(s)
  {
    forall s0, a | CacheInv(s0) && Step(s0, a).Some? ensures CacheInv(Step(s0, a).value) {
      if a.Finish? {
        FinishKeepsCacheInv(s0, a, Step(s0, a).value);
      } else {
        var r, p := StepMoves(s0, a, Step(s0, a).value);
        MovesKeepCacheInv(s0, Step(s0, a).value, r, p);
      }
    }
    Runs.RunPreserves(Step, CacheInv, Start(now), actions);
  }

  /** A request runs the handler only if its cache read came before the store of every cacheable
      response, or at least 24 h after it. */
  lemma OnlyEarlyReadersRun(now: real, actions: seq<Action>, s: State, r: RequestId, i: nat)
    requires Runs.Run(Step, Start(now), actions) == Some(s)
    requires r in s.requests && Ran(s.requests[r]) && i < |s.stores|
    ensures r in s.misses
    ensures s.misses[r].tick <= s.stores[i].tick || s.misses[r].at >= s.stores[i].at + 86400.0
  {
    ReachableCacheInv(now, actions, s);
  }

  /** Every replay is the response of an earlier execution under the same cache key, and its status is
      2xx, 404, 409 or 422. */
  lemma ReplaysAreExecutions(now: real, actions: seq<Action>, s: State, r: RequestId)
    requires Runs.Run(Step, Start(now), actions) == Some(s)
    requires r in s.requests && s.requests[r].Done? && s.requests[r].outcome.Replayed?
    ensures exists q :: q in s.requests && s.requests[q] == Done(Executed(s.requests[r].outcome.response))
    ensures var status := s.requests[r].outcome.response.status;
            200 <= status <= 299 || status in {404, 409, 422}
  {
    ReachableCacheInv(now, actions, s);
    var i :| 0 <= i < |s.stores| && s.stores[i].response == s.requests[r].outcome.response;
    assert StoreFits(s, s.stores[i]);
  }

  /** Every response that any run has stored has one of these statuses, and so has the cached one. */
  lemma StoredStatuses(now: real, actions: seq<Action>, s: State)
    requires Runs.Run(Step, Start(now), actions) == Some(s)
    ensures forall i :: 0 <= i < |s.stores| ==>
              200 <= s.stores[i].response.status <= 299 || s.stores[i].response.status in {404, 409, 422}
    ensures s.cells.cache.Some? ==>
              var status := s.cells.cache.value.response.status;
              200 <= status <= 299 || status in {404, 409, 422}
  {
    ReachableCacheInv(now, actions, s);
    forall i | 0 <= i < |s.stores| ensures StoreFits(s, s.stores[i]) {
    }
  }

  /** A request that released its lock stores its answer for 24 h if its status is 2xx, 404, 409 or 422;
      with any other status both cells stay as they are. */
  lemma FinishStoresIff(s: State, r: RequestId)
    requires r in s.requests && s.requests[r].Unlocked?
    ensures Step(s, Finish(r)).Some?
    ensures var response := s.requests[r].response;
            var s' := Step(s, Finish(r)).value;
            && s'.requests == s.requests[r := Done(Executed(response))]
            && s'.cells.lock == s.cells.lock
            && if 200 <= response.status <= 299 || response.status in {404, 409, 422}
               then && s'.cells.cache == Some(Entry(response, s.now + 86400.0))
                    && s'.stores == s.stores + [Store(r, s.tick, s.now, response)]
               else s'.cells.cache == s.cells.cache && s'.stores == s.stores
  {
  }

  /** A request that missed the cache takes a lock that is free, for exactly 60 s, and is answered with
      a conflict when it is held. */
  lemma LockLastsSixty(s: State, r: RequestId, at: real)
    requires r in s.requests && s.requests[r].Missed?
    ensures Step(s, TryLock(r)).Some?
    ensures var s' := Step(s, TryLock(r)).value;
            if s.cells.lock.Some? && s.now < s.cells.lock.value
            then s'.cells == s.cells && s'.requests == s.requests[r := Done(InFlight)]
            else && s'.requests == s.requests[r := Handling(s.now)]
                 && s'.cells.cache == s.cells.cache
                 && (LockTaken(s'.cells, at) <==> at < s.now + 60.0)
  {
  }

  /** The request's handler has raised: its second call is due, running, or has answered. */
  predicate AfterRaise(p: Phase) {
    p.Raised? || p.HandlingAgain? || (p.Done? && p.outcome.Executed?)
  }

  ghost predicate RaisedSince(start: State, s: State, r: RequestId) {
    && r in s.requests && AfterRaise(s.requests[r]) && |start.stores| <= |s.stores|
    && forall i :: |start.stores| <= i < |s.stores| ==> s.stores[i].request != r
  }

  lemma RaisedSinceKept(start: State, s: State, a: Action, s': State, r: RequestId)
    requires RaisedSince(start, s, r) && Step(s, a) == Some(s')
    ensures RaisedSince(start, s', r)
  {
    if !a.Pass? && a.request != r {
      assert s'.requests[r] == s.requests[r];
    }
  }

  /** A request whose handler raised never stores an answer, in any continuation: it ends with the answer
      of the handler's second call, and a retry of it finds nothing of it in the cache. */
  lemma RaisedStoresNothing(before: State, r: RequestId, s: State, actions: seq<Action>, s': State)
    requires Step(before, Raise(r)) == Some(s) && Runs.Run(Step, s, actions) == Some(s')
    ensures r in s'.requests && (s'.requests[r].Done? ==> s'.requests[r].outcome.Executed?)
    ensures |s.stores| <= |s'.stores| && forall i :: |s.stores| <= i < |s'.stores| ==> s'.stores[i].request != r
  {
    var inv := (x: State) => RaisedSince(s, x, r);
    forall x, a | inv(x) && Step(x, a).Some? ensures inv(Step(x, a).value) {
      RaisedSinceKept(s, x, a, Step(x, a).value, r);
    }
    Runs.RunPreserves(Step, inv, s, actions);
  }

  // ---------------------------------------------------------------- what the lock does not prevent

  /** The handler can run twice for one key, even on calm runs: the lock is deleted before the
      response is stored, and a request that read the cache earlier then takes the lock. */
  lemma HandlerCanRunTwice()
    ensures exists actions, s ::
              Runs.Run(CalmStep, Start(0.0), actions) == Some(s) &&
              1 in s.requests && s.requests[1] == Done(Executed(Response(201, "first"))) &&
              2 in s.requests && InHandler(s.requests[2])
  {
    var acts, s := FirstIsStored();
    acts, s := Runs.Extend(CalmStep, Start(0.0), acts, s, TryLock(2));
  }

  const TWO_READS := map[1 := Read(0, 0.0), 2 := Read(1, 0.0)]

  lemma BothMiss() returns (acts: seq<Action>, s: State)
    ensures Runs.Run(CalmStep, Start(0.0), acts) == Some(s)
    ensures s == State(0.0, 2, Cells(None, None), map[1 := Missed, 2 := Missed], TWO_READS, [])
  {
    acts, s := Runs.Extend(CalmStep, Start(0.0), [], Start(0.0), Get(1));
    acts, s := Runs.Extend(CalmStep, Start(0.0), acts, s, Get(2));
  }

  lemma BothMissThenFirstAnswers() returns (acts: seq<Action>, s: State)
    ensures Runs.Run(CalmStep, Start(0.0), acts) == Some(s)
    ensures s == State(0.0, 4, Cells(None, Some(60.0)),
                       map[1 := Answered(0.0, Response(201, "first")), 2 := Missed], TWO_READS, [])
  {
    acts, s := BothMiss();
    acts, s := Runs.Extend(CalmStep, Start(0.0), acts, s, TryLock(1));
    acts, s := Runs.Extend(CalmStep, Start(0.0), acts, s, Answer(1, Response(201, "first")));
  }

  lemma FirstReleases() returns (acts: seq<Action>, s: State)
    ensures Runs.Run(CalmStep, Start(0.0), acts) == Some(s)
    ensures s == State(0.0, 5, Cells(None, None),
                       map[1 := Unlocked(Response(201, "first")), 2 := Missed], TWO_READS, [])
  {
    acts, s := BothMissThenFirstAnswers();
    acts, s := Runs.Extend(CalmStep, Start(0.0), acts, s, Release(1));
  }

  lemma FirstIsStored() returns (acts: seq<Action>, s: State)
    ensures Runs.Run(CalmStep, Start(0.0), acts) == Some(s)
    ensures s.now == 0.0 && s.cells.lock == None
    ensures s.requests == map[1 := Done(Executed(Response(201, "first"))), 2 := Missed]
  {
    acts, s := FirstReleases();
    acts, s := Runs.Extend(CalmStep, Start(0.0), acts, s, Finish(1));
  }

  /** A handler that raises is called again without the lock, so two handlers can be in flight. */
  lemma RaiseBreaksSingleFlight()
    ensures exists actions, s ::
              Runs.Run(Step, Start(0.0), actions) == Some(s) &&
              1 in s.requests && InHandler(s.requests[1]) && 2 in s.requests && InHandler(s.requests[2])
  {
    var acts, s := FirstRaises();
    acts, s := Runs.Extend(Step, Start(0.0), acts, s, Get(2));
    acts, s := Runs.Extend(Step, Start(0.0), acts, s, TryLock(2));
  }

  lemma FirstHasLock() returns (acts: seq<Action>, s: State)
    ensures Runs.Run(Step, Start(0.0), acts) == Some(s)
    ensures s.now == 0.0 && s.cells == Cells(None, Some(60.0)) && s.requests == map[1 := Handling(0.0)]
  {
    acts, s := Runs.Extend(Step, Start(0.0), [], Start(0.0), Get(1));
    acts, s := Runs.Extend(Step, Start(0.0), acts, s, TryLock(1));
  }

  lemma FirstRaises() returns (acts: seq<Action>, s: State)
    ensures Runs.Run(Step, Start(0.0), acts) == Some(s)
    ensures s.now == 0.0 && s.cells == Cells(None, None) && s.requests == map[1 := HandlingAgain]
  {
    acts, s := FirstHasLock();
    acts, s := Runs.Extend(Step, Start(0.0), acts, s, Raise(1));
    acts, s := Runs.Extend(Step, Start(0.0), acts, s, Release(1));
  }

  /** A handler slower than the lock's 60 s is joined by a second one. */
  lemma SlowHandlerBreaksSingleFlight()
    ensures exists actions, s ::
              Runs.Run(Step, Start(0.0), actions) == Some(s) &&
              1 in s.requests && InHandler(s.requests[1]) && 2 in s.requests && InHandler(s.requests[2])
  {
    var acts, s := FirstHasLock();
    acts, s := Runs.Extend(Step, Start(0.0), acts, s, Pass(60.0));
    acts, s := Runs.Extend(Step, Start(0.0), acts, s, Get(2));
    acts, s := Runs.Extend(Step, Start(0.0), acts, s, TryLock(2));
  }
}
