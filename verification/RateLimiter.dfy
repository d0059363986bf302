/** The sliding-window rate limiter: a Redis sorted set, pruned at every check and given a
    lifetime of two windows, against a limiter that keeps the full log of all attempts.

    Every attempt is added to the set, rejected ones included.  Times are seconds. */
module RateLimiter {
  import opened Options

  type Member = nat

  datatype Attempt = Attempt(at: real, member: Member)

  /** The sorted set of one identifier, and when Redis drops it. */
  datatype Stored = Stored(entries: map<Member, real>, expiresAt: Option<real>)

  const NOTHING_STORED := Stored(map[], None)

  /** Entries left after expiry and after removing the scores from 0 up to `now - window`. */
  function Kept(s: Stored, window: real, now: real): map<Member, real> {
    if s.expiresAt.Some? && now >= s.expiresAt.value then map[]
    else map m | m in s.entries && !(0.0 <= s.entries[m] <= now - window) :: s.entries[m]
  }

  function Allows(s: Stored, limit: nat, window: real, now: real): bool {
    |Kept(s, window, now)| < limit
  }

  function Checked(s: Stored, window: real, a: Attempt): Stored {
    Stored(Kept(s, window, a.at)[a.member := a.at], Some(a.at + window * 2.0))
  }

  // ---------------------------------------------------------------- the full log

  function After(log: seq<Attempt>, window: real): Stored
    decreases |log|
  {
    if log == [] then NOTHING_STORED
    else Checked(After(log[..|log| - 1], window), window, log[|log| - 1])
  }

  /** How many attempts of the log are later than `cut`. */
  function CountAfter(log: seq<Attempt>, cut: real): nat
    decreases |log|
  {
    if log == [] then 0
    else
      var n := |log| - 1;
      CountAfter(log[..n], cut) + (if log[n].at > cut then 1 else 0)
  }

  function FullLogAllows(log: seq<Attempt>, limit: nat, window: real, now: real): bool {
    CountAfter(log, now - window) < limit
  }

  ghost predicate Nondecreasing(log: seq<Attempt>) {
    && (forall i :: 0 <= i < |log| ==> log[i].at >= 0.0)
    && (forall i, j :: 0 <= i < j < |log| ==> log[i].at <= log[j].at)
  }

  function MembersAfter(log: seq<Attempt>, cut: real): set<Member> {
    set i | 0 <= i < |log| && log[i].at > cut :: log[i].member
  }

  /** No two attempts later than `cut` share a member. */
  ghost predicate DistinctAfter(log: seq<Attempt>, cut: real) {
    forall i, j :: 0 <= i < j < |log| && log[i].at > cut && log[j].at > cut ==> log[i].member != log[j].member
  }

  lemma MembersAfterLast(log: seq<Attempt>, cut: real)
    requires log != []
    ensures var n := |log| - 1;
            MembersAfter(log, cut) ==
              if log[n].at > cut then MembersAfter(log[..n], cut) + {log[n].member} else MembersAfter(log[..n], cut)
  {
    var n := |log| - 1;
    var before, after := MembersAfter(log[..n], cut), MembersAfter(log, cut);
    forall m | m in before ensures m in after {
      var i :| 0 <= i < n && log[..n][i].at > cut && log[..n][i].member == m;
      assert log[i].member == m;
    }
    forall m | m in after ensures m in before || (log[n].at > cut && m == log[n].member) {
      var i :| 0 <= i < |log| && log[i].at > cut && log[i].member == m;
      assert i < n ==> log[..n][i].member == m;
    }
  }

  lemma DistinctAfterLast(log: seq<Attempt>, cut: real)
    requires log != []
    ensures var n := |log| - 1;
            DistinctAfter(log, cut) <==>
              DistinctAfter(log[..n], cut) && (log[n].at > cut ==> log[n].member !in MembersAfter(log[..n], cut))
  {
    var n := |log| - 1;
    var before := log[..n];
    assert forall i :: 0 <= i < n ==> before[i] == log[i];
    if log[n].at > cut && log[n].member in MembersAfter(before, cut) {
      var i :| 0 <= i < n && before[i].at > cut && before[i].member == log[n].member;
      assert log[i].member == log[n].member;
    }
    if DistinctAfter(before, cut) && (log[n].at > cut ==> log[n].member !in MembersAfter(before, cut)) {
      forall i, j | 0 <= i < j < |log| && log[i].at > cut && log[j].at > cut ensures log[i].member != log[j].member {
        if j == n {
          assert before[i].member in MembersAfter(before, cut);
        } else {
          assert before[i].member != before[j].member;
        }
      }
    }
  }

  /** There are never more members than attempts, and as many only when the attempts are distinct. */
  lemma {:induction false} CountIsCardinality(log: seq<Attempt>, cut: real)
    ensures |MembersAfter(log, cut)| <= CountAfter(log, cut)
    ensures |MembersAfter(log, cut)| == CountAfter(log, cut) <==> DistinctAfter(log, cut)
    decreases |log|
  {
    if log != [] {
      var n := |log| - 1;
      CountIsCardinality(log[..n], cut);
      MembersAfterLast(log, cut);
      DistinctAfterLast(log, cut);
      if log[n].member in MembersAfter(log[..n], cut) {
        assert MembersAfter(log[..n], cut) + {log[n].member} == MembersAfter(log[..n], cut);
      }
    }
  }

  /** Score `at` of member `m` is that of some attempt. */
  ghost predicate Scored(log: seq<Attempt>, m: Member, at: real) {
    exists i :: 0 <= i < |log| && log[i] == Attempt(at, m)
  }

  /** The set is a sound and sufficient part of the log: recent members are in it, with a score of
      theirs that no attempt of theirs is later than. */
  ghost predicate Tracks(s: Stored, log: seq<Attempt>, window: real) {
    && (log == [] ==> s == NOTHING_STORED)
    && (log != [] ==>
          var last := log[|log| - 1].at;
          && s.expiresAt == Some(last + window * 2.0)
          && (forall i :: 0 <= i < |log| && log[i].at > last - window ==>
                log[i].member in s.entries && s.entries[log[i].member] >= log[i].at)
          && (forall m :: m in s.entries ==> Scored(log, m, s.entries[m])))
  }

  /** What a check prunes, for any stored set and any clock: everything once the lifetime has run out,
      and otherwise the scores from 0 up to and including one window ago. */
  lemma PrunedIff(s: Stored, window: real, now: real, m: Member)
    requires m in s.entries
    ensures m !in Kept(s, window, now) <==>
            || (s.expiresAt.Some? && s.expiresAt.value <= now)
            || (s.entries[m] >= 0.0 && s.entries[m] + window <= now)
    ensures m in Kept(s, window, now) ==> Kept(s, window, now)[m] == s.entries[m]
  {
  }

  /** Pruning at a later time leaves exactly the members with an attempt inside the window. */
  lemma KeptIsWindow(s: Stored, log: seq<Attempt>, window: real, now: real)
    requires window >= 0.0 && Nondecreasing(log) && Tracks(s, log, window)
    requires log != [] ==> now >= log[|log| - 1].at
    ensures Kept(s, window, now).Keys == MembersAfter(log, now - window)
    ensures forall i :: 0 <= i < |log| && log[i].at > now - window ==>
              log[i].member in Kept(s, window, now) && Kept(s, window, now)[log[i].member] >= log[i].at
  {
    var kept := Kept(s, window, now);
    forall i | 0 <= i < |log| && log[i].at > now - window
      ensures log[i].member in kept && kept[log[i].member] >= log[i].at
    {
      assert log[i].at <= log[|log| - 1].at;
    }
    forall m | m in kept ensures m in MembersAfter(log, now - window) {
      var i :| 0 <= i < |log| && log[i] == Attempt(s.entries[m], m);
      assert log[i].at >= 0.0;
    }
  }

  lemma KeptCount(s: Stored, log: seq<Attempt>, window: real, now: real)
    requires window >= 0.0 && Nondecreasing(log) && Tracks(s, log, window)
    requires log != [] ==> now >= log[|log| - 1].at
    ensures |Kept(s, window, now)| == |MembersAfter(log, now - window)|
  {
    KeptIsWindow(s, log, window, now);
    assert |Kept(s, window, now)| == |Kept(s, window, now).Keys|;
  }

  lemma CheckedScores(s: Stored, log: seq<Attempt>, window: real, a: Attempt, m: Member)
    requires forall k :: k in s.entries ==> Scored(log, k, s.entries[k])
    requires m in Checked(s, window, a).entries
    ensures Scored(log + [a], m, Checked(s, window, a).entries[m])
  {
    var next := log + [a];
    if m == a.member {
      assert next[|log|] == a;
    } else {
      assert Scored(log, m, s.entries[m]);
      var i :| 0 <= i < |log| && log[i] == Attempt(s.entries[m], m);
      assert next[i] == log[i];
    }
  }

  lemma CheckedHolds(s: Stored, log: seq<Attempt>, window: real, a: Attempt)
    requires window >= 0.0 && Nondecreasing(log + [a]) && Tracks(s, log, window)
    ensures var next, entries := log + [a], Checked(s, window, a).entries;
            forall i :: 0 <= i < |next| && next[i].at > a.at - window ==>
              next[i].member in entries && entries[next[i].member] >= next[i].at
  {
    var next, entries := log + [a], Checked(s, window, a).entries;
    PrefixNondecreasing(log, a);
    KeptIsWindow(s, log, window, a.at);
    forall i | 0 <= i < |next| && next[i].at > a.at - window
      ensures next[i].member in entries && entries[next[i].member] >= next[i].at
    {
      assert next[i].at <= next[|log|].at;
      if i < |log| {
        assert next[i] == log[i];
      }
    }
  }

  lemma CheckedTracks(s: Stored, log: seq<Attempt>, window: real, a: Attempt)
    requires window >= 0.0 && Nondecreasing(log + [a]) && Tracks(s, log, window)
    ensures Tracks(Checked(s, window, a), log + [a], window)
  {
    CheckedHolds(s, log, window, a);
    forall m | m in Checked(s, window, a).entries ensures Scored(log + [a], m, Checked(s, window, a).entries[m]) {
      CheckedScores(s, log, window, a, m);
    }
  }

  lemma {:induction false} StoreTracksLog(log: seq<Attempt>, window: real)
    requires window >= 0.0 && Nondecreasing(log)
    ensures Tracks(After(log, window), log, window)
    decreases |log|
  {
    if log != [] {
      var n := |log| - 1;
      StoreTracksLog(log[..n], window);
      assert log[..n] + [log[n]] == log;
      CheckedTracks(After(log[..n], window), log[..n], window, log[n]);
    }
  }

  /** For every run with nondecreasing times, the pruned, expiring set counts the members inside the
      window. */
  lemma AllowsByMembers(log: seq<Attempt>, limit: nat, window: real, now: real)
    requires window >= 0.0 && Nondecreasing(log)
    requires log != [] ==> now >= log[|log| - 1].at
    ensures Allows(After(log, window), limit, window, now) <==> |MembersAfter(log, now - window)| < limit
  {
    StoreTracksLog(log, window);
    KeptCount(After(log, window), log, window, now);
  }

  /** The pruned, expiring set decides the next attempt as the limiter that keeps the full log does,
      whatever the limit, if and only if the attempts inside the window have distinct members. */
  lemma DecidesLikeFullLog(log: seq<Attempt>, window: real, now: real)
    requires window >= 0.0 && Nondecreasing(log)
    requires log != [] ==> now >= log[|log| - 1].at
    ensures (forall limit: nat ::
               Allows(After(log, window), limit, window, now) == FullLogAllows(log, limit, window, now))
            <==> DistinctAfter(log, now - window)
  {
    CountIsCardinality(log, now - window);
    forall limit: nat
      ensures Allows(After(log, window), limit, window, now) <==> |MembersAfter(log, now - window)| < limit
    {
      AllowsByMembers(log, limit, window, now);
    }
    if !DistinctAfter(log, now - window) {
      var limit := CountAfter(log, now - window);
      assert Allows(After(log, window), limit, window, now) != FullLogAllows(log, limit, window, now);
    }
  }

  /** The set never refuses what the full log would allow. */
  lemma NeverStricter(log: seq<Attempt>, limit: nat, window: real, now: real)
    requires window >= 0.0 && Nondecreasing(log)
    requires log != [] ==> now >= log[|log| - 1].at
    ensures FullLogAllows(log, limit, window, now) ==> Allows(After(log, window), limit, window, now)
  {
    CountIsCardinality(log, now - window);
    AllowsByMembers(log, limit, window, now);
  }

  // ---------------------------------------------------------------- the limiter

  class SlidingWindowRateLimiter {
    const limit: nat
    const window: real
    var stored: Stored
    ghost var log: seq<Attempt>

    /** Until the clock goes back, the set tracks the log of all attempts. */
    ghost predicate Valid()
      reads this
    {
      window >= 0.0 && Nondecreasing(log) ==> Tracks(stored, log, window)
    }

    constructor (limit: nat, window: real)
      ensures this.limit == limit && this.window == window && stored == NOTHING_STORED && log == []
      ensures Valid()
    {
      this.limit, this.window, stored, log := limit, window, NOTHING_STORED, [];
    }

    /** The pipeline of one check: prune, count, add, set the lifetime. */
    method Check(a: Attempt) returns (accepted: bool)
      requires Valid()
      modifies this
      ensures Valid() && log == old(log) + [a]
      ensures accepted == Allows(old(stored), limit, window, a.at)
      ensures stored == Checked(old(stored), window, a)
      ensures a.member in stored.entries && stored.entries[a.member] == a.at
      ensures stored.expiresAt == Some(a.at + 2.0 * window)
      ensures window >= 0.0 && Nondecreasing(log) ==>
                (accepted <==> |MembersAfter(old(log), a.at - window)| < limit)
      ensures window >= 0.0 && Nondecreasing(log) && DistinctAfter(old(log), a.at - window) ==>
                (accepted <==> CountAfter(old(log), a.at - window) < limit)
    {
      ghost var before := stored;
      var entries := Kept(stored, window, a.at);
      var count := |entries|;
      entries := entries[a.member := a.at];
      stored := Stored(entries, Some(a.at + window * 2.0));
      log := log + [a];
      accepted := count < limit;
      CheckTracks(before, old(log), window, a);
      CheckAllows(before, old(log), limit, window, a);
      CountIsCardinality(old(log), a.at - window);
    }
  }

  lemma CheckKeepsTracking(s: Stored, log: seq<Attempt>, window: real, a: Attempt)
    requires window >= 0.0 && Nondecreasing(log + [a]) && (Nondecreasing(log) ==> Tracks(s, log, window))
    ensures Tracks(s, log, window) && Tracks(Checked(s, window, a), log + [a], window)
  {
    PrefixNondecreasing(log, a);
    CheckedTracks(s, log, window, a);
  }

  lemma CheckDecides(s: Stored, log: seq<Attempt>, limit: nat, window: real, a: Attempt)
    requires window >= 0.0 && Nondecreasing(log + [a]) && Tracks(s, log, window)
    ensures Allows(s, limit, window, a.at) <==> |MembersAfter(log, a.at - window)| < limit
  {
    PrefixNondecreasing(log, a);
    KeptCount(s, log, window, a.at);
  }

  /** `Check`'s obligations, as long as the clock does not go back. */
  lemma CheckTracks(s: Stored, log: seq<Attempt>, window: real, a: Attempt)
    requires window >= 0.0 && Nondecreasing(log) ==> Tracks(s, log, window)
    ensures window >= 0.0 && Nondecreasing(log + [a]) ==> Tracks(Checked(s, window, a), log + [a], window)
  {
    if window >= 0.0 && Nondecreasing(log + [a]) {
      CheckKeepsTracking(s, log, window, a);
    }
  }

  lemma CheckAllows(s: Stored, log: seq<Attempt>, limit: nat, window: real, a: Attempt)
    requires window >= 0.0 && Nondecreasing(log) ==> Tracks(s, log, window)
    ensures window >= 0.0 && Nondecreasing(log + [a]) ==>
              (Allows(s, limit, window, a.at) <==> |MembersAfter(log, a.at - window)| < limit)
  {
    if window >= 0.0 && Nondecreasing(log + [a]) {
      PrefixNondecreasing(log, a);
      CheckDecides(s, log, limit, window, a);
    }
  }

  lemma PrefixNondecreasing(log: seq<Attempt>, a: Attempt)
    requires Nondecreasing(log + [a])
    ensures Nondecreasing(log) && (log != [] ==> a.at >= log[|log| - 1].at)
  {
    var next := log + [a];
    assert forall i :: 0 <= i < |log| ==> log[i] == next[i];
    assert log != [] ==> next[|log| - 1].at <= next[|log|].at;
  }

  // ---------------------------------------------------------------- at most `limit` per window

  predicate InWindow(at: real, start: real, window: real, closedRight: bool) {
    if closedRight then start < at <= start + window else start <= at < start + window
  }

  /** Accepted attempts of the log inside a half-open window, as the limiter decided them. */
  function AcceptedIn(log: seq<Attempt>, limit: nat, window: real, start: real, closedRight: bool): nat
    decreases |log|
  {
    if log == [] then 0
    else
      var n := |log| - 1;
      AcceptedIn(log[..n], limit, window, start, closedRight) +
      (if InWindow(log[n].at, start, window, closedRight) && Allows(After(log[..n], window), limit, window, log[n].at)
       then 1 else 0)
  }

  lemma {:induction false} AcceptedAreRecent(
    log: seq<Attempt>, limit: nat, window: real, start: real, closedRight: bool, now: real)
    requires InWindow(now, start, window, closedRight)
    ensures AcceptedIn(log, limit, window, start, closedRight) <= CountAfter(log, now - window)
    decreases |log|
  {
    if log != [] {
      AcceptedAreRecent(log[..|log| - 1], limit, window, start, closedRight, now);
    }
  }

  lemma NearIsAfter(log: seq<Attempt>, window: real)
    requires log != [] && Nondecreasing(log) && DistinctNear(log, window)
    ensures DistinctAfter(log[..|log| - 1], log[|log| - 1].at - window)
  {
    var n := |log| - 1;
    forall i, j | 0 <= i < j < n && log[i].at > log[n].at - window ensures log[i].member != log[j].member {
      assert log[j].at <= log[n].at;
    }
  }

  /** Attempts less than a window apart have distinct members. */
  ghost predicate DistinctNear(log: seq<Attempt>, window: real) {
    forall i, j :: 0 <= i < j < |log| && log[j].at - log[i].at < window ==> log[i].member != log[j].member
  }

  lemma PrefixNear(log: seq<Attempt>, window: real)
    requires log != [] && Nondecreasing(log) && DistinctNear(log, window)
    ensures Nondecreasing(log[..|log| - 1]) && DistinctNear(log[..|log| - 1], window)
  {
    var before := log[..|log| - 1];
    assert forall i :: 0 <= i < |before| ==> before[i] == log[i];
  }

  lemma LastAllowed(log: seq<Attempt>, limit: nat, window: real)
    requires log != [] && window >= 0.0 && Nondecreasing(log) && DistinctNear(log, window)
    requires Allows(After(log[..|log| - 1], window), limit, window, log[|log| - 1].at)
    ensures CountAfter(log[..|log| - 1], log[|log| - 1].at - window) < limit
  {
    var n := |log| - 1;
    PrefixNear(log, window);
    NearIsAfter(log, window);
    assert n > 0 ==> log[..n][n - 1] == log[n - 1];
    AllowsByMembers(log[..n], limit, window, log[n].at);
    CountIsCardinality(log[..n], log[n].at - window);
  }

  lemma OneMoreAccepted(log: seq<Attempt>, limit: nat, window: real, start: real, closedRight: bool)
    requires log != [] && AcceptedIn(log[..|log| - 1], limit, window, start, closedRight) <= limit
    requires Allows(After(log[..|log| - 1], window), limit, window, log[|log| - 1].at) ==>
               CountAfter(log[..|log| - 1], log[|log| - 1].at - window) < limit
    ensures AcceptedIn(log, limit, window, start, closedRight) <= limit
  {
    var n := |log| - 1;
    var before, last := log[..n], log[n];
    if InWindow(last.at, start, window, closedRight) {
      AcceptedAreRecent(before, limit, window, start, closedRight, last.at);
    }
  }

  /** No half-open window of the limiter's length contains more than `limit` accepted requests. */
  lemma {:induction false} AtMostLimitPerWindow(
    log: seq<Attempt>, limit: nat, window: real, start: real, closedRight: bool)
    requires window >= 0.0 && Nondecreasing(log) && DistinctNear(log, window)
    ensures AcceptedIn(log, limit, window, start, closedRight) <= limit
    decreases |log|
  {
    if log != [] {
      var n := |log| - 1;
      PrefixNear(log, window);
      AtMostLimitPerWindow(log[..n], limit, window, start, closedRight);
      if Allows(After(log[..n], window), limit, window, log[n].at) {
        LastAllowed(log, limit, window);
      }
      OneMoreAccepted(log, limit, window, start, closedRight);
    }
  }

  /** Members are `time:time_ns` strings.  Should attempts share one, the set counts them once:
      three such attempts all pass a limit of two. */
  lemma SharedMemberOverruns()
    ensures var a := Attempt(1.0, 7);
            AcceptedIn([a, a, a], 2, 60.0, 0.0, true) == 3
  {
    var a := Attempt(1.0, 7);
    var one, two, three := [a], [a, a], [a, a, a];
    assert three[..2] == two && two[..1] == one && one[..0] == [];
    assert After(one, 60.0) == Checked(NOTHING_STORED, 60.0, a);
    CountsOnce(NOTHING_STORED, a);
    CountsOnce(After(one, 60.0), a);
    CountsOnce(After(two, 60.0), a);
    assert AcceptedIn(one, 2, 60.0, 0.0, true) == 1;
    assert AcceptedIn(two, 2, 60.0, 0.0, true) == 2;
  }

  lemma CountsOnce(s: Stored, a: Attempt)
    requires a.at == 1.0 && s.entries.Keys <= {a.member}
    ensures Allows(s, 2, 60.0, a.at) && Checked(s, 60.0, a).entries.Keys == {a.member}
  {
    var kept := Kept(s, 60.0, a.at);
    if kept.Keys != {} {
      assert kept.Keys == {a.member};
    }
    assert |kept| == |kept.Keys|;
  }
}
