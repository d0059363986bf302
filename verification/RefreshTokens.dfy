/** Refresh-token rotation in families, one request at a time.

    Tokens are opaque distinct values.  A login starts a family with sequence 1; every refresh
    adds the next sequence and revokes the token it was given (the rotation of section 4.14.2 of
    RFC 9700).  A request works on its session's view of the table; the view is committed when
    the request returns and rolled back when it raises. */
module RefreshTokens {
  import opened Options
  import Runs

  type TokenId = nat
  type FamilyId = nat

  datatype Row = Row(token: TokenId, family: FamilyId, sequence: nat, revoked: bool)

  datatype Error = InvalidToken | NotFound | Revoked | UserUnavailable | ReuseDetected

  datatype Result = Issued(token: TokenId) | Failed(error: Error)

  /** A presented token, with what decoding it and looking up its user gave. */
  datatype Request = Request(token: TokenId, decodes: bool, userActive: bool)

  // ---------------------------------------------------------------- queries over the table

  function Find(rows: seq<Row>, token: TokenId): (r: Option<nat>)
    ensures r.None? <==> forall i :: 0 <= i < |rows| ==> rows[i].token != token
    ensures r.Some? ==> r.value < |rows| && rows[r.value].token == token
  {
    if rows == [] then None
    else
      var n := |rows| - 1;
      if rows[n].token == token then Some(n) else Find(rows[..n], token)
  }

  function LatestSequence(rows: seq<Row>, family: FamilyId): (m: nat)
    ensures forall i :: 0 <= i < |rows| && rows[i].family == family ==> rows[i].sequence <= m
    ensures m == 0 || exists i :: 0 <= i < |rows| && rows[i].family == family && rows[i].sequence == m
  {
    if rows == [] then 0
    else
      var n := |rows| - 1;
      var m := LatestSequence(rows[..n], family);
      if rows[n].family == family && rows[n].sequence > m then rows[n].sequence else m
  }

  function WithRevoked(row: Row, revoke: bool): Row {
    if revoke then row.(revoked := true) else row
  }

  function TokenRevoked(rows: seq<Row>, token: TokenId): (r: seq<Row>)
    ensures |r| == |rows| && forall i :: 0 <= i < |rows| ==> r[i] == WithRevoked(rows[i], rows[i].token == token)
  {
    seq(|rows|, i requires 0 <= i < |rows| => WithRevoked(rows[i], rows[i].token == token))
  }

  function FamilyRevoked(rows: seq<Row>, family: FamilyId): (r: seq<Row>)
    ensures |r| == |rows| && forall i :: 0 <= i < |rows| ==> r[i] == WithRevoked(rows[i], rows[i].family == family)
  {
    seq(|rows|, i requires 0 <= i < |rows| => WithRevoked(rows[i], rows[i].family == family))
  }

  ghost predicate UniqueTokens(rows: seq<Row>) {
    forall i, j :: 0 <= i < j < |rows| ==> rows[i].token != rows[j].token
  }

  // ---------------------------------------------------------------- what one request does

  /** The session's rows and the answer after the refresh service ran on `rows`. */
  function Refreshed(rows: seq<Row>, req: Request, issued: TokenId): (seq<Row>, Result) {
    if !req.decodes then (rows, Failed(InvalidToken))
    else
      var at := Find(rows, req.token);
      if at.None? then (rows, Failed(NotFound))
      else
        var row := rows[at.value];
        if row.revoked then (rows, Failed(Revoked))
        else if !req.userActive then (rows, Failed(UserUnavailable))
        else if LatestSequence(rows, row.family) > row.sequence
        then (FamilyRevoked(rows, row.family), Failed(ReuseDetected))
        else (TokenRevoked(rows + [Row(issued, row.family, row.sequence + 1, false)], req.token), Issued(issued))
  }

  /** A refresh is granted exactly for a token that decodes, to an active user, whose row is live and has
      no later sequence in its family. */
  lemma IssuedIff(rows: seq<Row>, req: Request, issued: TokenId)
    requires UniqueTokens(rows)
    ensures Refreshed(rows, req, issued).1.Issued? <==>
            && req.decodes && req.userActive
            && exists i :: && 0 <= i < |rows| && rows[i].token == req.token && !rows[i].revoked
                           && forall j :: 0 <= j < |rows| && rows[j].family == rows[i].family ==>
                                rows[j].sequence <= rows[i].sequence
  {
    var at := Find(rows, req.token);
    if at.Some? {
      assert forall i :: 0 <= i < |rows| && rows[i].token == req.token ==> i == at.value;
    }
  }

  /** A granted refresh adds the issued token as the family's next sequence and revokes the presented
      token; no other row changes. */
  lemma IssuedRows(rows: seq<Row>, req: Request, issued: TokenId, i: nat)
    requires UniqueTokens(rows) && i < |rows| && rows[i].token == req.token
    requires Find(rows, issued).None?
    requires Refreshed(rows, req, issued).1.Issued?
    ensures Refreshed(rows, req, issued).1.token == issued
    ensures Refreshed(rows, req, issued).0 ==
            rows[i := rows[i].(revoked := true)] + [Row(issued, rows[i].family, rows[i].sequence + 1, false)]
  {
    FindUnique(rows, i);
  }

  /** Which error a refused request gets: an undecodable token, an unknown one, a revoked one, a user
      that is gone or disabled, and a live token that its family has gone past, in this order. */
  lemma FailureIs(rows: seq<Row>, req: Request, issued: TokenId)
    requires UniqueTokens(rows)
    ensures Refreshed(rows, req, issued).1 == Failed(InvalidToken) <==> !req.decodes
    ensures Refreshed(rows, req, issued).1 == Failed(NotFound) <==>
            req.decodes && forall i :: 0 <= i < |rows| ==> rows[i].token != req.token
    ensures Refreshed(rows, req, issued).1 == Failed(Revoked) <==>
            req.decodes && exists i :: 0 <= i < |rows| && rows[i].token == req.token && rows[i].revoked
    ensures Refreshed(rows, req, issued).1 == Failed(UserUnavailable) <==>
            && req.decodes && !req.userActive
            && exists i :: 0 <= i < |rows| && rows[i].token == req.token && !rows[i].revoked
    ensures Refreshed(rows, req, issued).1 == Failed(ReuseDetected) <==>
            && req.decodes && req.userActive
            && exists i, j :: && 0 <= i < |rows| && rows[i].token == req.token && !rows[i].revoked
                              && 0 <= j < |rows| && rows[j].family == rows[i].family
                              && rows[j].sequence > rows[i].sequence
  {
    var at := Find(rows, req.token);
    if at.Some? {
      assert forall i :: 0 <= i < |rows| && rows[i].token == req.token ==> i == at.value;
    }
  }

  lemma FindUnique(rows: seq<Row>, i: nat)
    requires UniqueTokens(rows) && i < |rows|
    ensures Find(rows, rows[i].token) == Some(i)
  {
    var at := Find(rows, rows[i].token);
    assert at.Some?;
  }

  class AuthStore {
    var committed: seq<Row>
    var rows: seq<Row>

    constructor ()
      ensures committed == rows == []
    {
      committed, rows := [], [];
    }

    method CreateRefreshToken(token: TokenId, family: FamilyId, sequence: nat)
      requires Find(rows, token).None?
      modifies this`rows
      ensures rows == old(rows) + [Row(token, family, sequence, false)]
      ensures old(UniqueTokens(rows)) ==> UniqueTokens(rows)
    {
      rows := rows + [Row(token, family, sequence, false)];
    }

    method RevokeFamily(family: FamilyId) returns (count: nat)
      modifies this`rows
      ensures rows == FamilyRevoked(old(rows), family)
      ensures count == |Family(old(rows), family)|
    {
      count := 0;
      ghost var table := rows;
      for i := 0 to |rows|
        invariant |rows| == |table|
        invariant forall j :: 0 <= j < i ==> rows[j] == WithRevoked(table[j], table[j].family == family)
        invariant forall j :: i <= j < |rows| ==> rows[j] == table[j]
        invariant count == |Family(table[..i], family)|
      {
        assert table[..i + 1][..i] == table[..i];
        if rows[i].family == family {
          rows := rows[i := rows[i].(revoked := true)];
          count := count + 1;
        }
      }
      assert table[..|table|] == table;
    }

    method RevokeRefreshToken(token: TokenId) returns (found: bool)
      requires UniqueTokens(rows)
      modifies this`rows
      ensures rows == TokenRevoked(old(rows), token)
      ensures found == Find(old(rows), token).Some?
    {
      var at := Find(rows, token);
      found := at.Some?;
      if found {
        rows := rows[at.value := rows[at.value].(revoked := true)];
      }
    }

    /** The refresh service: changes the session's view only. */
    method Refresh(req: Request, issued: TokenId) returns (r: Result)
      requires UniqueTokens(rows) && Find(rows, issued).None?
      modifies this`rows
      ensures (rows, r) == Refreshed(old(rows), req, issued)
    {
      if !req.decodes {
        return Failed(InvalidToken);
      }
      var at := Find(rows, req.token);
      if at.None? {
        return Failed(NotFound);
      }
      var stored := rows[at.value];
      if stored.revoked {
        return Failed(Revoked);
      }
      if !req.userActive {
        return Failed(UserUnavailable);
      }
      var latest := LatestSequence(rows, stored.family);
      if latest > stored.sequence {
        var _ := RevokeFamily(stored.family);
        return Failed(ReuseDetected);
      }
      CreateRefreshToken(issued, stored.family, stored.sequence + 1);
      var _ := RevokeRefreshToken(req.token);
      return Issued(issued);
    }

    /** A whole refresh request: the session commits on an answer and rolls back on an error. */
    method HandleRefresh(req: Request, issued: TokenId) returns (r: Result)
      requires UniqueTokens(committed) && Find(committed, issued).None?
      modifies this
      ensures r == Refreshed(old(committed), req, issued).1
      ensures r == Issued(issued) <==>
              && req.decodes && req.userActive
              && exists i :: && 0 <= i < |old(committed)| && old(committed)[i].token == req.token
                             && !old(committed)[i].revoked
                             && forall j :: 0 <= j < |old(committed)|
                                            && old(committed)[j].family == old(committed)[i].family ==>
                                  old(committed)[j].sequence <= old(committed)[i].sequence
      ensures r == Issued(issued) ==>
                exists i :: && 0 <= i < |old(committed)| && old(committed)[i].token == req.token
                            && committed == old(committed)[i := old(committed)[i].(revoked := true)]
                                 + [Row(issued, old(committed)[i].family, old(committed)[i].sequence + 1, false)]
      ensures r != Issued(issued) ==> r.Failed? && committed == old(committed)
      ensures committed == rows == (if r.Issued? then Refreshed(old(committed), req, issued).0 else old(committed))
    {
      rows := committed;
      IssuedIff(committed, req, issued);
      r := Refresh(req, issued);
      if r.Issued? {
        IssuedRows(committed, req, issued, Find(committed, req.token).value);
        committed := rows;
      } else {
        rows := committed;
      }
    }

    method HandleLogin(token: TokenId, family: FamilyId)
      requires UniqueTokens(committed) && Find(committed, token).None?
      modifies this
      ensures committed == rows == old(committed) + [Row(token, family, 1, false)]
    {
      rows := committed;
      CreateRefreshToken(token, family, 1);
      committed := rows;
    }

    method HandleLogout(token: TokenId)
      requires UniqueTokens(committed)
      modifies this
      ensures committed == rows == TokenRevoked(old(committed), token)
    {
      rows := committed;
      var _ := RevokeRefreshToken(token);
      committed := rows;
    }
  }

  // ---------------------------------------------------------------- serial runs

  datatype Action =
    | Login(token: TokenId, family: FamilyId)
    | Refresh(req: Request, issued: TokenId)
    | Logout(token: TokenId)

  /** The committed table after one request; new token and family identifiers are new. */
  function Step(rows: seq<Row>, a: Action): Option<seq<Row>> {
    match a
    case Login(t, f) =>
      if Find(rows, t).Some? || |Family(rows, f)| > 0 then None else Some(rows + [Row(t, f, 1, false)])
    case Refresh(req, issued) =>
      if Find(rows, issued).Some? then None
      else
        var (after, r) := Refreshed(rows, req, issued);
        Some(if r.Issued? then after else rows)
    case Logout(t) => Some(TokenRevoked(rows, t))
  }

  /** The rows of one family, in the order they were issued. */
  function Family(rows: seq<Row>, family: FamilyId): seq<Row> {
    if rows == [] then []
    else
      var n := |rows| - 1;
      if rows[n].family == family then Family(rows[..n], family) + [rows[n]] else Family(rows[..n], family)
  }

  lemma {:induction false} FamilyMembers(rows: seq<Row>, f: FamilyId, i: nat)
    requires i < |rows| && rows[i].family == f
    ensures rows[i] in Family(rows, f)
    decreases |rows|
  {
    var n := |rows| - 1;
    if i < n {
      FamilyMembers(rows[..n], f, i);
    }
  }

  /** Sequences are exactly 1..n, one token each, and only token n can be live. */
  ghost predicate Chain(fam: seq<Row>) {
    forall k :: 0 <= k < |fam| ==>
      fam[k].sequence == k + 1 && (!fam[k].revoked ==> k == |fam| - 1)
  }

  ghost predicate Inv(rows: seq<Row>) {
    UniqueTokens(rows) && forall f :: Chain(Family(rows, f))
  }

  lemma {:induction false} FamilyOfRevoked(rows: seq<Row>, token: TokenId, f: FamilyId)
    ensures Family(TokenRevoked(rows, token), f) == TokenRevoked(Family(rows, f), token)
    decreases |rows|
  {
    if rows != [] {
      var n := |rows| - 1;
      FamilyOfRevoked(rows[..n], token, f);
      assert TokenRevoked(rows, token)[..n] == TokenRevoked(rows[..n], token);
    }
  }

  lemma FamilyAppend(rows: seq<Row>, row: Row, f: FamilyId)
    ensures Family(rows + [row], f) == if row.family == f then Family(rows, f) + [row] else Family(rows, f)
  {
    assert (rows + [row])[..|rows|] == rows;
  }

  /** The presented row ends its family, so no later sequence exists and reuse is not detected. */
  lemma LiveRowIsLast(rows: seq<Row>, i: nat)
    requires Inv(rows) && i < |rows| && !rows[i].revoked
    ensures var fam := Family(rows, rows[i].family);
            |fam| > 0 && fam[|fam| - 1] == rows[i] && rows[i].sequence == |fam|
    ensures LatestSequence(rows, rows[i].family) == rows[i].sequence
  {
    var f := rows[i].family;
    FamilyMembers(rows, f, i);
    assert Chain(Family(rows, f));
    var m := LatestSequence(rows, f);
    var j :| 0 <= j < |rows| && rows[j].family == f && rows[j].sequence == m;
    FamilyMembers(rows, f, j);
  }

  lemma ChainExtends(fam: seq<Row>, next: Row)
    requires Chain(fam) && |fam| > 0 && next.sequence == |fam| + 1
    ensures Chain(TokenRevoked(fam + [next], fam[|fam| - 1].token))
  {
  }

  lemma RotationKeepsChain(rows: seq<Row>, i: nat, next: Row, f: FamilyId)
    requires Inv(rows) && i < |rows| && !rows[i].revoked
    requires next.family == rows[i].family && next.sequence == rows[i].sequence + 1
    ensures Chain(Family(TokenRevoked(rows + [next], rows[i].token), f))
  {
    LiveRowIsLast(rows, i);
    FamilyAppend(rows, next, f);
    FamilyOfRevoked(rows + [next], rows[i].token, f);
    assert Chain(Family(rows, f));
    if f == next.family {
      ChainExtends(Family(rows, f), next);
    }
  }

  lemma StepKeepsInv(rows: seq<Row>, a: Action, rows': seq<Row>)
    requires Inv(rows) && Step(rows, a) == Some(rows')
    ensures Inv(rows')
  {
    forall f ensures Chain(Family(rows', f)) {
      assert Chain(Family(rows, f));
      if a.Login? {
        FamilyAppend(rows, Row(a.token, a.family, 1, false), f);
      } else if a.Logout? {
        FamilyOfRevoked(rows, a.token, f);
      } else if Refreshed(rows, a.req, a.issued).1.Issued? {
        var i := Find(rows, a.req.token).value;
        RotationKeepsChain(rows, i, Row(a.issued, rows[i].family, rows[i].sequence + 1, false), f);
      }
    }
    UniqueKept(rows, a, rows');
  }

  lemma UniqueKept(rows: seq<Row>, a: Action, rows': seq<Row>)
    requires UniqueTokens(rows) && Step(rows, a) == Some(rows')
    ensures UniqueTokens(rows')
  {
  }

  /** In every state that serial requests reach, each family's sequences are exactly 1..n with one
      token each, only token n can be live, and no request ever reports reuse. */
  lemma SerialRotation(actions: seq<Action>, rows: seq<Row>)
    requires Runs.Run(Step, [], actions) == Some(rows)
    ensures UniqueTokens(rows) && forall f :: Chain(Family(rows, f))
    ensures forall req, issued :: Refreshed(rows, req, issued).1 != Failed(ReuseDetected)
  {
    forall s, a | Inv(s) && Step(s, a).Some? ensures Inv(Step(s, a).value) {
      StepKeepsInv(s, a, Step(s, a).value);
    }
    Runs.RunPreserves(Step, Inv, [], actions);
    forall req, issued ensures Refreshed(rows, req, issued).1 != Failed(ReuseDetected) {
      var at := Find(rows, req.token);
      if at.Some? && !rows[at.value].revoked {
        LiveRowIsLast(rows, at.value);
      }
    }
  }

  // ---------------------------------------------------------------- tokens and families that are spent

  ghost predicate Spent(rows: seq<Row>, token: TokenId) {
    Find(rows, token).Some? && forall i :: 0 <= i < |rows| && rows[i].token == token ==> rows[i].revoked
  }

  ghost predicate Dead(rows: seq<Row>, f: FamilyId) {
    |Family(rows, f)| > 0 && forall i :: 0 <= i < |rows| && rows[i].family == f ==> rows[i].revoked
  }

  lemma StepKeepsSpent(rows: seq<Row>, a: Action, rows': seq<Row>, token: TokenId)
    requires Spent(rows, token) && Step(rows, a) == Some(rows')
    ensures Spent(rows', token)
  {
    assert exists i :: 0 <= i < |rows| && rows[i].token == token;
    var i :| 0 <= i < |rows| && rows[i].token == token;
    assert rows'[i].token == token;
  }

  /** Each token is redeemed at most once: after a successful refresh with it, whatever requests
      follow, presenting it again is answered with an error. */
  lemma RedeemedOnce(rows: seq<Row>, req: Request, issued: TokenId, later: seq<Action>, rows': seq<Row>,
                     again: Request, issuedAgain: TokenId)
    requires Step(rows, Refresh(req, issued)).Some? && Refreshed(rows, req, issued).1.Issued?
    requires Runs.Run(Step, Step(rows, Refresh(req, issued)).value, later) == Some(rows')
    requires again.token == req.token
    ensures Refreshed(rows', again, issuedAgain).1.Failed?
  {
    var after := Step(rows, Refresh(req, issued)).value;
    var i := Find(rows, req.token).value;
    assert after[i].token == req.token;
    var spent := (s: seq<Row>) => Spent(s, req.token);
    forall s, a | spent(s) && Step(s, a).Some? ensures spent(Step(s, a).value) {
      StepKeepsSpent(s, a, Step(s, a).value, req.token);
    }
    Runs.RunPreserves(Step, spent, after, later);
  }

  lemma StepKeepsDead(rows: seq<Row>, a: Action, rows': seq<Row>, f: FamilyId)
    requires Dead(rows, f) && Step(rows, a) == Some(rows')
    ensures Dead(rows', f)
  {
    if a.Logout? {
      FamilyOfRevoked(rows, a.token, f);
    } else if a.Login? {
      FamilyAppend(rows, Row(a.token, a.family, 1, false), f);
    } else if Refreshed(rows, a.req, a.issued).1.Issued? {
      var row := rows[Find(rows, a.req.token).value];
      var next := Row(a.issued, row.family, row.sequence + 1, false);
      assert row.family != f;
      FamilyAppend(rows, next, f);
      FamilyOfRevoked(rows + [next], a.req.token, f);
    }
  }

  lemma LogoutMakesDead(rows: seq<Row>, i: nat)
    requires Inv(rows) && i < |rows| && !rows[i].revoked
    ensures Dead(TokenRevoked(rows, rows[i].token), rows[i].family)
  {
    var f := rows[i].family;
    var after := TokenRevoked(rows, rows[i].token);
    LiveRowIsLast(rows, i);
    FamilyOfRevoked(rows, rows[i].token, f);
    forall j | 0 <= j < |after| && after[j].family == f ensures after[j].revoked {
      if !rows[j].revoked {
        LiveRowIsLast(rows, j);
      }
    }
  }

  lemma DeadStays(rows: seq<Row>, f: FamilyId, later: seq<Action>, rows': seq<Row>)
    requires Dead(rows, f) && Runs.Run(Step, rows, later) == Some(rows')
    ensures Dead(rows', f)
  {
    var dead := (s: seq<Row>) => Dead(s, f);
    forall s, a | Dead(s, f) && Step(s, a).Some? ensures Dead(Step(s, a).value, f) {
      StepKeepsDead(s, a, Step(s, a).value, f);
    }
    Runs.RunPreserves(Step, dead, rows, later);
  }

  lemma DeadIsNotRedeemed(rows: seq<Row>, f: FamilyId, req: Request, issued: TokenId)
    requires Dead(rows, f) && Refreshed(rows, req, issued).1.Issued?
    ensures rows[Find(rows, req.token).value].family != f
  {
  }

  /** Logging out with a family's live token kills the family: in every continuation all its
      tokens are revoked and none of them can be redeemed. */
  lemma LogoutKillsFamily(earlier: seq<Action>, rows: seq<Row>, i: nat, later: seq<Action>, rows': seq<Row>)
    requires Runs.Run(Step, [], earlier) == Some(rows)
    requires i < |rows| && !rows[i].revoked
    requires Runs.Run(Step, TokenRevoked(rows, rows[i].token), later) == Some(rows')
    ensures Dead(rows', rows[i].family)
    ensures forall req, issued :: Refreshed(rows', req, issued).1.Issued? ==>
              rows'[Find(rows', req.token).value].family != rows[i].family
  {
    SerialRotation(earlier, rows);
    LogoutMakesDead(rows, i);
    DeadStays(TokenRevoked(rows, rows[i].token), rows[i].family, later, rows');
    forall req, issued | Refreshed(rows', req, issued).1.Issued?
      ensures rows'[Find(rows', req.token).value].family != rows[i].family
    {
      DeadIsNotRedeemed(rows', rows[i].family, req, issued);
    }
  }

  /** On any table, reuse detection revokes the family in the session only: the request raises, the
      session is rolled back, and the committed table is as before, so the family's newest live token
      can still be redeemed.  Serial requests never reach such a table; overlapping ones do
      (`RefreshRaces.ReuseReachable`). */
  lemma ReuseRevocationIsLost(rows: seq<Row>, req: Request, issued: TokenId, i: nat)
    requires UniqueTokens(rows) && Find(rows, issued).None?
    requires Refreshed(rows, req, issued).1 == Failed(ReuseDetected)
    requires i < |rows| && !rows[i].revoked && rows[i].family == rows[Find(rows, req.token).value].family
    ensures Refreshed(rows, req, issued).0[i].revoked
    ensures Step(rows, Refresh(req, issued)) == Some(rows)
    ensures Refreshed(rows, Request(rows[i].token, true, true), issued).1 == Issued(issued) <==>
            LatestSequence(rows, rows[i].family) == rows[i].sequence
  {
    FindUnique(rows, i);
    assert LatestSequence(rows, rows[i].family) >= rows[i].sequence;
  }
}
