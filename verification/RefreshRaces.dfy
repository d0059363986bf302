/** Concurrent refresh requests, with the reads, the insert, the revocation and the commit of each
    transaction as separate steps.

    Every read sees the committed table (read committed isolation).  `RefreshTokens` proves what
    holds when requests do not overlap; here any interleaving is allowed. */
module RefreshRaces {
  import opened Options
  import Runs

  type TokenId = nat
  type FamilyId = nat
  type TxId = nat

  datatype Token = Token(family: FamilyId, sequence: nat, revoked: bool)

  datatype Phase = HasRead | HasChecked | HasInserted | HasRevoked | ReuseDetected | Finished

  /** A refresh transaction: what it read from the presented token's row, and the token it issues
      (`None` until its insert). */
  datatype Tx = Tx(
    phase: Phase, presented: TokenId, family: FamilyId, sequence: nat, readTick: nat, issued: Option<TokenId>)

  /** One committed refresh: which token it was given, and the span of its transaction. */
  datatype Redemption = Redemption(presented: TokenId, readTick: nat, commitTick: nat)

  datatype State = State(
    tick: nat,
    tokens: map<TokenId, Token>,
    txs: map<TxId, Tx>,
    used: set<TokenId>,
    redemptions: map<TokenId, Redemption>)

  datatype Action =
    | Login(token: TokenId, family: FamilyId)
    | Logout(token: TokenId)
    | Read(tx: TxId, token: TokenId)
    | CheckLatest(tx: TxId)
    | Insert(tx: TxId, issued: TokenId)
    | Revoke(tx: TxId)
    | Commit(tx: TxId)
    | Abort(tx: TxId)

  const EMPTY := State(0, map[], map[], {}, map[])

  predicate NewerExists(tokens: map<TokenId, Token>, family: FamilyId, sequence: nat) {
    exists t :: t in tokens && tokens[t].family == family && tokens[t].sequence > sequence
  }

  /** An uncommitted revocation holds its token's row lock: other updates of the row wait for it. */
  predicate RowFree(s: State, x: TxId, token: TokenId) {
    forall y :: y in s.txs && y != x && s.txs[y].presented == token ==> !s.txs[y].phase.HasRevoked?
  }

  function Move(s: State, t: TxId, tx: Tx): State {
    s.(txs := s.txs[t := tx], tick := s.tick + 1)
  }

  function TxStep(s: State, t: TxId, tx: Tx, a: Action): Option<State> {
    match a
    case CheckLatest(_) =>
      if !tx.phase.HasRead? then None
      else if NewerExists(s.tokens, tx.family, tx.sequence) then Some(Move(s, t, tx.(phase := ReuseDetected)))
      else Some(Move(s, t, tx.(phase := HasChecked)))
    case Insert(_, issued) =>
      if !tx.phase.HasChecked? || issued in s.used then None
      else Some(Move(s, t, tx.(phase := HasInserted, issued := Some(issued))).(used := s.used + {issued}))
    case Revoke(_) =>
      if !tx.phase.HasInserted? || !RowFree(s, t, tx.presented) then None
      else Some(Move(s, t, tx.(phase := HasRevoked)))
    case Commit(_) =>
      if !tx.phase.HasRevoked? || tx.issued.None? || tx.presented !in s.tokens then None
      else Some(Committing(s, t, tx, tx.issued.value))
    case Abort(_) => if tx.phase.Finished? then None else Some(Move(s, t, tx.(phase := Finished)))
    case _ => None
  }

  function Committing(s: State, t: TxId, tx: Tx, issued: TokenId): State
    requires tx.presented in s.tokens
  {
    Move(s, t, tx.(phase := Finished)).(
    tokens := s.tokens[issued := Token(tx.family, tx.sequence + 1, false)]
                      [tx.presented := s.tokens[tx.presented].(revoked := true)],
    redemptions := s.redemptions[issued := Redemption(tx.presented, tx.readTick, s.tick)])
  }

  function Step(s: State, a: Action): Option<State> {
    match a
    case Login(t, f) =>
      if t in s.used || exists u :: u in s.tokens && s.tokens[u].family == f then None
      else Some(s.(tokens := s.tokens[t := Token(f, 1, false)], used := s.used + {t}, tick := s.tick + 1))
    case Logout(t) =>
      if t !in s.tokens || exists y :: y in s.txs && s.txs[y].presented == t && s.txs[y].phase.HasRevoked? then None
      else Some(s.(tokens := s.tokens[t := s.tokens[t].(revoked := true)], tick := s.tick + 1))
    case Read(x, t) =>
      // an unknown or revoked token is refused here and leaves no transaction
      if x in s.txs || t !in s.tokens || s.tokens[t].revoked then None
      else Some(Move(s, x, Tx(HasRead, t, s.tokens[t].family, s.tokens[t].sequence, s.tick, None)))
    case _ => if a.tx in s.txs then TxStep(s, a.tx, s.txs[a.tx], a) else None
  }

  // ---------------------------------------------------------------- invariants

  predicate Running(tx: Tx) {
    !tx.phase.Finished?
  }

  ghost predicate TxOk(s: State, tx: Tx) {
    && tx.presented in s.tokens
    && s.tokens[tx.presented].family == tx.family
    && s.tokens[tx.presented].sequence == tx.sequence
    && tx.readTick < s.tick
    && (tx.issued.Some? ==> tx.issued.value in s.used && tx.issued.value !in s.tokens)
  }

  /** Whoever redeemed the token a running transaction presents committed after it was read. */
  ghost predicate ReadBeforeRedeemed(s: State) {
    forall x, u :: x in s.txs && Running(s.txs[x]) && u in s.redemptions &&
                   s.redemptions[u].presented == s.txs[x].presented ==>
                     s.txs[x].readTick < s.redemptions[u].commitTick
  }

  ghost predicate RedemptionOk(s: State, u: TokenId)
    requires u in s.redemptions
  {
    var r := s.redemptions[u];
    && u in s.tokens && r.presented in s.tokens
    && s.tokens[u].family == s.tokens[r.presented].family
    && s.tokens[u].sequence == s.tokens[r.presented].sequence + 1
    && s.tokens[r.presented].revoked
    && r.readTick < r.commitTick < s.tick
  }

  ghost predicate Roots(s: State) {
    && (forall t :: t in s.tokens ==> t in s.used && s.tokens[t].sequence >= 1)
    && (forall t :: t in s.tokens && t !in s.redemptions ==> s.tokens[t].sequence == 1)
    && (forall t, u ::
          t in s.tokens && u in s.tokens && t !in s.redemptions && u !in s.redemptions && t != u ==>
            s.tokens[t].family != s.tokens[u].family)
  }

  ghost predicate DistinctIssues(s: State) {
    forall x, y :: x in s.txs && y in s.txs && x != y && Running(s.txs[x]) && Running(s.txs[y]) ==>
      s.txs[x].issued.None? || s.txs[x].issued != s.txs[y].issued
  }

  /** Two committed refreshes overlap: each read its token before the other committed. */
  predicate Overlap(r: Redemption, q: Redemption) {
    r.readTick < q.commitTick && q.readTick < r.commitTick
  }

  ghost predicate SamePresentedOverlap(s: State) {
    forall t, u :: t in s.redemptions && u in s.redemptions && t != u &&
                   s.redemptions[t].presented == s.redemptions[u].presented ==>
      Overlap(s.redemptions[t], s.redemptions[u])
  }

  ghost predicate Inv(s: State) {
    && (forall x :: x in s.txs && Running(s.txs[x]) ==> TxOk(s, s.txs[x]))
    && (forall u :: u in s.redemptions ==> RedemptionOk(s, u))
    && Roots(s) && DistinctIssues(s) && ReadBeforeRedeemed(s) && SamePresentedOverlap(s)
  }

  lemma CommitKeepsTxs(s: State, x: TxId, issued: TokenId)
    requires Inv(s) && x in s.txs && Running(s.txs[x]) && s.txs[x].issued == Some(issued)
    ensures var s' := Committing(s, x, s.txs[x], issued);
            (forall y :: y in s'.txs && Running(s'.txs[y]) ==> TxOk(s', s'.txs[y])) &&
            DistinctIssues(s') && ReadBeforeRedeemed(s')
  {
    var s' := Committing(s, x, s.txs[x], issued);
    forall y | y in s'.txs && Running(s'.txs[y]) ensures TxOk(s', s'.txs[y]) {
      assert y != x && s'.txs[y] == s.txs[y] && TxOk(s, s.txs[y]);
    }
  }

  lemma CommitKeepsRedemptions(s: State, x: TxId, issued: TokenId, u: TokenId)
    requires Inv(s) && x in s.txs && Running(s.txs[x]) && s.txs[x].issued == Some(issued)
    requires u in s.redemptions || u == issued
    ensures RedemptionOk(Committing(s, x, s.txs[x], issued), u)
  {
    assert TxOk(s, s.txs[x]);
    if u != issued {
      assert RedemptionOk(s, u);
    }
  }

  lemma CommitKeepsRoots(s: State, x: TxId, issued: TokenId)
    requires Inv(s) && x in s.txs && Running(s.txs[x]) && s.txs[x].issued == Some(issued)
    ensures Roots(Committing(s, x, s.txs[x], issued))
  {
    assert TxOk(s, s.txs[x]);
  }

  lemma CommitKeepsTokens(s: State, x: TxId, issued: TokenId)
    requires Inv(s) && x in s.txs && Running(s.txs[x]) && s.txs[x].issued == Some(issued)
    ensures var s' := Committing(s, x, s.txs[x], issued);
            (forall u :: u in s'.redemptions ==> RedemptionOk(s', u)) && Roots(s')
  {
    CommitKeepsRoots(s, x, issued);
    forall u | u in Committing(s, x, s.txs[x], issued).redemptions
      ensures RedemptionOk(Committing(s, x, s.txs[x], issued), u)
    {
      CommitKeepsRedemptions(s, x, issued, u);
    }
  }

  lemma CommitKeepsOverlap(s: State, x: TxId, issued: TokenId)
    requires Inv(s) && x in s.txs && Running(s.txs[x]) && s.txs[x].issued == Some(issued)
    ensures SamePresentedOverlap(Committing(s, x, s.txs[x], issued))
  {
    forall u | u in s.redemptions && s.redemptions[u].presented == s.txs[x].presented
      ensures Overlap(s.redemptions[u], Redemption(s.txs[x].presented, s.txs[x].readTick, s.tick))
    {
      assert RedemptionOk(s, u);
    }
  }

  /** Steps that leave tokens and redemptions alone: one transaction moves, at most one token
      identifier is taken. */
  ghost predicate MovesOnly(s: State, s': State, x: TxId, after: Tx) {
    && s' == s.(txs := s.txs[x := after], used := s'.used, tick := s.tick + 1)
    && (if x in s.txs then
          (Running(after) ==> Running(s.txs[x])) && after.presented == s.txs[x].presented &&
          after.family == s.txs[x].family && after.sequence == s.txs[x].sequence &&
          after.readTick == s.txs[x].readTick
        else
          after.presented in s.tokens && !s.tokens[after.presented].revoked && after.readTick == s.tick &&
          after.family == s.tokens[after.presented].family &&
          after.sequence == s.tokens[after.presented].sequence && after.issued.None?)
    && ((s'.used == s.used && (x in s.txs ==> after.issued == s.txs[x].issued))
        || (after.issued.Some? && after.issued.value !in s.used && s'.used == s.used + {after.issued.value}))
  }

  lemma MoveShape(s: State, a: Action, s': State)
    requires Step(s, a) == Some(s') && !a.Login? && !a.Logout? && !a.Commit?
    ensures a.tx in s'.txs && MovesOnly(s, s', a.tx, s'.txs[a.tx])
  {
  }

  lemma MoveKeepsTxs(s: State, s': State, x: TxId, after: Tx)
    requires Inv(s) && MovesOnly(s, s', x, after)
    ensures forall y :: y in s'.txs && Running(s'.txs[y]) ==> TxOk(s', s'.txs[y])
    ensures DistinctIssues(s')
  {
    forall y | y in s'.txs && Running(s'.txs[y]) ensures TxOk(s', s'.txs[y]) {
      if y in s.txs {
        assert TxOk(s, s.txs[y]);
      }
    }
    forall y | y in s.txs && Running(s.txs[y]) && s.txs[y].issued.Some? ensures s.txs[y].issued.value in s.used {
      assert TxOk(s, s.txs[y]);
    }
  }

  lemma MoveKeepsRest(s: State, s': State, x: TxId, after: Tx)
    requires Inv(s) && MovesOnly(s, s', x, after)
    ensures forall u :: u in s'.redemptions ==> RedemptionOk(s', u)
    ensures Roots(s') && ReadBeforeRedeemed(s') && SamePresentedOverlap(s')
  {
    forall u | u in s'.redemptions ensures RedemptionOk(s', u) {
      assert RedemptionOk(s, u);
    }
  }

  /** Steps that change one token row and nothing else. */
  ghost predicate OneToken(s: State, s': State, t: TokenId) {
    && t in s'.tokens
    && s' == s.(tokens := s.tokens[t := s'.tokens[t]], used := s.used + {t}, tick := s.tick + 1)
    && (if t in s.tokens then s'.tokens[t] == s.tokens[t].(revoked := true)
        else
          t !in s.used && s'.tokens[t].sequence == 1 &&
          forall u :: u in s.tokens ==> s.tokens[u].family != s'.tokens[t].family)
  }

  lemma TokenKeepsRoots(s: State, s': State, t: TokenId)
    requires Inv(s) && OneToken(s, s', t)
    ensures Roots(s')
  {
  }

  lemma TokenKeepsRedemptions(s: State, s': State, t: TokenId)
    requires Inv(s) && OneToken(s, s', t)
    ensures forall u :: u in s'.redemptions ==> RedemptionOk(s', u)
  {
    forall u | u in s'.redemptions ensures RedemptionOk(s', u) {
      assert RedemptionOk(s, u);
    }
  }

  lemma TokenKeepsTxs(s: State, s': State, t: TokenId)
    requires Inv(s) && OneToken(s, s', t)
    ensures forall y :: y in s'.txs && Running(s'.txs[y]) ==> TxOk(s', s'.txs[y])
  {
    forall y | y in s'.txs && Running(s'.txs[y]) ensures TxOk(s', s'.txs[y]) {
      assert TxOk(s, s.txs[y]);
    }
  }

  lemma LoginKeepsInv(s: State, a: Action, s': State)
    requires Inv(s) && (a.Login? || a.Logout?) && Step(s, a) == Some(s')
    ensures Inv(s')
  {
    if a.Logout? {
      assert s.used + {a.token} == s.used;
    }
    TokenKeepsRoots(s, s', a.token);
    TokenKeepsRedemptions(s, s', a.token);
    TokenKeepsTxs(s, s', a.token);
  }

  lemma StepKeepsInv(s: State, a: Action, s': State)
    requires Inv(s) && Step(s, a) == Some(s')
    ensures Inv(s')
  {
    if a.Login? || a.Logout? {
      LoginKeepsInv(s, a, s');
    } else if a.Commit? {
      var issued := s.txs[a.tx].issued.value;
      CommitKeepsTxs(s, a.tx, issued);
      CommitKeepsTokens(s, a.tx, issued);
      CommitKeepsOverlap(s, a.tx, issued);
    } else {
      MoveShape(s, a, s');
      MoveKeepsTxs(s, s', a.tx, s'.txs[a.tx]);
      MoveKeepsRest(s, s', a.tx, s'.txs[a.tx]);
    }
  }

  lemma ReachableInv(actions: seq<Action>, s: State)
    requires Runs.Run(Step, EMPTY, actions) == Some(s)
    ensures Inv(s)
  {
    forall s0, a | Inv(s0) && Step(s0, a).Some? ensures Inv(Step(s0, a).value) {
      StepKeepsInv(s0, a, Step(s0, a).value);
    }
    Runs.RunPreserves(Step, Inv, EMPTY, actions);
  }

  // ---------------------------------------------------------------- row locks

  /** No token has two uncommitted revocations. */
  ghost predicate OneRevocation(s: State) {
    forall x, y :: x in s.txs && y in s.txs && x != y && s.txs[x].phase.HasRevoked? && s.txs[y].phase.HasRevoked? ==>
      s.txs[x].presented != s.txs[y].presented
  }

  lemma OneRevocationKept(s: State, a: Action, s': State)
    requires OneRevocation(s) && Step(s, a) == Some(s')
    ensures OneRevocation(s')
  {
    if !a.Login? && !a.Logout? {
      assert forall x :: x in s'.txs && x != a.tx ==> x in s.txs && s'.txs[x] == s.txs[x];
    }
  }

  /** In every run, while a refresh holds an uncommitted revocation no other one does for that token,
      and no step but its own commit changes the token's row. */
  lemma RevokedRowIsLocked(actions: seq<Action>, s: State, x: TxId, a: Action, s': State)
    requires Runs.Run(Step, EMPTY, actions) == Some(s)
    requires x in s.txs && s.txs[x].phase.HasRevoked?
    requires Step(s, a) == Some(s') && a != Commit(x)
    ensures forall y :: y in s.txs && y != x && s.txs[y].presented == s.txs[x].presented ==> !s.txs[y].phase.HasRevoked?
    ensures var t := s.txs[x].presented; t in s.tokens && t in s'.tokens && s'.tokens[t] == s.tokens[t]
  {
    ReachableInv(actions, s);
    forall s0, b | OneRevocation(s0) && Step(s0, b).Some? ensures OneRevocation(Step(s0, b).value) {
      OneRevocationKept(s0, b, Step(s0, b).value);
    }
    Runs.RunPreserves(Step, OneRevocation, EMPTY, actions);
    assert TxOk(s, s.txs[x]);
    if a.Commit? {
      assert TxOk(s, s.txs[a.tx]);
    }
  }

  // ---------------------------------------------------------------- families as chains

  /** No token was redeemed by two committed refreshes. */
  ghost predicate RedeemedOnce(s: State, family: FamilyId) {
    forall t, u :: t in s.redemptions && u in s.redemptions && t in s.tokens && t != u ==>
      s.tokens[t].family == family ==> s.redemptions[t].presented != s.redemptions[u].presented
  }

  lemma {:induction false} OneTokenPerSequence(s: State, t: TokenId, u: TokenId)
    requires Inv(s) && t in s.tokens && u in s.tokens
    requires s.tokens[t].family == s.tokens[u].family && s.tokens[t].sequence == s.tokens[u].sequence
    requires RedeemedOnce(s, s.tokens[t].family)
    ensures t == u
    decreases s.tokens[t].sequence
  {
    if t in s.redemptions && u in s.redemptions {
      assert RedemptionOk(s, t) && RedemptionOk(s, u);
      OneTokenPerSequence(s, s.redemptions[t].presented, s.redemptions[u].presented);
    }
  }

  /** With each token redeemed once, every token below another one of its family is revoked. */
  lemma {:induction false} LowerIsRevoked(s: State, low: TokenId, high: TokenId)
    requires Inv(s) && low in s.tokens && high in s.tokens
    requires s.tokens[low].family == s.tokens[high].family && s.tokens[low].sequence < s.tokens[high].sequence
    requires RedeemedOnce(s, s.tokens[low].family)
    ensures s.tokens[low].revoked
    decreases s.tokens[high].sequence
  {
    assert high in s.redemptions;
    assert RedemptionOk(s, high);
    var p := s.redemptions[high].presented;
    if s.tokens[p].sequence == s.tokens[low].sequence {
      OneTokenPerSequence(s, low, p);
    } else {
      LowerIsRevoked(s, low, p);
    }
  }

  /** What the reuse branch would detect, or two tokens usable at once. */
  ghost predicate Forked(s: State, family: FamilyId) {
    exists live, other ::
      live in s.tokens && other in s.tokens && live != other &&
      s.tokens[live].family == s.tokens[other].family == family && !s.tokens[live].revoked &&
      (!s.tokens[other].revoked || s.tokens[live].sequence < s.tokens[other].sequence)
  }

  /** A family holds two live tokens, or a live token below its maximum sequence, only if two
      committed refreshes that presented the same token overlapped in time. */
  lemma ForkNeedsOverlap(actions: seq<Action>, s: State, family: FamilyId) returns (t: TokenId, u: TokenId)
    requires Runs.Run(Step, EMPTY, actions) == Some(s)
    requires Forked(s, family)
    ensures t in s.redemptions && u in s.redemptions && t != u
    ensures t in s.tokens && s.tokens[t].family == family
    ensures s.redemptions[t].presented == s.redemptions[u].presented
    ensures Overlap(s.redemptions[t], s.redemptions[u])
  {
    ReachableInv(actions, s);
    if RedeemedOnce(s, family) {
      NotForked(s, family);
    }
    t, u :| t in s.redemptions && u in s.redemptions && t in s.tokens && s.tokens[t].family == family &&
            s.redemptions[t].presented == s.redemptions[u].presented && t != u;
  }

  lemma NotForked(s: State, family: FamilyId)
    requires Inv(s) && RedeemedOnce(s, family)
    ensures !Forked(s, family)
  {
    forall live, other | live in s.tokens && other in s.tokens && live != other &&
                         s.tokens[live].family == s.tokens[other].family == family && !s.tokens[live].revoked
      ensures s.tokens[other].revoked && s.tokens[other].sequence <= s.tokens[live].sequence
    {
      if s.tokens[other].sequence == s.tokens[live].sequence {
        OneTokenPerSequence(s, live, other);
      } else if s.tokens[live].sequence < s.tokens[other].sequence {
        LowerIsRevoked(s, live, other);
      } else {
        LowerIsRevoked(s, other, live);
      }
    }
  }

  /** Two refreshes of one token that commit both always overlapped: none starts after the other
      committed. */
  lemma DoubleRedemptionOverlaps(actions: seq<Action>, s: State, t: TokenId, u: TokenId)
    requires Runs.Run(Step, EMPTY, actions) == Some(s)
    requires t in s.redemptions && u in s.redemptions && t != u
    requires s.redemptions[t].presented == s.redemptions[u].presented
    ensures Overlap(s.redemptions[t], s.redemptions[u])
  {
    ReachableInv(actions, s);
  }

  /** Two transactions present token 0 of family 7; both are in phase `phase`. */
  function Racing(tick: nat, phase: Phase, issued: bool): State {
    State(tick, map[0 := Token(7, 1, false)],
          map[1 := Tx(phase, 0, 7, 1, 1, if issued then Some(10) else None),
              2 := Tx(phase, 0, 7, 1, 2, if issued then Some(20) else None)],
          if issued then {0, 10, 20} else {0}, map[])
  }

  lemma BothRead() returns (acts: seq<Action>, s: State)
    ensures Runs.Run(Step, EMPTY, acts) == Some(s) && s == Racing(3, HasRead, false)
  {
    acts, s := Runs.Extend(Step, EMPTY, [], EMPTY, Login(0, 7));
    assert s == State(1, map[0 := Token(7, 1, false)], map[], {0}, map[]);
    acts, s := Runs.Extend(Step, EMPTY, acts, s, Read(1, 0));
    assert s == State(2, map[0 := Token(7, 1, false)], map[1 := Tx(HasRead, 0, 7, 1, 1, None)], {0}, map[]);
    acts, s := Runs.Extend(Step, EMPTY, acts, s, Read(2, 0));
  }

  lemma BothCheck() returns (acts: seq<Action>, s: State)
    ensures Runs.Run(Step, EMPTY, acts) == Some(s) && s == Racing(5, HasChecked, false)
  {
    acts, s := BothRead();
    acts, s := Runs.Extend(Step, EMPTY, acts, s, CheckLatest(1));
    acts, s := Runs.Extend(Step, EMPTY, acts, s, CheckLatest(2));
  }

  lemma BothInsert() returns (acts: seq<Action>, s: State)
    ensures Runs.Run(Step, EMPTY, acts) == Some(s) && s == Racing(7, HasInserted, true)
  {
    acts, s := BothCheck();
    acts, s := Runs.Extend(Step, EMPTY, acts, s, Insert(1, 10));
    acts, s := Runs.Extend(Step, EMPTY, acts, s, Insert(2, 20));
  }

  function FirstRevoked(): State {
    var s := Racing(7, HasInserted, true);
    Move(s, 1, s.txs[1].(phase := HasRevoked))
  }

  function FirstCommitted(): State {
    var s := FirstRevoked();
    Committing(s, 1, s.txs[1], 10)
  }

  lemma FirstCommits() returns (acts: seq<Action>, s: State)
    ensures Runs.Run(Step, EMPTY, acts) == Some(s) && s == FirstCommitted()
  {
    acts, s := BothInsert();
    acts, s := Runs.Extend(Step, EMPTY, acts, s, Revoke(1));
    assert s == FirstRevoked();
    acts, s := Runs.Extend(Step, EMPTY, acts, s, Commit(1));
  }

  ghost predicate BothCommitted(s: State) {
    && s.tokens == map[0 := Token(7, 1, true), 10 := Token(7, 2, false), 20 := Token(7, 2, false)]
    && s.txs.Keys == {1, 2} && s.txs[1].phase.Finished? && s.txs[2].phase.Finished?
    && s.used == {0, 10, 20}
  }

  lemma BothCommit() returns (acts: seq<Action>, s: State)
    ensures Runs.Run(Step, EMPTY, acts) == Some(s) && BothCommitted(s)
  {
    acts, s := FirstCommits();
    acts, s := Runs.Extend(Step, EMPTY, acts, s, Revoke(2));
    acts, s := Runs.Extend(Step, EMPTY, acts, s, Commit(2));
  }

  /** The overlap does fork a family: two requests present token 0 and both commit. */
  lemma ForkReachable()
    ensures exists actions, s :: Runs.Run(Step, EMPTY, actions) == Some(s) && Forked(s, 7)
  {
    var acts, s := BothCommit();
    assert s.tokens[10] == s.tokens[20] == Token(7, 2, false);
  }

  // ---------------------------------------------------------------- reuse, detected and lost

  ghost predicate Redeemable(s: State, t: TokenId) {
    && t in s.tokens && !s.tokens[t].revoked
    && !NewerExists(s.tokens, s.tokens[t].family, s.tokens[t].sequence)
  }

  lemma RefreshToInsert(start: State, acts: seq<Action>, s: State, x: TxId, t: TokenId, issued: TokenId)
    returns (acts': seq<Action>, s': State)
    requires Runs.Run(Step, start, acts) == Some(s)
    requires x !in s.txs && Redeemable(s, t) && issued !in s.used
    ensures Runs.Run(Step, start, acts') == Some(s') && acts <= acts'
    ensures s'.tokens == s.tokens && s'.used == s.used + {issued}
    ensures x in s'.txs && s'.txs == s.txs[x := s'.txs[x]]
    ensures s'.txs[x].phase.HasInserted? && s'.txs[x].presented == t && s'.txs[x].issued == Some(issued)
    ensures s'.txs[x].family == s.tokens[t].family && s'.txs[x].sequence == s.tokens[t].sequence
  {
    acts', s' := Runs.Extend(Step, start, acts, s, Read(x, t));
    acts', s' := Runs.Extend(Step, start, acts', s', CheckLatest(x));
    acts', s' := Runs.Extend(Step, start, acts', s', Insert(x, issued));
  }

  lemma RefreshToRevoke(start: State, acts: seq<Action>, s: State, x: TxId, t: TokenId, issued: TokenId)
    returns (acts': seq<Action>, s': State)
    requires Runs.Run(Step, start, acts) == Some(s)
    requires x !in s.txs && Redeemable(s, t) && issued !in s.used && RowFree(s, x, t)
    ensures Runs.Run(Step, start, acts') == Some(s') && acts <= acts'
    ensures s'.tokens == s.tokens && s'.used == s.used + {issued}
    ensures x in s'.txs && s'.txs == s.txs[x := s'.txs[x]]
    ensures s'.txs[x].phase.HasRevoked? && s'.txs[x].presented == t && s'.txs[x].issued == Some(issued)
    ensures s'.txs[x].family == s.tokens[t].family && s'.txs[x].sequence == s.tokens[t].sequence
  {
    acts', s' := RefreshToInsert(start, acts, s, x, t, issued);
    acts', s' := Runs.Extend(Step, start, acts', s', Revoke(x));
  }

  /** A redeemable token whose row nobody has locked is redeemed by a whole refresh. */
  lemma RefreshGoesThrough(start: State, acts: seq<Action>, s: State, x: TxId, t: TokenId, issued: TokenId)
    returns (acts': seq<Action>, s': State)
    requires Runs.Run(Step, start, acts) == Some(s)
    requires x !in s.txs && Redeemable(s, t) && issued !in s.used && issued !in s.tokens && RowFree(s, x, t)
    ensures Runs.Run(Step, start, acts') == Some(s') && acts <= acts'
    ensures s'.tokens == s.tokens[issued := Token(s.tokens[t].family, s.tokens[t].sequence + 1, false)]
                                 [t := s.tokens[t].(revoked := true)]
    ensures s'.used == s.used + {issued} && x in s'.txs && s'.txs == s.txs[x := s'.txs[x]] && s'.txs[x].phase.Finished?
  {
    acts', s' := RefreshToRevoke(start, acts, s, x, t, issued);
    acts', s' := Runs.Extend(Step, start, acts', s', Commit(x));
  }

  /** The reuse branch is reached: the family forks, 10 is redeemed to 30, and then 20 is presented. */
  lemma ReuseReachable() returns (acts: seq<Action>, s: State)
    ensures Runs.Run(Step, EMPTY, acts) == Some(s)
    ensures 4 in s.txs && s.txs[4].phase.ReuseDetected? && s.txs[4].presented == 20
    ensures Redeemable(s, 30) && s.tokens[30].family == s.txs[4].family && RowFree(s, 5, 30)
    ensures 5 !in s.txs && 40 !in s.used && 40 !in s.tokens
  {
    acts, s := ForkAdvances();
    acts, s := Runs.Extend(Step, EMPTY, acts, s, Read(4, 20));
    assert s.tokens[30].sequence > s.tokens[20].sequence;
    acts, s := Runs.Extend(Step, EMPTY, acts, s, CheckLatest(4));
  }

  lemma ForkAdvances() returns (acts: seq<Action>, s: State)
    ensures Runs.Run(Step, EMPTY, acts) == Some(s)
    ensures s.tokens == map[0 := Token(7, 1, true), 10 := Token(7, 2, true), 20 := Token(7, 2, false),
                            30 := Token(7, 3, false)]
    ensures s.txs.Keys == {1, 2, 3} && s.used == {0, 10, 20, 30}
    ensures forall x :: x in s.txs ==> s.txs[x].phase.Finished?
  {
    acts, s := BothCommit();
    acts, s := RefreshGoesThrough(EMPTY, acts, s, 3, 10, 30);
  }

  /** The revocation that detected reuse writes is rolled back with its request, so whatever family
      it was for, the family's newest live token is redeemed as before. */
  lemma ReuseLeavesNewestRedeemable(start: State, acts: seq<Action>, s: State, x: TxId, t: TokenId,
                                    y: TxId, issued: TokenId)
    returns (acts': seq<Action>, s': State)
    requires Runs.Run(Step, start, acts) == Some(s)
    requires x in s.txs && s.txs[x].phase.ReuseDetected? && Redeemable(s, t) && s.tokens[t].family == s.txs[x].family
    requires y !in s.txs && issued !in s.used && issued !in s.tokens && RowFree(s, y, t)
    ensures Runs.Run(Step, start, acts') == Some(s') && acts + [Abort(x)] <= acts'
    ensures issued in s'.tokens && s'.tokens[issued] == Token(s.tokens[t].family, s.tokens[t].sequence + 1, false)
  {
    acts', s' := Runs.Extend(Step, start, acts, s, Abort(x));
    acts', s' := RefreshGoesThrough(start, acts', s', y, t, issued);
  }

  /** A transaction that detected reuse never changes a token: all it can still do is roll back. */
  lemma DetectedReuseOnlyRollsBack(s: State, a: Action, x: TxId)
    requires x in s.txs && s.txs[x].phase.ReuseDetected? && Step(s, a).Some?
    requires !a.Login? && !a.Logout? && !a.Read? && a.tx == x
    ensures a == Abort(x) && Step(s, a).value.tokens == s.tokens
  {
  }
}
