/** The same operations as interleaved requests: each table or store access is one step.
    Whole operations keep every refresh token with a verified account (AccountLaws); here
    the steps show exactly where concurrency lets one escape. */
module AuthRaces {
  import opened Tokens
  import opened TokenLaws
  import opened Accounts
  import opened AccountLaws
  import opened Options

  type RequestId = nat

  /** Where a request stands between two accesses.  Login: ProveMailbox, having matched an unverified
      row and its invitation.  VerifyEmailByToken: MarkByLink, having resolved its link, then ReadBack.
      Register: Reclaim, having met a stale row, then Reinsert.  Refresh: SwapCheck, having accepted the
      token, then SwapRevoke, having found the account.  All of them: IssueFor, about to store a token. */
  datatype Stage =
    | ProveMailbox(user: UserId)
    | MarkByLink(user: UserId)
    | ReadBack(user: UserId)
    | Reclaim(user: UserId, email: string, password: string, auto: bool)
    | Reinsert(email: string, password: string, auto: bool)
    | SwapCheck(user: UserId, presented: string)
    | SwapRevoke(user: UserId, presented: string)
    | IssueFor(user: UserId)

  /** used holds every account id ever given out. */
  datatype State = State(users: map<UserId, UserRow>, refresh: map<string, Time>, used: set<UserId>,
                         requests: map<RequestId, Stage>)

  datatype Action =
    | LoginReads(q: RequestId, user: UserId, password: string, proven: bool)
    | LoginProves(q: RequestId)
    | LinkReads(q: RequestId, user: UserId)
    | LinkMarks(q: RequestId)
    | LinkReadsBack(q: RequestId)
    | RegisterInserts(q: RequestId, email: string, password: string, auto: bool, id: UserId, now: Time)
    | RegisterReads(q: RequestId, user: UserId, email: string, password: string, auto: bool, now: Time)
    | ReclaimDeletes(q: RequestId)
    | Reinserts(q: RequestId, id: UserId, now: Time)
    | RefreshReads(q: RequestId, user: UserId, presented: string, now: Time)
    | SwapReads(q: RequestId)
    | SwapRevokes(q: RequestId)
    | Issues(q: RequestId, token: string, now: Time)
    | ResetsPassword(user: UserId, password: string)
    | RevokesAll(user: UserId)

  predicate At(s: State, q: RequestId, stage: Stage) { q in s.requests && s.requests[q] == stage }

  /** A new account's id was never given out; it is a UUID, so it has no colon. */
  predicate IsFresh(s: State, id: UserId) { id !in s.used && ':' !in id }

  ghost predicate Enabled(s: State, a: Action) {
    match a
    case LoginReads(q, u, password, proven) =>
      q !in s.requests && u in s.users && s.users[u].password == Hash(password) && (s.users[u].verified || proven)
    case LoginProves(q) => q in s.requests && s.requests[q].ProveMailbox?
    case LinkReads(q, u) => q !in s.requests && u in s.used
    case LinkMarks(q) => q in s.requests && s.requests[q].MarkByLink?
    case LinkReadsBack(q) => q in s.requests && s.requests[q].ReadBack?
    case RegisterInserts(q, email, _, _, id, _) =>
      q !in s.requests && !HasEmail(s.users, email) && IsFresh(s, id)
    case RegisterReads(q, u, email, _, _, now) =>
      q !in s.requests && OwnsEmail(s.users, u, email) && Reclaimable(s.users[u], now)
    case ReclaimDeletes(q) => q in s.requests && s.requests[q].Reclaim?
    case Reinserts(q, id, _) => q in s.requests && s.requests[q].Reinsert? && IsFresh(s, id)
    case RefreshReads(q, u, presented, now) =>
      q !in s.requests && RefreshKey(u, presented) in s.refresh && now < s.refresh[RefreshKey(u, presented)]
    case SwapReads(q) => q in s.requests && s.requests[q].SwapCheck?
    case SwapRevokes(q) => q in s.requests && s.requests[q].SwapRevoke?
    case Issues(q, _, _) => q in s.requests && s.requests[q].IssueFor?
    case ResetsPassword(u, _) => u in s.users && s.users[u].verified
    case RevokesAll(_) => true
  }

  function Go(s: State, q: RequestId, stage: Stage): State { s.(requests := s.requests[q := stage]) }

  function End(s: State, q: RequestId): State { s.(requests := s.requests - {q}) }

  function Insert(s: State, q: RequestId, id: UserId, row: UserRow): State {
    var b := s.(users := s.users[id := row], used := s.used + {id});
    if row.verified then Go(b, q, IssueFor(id)) else End(b, q)
  }

  ghost function After(s: State, a: Action): State
    requires Enabled(s, a)
  {
    match a
    case LoginReads(q, u, _, _) => Go(s, q, if s.users[u].verified then IssueFor(u) else ProveMailbox(u))
    case LoginProves(q) =>
      var u := s.requests[q].user;
      Go(s.(users := MarkVerified(s.users, u)), q, IssueFor(u))
    case LinkReads(q, u) => Go(s, q, MarkByLink(u))
    case LinkMarks(q) =>
      var u := s.requests[q].user;
      Go(s.(users := MarkVerified(s.users, u)), q, ReadBack(u))
    case LinkReadsBack(q) =>
      var u := s.requests[q].user;
      if u in s.users then Go(s, q, IssueFor(u)) else End(s, q)
    case RegisterInserts(q, email, password, auto, id, now) =>
      Insert(s, q, id, UserRow(email, Hash(password), auto, now))
    case RegisterReads(q, u, email, password, auto, _) => Go(s, q, Reclaim(u, email, password, auto))
    case ReclaimDeletes(q) =>
      var Reclaim(u, email, password, auto) := s.requests[q];
      Go(s.(users := DeleteUnverified(s.users, u)), q, Reinsert(email, password, auto))
    case Reinserts(q, id, now) =>
      var Reinsert(email, password, auto) := s.requests[q];
      if HasEmail(s.users, email) then End(s, q)
      else Insert(s, q, id, UserRow(email, Hash(password), auto, now))
    case RefreshReads(q, u, presented, _) => Go(s, q, SwapCheck(u, presented))
    case SwapReads(q) =>
      var SwapCheck(u, presented) := s.requests[q];
      if u !in s.users then End(s, q)
      else if !s.users[u].verified then End(s.(refresh := WithoutKey(s.refresh, RefreshKey(u, presented))), q)
      else Go(s, q, SwapRevoke(u, presented))
    case SwapRevokes(q) =>
      var SwapRevoke(u, presented) := s.requests[q];
      Go(s.(refresh := WithoutKey(s.refresh, RefreshKey(u, presented))), q, IssueFor(u))
    case Issues(q, token, now) =>
      var u := s.requests[q].user;
      End(s.(refresh := s.refresh[RefreshKey(u, token) := now + REFRESH_TOKEN_DURATION]), q)
    case ResetsPassword(u, password) => s.(users := s.users[u := s.users[u].(password := Hash(password))])
    case RevokesAll(u) => s.(refresh := map k | k in s.refresh && !(u + ":" <= k) :: s.refresh[k])
  }

  predicate IsVerified(users: map<UserId, UserRow>, u: UserId) { u in users && users[u].verified }

  /** Every stored refresh token belongs to an existing verified account. */
  ghost predicate TokensOwned(s: State) {
    forall k :: k in s.refresh ==> Owned(s.users, k)
  }

  predicate StageClean(s: State, stage: Stage) {
    match stage
    case IssueFor(u) => IsVerified(s.users, u)
    case SwapRevoke(u, _) => IsVerified(s.users, u)
    case ReadBack(u) => u in s.used && (u in s.users ==> s.users[u].verified)
    case MarkByLink(u) => u in s.used
    case ProveMailbox(u) => u in s.used
    case _ => true
  }

  /** No request stands where only a verified account leads, without that account; ids have no colon. */
  ghost predicate Clean(s: State) {
    && (forall q :: q in s.requests ==> StageClean(s, s.requests[q]))
    && s.users.Keys <= s.used
    && (forall u :: u in s.used ==> ':' !in u)
  }

  /** Login proves a mailbox whose account is gone: the update touches no row, which the code
      does not notice. */
  predicate Orphans(s: State, a: Action) {
    a.LoginProves? && a.q in s.requests && s.requests[a.q].ProveMailbox? && s.requests[a.q].user !in s.users
  }

  predicate IsLost(s: State, stage: Stage) {
    stage.IssueFor? && stage.user in s.used && stage.user !in s.users
  }

  /** Clean but for requests that were orphaned: these are about to issue a token for an id that was given
      out and is no account any more. */
  ghost predicate CleanBut(s: State, lost: set<RequestId>) {
    && (forall q :: q in s.requests && q !in lost ==> StageClean(s, s.requests[q]))
    && (forall q :: q in lost ==> q in s.requests && IsLost(s, s.requests[q]))
    && s.users.Keys <= s.used
    && (forall u :: u in s.used ==> ':' !in u)
  }

  /** The orphaned requests under way after an action. */
  function LostAfter(s: State, a: Action, lost: set<RequestId>): set<RequestId> {
    if Orphans(s, a) then lost + {a.q}
    else if a.Issues? then lost - {a.q}
    else lost
  }

  ghost predicate UsersGrow(s: State, t: State) {
    VerifiedKept(s.users, t.users) && s.used <= t.used &&
    forall u :: u in t.users && u in s.used ==> u in s.users
  }

  lemma UsersOnlyGrow(s: State, a: Action)
    requires Enabled(s, a) && s.users.Keys <= s.used
    ensures UsersGrow(s, After(s, a)) && After(s, a).users.Keys <= After(s, a).used
  {}

  lemma IdsStayPlain(s: State, a: Action)
    requires Enabled(s, a) && forall u :: u in s.used ==> ':' !in u
    ensures forall u :: u in After(s, a).used ==> ':' !in u
  {}

  lemma OtherStagesStayClean(s: State, t: State, stage: Stage)
    requires StageClean(s, stage) && UsersGrow(s, t)
    ensures StageClean(t, stage)
  {}

  lemma LostStaysLost(s: State, t: State, stage: Stage)
    requires IsLost(s, stage) && UsersGrow(s, t)
    ensures IsLost(t, stage)
  {}

  /** Only the request that acts changes its stage. */
  lemma OthersStandStill(s: State, a: Action, q: RequestId)
    requires Enabled(s, a) && (a.ResetsPassword? || a.RevokesAll? || a.q != q)
    ensures q in After(s, a).requests <==> q in s.requests
    ensures q in s.requests ==> After(s, a).requests[q] == s.requests[q]
  {}

  lemma OwnStageIsClean(s: State, a: Action)
    requires Enabled(s, a) && !Orphans(s, a) && !a.ResetsPassword? && !a.RevokesAll?
    requires s.users.Keys <= s.used && (a.q in s.requests ==> StageClean(s, s.requests[a.q]))
    requires a.q in After(s, a).requests
    ensures StageClean(After(s, a), After(s, a).requests[a.q])
  {}

  /** An orphaned request can do nothing but issue its token. */
  lemma LostCanOnlyIssue(s: State, a: Action)
    requires Enabled(s, a) && !a.ResetsPassword? && !a.RevokesAll?
    requires a.q in s.requests && s.requests[a.q].IssueFor?
    ensures a.Issues? && a.q !in After(s, a).requests
  {}

  lemma OrphaningLosesRequest(s: State, a: Action)
    requires Enabled(s, a) && Orphans(s, a) && StageClean(s, s.requests[a.q])
    ensures a.q in After(s, a).requests && IsLost(After(s, a), After(s, a).requests[a.q])
  {}

  lemma RequestStaysAccounted(s: State, a: Action, lost: set<RequestId>, q: RequestId)
    requires Enabled(s, a) && CleanBut(s, lost)
    ensures var t := After(s, a);
            && (q in t.requests && q !in LostAfter(s, a, lost) ==> StageClean(t, t.requests[q]))
            && (q in LostAfter(s, a, lost) ==> q in t.requests && IsLost(t, t.requests[q]))
  {
    var t := After(s, a);
    UsersOnlyGrow(s, a);
    if a.ResetsPassword? || a.RevokesAll? || a.q != q {
      OthersStandStill(s, a, q);
      if q in s.requests && q !in lost { OtherStagesStayClean(s, t, s.requests[q]); }
      if q in lost { LostStaysLost(s, t, s.requests[q]); }
    } else if q in lost {
      LostCanOnlyIssue(s, a);
    } else if Orphans(s, a) {
      OrphaningLosesRequest(s, a);
    } else if q in t.requests {
      OwnStageIsClean(s, a);
    }
  }

  lemma StepStaysAccounted(s: State, a: Action, lost: set<RequestId>)
    requires Enabled(s, a) && CleanBut(s, lost)
    ensures CleanBut(After(s, a), LostAfter(s, a, lost))
  {
    UsersOnlyGrow(s, a);
    IdsStayPlain(s, a);
    forall q {
      RequestStaysAccounted(s, a, lost, q);
    }
  }

  // ---- stored tokens

  lemma NewTokens(s: State, a: Action, k: string)
    requires Enabled(s, a) && k in After(s, a).refresh && k !in s.refresh
    ensures a.Issues? && k == RefreshKey(s.requests[a.q].user, a.token)
  {}

  lemma IssuedToken(s: State, a: Action)
    requires Enabled(s, a) && a.Issues?
    ensures RefreshKey(s.requests[a.q].user, a.token) in After(s, a).refresh && After(s, a).users == s.users
  {}

  /** A key names its user: no account with another id owns it. */
  lemma OwnerIsUser(users: map<UserId, UserRow>, u: UserId, token: string)
    requires ':' !in u && forall v :: v in users ==> ':' !in v
    ensures Owned(users, RefreshKey(u, token)) <==> IsVerified(users, u)
  {
    forall v | v in users ensures v + ":" <= RefreshKey(u, token) <==> v == u {
      RefreshKeysDiffer(v, u, token);
    }
  }

  /** One step leaves every stored token owned exactly when it is not an orphaned request's issue. */
  lemma StepKeepsTokensOwnedExactly(s: State, a: Action, lost: set<RequestId>)
    requires Enabled(s, a) && CleanBut(s, lost) && TokensOwned(s)
    ensures TokensOwned(After(s, a)) <==> !(a.Issues? && a.q in lost)
  {
    var t := After(s, a);
    UsersOnlyGrow(s, a);
    if a.Issues? {
      var u := s.requests[a.q].user;
      IssuedToken(s, a);
      assert StageClean(s, s.requests[a.q]) || IsLost(s, s.requests[a.q]);
      OwnerIsUser(t.users, u, a.token);
    }
    if !(a.Issues? && a.q in lost) {
      forall k | k in t.refresh ensures Owned(t.users, k) {
        if k in s.refresh { OwnedStaysOwned(s.users, t.users, k); } else { NewTokens(s, a, k); }
      }
    }
  }

  // ---- runs

  ghost predicate CanRun(s: State, actions: seq<Action>)
    decreases |actions|
  {
    actions == [] || (Enabled(s, actions[0]) && CanRun(After(s, actions[0]), actions[1..]))
  }

  /** Every stored token is owned in every state of the run. */
  ghost predicate OwnedThroughout(s: State, actions: seq<Action>)
    requires CanRun(s, actions)
    decreases |actions|
  {
    TokensOwned(s) && (actions == [] || OwnedThroughout(After(s, actions[0]), actions[1..]))
  }

  /** Some request of lost, or one orphaned in the run, gets as far as storing its token. */
  ghost predicate LostIssues(s: State, actions: seq<Action>, lost: set<RequestId>)
    requires CanRun(s, actions)
    decreases |actions|
  {
    actions != [] &&
    var a := actions[0];
    (a.Issues? && a.q in lost) || LostIssues(After(s, a), actions[1..], LostAfter(s, a, lost))
  }

  lemma {:induction false} OwnedUntilLostIssues(s: State, actions: seq<Action>, lost: set<RequestId>)
    requires CleanBut(s, lost) && TokensOwned(s) && CanRun(s, actions)
    ensures OwnedThroughout(s, actions) <==> !LostIssues(s, actions, lost)
    decreases |actions|
  {
    if actions != [] {
      var a := actions[0];
      StepKeepsTokensOwnedExactly(s, a, lost);
      StepStaysAccounted(s, a, lost);
      if !(a.Issues? && a.q in lost) {
        OwnedUntilLostIssues(After(s, a), actions[1..], LostAfter(s, a, lost));
      }
    }
  }

  /** Over every interleaving, stored refresh tokens stay with verified accounts exactly as long as no
      invited login that marked an account deleted meanwhile gets to store its token. */
  lemma TokensEscapeOnlyByOrphaning(s: State, actions: seq<Action>)
    requires Clean(s) && TokensOwned(s) && CanRun(s, actions)
    ensures OwnedThroughout(s, actions) <==> !LostIssues(s, actions, {})
  {
    OwnedUntilLostIssues(s, actions, {});
  }

  predicate Inserts(a: Action) { a.RegisterInserts? || a.Reinserts? }

  /** An account keeps its address; a new one has an address that no other has. */
  lemma AddressAfter(s: State, a: Action, u: UserId)
    requires Enabled(s, a) && u in After(s, a).users
    ensures var email := After(s, a).users[u].email;
            (u in s.users && s.users[u].email == email) || (Inserts(a) && u == a.id && !HasEmail(s.users, email))
  {}

  lemma ActionKeepsEmails(s: State, a: Action)
    requires Enabled(s, a) && EmailsUnique(s.users)
    ensures EmailsUnique(After(s, a).users)
  {
    var users := After(s, a).users;
    forall u, v | u in users && v in users && users[u].email == users[v].email ensures u == v {
      AddressAfter(s, a, u);
      AddressAfter(s, a, v);
    }
  }

  ghost function Run(s: State, actions: seq<Action>): State
    requires CanRun(s, actions)
    decreases |actions|
  {
    if actions == [] then s else Run(After(s, actions[0]), actions[1..])
  }

  /** In every interleaving two accounts have different addresses. */
  lemma {:induction false} RunKeepsEmails(s: State, actions: seq<Action>)
    requires CanRun(s, actions) && EmailsUnique(s.users)
    ensures forall u, v :: u in Run(s, actions).users && v in Run(s, actions).users && u != v ==>
              Run(s, actions).users[u].email != Run(s, actions).users[v].email
    decreases |actions|
  {
    if actions != [] {
      ActionKeepsEmails(s, actions[0]);
      RunKeepsEmails(After(s, actions[0]), actions[1..]);
    }
  }

  lemma RunOf(s: State, a: Action, rest: seq<Action>)
    requires Enabled(s, a) && CanRun(After(s, a), rest)
    ensures CanRun(s, [a] + rest) && Run(s, [a] + rest) == Run(After(s, a), rest)
  {
    assert ([a] + rest)[1..] == rest;
  }

  lemma RunOfFive(s0: State, a0: Action, a1: Action, a2: Action, a3: Action, a4: Action)
    requires Enabled(s0, a0) && Enabled(After(s0, a0), a1) && Enabled(After(After(s0, a0), a1), a2)
    requires var s3 := After(After(After(s0, a0), a1), a2); Enabled(s3, a3) && Enabled(After(s3, a3), a4)
    ensures CanRun(s0, [a0, a1, a2, a3, a4])
    ensures Run(s0, [a0, a1, a2, a3, a4]) == After(After(After(After(After(s0, a0), a1), a2), a3), a4)
  {
    var s1 := After(s0, a0);
    var s2 := After(s1, a1);
    var s3 := After(s2, a2);
    var s4 := After(s3, a3);
    RunOf(s4, a4, []);
    RunOf(s3, a3, [a4] + []);
    RunOf(s2, a2, [a3] + ([a4] + []));
    RunOf(s1, a1, [a2] + ([a3] + ([a4] + [])));
    RunOf(s0, a0, [a1] + ([a2] + ([a3] + ([a4] + []))));
    assert [a0] + ([a1] + ([a2] + ([a3] + ([a4] + [])))) == [a0, a1, a2, a3, a4];
  }

  /** The escape is reachable: an invited login and a re-registration of a stale unverified
      address, overlapping, leave a stored token that no account owns. */
  lemma InvitedLoginRacesReclaim(u: UserId, email: string, password: string, token: string)
    requires ':' !in u
    ensures var row := UserRow(email, Hash(password), false, 0);
            var s := State(map[u := row], map[], {u}, map[]);
            var now := UNVERIFIED_RECLAIM_AFTER + 1;
            var actions := [LoginReads(0, u, password, true), RegisterReads(1, u, email, "pw", false, now),
                            ReclaimDeletes(1), LoginProves(0), Issues(0, token, now)];
            && Clean(s) && TokensOwned(s) && CanRun(s, actions)
            && RefreshKey(u, token) in Run(s, actions).refresh
            && !Owned(Run(s, actions).users, RefreshKey(u, token))
  {
    var row := UserRow(email, Hash(password), false, 0);
    var now := UNVERIFIED_RECLAIM_AFTER + 1;
    var s0 := State(map[u := row], map[], {u}, map[]);
    var a0, a1, a2, a3, a4 := LoginReads(0, u, password, true), RegisterReads(1, u, email, "pw", false, now),
                              ReclaimDeletes(1), LoginProves(0), Issues(0, token, now);
    var s1 := After(s0, a0);
    var s2 := After(s1, a1);
    var s3 := After(s2, a2);
    assert s3.users == map[];
    var s4 := After(s3, a3);
    var s5 := After(s4, a4);
    assert s5.users == map[] && RefreshKey(u, token) in s5.refresh;
    RunOfFive(s0, a0, a1, a2, a3, a4);
  }

  // ---- requests that nobody interrupts

  lemma {:induction false} Then(s: State, steps: seq<Action>, a: Action)
    requires CanRun(s, steps) && Enabled(Run(s, steps), a)
    ensures CanRun(s, steps + [a]) && Run(s, steps + [a]) == After(Run(s, steps), a)
    decreases |steps|
  {
    if steps == [] {
      assert [] + [a] == [a] && [a][1..] == [];
    } else {
      assert (steps + [a])[1..] == steps[1..] + [a];
      Then(After(s, steps[0]), steps[1..], a);
    }
  }

  /** The tables are those of the account service. */
  predicate Shows(s: State, a: Auth) { s.users == a.users && s.refresh == a.tokens.refresh }

  /** The steps come to what the operation makes of the tables, and leave no request behind. */
  ghost predicate ComeTo(s: State, steps: seq<Action>, b: Auth) {
    CanRun(s, steps) && Shows(Run(s, steps), b) && Run(s, steps).requests == s.requests
  }

  lemma IssueAlone(s: State, q: RequestId, user: UserId, a: Auth, token: string, now: Time)
    requires Shows(s, a) && At(s, q, IssueFor(user))
    ensures var t := After(s, Issues(q, token, now));
            Shows(t, IssueSession(a, user, token, now)) && t.requests == s.requests - {q}
  {}

  /** A refresh that nobody interrupts begins if and only if the token is valid, and comes to Refresh. */
  lemma AloneIsRefresh(s: State, a: Auth, q: RequestId, presented: string, subject: UserId, token: string, now: Time)
    returns (steps: seq<Action>)
    requires Shows(s, a) && q !in s.requests
    ensures var (b, r) := Refresh(a, presented, subject, token, now);
            && ComeTo(s, steps, b)
            && (steps != [] <==> Enabled(s, RefreshReads(q, subject, presented, now)))
            && (r.Ok? <==> steps != [] && steps[|steps| - 1] == Issues(q, token, now))
  {
    var first := RefreshReads(q, subject, presented, now);
    steps := [];
    if Enabled(s, first) {
      Then(s, steps, first);
      steps := steps + [first];
      Then(s, steps, SwapReads(q));
      steps := steps + [SwapReads(q)];
      if subject in s.users && s.users[subject].verified {
        Then(s, steps, SwapRevokes(q));
        steps := steps + [SwapRevokes(q)];
        var b := a.(tokens := RevokeRefreshToken(a.tokens, subject, presented));
        IssueAlone(Run(s, steps), q, subject, b, token, now);
        Then(s, steps, Issues(q, token, now));
        steps := steps + [Issues(q, token, now)];
      }
    }
  }

  /** A login that nobody interrupts begins if and only if Login lets the account in, and comes to that. */
  lemma AloneIsLogin(s: State, a: Auth, q: RequestId, user: UserId, password: string, proven: bool, token: string,
                     now: Time)
    returns (steps: seq<Action>)
    requires Shows(s, a) && q !in s.requests && user in s.users
    ensures var (b, r) := Login(a, Some(user), password, proven, token, now);
            ComeTo(s, steps, b) && (r.Ok? <==> Enabled(s, LoginReads(q, user, password, proven)))
  {
    var first := LoginReads(q, user, password, proven);
    steps := [];
    if Enabled(s, first) {
      Then(s, steps, first);
      steps := steps + [first];
      var b := a;
      if !s.users[user].verified {
        Then(s, steps, LoginProves(q));
        steps := steps + [LoginProves(q)];
        b := a.(users := MarkVerified(a.users, user));
      }
      IssueAlone(Run(s, steps), q, user, b, token, now);
      Then(s, steps, Issues(q, token, now));
      steps := steps + [Issues(q, token, now)];
    }
  }

  /** A verification that nobody interrupts comes to VerifyEmailByToken. */
  lemma AloneIsVerify(s: State, a: Auth, q: RequestId, link: string, token: string, now: Time)
    returns (steps: seq<Action>)
    requires Shows(s, a) && q !in s.requests
    requires var who := UserByVerificationToken(a.tokens, link, now); who.Some? ==> who.value in s.used
    ensures ComeTo(s, steps, VerifyEmailByToken(a, link, token, now).0)
  {
    var who := UserByVerificationToken(a.tokens, link, now);
    steps := [];
    if who.Some? {
      var u, b := who.value, Auth(MarkVerified(a.users, who.value), DeleteVerificationToken(a.tokens, link));
      Then(s, steps, LinkReads(q, u));
      steps := steps + [LinkReads(q, u)];
      Then(s, steps, LinkMarks(q));
      steps := steps + [LinkMarks(q)];
      Then(s, steps, LinkReadsBack(q));
      steps := steps + [LinkReadsBack(q)];
      if u in s.users {
        IssueAlone(Run(s, steps), q, u, b, token, now);
        Then(s, steps, Issues(q, token, now));
        steps := steps + [Issues(q, token, now)];
      }
    }
  }

  lemma InsertAlone(s: State, q: RequestId, id: UserId, row: UserRow, a: Auth, token: string, now: Time)
    requires Shows(s, a)
    ensures var t, b := Insert(s, q, id, row), a.(users := a.users[id := row]);
            && Shows(t, b)
            && (row.verified ==> At(t, q, IssueFor(id)))
            && t.requests - {q} == s.requests - {q}
            && (!row.verified ==> t.requests == s.requests - {q})
  {}

  lemma InsertedAlone(s: State, steps: seq<Action>, q: RequestId, t: State, id: UserId, row: UserRow, a: Auth,
                      token: string, now: Time)
    returns (more: seq<Action>)
    requires CanRun(s, steps) && Run(s, steps) == Insert(t, q, id, row) && Shows(t, a)
    requires q !in s.requests && t.requests - {q} == s.requests
    ensures ComeTo(s, more, Created(a, a.users, id, row, token, now).0)
  {
    more := steps;
    InsertAlone(t, q, id, row, a, token, now);
    if row.verified {
      IssueAlone(Run(s, steps), q, id, a.(users := a.users[id := row]), token, now);
      Then(s, steps, Issues(q, token, now));
      more := steps + [Issues(q, token, now)];
    }
  }

  /** A registration that nobody interrupts comes to Register. */
  lemma AloneIsRegister(s: State, a: Auth, q: RequestId, email: string, password: string, auto: bool,
                        owner: Option<UserId>, id: UserId, token: string, now: Time)
    returns (steps: seq<Action>)
    requires Shows(s, a) && q !in s.requests && IsFresh(s, id) && EmailsUnique(a.users)
    requires if owner.Some? then OwnsEmail(a.users, owner.value, email) else !HasEmail(a.users, email)
    ensures ComeTo(s, steps, Register(a, email, password, auto, owner, id, token, now).0)
  {
    var row := UserRow(email, Hash(password), auto, now);
    steps := [];
    if owner.None? {
      var first := RegisterInserts(q, email, password, auto, id, now);
      Then(s, steps, first);
      steps := InsertedAlone(s, steps + [first], q, s, id, row, a, token, now);
    } else if Reclaimable(a.users[owner.value], now) {
      var first := RegisterReads(q, owner.value, email, password, auto, now);
      Then(s, steps, first);
      steps := steps + [first];
      Then(s, steps, ReclaimDeletes(q));
      steps := steps + [ReclaimDeletes(q)];
      var t := Run(s, steps);
      Then(s, steps, Reinserts(q, id, now));
      assert !HasEmail(t.users, email);
      steps := InsertedAlone(s, steps + [Reinserts(q, id, now)], q, t, id, row, a.(users := t.users), token, now);
    }
  }

  /** A reset that nobody interrupts comes to ResetPassword. */
  lemma AloneIsReset(s: State, a: Auth, hash: string, password: string, now: Time) returns (steps: seq<Action>)
    requires Shows(s, a)
    ensures var (b, r) := ResetPassword(a, hash, password, now); ComeTo(s, steps, b) && (r.Ok? <==> steps != [])
  {
    var who := ConsumeResetToken(a.tokens, hash, now).1;
    steps := [];
    if who.Some? && IsVerified(s.users, who.value) {
      Then(s, steps, ResetsPassword(who.value, password));
      steps := steps + [ResetsPassword(who.value, password)];
      Then(s, steps, RevokesAll(who.value));
      steps := steps + [RevokesAll(who.value)];
    }
  }
}
