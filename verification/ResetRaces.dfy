/** A password reset among interleaved requests: auth/password_reset.go:88-125 with the steps of AuthRaces. */
module ResetRaces {
  import opened Accounts
  import opened AuthRaces
  import TokenLaws
  import opened Tokens

  /** The request has been let in as u before and is on its way to a token. */
  predicate Vouches(stage: Stage, u: UserId) {
    match stage
    case ProveMailbox(v) => v == u
    case MarkByLink(v) => v == u
    case ReadBack(v) => v == u
    case SwapCheck(v, _) => v == u
    case SwapRevoke(v, _) => v == u
    case IssueFor(v) => v == u
    case _ => false
  }

  /** A login with the present password, or a verification link, lets a request in as u. */
  predicate LetsIn(a: Action, u: UserId) { (a.LoginReads? || a.LinkReads?) && a.user == u }

  ghost predicate LetsNobodyIn(actions: seq<Action>, u: UserId) { forall a :: a in actions ==> !LetsIn(a, u) }

  ghost predicate HasSession(s: State, u: UserId) { exists k :: k in s.refresh && u + ":" <= k }

  /** Without anybody let in anew, a token of u may yet be stored. */
  ghost predicate SessionReturns(s: State, u: UserId) {
    exists actions :: CanRun(s, actions) && LetsNobodyIn(actions, u) && HasSession(Run(s, actions), u)
  }

  ghost predicate SomeoneVouches(s: State, u: UserId) {
    exists q :: q in s.requests && Vouches(s.requests[q], u)
  }

  // ---- a request on its way gets there

  function StepsLeft(stage: Stage): nat {
    match stage
    case IssueFor(_) => 0
    case ProveMailbox(_) => 1
    case ReadBack(_) => 1
    case SwapRevoke(_, _) => 1
    case _ => 2
  }

  /** What a request on its way does next. */
  function NextStep(q: RequestId, stage: Stage): Action {
    match stage
    case ProveMailbox(_) => LoginProves(q)
    case MarkByLink(_) => LinkMarks(q)
    case ReadBack(_) => LinkReadsBack(q)
    case SwapCheck(_, _) => SwapReads(q)
    case SwapRevoke(_, _) => SwapRevokes(q)
    case _ => Issues(q, "", 0)
  }

  lemma OneStepOn(s: State, q: RequestId, u: UserId)
    requires q in s.requests && Vouches(s.requests[q], u) && !s.requests[q].IssueFor? && IsVerified(s.users, u)
    ensures var a := NextStep(q, s.requests[q]);
            && Enabled(s, a) && !LetsIn(a, u)
            && q in After(s, a).requests && Vouches(After(s, a).requests[q], u) && IsVerified(After(s, a).users, u)
            && StepsLeft(After(s, a).requests[q]) < StepsLeft(s.requests[q])
  {}

  lemma KeyBeginsWithUser(u: UserId, token: string)
    ensures u + ":" <= RefreshKey(u, token)
  {}

  lemma IssueStoresSession(s: State, q: RequestId, u: UserId)
    requires q in s.requests && s.requests[q] == IssueFor(u)
    ensures Enabled(s, Issues(q, "", 0)) && HasSession(After(s, Issues(q, "", 0)), u)
  {
    KeyBeginsWithUser(u, "");
    assert RefreshKey(u, "") in After(s, Issues(q, "", 0)).refresh;
  }

  lemma {:induction false} VouchedGetsSession(s: State, q: RequestId, u: UserId) returns (actions: seq<Action>)
    requires q in s.requests && Vouches(s.requests[q], u) && IsVerified(s.users, u)
    ensures CanRun(s, actions) && LetsNobodyIn(actions, u) && HasSession(Run(s, actions), u)
    decreases StepsLeft(s.requests[q])
  {
    var a := NextStep(q, s.requests[q]);
    if s.requests[q].IssueFor? {
      IssueStoresSession(s, q, u);
      actions := [];
    } else {
      OneStepOn(s, q, u);
      actions := VouchedGetsSession(After(s, a), q, u);
    }
    RunOf(s, a, actions);
    actions := [a] + actions;
  }

  // ---- nobody else does

  ghost predicate Quiet(s: State, u: UserId) { !HasSession(s, u) && !SomeoneVouches(s, u) && u in s.used }

  lemma IssuerIsKnown(s: State, q: RequestId, lost: set<RequestId>)
    requires CleanBut(s, lost) && q in s.requests && s.requests[q].IssueFor?
    ensures s.requests[q].user in s.used && ':' !in s.requests[q].user
  {
    assert StageClean(s, s.requests[q]) || IsLost(s, s.requests[q]);
  }

  lemma StepStoresNoSession(s: State, a: Action, u: UserId, lost: set<RequestId>)
    requires CleanBut(s, lost) && Quiet(s, u) && Enabled(s, a)
    ensures !HasSession(After(s, a), u)
  {
    forall k | k in After(s, a).refresh ensures !(u + ":" <= k) {
      if k !in s.refresh {
        NewTokens(s, a, k);
        IssuerIsKnown(s, a.q, lost);
        assert !Vouches(s.requests[a.q], u);
        TokenLaws.RefreshKeysDiffer(u, s.requests[a.q].user, a.token);
      }
    }
  }

  lemma OwnStepVouchesForNobody(s: State, a: Action, u: UserId)
    requires Quiet(s, u) && Enabled(s, a) && !LetsIn(a, u) && !a.ResetsPassword? && !a.RevokesAll?
    requires a.q in After(s, a).requests
    ensures !Vouches(After(s, a).requests[a.q], u)
  {
    if a.q in s.requests {
      assert !Vouches(s.requests[a.q], u);
    } else if a.RefreshReads? {
      KeyBeginsWithUser(a.user, a.presented);
    }
  }

  /** Only the request that acts changes its stage, and only by being let in does one come to vouch. */
  lemma StepVouchesForNobody(s: State, a: Action, u: UserId, q: RequestId)
    requires Quiet(s, u) && Enabled(s, a) && !LetsIn(a, u) && q in After(s, a).requests
    ensures !Vouches(After(s, a).requests[q], u)
  {
    if a.ResetsPassword? || a.RevokesAll? || a.q != q {
      OthersStandStill(s, a, q);
    } else {
      OwnStepVouchesForNobody(s, a, u);
    }
  }

  lemma StepStaysQuiet(s: State, a: Action, u: UserId, lost: set<RequestId>)
    requires CleanBut(s, lost) && Quiet(s, u) && Enabled(s, a) && !LetsIn(a, u)
    ensures Quiet(After(s, a), u)
  {
    UsersOnlyGrow(s, a);
    StepStoresNoSession(s, a, u, lost);
    forall q | q in After(s, a).requests ensures !Vouches(After(s, a).requests[q], u) {
      StepVouchesForNobody(s, a, u, q);
    }
  }

  lemma {:induction false} RunStaysQuiet(s: State, actions: seq<Action>, u: UserId, lost: set<RequestId>)
    requires CleanBut(s, lost) && Quiet(s, u) && CanRun(s, actions) && LetsNobodyIn(actions, u)
    ensures Quiet(Run(s, actions), u)
    decreases |actions|
  {
    if actions != [] {
      var a := actions[0];
      assert a in actions;
      StepStaysQuiet(s, a, u, lost);
      StepStaysAccounted(s, a, lost);
      RunStaysQuiet(After(s, a), actions[1..], u, LostAfter(s, a, lost));
    }
  }

  lemma RevokedIsClean(s: State, u: UserId, lost: set<RequestId>)
    requires CleanBut(s, lost)
    ensures var t := After(s, RevokesAll(u));
            CleanBut(t, lost) && t.users == s.users && t.requests == s.requests && !HasSession(t, u)
  {}

  /** A reset revokes every token of its account.  Without anybody let in anew, by the new password or a
      verification link, the account can come by a session again exactly when a request that was let in
      before is still on its way at that moment: a login with the old password before its token is stored, a
      refresh that had its token accepted, or a verification under way. */
  lemma SessionOutlivesResetExactly(s: State, u: UserId, lost: set<RequestId>)
    requires CleanBut(s, lost) && IsVerified(s.users, u)
    ensures var t := After(s, RevokesAll(u));
            !HasSession(t, u) && (SessionReturns(t, u) <==> SomeoneVouches(s, u))
  {
    var t := After(s, RevokesAll(u));
    RevokedIsClean(s, u, lost);
    if SomeoneVouches(t, u) {
      var q :| q in t.requests && Vouches(t.requests[q], u);
      var actions := VouchedGetsSession(t, q, u);
    } else {
      forall actions | CanRun(t, actions) && LetsNobodyIn(actions, u) ensures !HasSession(Run(t, actions), u) {
        RunStaysQuiet(t, actions, u, lost);
      }
    }
  }
}
