/** Over any run of auth operations: when a refresh succeeds, when a password logs in, and who is verified, in
    terms of what the operations answered before. */
module SessionFates {
  import opened AccountLaws
  import opened Accounts
  import opened Options
  import TokenFates
  import TokenLaws
  import opened Tokens

  const START := Auth(map[], EMPTY)

  const SEVEN_DAYS: int := 7 * 24 * 60 * 60 * 1_000_000_000

  /** The state after a run from the start. */
  ghost function After(ops: seq<Timed>): Auth {
    if ops == [] then START else Perform(After(ops[..|ops| - 1]), ops[|ops| - 1].op, ops[|ops| - 1].now).0
  }

  /** What operation i of a run answers. */
  ghost function AnswerAt(ops: seq<Timed>, i: nat): Result<Session>
    requires i < |ops|
  {
    Perform(After(ops[..i]), ops[i].op, ops[i].now).1
  }

  ghost predicate FreshAt(ops: seq<Timed>, i: nat)
    requires i < |ops|
  {
    FreshId(After(ops[..i]), ops[i].op)
  }

  /** Users are known by ids without a colon, as UUIDs are. */
  predicate PlainSubject(op: Op) {
    op.DoRefresh? || op.DoLogout? ==> ':' !in op.subject
  }

  /** New ids, plain subjects, and a clock that does not run back. */
  ghost predicate IsHistory(ops: seq<Timed>) {
    && (forall i :: 0 <= i < |ops| ==> FreshAt(ops, i) && PlainSubject(ops[i].op))
    && forall i, j :: 0 <= i < j < |ops| ==> ops[i].now <= ops[j].now
  }

  lemma HistoryInPrefix(ops: seq<Timed>)
    requires ops != [] && IsHistory(ops)
    ensures IsHistory(ops[..|ops| - 1])
  {
    var init := ops[..|ops| - 1];
    forall i | 0 <= i < |init| ensures FreshAt(init, i) && PlainSubject(init[i].op) {
      assert FreshAt(ops, i) && init[..i] == ops[..i];
    }
  }

  lemma {:induction false} HistoryKeepsInv(ops: seq<Timed>)
    requires IsHistory(ops)
    ensures Inv(After(ops))
  {
    if ops != [] {
      var n := |ops| - 1;
      HistoryInPrefix(ops);
      HistoryKeepsInv(ops[..n]);
      assert FreshAt(ops, n);
      OperationKeepsInv(After(ops[..n]), ops[n].op, ops[n].now);
    }
  }

  // ---- refresh tokens

  predicate Grants(r: Result<Session>, user: UserId, token: string) { r == Ok(Issued(user, token)) }

  /** The operation logs the session out, trades its token for another, or resets its account's password. */
  predicate Ends(op: Op, r: Result<Session>, user: UserId, token: string) {
    || op == DoLogout(user, token)
    || (op.DoRefresh? && op.subject == user && op.presented == token && r.Ok?)
    || (op.DoReset? && r == Ok(NoSession(user)))
  }

  /** What one operation does to one token. */
  ghost predicate Moves(a: Auth, op: Op, at: Time, user: UserId, token: string, now: Time) {
    var (b, r) := Perform(a, op, at);
    ValidateRefreshToken(b.tokens, user, token, now)
    <==> if Grants(r, user, token) then now < at + SEVEN_DAYS
         else !Ends(op, r, user, token) && ValidateRefreshToken(a.tokens, user, token, now)
  }

  lemma ValidIsVerified(a: Auth, user: UserId, token: string, now: Time)
    requires Inv(a) && ':' !in user && ValidateRefreshToken(a.tokens, user, token, now)
    ensures user in a.users && a.users[user].verified
  {
    var k := RefreshKey(user, token);
    assert Owned(a.users, k);
    var v, t :| k == RefreshKey(v, t) && v in a.users && a.users[v].verified;
    TokenLaws.RefreshKeysDiffer(user, v, t);
    assert user + ":" <= k;
  }

  lemma RefreshMoves(a: Auth, presented: string, subject: UserId, t: string, at: Time, user: UserId, token: string,
                     now: Time)
    requires Inv(a) && ':' !in subject && ':' !in user && at <= now
    ensures Moves(a, DoRefresh(presented, subject, t), at, user, token, now)
  {
    if ValidateRefreshToken(a.tokens, subject, presented, at) {
      ValidIsVerified(a, subject, presented, at);
      TokenFates.RevokeStep(a.tokens, subject, presented, user, token, now);
      TokenFates.StoreStep(RevokeRefreshToken(a.tokens, subject, presented), subject, t, SEVEN_DAYS, at,
                           user, token, now);
    }
  }

  lemma RegisterMoves(a: Auth, email: string, password: string, auto: bool, id: UserId, t: string, at: Time,
                      user: UserId, token: string, now: Time)
    requires ':' !in id && ':' !in user
    ensures Moves(a, DoRegister(email, password, auto, id, t), at, user, token, now)
  {
    TokenFates.StoreStep(a.tokens, id, t, SEVEN_DAYS, at, user, token, now);
  }

  lemma LoginMoves(a: Auth, found: Option<UserId>, password: string, proven: bool, t: string, at: Time, user: UserId,
                   token: string, now: Time)
    requires Inv(a) && ':' !in user
    ensures Moves(a, DoLogin(found, password, proven, t), at, user, token, now)
  {
    if found.Some? && found.value in a.users {
      TokenFates.StoreStep(a.tokens, found.value, t, SEVEN_DAYS, at, user, token, now);
    }
  }

  lemma VerifyMoves(a: Auth, link: string, t: string, at: Time, user: UserId, token: string, now: Time)
    requires Inv(a) && ':' !in user
    ensures Moves(a, DoVerify(link, t), at, user, token, now)
  {
    var who := UserByVerificationToken(a.tokens, link, at);
    if who.Some? && who.value in a.users {
      var tokens := DeleteVerificationToken(a.tokens, link);
      TokenFates.StoreStep(tokens, who.value, t, SEVEN_DAYS, at, user, token, now);
    }
  }

  lemma ResetMoves(a: Auth, hash: string, password: string, at: Time, user: UserId, token: string, now: Time)
    requires Inv(a) && ':' !in user
    ensures Moves(a, DoReset(hash, password), at, user, token, now)
  {
    var (tokens, who) := ConsumeResetToken(a.tokens, hash, at);
    if who.Some? && who.value in a.users { TokenFates.RevokeAllStep(tokens, who.value, user, token, now); }
  }

  lemma LogoutMoves(a: Auth, subject: UserId, presented: string, at: Time, user: UserId, token: string, now: Time)
    requires ':' !in subject && ':' !in user
    ensures Moves(a, DoLogout(subject, presented), at, user, token, now)
  {
    TokenFates.RevokeStep(a.tokens, subject, presented, user, token, now);
  }

  lemma OtherMoves(a: Auth, op: Op, at: Time, user: UserId, token: string, now: Time)
    requires (op.MailVerification? || op.MailReset? || op.Evict?) && at <= now
    ensures Moves(a, op, at, user, token, now)
  {
    if op.Evict? { TokenFates.EvictKeepsValid(a.tokens, at, user, token, now); }
  }

  lemma OperationMoves(a: Auth, op: Op, at: Time, user: UserId, token: string, now: Time)
    requires Inv(a) && FreshId(a, op) && PlainSubject(op) && ':' !in user && at <= now
    ensures Moves(a, op, at, user, token, now)
  {
    match op
    case DoRegister(email, password, auto, id, t) =>
      RegisterMoves(a, email, password, auto, id, t, at, user, token, now);
    case DoLogin(found, password, proven, t) => LoginMoves(a, found, password, proven, t, at, user, token, now);
    case DoRefresh(presented, subject, t) => RefreshMoves(a, presented, subject, t, at, user, token, now);
    case DoVerify(link, t) => VerifyMoves(a, link, t, at, user, token, now);
    case DoReset(hash, password) => ResetMoves(a, hash, password, at, user, token, now);
    case DoLogout(subject, presented) => LogoutMoves(a, subject, presented, at, user, token, now);
    case _ => OtherMoves(a, op, at, user, token, now);
  }

  ghost predicate GrantedAt(ops: seq<Timed>, i: nat, user: UserId, token: string)
    requires i < |ops|
  {
    Grants(AnswerAt(ops, i), user, token)
  }

  ghost predicate EndedAt(ops: seq<Timed>, i: nat, user: UserId, token: string)
    requires i < |ops|
  {
    Ends(ops[i].op, AnswerAt(ops, i), user, token)
  }

  /** The token was last issued at j, has not been ended since, and is less than its duration old. */
  ghost predicate StandsFrom(ops: seq<Timed>, j: nat, user: UserId, token: string, now: Time)
    requires j < |ops|
  {
    && GrantedAt(ops, j, user, token) && now < ops[j].now + SEVEN_DAYS
    && forall k :: j < k < |ops| ==> !GrantedAt(ops, k, user, token) && !EndedAt(ops, k, user, token)
  }

  ghost predicate Stands(ops: seq<Timed>, user: UserId, token: string, now: Time) {
    exists j: nat :: j < |ops| && StandsFrom(ops, j, user, token, now)
  }

  lemma AnswersInPrefix(ops: seq<Timed>, n: nat, i: nat)
    requires i < n <= |ops|
    ensures AnswerAt(ops[..n], i) == AnswerAt(ops, i)
  {
    assert ops[..n][..i] == ops[..i];
  }

  lemma StandsFromInPrefix(ops: seq<Timed>, j: nat, user: UserId, token: string, now: Time)
    requires j + 1 < |ops|
    ensures var n := |ops| - 1;
            StandsFrom(ops, j, user, token, now)
            <==> StandsFrom(ops[..n], j, user, token, now)
                 && !GrantedAt(ops, n, user, token) && !EndedAt(ops, n, user, token)
  {
    var n := |ops| - 1;
    forall i | 0 <= i < n
      ensures GrantedAt(ops[..n], i, user, token) == GrantedAt(ops, i, user, token)
      ensures EndedAt(ops[..n], i, user, token) == EndedAt(ops, i, user, token)
    {
      AnswersInPrefix(ops, n, i);
    }
  }

  lemma StandsOneMore(ops: seq<Timed>, user: UserId, token: string, now: Time)
    requires ops != []
    ensures var n := |ops| - 1;
            Stands(ops, user, token, now)
            <==> if GrantedAt(ops, n, user, token) then now < ops[n].now + SEVEN_DAYS
                 else !EndedAt(ops, n, user, token) && Stands(ops[..n], user, token, now)
  {
    var n := |ops| - 1;
    forall j | 0 <= j < n
      ensures StandsFrom(ops, j, user, token, now)
              <==> StandsFrom(ops[..n], j, user, token, now)
                   && !GrantedAt(ops, n, user, token) && !EndedAt(ops, n, user, token)
    {
      StandsFromInPrefix(ops, j, user, token, now);
    }
    if GrantedAt(ops, n, user, token) && now < ops[n].now + SEVEN_DAYS {
      assert StandsFrom(ops, n, user, token, now);
    }
  }

  lemma {:induction false} ValidIsStanding(ops: seq<Timed>, user: UserId, token: string, now: Time)
    requires IsHistory(ops) && ':' !in user && forall i :: 0 <= i < |ops| ==> ops[i].now <= now
    ensures ValidateRefreshToken(After(ops).tokens, user, token, now) <==> Stands(ops, user, token, now)
  {
    if ops != [] {
      var n := |ops| - 1;
      HistoryInPrefix(ops);
      ValidIsStanding(ops[..n], user, token, now);
      HistoryKeepsInv(ops[..n]);
      assert FreshAt(ops, n);
      OperationMoves(After(ops[..n]), ops[n].op, ops[n].now, user, token, now);
      StandsOneMore(ops, user, token, now);
    }
  }

  /** Whatever happened before, a refresh succeeds exactly when the token presented was issued to its subject
      less than seven days ago and has not been logged out, traded in or reset since; the session is then the
      subject's and has the new token, and a refused refresh changes nothing. */
  lemma RefreshSucceedsExactly(ops: seq<Timed>, presented: string, subject: UserId, token: string, now: Time)
    requires IsHistory(ops) && ':' !in subject && forall i :: 0 <= i < |ops| ==> ops[i].now <= now
    ensures var (b, r) := Refresh(After(ops), presented, subject, token, now);
            && (r.Ok? <==> Stands(ops, subject, presented, now))
            && (r.Ok? ==> r == Ok(Issued(subject, token)) && b.users == After(ops).users)
            && (r.Err? ==> r == Err(TokenInvalid) && b == After(ops))
  {
    ValidIsStanding(ops, subject, presented, now);
    HistoryKeepsInv(ops);
    if ValidateRefreshToken(After(ops).tokens, subject, presented, now) {
      ValidIsVerified(After(ops), subject, presented, now);
    }
  }

  // ---- passwords and verified accounts

  /** The password that an operation gives to an account it makes or resets. */
  function PasswordSet(op: Op, r: Result<Session>, user: UserId): Option<string> {
    if op.DoRegister? && op.id == user && r.Ok? && r.value.user == user then Some(op.password)
    else if op.DoReset? && r == Ok(NoSession(user)) then Some(op.password)
    else None
  }

  lemma PasswordStep(a: Auth, op: Op, now: Time, user: UserId)
    requires Inv(a) && FreshId(a, op) && user in Perform(a, op, now).0.users
    ensures var (b, r) := Perform(a, op, now);
            if PasswordSet(op, r, user).Some? then b.users[user].password == Hash(PasswordSet(op, r, user).value)
            else user in a.users && b.users[user].password == a.users[user].password
  {}

  ghost function PasswordAt(ops: seq<Timed>, i: nat, user: UserId): Option<string>
    requires i < |ops|
  {
    PasswordSet(ops[i].op, AnswerAt(ops, i), user)
  }

  /** The passwords that the operations give to the account, one after another. */
  ghost function PasswordsSet(ops: seq<Timed>, user: UserId): (r: seq<Option<string>>)
    ensures |r| == |ops|
  {
    seq(|ops|, i requires 0 <= i < |ops| => PasswordAt(ops, i, user))
  }

  ghost predicate IsLastAt(given: seq<Option<string>>, j: nat, password: string)
    requires j < |given|
  {
    given[j] == Some(password) && forall k :: j < k < |given| ==> given[k].None?
  }

  ghost predicate IsLast(given: seq<Option<string>>, password: string) {
    exists j: nat :: j < |given| && IsLastAt(given, j, password)
  }

  /** The password was the last one that was set for the account. */
  ghost predicate IsPassword(ops: seq<Timed>, user: UserId, password: string) {
    IsLast(PasswordsSet(ops, user), password)
  }

  lemma LastOneMore(given: seq<Option<string>>, one: Option<string>, password: string)
    ensures IsLast(given + [one], password) <==> if one.Some? then one == Some(password) else IsLast(given, password)
  {
    var more := given + [one];
    if one == Some(password) { assert IsLastAt(more, |given|, password); }
    if j: nat :| j < |given| && IsLastAt(given, j, password) {
      if one.None? { assert IsLastAt(more, j, password); }
    }
    if j: nat :| j < |more| && IsLastAt(more, j, password) {
      if j < |given| {
        assert more[|given|].None?;
        assert forall k :: j <= k < |given| ==> more[k] == given[k];
        assert IsLastAt(given, j, password);
      }
    }
  }

  lemma PasswordsOneMore(ops: seq<Timed>, user: UserId)
    requires ops != []
    ensures var n := |ops| - 1; PasswordsSet(ops, user) == PasswordsSet(ops[..n], user) + [PasswordAt(ops, n, user)]
  {
    var n := |ops| - 1;
    forall i | 0 <= i < n ensures PasswordAt(ops[..n], i, user) == PasswordAt(ops, i, user) {
      AnswersInPrefix(ops, n, i);
    }
  }

  lemma {:induction false} PasswordIsLast(ops: seq<Timed>, user: UserId, password: string)
    requires IsHistory(ops) && user in After(ops).users
    ensures After(ops).users[user].password == Hash(password) <==> IsPassword(ops, user, password)
  {
    var n := |ops| - 1;
    HistoryInPrefix(ops);
    HistoryKeepsInv(ops[..n]);
    assert FreshAt(ops, n);
    PasswordStep(After(ops[..n]), ops[n].op, ops[n].now, user);
    PasswordsOneMore(ops, user);
    LastOneMore(PasswordsSet(ops[..n], user), PasswordAt(ops, n, user), password);
    if PasswordAt(ops, n, user).None? { PasswordIsLast(ops[..n], user, password); }
  }

  predicate LetsIn(r: Result<Session>, user: UserId) { r.Ok? && r.value.Issued? && r.value.user == user }

  predicate IsVerified(a: Auth, user: UserId) { user in a.users && a.users[user].verified }

  lemma VerifiedStep(a: Auth, op: Op, now: Time, user: UserId)
    requires Inv(a) && FreshId(a, op)
    ensures var (b, r) := Perform(a, op, now); IsVerified(b, user) <==> LetsIn(r, user) || IsVerified(a, user)
  {}

  /** Some operation has let the account's owner in. */
  ghost predicate WasLetIn(ops: seq<Timed>, user: UserId) {
    exists i: nat :: i < |ops| && LetsIn(AnswerAt(ops, i), user)
  }

  lemma LetInOneMore(ops: seq<Timed>, user: UserId)
    requires ops != []
    ensures var n := |ops| - 1; WasLetIn(ops, user) <==> LetsIn(AnswerAt(ops, n), user) || WasLetIn(ops[..n], user)
  {
    var n := |ops| - 1;
    forall i | 0 <= i < n ensures AnswerAt(ops[..n], i) == AnswerAt(ops, i) { AnswersInPrefix(ops, n, i); }
    if WasLetIn(ops[..n], user) {
      var i: nat :| i < n && LetsIn(AnswerAt(ops[..n], i), user);
      assert LetsIn(AnswerAt(ops, i), user);
    }
  }

  /** An account is verified exactly when its owner has been let in before. */
  lemma {:induction false} VerifiedIsLetIn(ops: seq<Timed>, user: UserId)
    requires IsHistory(ops)
    ensures IsVerified(After(ops), user) <==> WasLetIn(ops, user)
  {
    if ops != [] {
      var n := |ops| - 1;
      HistoryInPrefix(ops);
      VerifiedIsLetIn(ops[..n], user);
      HistoryKeepsInv(ops[..n]);
      assert FreshAt(ops, n);
      VerifiedStep(After(ops[..n]), ops[n].op, ops[n].now, user);
      LetInOneMore(ops, user);
    }
  }

  /** Whatever happened before, a login of an existing account succeeds exactly with the password that was set
      last, by its registration or a reset, and when its owner has been let in before or proves the mailbox;
      otherwise it changes nothing. */
  lemma LoginSucceedsExactly(ops: seq<Timed>, user: UserId, password: string, proven: bool, token: string, now: Time)
    requires IsHistory(ops) && user in After(ops).users
    ensures var (b, r) := Login(After(ops), Some(user), password, proven, token, now);
            && (r.Ok? <==> IsPassword(ops, user, password) && (proven || WasLetIn(ops, user)))
            && (r.Ok? ==> r == Ok(Issued(user, token)) && IsVerified(b, user)
                          && ValidateRefreshToken(b.tokens, user, token, now))
            && (r.Err? ==> b == After(ops)
                           && (r == Err(Unauthorized) <==> !IsPassword(ops, user, password)))
  {
    PasswordIsLast(ops, user, password);
    VerifiedIsLetIn(ops, user);
  }
}
