/** What holds of accounts and sessions over every run of whole operations. */
module AccountLaws {
  import opened Accounts
  import opened Options
  import TokenLaws
  import opened Tokens

  datatype Op =
    | DoRegister(email: string, password: string, autoVerify: bool, id: UserId, token: string)
    | DoLogin(found: Option<UserId>, password: string, proven: bool, token: string)
    | DoRefresh(presented: string, subject: UserId, token: string)
    | DoVerify(link: string, token: string)
    | DoReset(hash: string, password: string)
    | DoLogout(subject: UserId, presented: string)
    | MailVerification(link: string, user: UserId, ttl: int)
    | MailReset(hash: string, user: UserId, ttl: int)
    | Evict

  ghost function OwnerOf(users: map<UserId, UserRow>, email: string): (owner: Option<UserId>)
    ensures owner.Some? ==> OwnsEmail(users, owner.value, email)
    ensures owner.None? ==> !HasEmail(users, email)
  {
    if HasEmail(users, email) then var u :| u in users && users[u].email == email; Some(u) else None
  }

  ghost function Perform(a: Auth, op: Op, now: Time): (Auth, Result<Session>) {
    match op
    case DoRegister(email, password, auto, id, token) =>
      Register(a, email, password, auto, OwnerOf(a.users, email), id, token, now)
    case DoLogin(found, password, proven, token) =>
      Login(a, if found.Some? && found.value in a.users then found else None, password, proven, token, now)
    case DoRefresh(presented, subject, token) => Refresh(a, presented, subject, token, now)
    case DoVerify(link, token) => VerifyEmailByToken(a, link, token, now)
    case DoReset(hash, password) => ResetPassword(a, hash, password, now)
    case DoLogout(subject, presented) => (Logout(a, subject, presented), Ok(NoSession(subject)))
    case MailVerification(link, user, ttl) =>
      (a.(tokens := CreateVerificationToken(a.tokens, link, user, ttl, now)), Ok(NoSession(user)))
    case MailReset(hash, user, ttl) =>
      (a.(tokens := CreateResetToken(a.tokens, hash, user, ttl, now)), Ok(NoSession(user)))
    case Evict => (a.(tokens := Cleanup(a.tokens, now)), Ok(NoSession([])))
  }

  // ---- who holds refresh tokens ----

  ghost predicate Owned(users: map<UserId, UserRow>, key: string) {
    exists u, t :: key == RefreshKey(u, t) && u in users && users[u].verified
  }

  ghost predicate EveryTokenOwned(a: Auth) {
    forall k :: k in a.tokens.refresh ==> Owned(a.users, k)
  }

  ghost predicate EmailsUnique(users: map<UserId, UserRow>) {
    forall u, v :: u in users && v in users && users[u].email == users[v].email ==> u == v
  }

  ghost predicate IdsPlain(users: map<UserId, UserRow>) {
    forall u :: u in users ==> ':' !in u
  }

  /** Each stored refresh token belongs to an existing verified account. */
  ghost predicate Inv(a: Auth) {
    EveryTokenOwned(a) && EmailsUnique(a.users) && IdsPlain(a.users)
  }

  /** A new account's id is a new UUID. */
  ghost predicate FreshId(a: Auth, op: Op) {
    op.DoRegister? ==> op.id !in a.users && ':' !in op.id
  }

  /** Verified accounts stay, verified, under the same address. */
  ghost predicate VerifiedKept(before: map<UserId, UserRow>, after: map<UserId, UserRow>) {
    forall u :: u in before && before[u].verified ==>
      u in after && after[u].verified && after[u].email == before[u].email
  }

  lemma OwnedStaysOwned(before: map<UserId, UserRow>, after: map<UserId, UserRow>, key: string)
    requires Owned(before, key) && VerifiedKept(before, after)
    ensures Owned(after, key)
  {
    var u, t :| key == RefreshKey(u, t) && u in before && before[u].verified;
  }

  lemma IssuedIsOwned(users: map<UserId, UserRow>, user: UserId, token: string)
    requires user in users && users[user].verified
    ensures Owned(users, RefreshKey(user, token))
  {
  }

  /** The tokens after an operation are old ones and at most one new one, whose owner is
      verified. */
  lemma TokensStayOwned(a: Auth, b: Auth, user: UserId, token: string)
    requires EveryTokenOwned(a) && VerifiedKept(a.users, b.users)
    requires forall k :: k in b.tokens.refresh && k !in a.tokens.refresh ==>
      k == RefreshKey(user, token) && user in b.users && b.users[user].verified
    ensures EveryTokenOwned(b)
  {
    forall k | k in b.tokens.refresh ensures Owned(b.users, k) {
      if k in a.tokens.refresh {
        OwnedStaysOwned(a.users, b.users, k);
      } else {
        IssuedIsOwned(b.users, user, token);
      }
    }
  }

  lemma RegisterKeepsInv(a: Auth, email: string, password: string, auto: bool, owner: Option<UserId>, id: UserId,
                         token: string, now: Time)
    requires Inv(a) && id !in a.users && ':' !in id
    requires if owner.Some? then OwnsEmail(a.users, owner.value, email) else !HasEmail(a.users, email)
    ensures Inv(Register(a, email, password, auto, owner, id, token, now).0)
    ensures VerifiedKept(a.users, Register(a, email, password, auto, owner, id, token, now).0.users)
  {
    var b := Register(a, email, password, auto, owner, id, token, now).0;
    TokensStayOwned(a, b, id, token);
  }

  lemma LoginKeepsInv(a: Auth, found: Option<UserId>, password: string, proven: bool, token: string, now: Time)
    requires Inv(a) && (found.Some? ==> found.value in a.users)
    ensures Inv(Login(a, found, password, proven, token, now).0)
    ensures VerifiedKept(a.users, Login(a, found, password, proven, token, now).0.users)
  {
    var b := Login(a, found, password, proven, token, now).0;
    if found.Some? { TokensStayOwned(a, b, found.value, token); }
  }

  lemma VerifyKeepsInv(a: Auth, link: string, token: string, now: Time)
    requires Inv(a)
    ensures Inv(VerifyEmailByToken(a, link, token, now).0)
    ensures VerifiedKept(a.users, VerifyEmailByToken(a, link, token, now).0.users)
  {
    var b := VerifyEmailByToken(a, link, token, now).0;
    var who := UserByVerificationToken(a.tokens, link, now);
    if who.Some? { TokensStayOwned(a, b, who.value, token); }
  }

  lemma RefreshKeepsInv(a: Auth, presented: string, subject: UserId, token: string, now: Time)
    requires Inv(a)
    ensures Inv(Refresh(a, presented, subject, token, now).0)
    ensures VerifiedKept(a.users, Refresh(a, presented, subject, token, now).0.users)
  {
    TokensStayOwned(a, Refresh(a, presented, subject, token, now).0, subject, token);
  }

  lemma ResetKeepsInv(a: Auth, hash: string, password: string, now: Time)
    requires Inv(a)
    ensures Inv(ResetPassword(a, hash, password, now).0)
    ensures VerifiedKept(a.users, ResetPassword(a, hash, password, now).0.users)
  {
    TokensStayOwned(a, ResetPassword(a, hash, password, now).0, [], []);
  }

  /** Operations on tokens alone, issuing none. */
  lemma FewerTokensKeepInv(a: Auth, b: Auth)
    requires Inv(a) && b.users == a.users && b.tokens.refresh.Keys <= a.tokens.refresh.Keys
    ensures Inv(b) && VerifiedKept(a.users, b.users)
  {
    forall k | k in b.tokens.refresh ensures Owned(b.users, k) { assert k in a.tokens.refresh; }
  }

  lemma OtherKeepsInv(a: Auth, op: Op, now: Time)
    requires Inv(a) && (op.DoLogout? || op.MailVerification? || op.MailReset? || op.Evict?)
    ensures Inv(Perform(a, op, now).0)
    ensures VerifiedKept(a.users, Perform(a, op, now).0.users)
  {
    FewerTokensKeepInv(a, Perform(a, op, now).0);
  }

  /** One operation keeps the invariant and every verified account. */
  lemma OperationKeepsInv(a: Auth, op: Op, now: Time)
    requires Inv(a) && FreshId(a, op)
    ensures Inv(Perform(a, op, now).0)
    ensures VerifiedKept(a.users, Perform(a, op, now).0.users)
  {
    match op
    case DoRegister(email, password, auto, id, token) =>
      RegisterKeepsInv(a, email, password, auto, OwnerOf(a.users, email), id, token, now);
    case DoLogin(found, password, proven, token) =>
      LoginKeepsInv(a, if found.Some? && found.value in a.users then found else None, password, proven, token, now);
    case DoVerify(link, token) => VerifyKeepsInv(a, link, token, now);
    case DoRefresh(presented, subject, token) => RefreshKeepsInv(a, presented, subject, token, now);
    case DoReset(hash, password) => ResetKeepsInv(a, hash, password, now);
    case _ => OtherKeepsInv(a, op, now);
  }

  datatype Timed = Timed(op: Op, now: Time)

  ghost predicate CanRun(a: Auth, ops: seq<Timed>)
    decreases |ops|
  {
    ops == [] || (FreshId(a, ops[0].op) && CanRun(Perform(a, ops[0].op, ops[0].now).0, ops[1..]))
  }

  ghost function Run(a: Auth, ops: seq<Timed>): Auth
    decreases |ops|
  {
    if ops == [] then a else Run(Perform(a, ops[0].op, ops[0].now).0, ops[1..])
  }

  /** In every reachable state each stored refresh token belongs to an existing verified
      account, and an account once verified is there for good. */
  lemma {:induction false} RunKeepsInv(a: Auth, ops: seq<Timed>)
    requires Inv(a) && CanRun(a, ops)
    ensures Inv(Run(a, ops)) && VerifiedKept(a.users, Run(a, ops).users)
    decreases |ops|
  {
    if ops != [] {
      OperationKeepsInv(a, ops[0].op, ops[0].now);
      RunKeepsInv(Perform(a, ops[0].op, ops[0].now).0, ops[1..]);
    }
  }

  /** Registering never deletes a verified account or touches its password. */
  lemma RegisterSparesVerified(a: Auth, email: string, password: string, auto: bool, owner: Option<UserId>,
                               id: UserId, token: string, now: Time, u: UserId)
    requires id !in a.users && u in a.users && a.users[u].verified
    requires owner.Some? ==> OwnsEmail(a.users, owner.value, email)
    ensures var b := Register(a, email, password, auto, owner, id, token, now).0;
            u in b.users && b.users[u] == a.users[u]
  {
  }

  /** Sessions are issued to verified accounts only, and the token issued is valid. */
  lemma IssuedMeansVerified(a: Auth, op: Op, now: Time)
    requires Perform(a, op, now).1.Ok? && Perform(a, op, now).1.value.Issued?
    ensures var (b, r) := Perform(a, op, now);
            && r.value.user in b.users && b.users[r.value.user].verified
            && ValidateRefreshToken(b.tokens, r.value.user, r.value.token, now)
  {
  }

  lemma RotationRetires(a: Auth, presented: string, subject: UserId, token: string, now: Time, later: Time)
    requires Refresh(a, presented, subject, token, now).1.Ok? && presented != token
    ensures !ValidateRefreshToken(Refresh(a, presented, subject, token, now).0.tokens, subject, presented, later)
  {
    assert RefreshKey(subject, presented)[|subject| + 1..] == presented;
    assert RefreshKey(subject, token)[|subject| + 1..] == token;
  }

  /** A password reset ends every session of its account and no other, and leaves the new
      password as the one that logs in. */
  lemma ResetEndsSessions(a: Auth, hash: string, password: string, now: Time, v: UserId, t: string, later: Time,
                          attempt: string)
    requires Inv(a) && v in a.users && ResetPassword(a, hash, password, now).1.Ok?
    ensures var (b, r) := ResetPassword(a, hash, password, now);
            && r.value.user in a.users
            && (ValidateRefreshToken(b.tokens, v, t, later) <==>
                ValidateRefreshToken(a.tokens, v, t, later) && v != r.value.user)
            && (Login(b, Some(r.value.user), attempt, false, t, later).1.Ok? <==> attempt == password)
  {
    var u := ResetPassword(a, hash, password, now).1.value.user;
    TokenLaws.RevokeAllIsExact(ConsumeResetToken(a.tokens, hash, now).0, u, v, t);
  }

  // ---- what each operation answers

  /** Registering is refused for the address of a verified account.  An unverified account keeps it for
      48 hours, and nothing happens; after them it makes way.  Otherwise there is a new account with that
      address and password, let in at once only where mailboxes need no proof. */
  lemma RegisterExactly(a: Auth, email: string, password: string, auto: bool, owner: Option<UserId>, id: UserId,
                        token: string, now: Time)
    requires Inv(a) && id !in a.users
    requires if owner.Some? then OwnsEmail(a.users, owner.value, email) else !HasEmail(a.users, email)
    ensures var (b, r) := Register(a, email, password, auto, owner, id, token, now);
            var keeps := owner.Some? && !a.users[owner.value].verified
                         && now <= a.users[owner.value].createdAt + 48 * 60 * 60 * 1_000_000_000;
            && (r == Err(EmailExists) <==> owner.Some? && a.users[owner.value].verified)
            && (r.Err? ==> r == Err(EmailExists) && b == a)
            && (keeps ==> r == Ok(NoSession(owner.value)) && b == a)
            && (r.Ok? && !keeps ==>
                 && b.users == (map u | u in a.users && Some(u) != owner :: a.users[u])
                               [id := UserRow(email, Hash(password), auto, now)]
                 && r == Ok(if auto then Issued(id, token) else NoSession(id))
                 && b == if auto then IssueSession(Auth(b.users, a.tokens), id, token, now)
                         else Auth(b.users, a.tokens))
  {}

  /** A link that leads to an account verifies it and lets its owner in, whatever it was before; it works once,
      and leaves other links and accounts alone. */
  lemma VerifyExactly(a: Auth, link: string, token: string, now: Time, other: string, later: Time)
    ensures var (b, r) := VerifyEmailByToken(a, link, token, now);
            var who := UserByVerificationToken(a.tokens, link, now);
            && (who.None? ==> r == Err(TokenInvalid) && b == a)
            && (who.Some? && who.value !in a.users ==> r == Err(Unauthorized) && b.users == a.users)
            && (who.Some? && who.value in a.users ==>
                 && r == Ok(Issued(who.value, token))
                 && b.users == a.users[who.value := a.users[who.value].(verified := true)]
                 && ValidateRefreshToken(b.tokens, who.value, token, now))
            && (who.Some? ==> UserByVerificationToken(b.tokens, link, later).None?)
            && (other != link ==>
                 UserByVerificationToken(b.tokens, other, later) == UserByVerificationToken(a.tokens, other, later))
  {}

  /** A reset succeeds exactly with a token that leads to a verified account; then only that account's password
      changes.  The token is spent either way. */
  lemma ResetExactly(a: Auth, hash: string, password: string, now: Time, later: Time)
    ensures var (b, r) := ResetPassword(a, hash, password, now);
            var who := ConsumeResetToken(a.tokens, hash, now).1;
            && (r.Ok? <==> who.Some? && who.value in a.users && a.users[who.value].verified)
            && (r.Ok? ==> r == Ok(NoSession(who.value))
                          && b.users == a.users[who.value := a.users[who.value].(password := Hash(password))])
            && (r.Err? ==> r == Err(TokenInvalid) && b.users == a.users)
            && ConsumeResetToken(b.tokens, hash, later).1.None?
  {}

  /** A login of nobody is refused; one of an account with its password succeeds when it is verified or proves
      its mailbox, which verifies it; nothing else changes but the new session. */
  lemma LoginExactly(a: Auth, found: Option<UserId>, password: string, proven: bool, token: string, now: Time)
    requires found.Some? ==> found.value in a.users
    ensures var (b, r) := Login(a, found, password, proven, token, now);
            && (found.None? ==> r == Err(Unauthorized) && b == a)
            && (found.Some? && a.users[found.value].password != Hash(password) ==> r == Err(Unauthorized) && b == a)
            && (found.Some? && a.users[found.value].password == Hash(password) ==>
                 if a.users[found.value].verified || proven then
                   && r == Ok(Issued(found.value, token))
                   && b.users == a.users[found.value := a.users[found.value].(verified := true)]
                   && b.tokens == IssueSession(a, found.value, token, now).tokens
                 else r == Err(EmailNotVerified) && b == a)
  {}

  /** A refresh token presented for an account that is not verified is gone. */
  lemma UnverifiedRefreshRevokes(a: Auth, presented: string, subject: UserId, token: string, now: Time, later: Time)
    requires ValidateRefreshToken(a.tokens, subject, presented, now) && subject in a.users && !a.users[subject].verified
    ensures var (b, r) := Refresh(a, presented, subject, token, now);
            r == Err(EmailNotVerified) && b.users == a.users
            && !ValidateRefreshToken(b.tokens, subject, presented, later)
  {}
}
