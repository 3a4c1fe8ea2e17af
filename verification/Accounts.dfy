/** Accounts and sessions: auth/service.go and auth/password_reset.go over the user table
    (queries.sql:1-28) and the token store.  A password hash matches its own password only;
    ids, tokens and the time are inputs of the operation that draws them. */
module Accounts {
  import opened Options
  import opened Tokens

  type UserId = string

  const UNVERIFIED_RECLAIM_AFTER: int := 48 * 3600 * 1_000_000_000
  const REFRESH_TOKEN_DURATION: int := 7 * 24 * 3600 * 1_000_000_000

  datatype Hash = Hash(password: string)

  datatype UserRow = UserRow(email: string, password: Hash, verified: bool, createdAt: Time)

  datatype Auth = Auth(users: map<UserId, UserRow>, tokens: Store)

  datatype Error =
    | EmailExists | Unauthorized | TokenInvalid | EmailNotVerified | RequestRefused(reason: string)

  datatype Result<T> = Ok(value: T) | Err(error: Error)

  /** An operation answers with the account it is about, and whether a session was issued. */
  datatype Session = NoSession(user: UserId) | Issued(user: UserId, token: string)

  ghost predicate HasEmail(users: map<UserId, UserRow>, email: string) {
    exists u :: u in users && users[u].email == email
  }

  predicate OwnsEmail(users: map<UserId, UserRow>, u: UserId, email: string) {
    u in users && users[u].email == email
  }

  function IssueSession(a: Auth, user: UserId, token: string, now: Time): Auth {
    a.(tokens := StoreRefreshToken(a.tokens, user, token, REFRESH_TOKEN_DURATION, now))
  }

  predicate Reclaimable(row: UserRow, now: Time) {
    !row.verified && now - row.createdAt > UNVERIFIED_RECLAIM_AFTER
  }

  function DeleteUnverified(users: map<UserId, UserRow>, u: UserId): map<UserId, UserRow> {
    if u in users && !users[u].verified then users - {u} else users
  }

  function Created(a: Auth, users: map<UserId, UserRow>, id: UserId, row: UserRow, token: string, now: Time)
    : (Auth, Result<Session>)
  {
    var b := a.(users := users[id := row]);
    if row.verified then (IssueSession(b, id, token, now), Ok(Issued(id, token))) else (b, Ok(NoSession(id)))
  }

  /** Register for an acceptable address and password (service.go:287-377).  owner is the
      account that has the address already, if any. */
  function Register(a: Auth, email: string, password: string, autoVerify: bool, owner: Option<UserId>,
                    id: UserId, token: string, now: Time): (Auth, Result<Session>)
    requires owner.Some? ==> OwnsEmail(a.users, owner.value, email)
  {
    var row := UserRow(email, Hash(password), autoVerify, now);
    if owner.None? then Created(a, a.users, id, row, token, now)
    else
      var existing := a.users[owner.value];
      if existing.verified then (a, Err(EmailExists))
      else if !Reclaimable(existing, now) then (a, Ok(NoSession(owner.value)))
      else Created(a, DeleteUnverified(a.users, owner.value), id, row, token, now)
  }

  function MarkVerified(users: map<UserId, UserRow>, u: UserId): map<UserId, UserRow> {
    if u in users then users[u := users[u].(verified := true)] else users
  }

  /** service.go:383-407.  found is the account the address leads to; proven tells whether a
      valid workspace invitation proves the mailbox. */
  function Login(a: Auth, found: Option<UserId>, password: string, proven: bool, token: string, now: Time)
    : (Auth, Result<Session>)
    requires found.Some? ==> found.value in a.users
  {
    if found.None? || a.users[found.value].password != Hash(password) then (a, Err(Unauthorized))
    else if !a.users[found.value].verified && !proven then (a, Err(EmailNotVerified))
    else
      var b := if a.users[found.value].verified then a else a.(users := MarkVerified(a.users, found.value));
      (IssueSession(b, found.value, token, now), Ok(Issued(found.value, token)))
  }

  /** service.go:468-499.  subject is what the presented token's claims say. */
  function Refresh(a: Auth, presented: string, subject: UserId, token: string, now: Time): (Auth, Result<Session>) {
    if !ValidateRefreshToken(a.tokens, subject, presented, now) then (a, Err(TokenInvalid))
    else if subject !in a.users then (a, Err(TokenInvalid))
    else
      var revoked := a.(tokens := RevokeRefreshToken(a.tokens, subject, presented));
      if !a.users[subject].verified then (revoked, Err(EmailNotVerified))
      else (IssueSession(revoked, subject, token, now), Ok(Issued(subject, token)))
  }

  /** service.go:550-580 */
  function VerifyEmailByToken(a: Auth, link: string, token: string, now: Time): (Auth, Result<Session>) {
    var who := UserByVerificationToken(a.tokens, link, now);
    if who.None? then (a, Err(TokenInvalid))
    else
      var u := who.value;
      var b := Auth(MarkVerified(a.users, u), DeleteVerificationToken(a.tokens, link));
      if u !in a.users then (b, Err(Unauthorized))
      else (IssueSession(b, u, token, now), Ok(Issued(u, token)))
  }

  /** password_reset.go:91-125, for a password that passes validatePassword. */
  function ResetPassword(a: Auth, hash: string, password: string, now: Time): (Auth, Result<Session>) {
    var (tokens, who) := ConsumeResetToken(a.tokens, hash, now);
    var b := a.(tokens := tokens);
    if who.None? || who.value !in a.users || !a.users[who.value].verified then (b, Err(TokenInvalid))
    else
      var u := who.value;
      (Auth(a.users[u := a.users[u].(password := Hash(password))], RevokeAllUserRefreshTokens(tokens, u)),
       Ok(NoSession(u)))
  }

  /** service.go:447-465, the refresh token's part. */
  function Logout(a: Auth, subject: UserId, presented: string): Auth {
    a.(tokens := RevokeRefreshToken(a.tokens, subject, presented))
  }

  class AuthService {
    var users: map<UserId, UserRow>
    const store: MemoryTokenStore
    const autoVerifyEmail: bool

    ghost function State(): Auth
      reads this, store
    {
      Auth(users, store.State())
    }

    constructor (autoVerify: bool)
      ensures State() == Auth(map[], EMPTY) && autoVerifyEmail == autoVerify
      ensures fresh(store)
    {
      users := map[];
      store := new MemoryTokenStore();
      autoVerifyEmail := autoVerify;
    }

    /** GetUserByEmail: the row with the address, of which the unique index allows one. */
    method FindByEmail(email: string) returns (found: Option<UserId>)
      ensures found.Some? ==> OwnsEmail(users, found.value, email)
      ensures found.None? ==> !HasEmail(users, email)
    {
      var left := users.Keys;
      while left != {}
        invariant left <= users.Keys
        invariant forall u :: u in users && u !in left ==> users[u].email != email
        decreases left
      {
        var u :| u in left;
        if users[u].email == email { return Some(u); }
        left := left - {u};
      }
      found := None;
    }

    method Issue(user: UserId, token: string, now: Time)
      modifies store
      ensures State() == IssueSession(old(State()), user, token, now)
    {
      store.StoreRefresh(user, token, REFRESH_TOKEN_DURATION, now);
    }

    method RegisterUser(email: string, password: string, refusal: Option<string>, id: UserId, token: string, now: Time)
      returns (r: Result<Session>, ghost owner: Option<UserId>)
      requires id !in users
      modifies this`users, store
      ensures refusal.Some? ==> r == Err(RequestRefused(refusal.value)) && State() == old(State())
      ensures owner.Some? ==> OwnsEmail(old(users), owner.value, email)
      ensures refusal.None? && owner.None? ==> !HasEmail(old(users), email)
      ensures refusal.None? ==>
                (State(), r) == Register(old(State()), email, password, autoVerifyEmail, owner, id, token, now)
    {
      owner := None;
      if refusal.Some? { return Err(RequestRefused(refusal.value)), owner; }
      var row := UserRow(email, Hash(password), autoVerifyEmail, now);
      var existing := FindByEmail(email);
      owner := existing;
      if existing.Some? {
        if users[existing.value].verified { return Err(EmailExists), owner; }
        if now - users[existing.value].createdAt <= UNVERIFIED_RECLAIM_AFTER {
          return Ok(NoSession(existing.value)), owner;
        }
        users := users - {existing.value};
      }
      users := users[id := row];
      if !autoVerifyEmail { return Ok(NoSession(id)), owner; }
      Issue(id, token, now);
      r := Ok(Issued(id, token));
    }

    method LoginUser(found: Option<UserId>, password: string, proven: bool, token: string, now: Time)
      returns (r: Result<Session>)
      requires found.Some? ==> found.value in users
      modifies this`users, store
      ensures (State(), r) == Login(old(State()), found, password, proven, token, now)
    {
      if found.None? { return Err(Unauthorized); }
      var u := found.value;
      if users[u].password != Hash(password) { return Err(Unauthorized); }
      if !users[u].verified {
        if !proven { return Err(EmailNotVerified); }
        users := MarkVerified(users, u);
      }
      Issue(u, token, now);
      r := Ok(Issued(u, token));
    }

    method RefreshSession(presented: string, subject: UserId, token: string, now: Time) returns (r: Result<Session>)
      modifies store
      ensures (State(), r) == Refresh(old(State()), presented, subject, token, now)
    {
      var valid := store.ValidateRefresh(subject, presented, now);
      if !valid { return Err(TokenInvalid); }
      if subject !in users { return Err(TokenInvalid); }
      if !users[subject].verified {
        store.RevokeRefresh(subject, presented);
        return Err(EmailNotVerified);
      }
      store.RevokeRefresh(subject, presented);
      Issue(subject, token, now);
      r := Ok(Issued(subject, token));
    }

    method VerifyByToken(link: string, token: string, now: Time) returns (r: Result<Session>)
      modifies this`users, store
      ensures (State(), r) == VerifyEmailByToken(old(State()), link, token, now)
    {
      var who := store.UserByVerification(link, now);
      if who.None? { return Err(TokenInvalid); }
      users := MarkVerified(users, who.value);
      if who.value !in users {
        store.DeleteVerification(link);
        return Err(Unauthorized);
      }
      Issue(who.value, token, now);
      store.DeleteVerification(link);
      r := Ok(Issued(who.value, token));
    }

    method ResetPasswordByToken(hash: string, password: string, now: Time) returns (r: Result<Session>)
      modifies this`users, store
      ensures (State(), r) == ResetPassword(old(State()), hash, password, now)
    {
      var who := store.ConsumeReset(hash, now);
      if who.None? { return Err(TokenInvalid); }
      var u := who.value;
      if u !in users || !users[u].verified { return Err(TokenInvalid); }
      users := users[u := users[u].(password := Hash(password))];
      store.RevokeAll(u);
      r := Ok(NoSession(u));
    }
  }
}
