/** Over any run of the token store: what becomes of the index entry of a reset token, and when a refresh
    token is valid. */
module TokenFates {
  import opened Options
  import opened Tokens
  import opened TokenLaws

  // ---- the per-user index of reset tokens

  /** The entry of a user whose token was minted with an index entry is still there with its token, went
      with it, or was left behind. */
  datatype Fate = Stored | Dropped | Dangling

  function FateAfter(f: Fate, op: Timed, hash: string, exp: Time): Fate {
    if f != Stored then f
    else if op.op == ConsumeReset(hash) then (if op.now > exp then Dangling else Dropped)
    else if op.op.Evict? && op.now > exp then Dropped
    else Stored
  }

  /** j is the user's latest mint. */
  ghost predicate LatestMint(ops: seq<Timed>, j: int, user: string) {
    && Mints(ops, j) && ops[j].op.user == user
    && forall k :: j < k < |ops| ==> !(ops[k].op.CreateReset? && ops[k].op.user == user)
  }

  function FateOf(ops: seq<Timed>, j: int): Fate
    requires Mints(ops, j)
    decreases |ops|
  {
    var n := |ops| - 1;
    if j == n then Stored
    else FateAfter(FateOf(ops[..n], j), ops[n], ops[j].op.hash, EntryOf(ops, j).exp)
  }

  ghost predicate HasFate(s: Store, hash: string, e: Entry, f: Fate) {
    match f
    case Stored => hash in s.reset && s.reset[hash] == e && e.user in s.resetByUser && s.resetByUser[e.user] == hash
    case Dropped => hash !in s.reset && e.user !in s.resetByUser
    case Dangling => hash !in s.reset && e.user in s.resetByUser && s.resetByUser[e.user] == hash
  }

  lemma CreateForOther(s: Store, h: string, user: string, ttl: int, now: Time, hash: string, e: Entry, f: Fate)
    requires HasFate(s, hash, e, f) && user != e.user && h != hash
    requires user in s.resetByUser ==> s.resetByUser[user] != hash
    ensures HasFate(CreateResetToken(s, h, user, ttl, now), hash, e, f)
  {}

  lemma ConsumeStep(s: Store, h: string, now: Time, hash: string, e: Entry, f: Fate)
    requires HasFate(s, hash, e, f)
    ensures HasFate(ConsumeResetToken(s, h, now).0, hash, e, FateAfter(f, Timed(ConsumeReset(h), now), hash, e.exp))
  {}

  lemma EvictStep(s: Store, now: Time, hash: string, e: Entry, f: Fate)
    requires HasFate(s, hash, e, f)
    ensures HasFate(Cleanup(s, now), hash, e, FateAfter(f, Timed(Evict, now), hash, e.exp))
  {}

  lemma OtherStep(s: Store, op: Timed, hash: string, e: Entry, f: Fate)
    requires HasFate(s, hash, e, f) && !op.op.CreateReset? && !op.op.ConsumeReset? && !op.op.Evict?
    ensures HasFate(Perform(s, op).0, hash, e, f)
  {
    OthersKeepResets(s, op);
  }

  lemma FateStep(s: Store, op: Timed, hash: string, e: Entry, f: Fate)
    requires HasFate(s, hash, e, f)
    requires op.op.CreateReset? ==>
               op.op.user != e.user && op.op.hash != hash
               && (op.op.user in s.resetByUser ==> s.resetByUser[op.op.user] != hash)
    ensures HasFate(Perform(s, op).0, hash, e, FateAfter(f, op, hash, e.exp))
  {
    match op.op
    case CreateReset(h, user, ttl) => CreateForOther(s, h, user, ttl, op.now, hash, e, f);
    case ConsumeReset(h) => ConsumeStep(s, h, op.now, hash, e, f);
    case Evict => EvictStep(s, op.now, hash, e, f);
    case _ => OtherStep(s, op, hash, e, f);
  }

  lemma {:induction false} IndexMintedAfter(ops: seq<Timed>)
    ensures IndexMinted(ops, After(ops))
  {
    if ops != [] {
      var init, op := ops[..|ops| - 1], ops[|ops| - 1];
      assert ops == init + [op];
      IndexMintedAfter(init);
      IndexStaysMinted(init, op, After(init));
    }
  }

  lemma FreshInPrefix(ops: seq<Timed>)
    requires ops != [] && FreshHashes(ops, {})
    ensures FreshHashes(ops[..|ops| - 1], {})
  {}

  /** Another user's index entry does not lead to the token. */
  lemma IndexOfOther(ops: seq<Timed>, j: int, user: string)
    requires FreshHashes(ops, {}) && Mints(ops, j) && user != ops[j].op.user && user in After(ops).resetByUser
    ensures After(ops).resetByUser[user] != ops[j].op.hash
  {
    IndexMintedAfter(ops);
    var i :| MintedFor(ops, i, user, After(ops).resetByUser[user]);
    if ops[i].op.hash == ops[j].op.hash { SameHashSameMint(ops, i, j); }
  }

  lemma {:induction false} LatestHasFate(ops: seq<Timed>, j: int, user: string)
    requires FreshHashes(ops, {}) && LatestMint(ops, j, user)
    ensures HasFate(After(ops), ops[j].op.hash, EntryOf(ops, j), FateOf(ops, j))
    decreases |ops|
  {
    var n := |ops| - 1;
    var init, op := ops[..n], ops[n];
    if j < n {
      FreshInPrefix(ops);
      assert init[j] == ops[j];
      LatestHasFate(init, j, user);
      if op.op.CreateReset? && op.op.user in After(init).resetByUser { IndexOfOther(init, j, op.op.user); }
      FateStep(After(init), op, ops[j].op.hash, EntryOf(ops, j), FateOf(init, j));
    }
  }

  /** Operation k takes the stored token away, by presenting it or by evicting it after its expiry. */
  predicate Takes(ops: seq<Timed>, j: int, k: int)
    requires Mints(ops, j) && 0 <= k < |ops|
  {
    ops[k].op == ConsumeReset(ops[j].op.hash) || (ops[k].op.Evict? && ops[k].now > EntryOf(ops, j).exp)
  }

  /** Nothing took the token between its mint and n. */
  ghost predicate NotTaken(ops: seq<Timed>, j: int, n: int)
    requires Mints(ops, j) && n <= |ops|
  {
    forall k :: j < k < n ==> !Takes(ops, j, k)
  }

  /** The token was first presented at i, after its expiry and with no eviction between the two. */
  ghost predicate FirstPresentedLate(ops: seq<Timed>, j: int, i: int)
    requires Mints(ops, j)
  {
    && j < i < |ops| && ops[i].op == ConsumeReset(ops[j].op.hash) && ops[i].now > EntryOf(ops, j).exp
    && NotTaken(ops, j, i)
  }

  lemma TakesInPrefix(ops: seq<Timed>, j: int, n: int)
    requires Mints(ops, j) && j < n <= |ops|
    ensures Mints(ops[..n], j) && EntryOf(ops[..n], j) == EntryOf(ops, j)
    ensures forall k :: 0 <= k < n ==> Takes(ops[..n], j, k) == Takes(ops, j, k)
  {}

  lemma NotTakenInPrefix(ops: seq<Timed>, j: int, n: int, i: int)
    requires Mints(ops, j) && j < n <= |ops| && i <= n
    ensures Mints(ops[..n], j) && (NotTaken(ops[..n], j, i) <==> NotTaken(ops, j, i))
  {
    TakesInPrefix(ops, j, n);
    if NotTaken(ops, j, i) {
      forall k | j < k < i ensures !Takes(ops[..n], j, k) { assert !Takes(ops, j, k); }
    }
    if NotTaken(ops[..n], j, i) {
      forall k | j < k < i ensures !Takes(ops, j, k) { assert !Takes(ops[..n], j, k); }
    }
  }

  lemma LateInPrefix(ops: seq<Timed>, j: int, n: int, i: int)
    requires Mints(ops, j) && j < n <= |ops| && i < n
    ensures Mints(ops[..n], j) && (FirstPresentedLate(ops[..n], j, i) <==> FirstPresentedLate(ops, j, i))
  {
    NotTakenInPrefix(ops, j, n, i);
  }

  lemma {:induction false} StoredExactly(ops: seq<Timed>, j: int)
    requires Mints(ops, j)
    ensures FateOf(ops, j) == Stored <==> NotTaken(ops, j, |ops|)
    decreases |ops|
  {
    var n := |ops| - 1;
    if j < n {
      NotTakenInPrefix(ops, j, n, n);
      StoredExactly(ops[..n], j);
      assert NotTaken(ops, j, n + 1) <==> NotTaken(ops, j, n) && !Takes(ops, j, n);
    }
  }

  lemma LateAtLast(ops: seq<Timed>, j: int)
    requires Mints(ops, j) && j < |ops| - 1 && Mints(ops[..|ops| - 1], j)
    requires FateOf(ops[..|ops| - 1], j) == Stored <==> NotTaken(ops, j, |ops| - 1)
    ensures FirstPresentedLate(ops, j, |ops| - 1)
            <==> FateOf(ops, j) == Dangling && FateOf(ops[..|ops| - 1], j) == Stored
  {}

  lemma {:induction false} DanglingExactly(ops: seq<Timed>, j: int)
    requires Mints(ops, j)
    ensures FateOf(ops, j) == Dangling <==> exists i :: FirstPresentedLate(ops, j, i)
    decreases |ops|
  {
    var n := |ops| - 1;
    if j < n {
      NotTakenInPrefix(ops, j, n, n);
      DanglingExactly(ops[..n], j);
      StoredExactly(ops[..n], j);
      forall i | i < n ensures FirstPresentedLate(ops[..n], j, i) <==> FirstPresentedLate(ops, j, i) {
        LateInPrefix(ops, j, n, i);
      }
      LateAtLast(ops, j);
      if FateOf(ops, j) == Dangling && FateOf(ops[..n], j) == Dangling {
        var i :| FirstPresentedLate(ops[..n], j, i);
        assert FirstPresentedLate(ops, j, i);
      }
      if i :| FirstPresentedLate(ops, j, i) && i < n { assert FirstPresentedLate(ops[..n], j, i); }
    }
  }

  ghost predicate Dangles(s: Store, user: string) {
    user in s.resetByUser && s.resetByUser[user] !in s.reset
  }

  lemma {:induction false} FindLatestMint(ops: seq<Timed>, user: string, i: int) returns (j: int)
    requires Mints(ops, i) && ops[i].op.user == user
    ensures LatestMint(ops, j, user)
    decreases |ops| - i
  {
    if k :| i < k < |ops| && ops[k].op.CreateReset? && ops[k].op.user == user {
      j := FindLatestMint(ops, user, k);
    } else {
      j := i;
    }
  }

  /** A user's index entry leads to no token exactly when the user's latest token was first presented after
      it had expired and before an eviction came by. */
  lemma IndexDanglesExactly(ops: seq<Timed>, user: string)
    requires FreshHashes(ops, {})
    ensures Dangles(After(ops), user)
            <==> exists j :: LatestMint(ops, j, user) && exists i :: FirstPresentedLate(ops, j, i)
  {
    forall j | LatestMint(ops, j, user)
      ensures Dangles(After(ops), user) <==> exists i :: FirstPresentedLate(ops, j, i)
    {
      LatestHasFate(ops, j, user);
      DanglingExactly(ops, j);
    }
    if Dangles(After(ops), user) {
      IndexMintedAfter(ops);
      var i :| MintedFor(ops, i, user, After(ops).resetByUser[user]);
      var j := FindLatestMint(ops, user, i);
    }
  }

  // ---- refresh tokens

  lemma SameKey(u: string, t: string, v: string, w: string)
    requires ':' !in u && ':' !in v
    ensures RefreshKey(u, t) == RefreshKey(v, w) <==> u == v && t == w
  {
    var k, l := RefreshKey(u, t), RefreshKey(v, w);
    if k == l {
      RefreshKeysDiffer(u, v, w);
      assert k[..|u| + 1] == u + ":";
      assert t == k[|u| + 1..] && w == l[|v| + 1..];
    }
  }

  predicate Stores(op: Op, user: string, token: string) {
    op.StoreRefresh? && op.user == user && op.token == token
  }

  predicate Revokes(op: Op, user: string, token: string) {
    (op.RevokeRefresh? && op.user == user && op.token == token) || (op.RevokeAll? && op.user == user)
  }

  /** The users of refresh operations have ids without a colon, as UUIDs are. */
  predicate PlainUser(op: Op) {
    op.StoreRefresh? || op.RevokeRefresh? || op.RevokeAll? ==> ':' !in op.user
  }

  lemma StoreStep(s: Store, v: string, w: string, ttl: int, at: Time, u: string, t: string, now: Time)
    requires ':' !in u && ':' !in v
    ensures ValidateRefreshToken(StoreRefreshToken(s, v, w, ttl, at), u, t, now)
            <==> if u == v && t == w then now < at + ttl else ValidateRefreshToken(s, u, t, now)
  {
    SameKey(u, t, v, w);
  }

  lemma RevokeStep(s: Store, v: string, w: string, u: string, t: string, now: Time)
    requires ':' !in u && ':' !in v
    ensures ValidateRefreshToken(RevokeRefreshToken(s, v, w), u, t, now)
            <==> !(u == v && t == w) && ValidateRefreshToken(s, u, t, now)
  {
    SameKey(u, t, v, w);
  }

  lemma RevokeAllStep(s: Store, v: string, u: string, t: string, now: Time)
    requires ':' !in u && ':' !in v
    ensures ValidateRefreshToken(RevokeAllUserRefreshTokens(s, v), u, t, now)
            <==> u != v && ValidateRefreshToken(s, u, t, now)
  {
    RefreshKeysDiffer(v, u, t);
  }

  lemma EvictKeepsValid(s: Store, at: Time, u: string, t: string, now: Time)
    requires at <= now
    ensures ValidateRefreshToken(Cleanup(s, at), u, t, now) <==> ValidateRefreshToken(s, u, t, now)
  {}

  lemma OthersKeepRefresh(s: Store, op: Timed)
    requires !op.op.StoreRefresh? && !op.op.RevokeRefresh? && !op.op.RevokeAll? && !op.op.Evict?
    ensures Perform(s, op).0.refresh == s.refresh
  {}

  lemma RefreshStep(s: Store, op: Timed, u: string, t: string, now: Time)
    requires ':' !in u && PlainUser(op.op) && op.now <= now
    ensures ValidateRefreshToken(Perform(s, op).0, u, t, now)
            <==> if Stores(op.op, u, t) then now < op.now + op.op.ttl
                 else !Revokes(op.op, u, t) && ValidateRefreshToken(s, u, t, now)
  {
    match op.op
    case StoreRefresh(v, w, ttl) => StoreStep(s, v, w, ttl, op.now, u, t, now);
    case RevokeRefresh(v, w) => RevokeStep(s, v, w, u, t, now);
    case RevokeAll(v) => RevokeAllStep(s, v, u, t, now);
    case Evict => EvictKeepsValid(s, op.now, u, t, now);
    case _ => OthersKeepRefresh(s, op);
  }

  /** The token was last stored at j, not revoked since, and now is before its expiry. */
  ghost predicate StandsFrom(ops: seq<Timed>, j: int, user: string, token: string, now: Time) {
    && 0 <= j < |ops| && Stores(ops[j].op, user, token) && now < ops[j].now + ops[j].op.ttl
    && forall k :: j < k < |ops| ==> !Stores(ops[k].op, user, token) && !Revokes(ops[k].op, user, token)
  }

  ghost predicate Stands(ops: seq<Timed>, user: string, token: string, now: Time) {
    exists j :: StandsFrom(ops, j, user, token, now)
  }

  lemma StandsOneMore(ops: seq<Timed>, op: Timed, user: string, token: string, now: Time)
    ensures Stands(ops + [op], user, token, now)
            <==> if Stores(op.op, user, token) then now < op.now + op.op.ttl
                 else !Revokes(op.op, user, token) && Stands(ops, user, token, now)
  {
    var all, n := ops + [op], |ops|;
    assert all[n] == op;
    if Stores(op.op, user, token) {
      if now < op.now + op.op.ttl { assert StandsFrom(all, n, user, token, now); }
    } else if !Revokes(op.op, user, token) && Stands(ops, user, token, now) {
      var j :| StandsFrom(ops, j, user, token, now);
      assert StandsFrom(all, j, user, token, now);
    }
    if Stands(all, user, token, now) {
      var j :| StandsFrom(all, j, user, token, now);
      if j < n {
        assert !Stores(all[n].op, user, token) && !Revokes(all[n].op, user, token);
        forall k | j < k < n ensures !Stores(ops[k].op, user, token) && !Revokes(ops[k].op, user, token) {
          assert all[k] == ops[k];
        }
        assert StandsFrom(ops, j, user, token, now);
      }
    }
  }

  /** After any run, evictions included, a refresh token is valid exactly when it was stored, neither it
      nor all of its user's tokens have been revoked since, and it has not expired. */
  lemma {:induction false} RefreshTokenValidExactly(ops: seq<Timed>, user: string, token: string, now: Time)
    requires ':' !in user && forall i :: 0 <= i < |ops| ==> PlainUser(ops[i].op) && ops[i].now <= now
    ensures ValidateRefreshToken(After(ops), user, token, now) <==> Stands(ops, user, token, now)
  {
    if ops != [] {
      var init, op := ops[..|ops| - 1], ops[|ops| - 1];
      assert ops == init + [op];
      RefreshTokenValidExactly(init, user, token, now);
      RefreshStep(After(init), op, user, token, now);
      StandsOneMore(init, op, user, token, now);
    }
  }

  // ---- blocklisted access tokens and verification links

  /** The token was last blocklisted at j, for longer than until now. */
  ghost predicate BlockedFrom(ops: seq<Timed>, j: int, token: string, now: Time) {
    && 0 <= j < |ops| && ops[j].op.Blocklist? && ops[j].op.token == token && now < ops[j].now + ops[j].op.ttl
    && forall k :: j < k < |ops| ==> !(ops[k].op.Blocklist? && ops[k].op.token == token)
  }

  lemma BlocklistStep(s: Store, op: Timed, token: string, now: Time)
    requires op.now <= now
    ensures IsTokenBlocklisted(Perform(s, op).0, token, now)
            <==> if op.op.Blocklist? && op.op.token == token then now < op.now + op.op.ttl
                 else IsTokenBlocklisted(s, token, now)
  {}

  /** After any run an access token is refused exactly when it was blocklisted, for longer than until now. */
  lemma {:induction false} BlocklistedExactly(ops: seq<Timed>, token: string, now: Time)
    requires forall i :: 0 <= i < |ops| ==> ops[i].now <= now
    ensures IsTokenBlocklisted(After(ops), token, now) <==> exists j :: BlockedFrom(ops, j, token, now)
  {
    if ops != [] {
      var n := |ops| - 1;
      BlocklistedExactly(ops[..n], token, now);
      BlocklistStep(After(ops[..n]), ops[n], token, now);
      forall j | 0 <= j < n
        ensures BlockedFrom(ops, j, token, now)
                <==> BlockedFrom(ops[..n], j, token, now) && !(ops[n].op.Blocklist? && ops[n].op.token == token)
      {}
      if ops[n].op.Blocklist? && ops[n].op.token == token && now < ops[n].now + ops[n].op.ttl {
        assert BlockedFrom(ops, n, token, now);
      }
      if j :| BlockedFrom(ops[..n], j, token, now) && !(ops[n].op.Blocklist? && ops[n].op.token == token) {
        assert BlockedFrom(ops, j, token, now);
      }
      if j :| BlockedFrom(ops, j, token, now) && j < n { assert BlockedFrom(ops[..n], j, token, now); }
    }
  }

  predicate Renews(op: Op, token: string) {
    (op.CreateVerification? || op.DeleteVerification?) && op.token == token
  }

  /** The link was last mailed at j, to that user, is not past its time, and was not deleted since. */
  ghost predicate MailedFrom(ops: seq<Timed>, j: int, token: string, user: string, now: Time) {
    && 0 <= j < |ops| && ops[j].op.CreateVerification? && ops[j].op.token == token && ops[j].op.user == user
    && now <= ops[j].now + ops[j].op.ttl
    && forall k :: j < k < |ops| ==> !Renews(ops[k].op, token)
  }

  lemma LinkStep(s: Store, op: Timed, token: string, now: Time)
    requires op.now <= now
    ensures UserByVerificationToken(Perform(s, op).0, token, now)
            == if op.op.CreateVerification? && op.op.token == token then
                 (if now <= op.now + op.op.ttl then Some(op.op.user) else None)
               else if op.op.DeleteVerification? && op.op.token == token then None
               else UserByVerificationToken(s, token, now)
  {}

  /** After any run a verification link leads to the user it was last mailed to, while it is not past its time and
      has not been used. */
  lemma {:induction false} LinkLeadsExactly(ops: seq<Timed>, token: string, user: string, now: Time)
    requires forall i :: 0 <= i < |ops| ==> ops[i].now <= now
    ensures UserByVerificationToken(After(ops), token, now) == Some(user)
            <==> exists j :: MailedFrom(ops, j, token, user, now)
  {
    if ops != [] {
      var n := |ops| - 1;
      LinkLeadsExactly(ops[..n], token, user, now);
      LinkStep(After(ops[..n]), ops[n], token, now);
      forall j | 0 <= j < n
        ensures MailedFrom(ops, j, token, user, now)
                <==> MailedFrom(ops[..n], j, token, user, now) && !Renews(ops[n].op, token)
      {}
      if UserByVerificationToken(After(ops), token, now) == Some(user) {
        if Renews(ops[n].op, token) {
          assert MailedFrom(ops, n, token, user, now);
        } else {
          var j :| MailedFrom(ops[..n], j, token, user, now);
          assert MailedFrom(ops, j, token, user, now);
        }
      }
      if j :| MailedFrom(ops, j, token, user, now) && j < n { assert MailedFrom(ops[..n], j, token, user, now); }
    }
  }
}
