/** Eviction is invisible, and a reset token works once and only while it is the latest. */
module TokenLaws {
  import opened Options
  import opened Tokens

  datatype Op =
    | Blocklist(token: string, ttl: int)
    | IsBlocklisted(token: string)
    | StoreRefresh(user: string, token: string, ttl: int)
    | ValidateRefresh(user: string, token: string)
    | RevokeRefresh(user: string, token: string)
    | RevokeAll(user: string)
    | CreateVerification(token: string, user: string, ttl: int)
    | UserByVerification(token: string)
    | DeleteVerification(token: string)
    | CreateReset(hash: string, user: string, ttl: int)
    | ConsumeReset(hash: string)
    | Evict

  datatype Answer = Silent | Truth(value: bool) | User(user: Option<string>)

  datatype Timed = Timed(op: Op, now: Time)

  function Perform(s: Store, t: Timed): (Store, Answer) {
    match t.op
    case Blocklist(token, ttl) => (BlocklistToken(s, token, ttl, t.now), Silent)
    case IsBlocklisted(token) => (s, Truth(IsTokenBlocklisted(s, token, t.now)))
    case StoreRefresh(user, token, ttl) => (StoreRefreshToken(s, user, token, ttl, t.now), Silent)
    case ValidateRefresh(user, token) => (s, Truth(ValidateRefreshToken(s, user, token, t.now)))
    case RevokeRefresh(user, token) => (RevokeRefreshToken(s, user, token), Silent)
    case RevokeAll(user) => (RevokeAllUserRefreshTokens(s, user), Silent)
    case CreateVerification(token, user, ttl) => (CreateVerificationToken(s, token, user, ttl, t.now), Silent)
    case UserByVerification(token) => (s, User(UserByVerificationToken(s, token, t.now)))
    case DeleteVerification(token) => (DeleteVerificationToken(s, token), Silent)
    case CreateReset(hash, user, ttl) => (CreateResetToken(s, hash, user, ttl, t.now), Silent)
    case ConsumeReset(hash) => var (r, user) := ConsumeResetToken(s, hash, t.now); (r, User(user))
    case Evict => (Cleanup(s, t.now), Silent)
  }

  /** Answers of the operations other than eviction, in order. */
  function Answers(s: Store, ops: seq<Timed>): seq<Answer>
    decreases |ops|
  {
    if ops == [] then []
    else
      var (r, a) := Perform(s, ops[0]);
      (if ops[0].op.Evict? then [] else [a]) + Answers(r, ops[1..])
  }

  function WithoutEvictions(ops: seq<Timed>): seq<Timed> {
    if ops == [] then []
    else (if ops[0].op.Evict? then [] else [ops[0]]) + WithoutEvictions(ops[1..])
  }

  ghost predicate Monotone(ops: seq<Timed>) {
    forall i, j :: 0 <= i < j < |ops| ==> ops[i].now <= ops[j].now
  }

  /** No reset hash is minted twice, nor was one of those given before. */
  ghost predicate FreshHashes(ops: seq<Timed>, minted: set<string>) {
    (forall i :: 0 <= i < |ops| && ops[i].op.CreateReset? ==> ops[i].op.hash !in minted) &&
    (forall i, j :: 0 <= i < j < |ops| && ops[i].op.CreateReset? && ops[j].op.CreateReset? ==>
      ops[i].op.hash != ops[j].op.hash)
  }

  // ---- eviction is invisible ----

  ghost predicate SameTimes(m: map<string, Time>, n: map<string, Time>, now: Time) {
    (forall k :: k in m ==> k in n && n[k] == m[k]) && (forall k :: k in n && k !in m ==> n[k] < now)
  }

  ghost predicate SameEntries(m: map<string, Entry>, n: map<string, Entry>, now: Time) {
    (forall k :: k in m ==> k in n && n[k] == m[k]) && (forall k :: k in n && k !in m ==> n[k].exp < now)
  }

  /** Reset tokens and their index; every hash in them was minted. */
  ghost predicate ResetsAgree(s: Store, t: Store, now: Time, minted: set<string>) {
    && SameEntries(s.reset, t.reset, now)
    && (forall u :: u in s.resetByUser ==> u in t.resetByUser && t.resetByUser[u] == s.resetByUser[u])
    && (forall u :: u in t.resetByUser && u !in s.resetByUser ==> t.resetByUser[u] !in s.reset)
    && (forall h :: h in t.reset ==> h in minted)
    && (forall u :: u in t.resetByUser ==> t.resetByUser[u] in minted)
  }

  /** s has been cleaned at some times up to now, t never: they differ in dead entries only. */
  ghost predicate Agree(s: Store, t: Store, now: Time, minted: set<string>) {
    && SameTimes(s.blocklist, t.blocklist, now) && SameTimes(s.refresh, t.refresh, now)
    && SameEntries(s.verification, t.verification, now)
    && ResetsAgree(s, t, now, minted)
  }

  lemma AgreeLater(s: Store, t: Store, now: Time, later: Time, minted: set<string>)
    requires Agree(s, t, now, minted) && now <= later
    ensures Agree(s, t, later, minted)
  {
  }

  lemma EvictionAgrees(s: Store, t: Store, now: Time, minted: set<string>)
    requires Agree(s, t, now, minted)
    ensures Agree(Cleanup(s, now), t, now, minted)
  {
    var r := Cleanup(s, now);
    assert SameTimes(r.blocklist, t.blocklist, now);
    assert SameTimes(r.refresh, t.refresh, now);
    assert SameEntries(r.verification, t.verification, now);
    assert SameEntries(r.reset, t.reset, now);
  }

  lemma CreateResetAgrees(s: Store, t: Store, hash: string, user: string, ttl: int, now: Time, minted: set<string>)
    requires ResetsAgree(s, t, now, minted) && hash !in minted
    ensures ResetsAgree(CreateResetToken(s, hash, user, ttl, now), CreateResetToken(t, hash, user, ttl, now), now,
                        minted + {hash})
  {
    var r, q := CreateResetToken(s, hash, user, ttl, now), CreateResetToken(t, hash, user, ttl, now);
    assert SameEntries(r.reset, q.reset, now);
  }

  lemma ForgetAgrees(s: Store, t: Store, hash: string, now: Time, minted: set<string>)
    requires ResetsAgree(s, t, now, minted)
    ensures ResetsAgree(s.(reset := WithoutKey(s.reset, hash)), t.(reset := WithoutKey(t.reset, hash)), now, minted)
  {
  }

  lemma UnindexAgrees(s: Store, t: Store, user: string, now: Time, minted: set<string>)
    requires ResetsAgree(s, t, now, minted)
    ensures ResetsAgree(s.(resetByUser := WithoutKey(s.resetByUser, user)),
                        t.(resetByUser := WithoutKey(t.resetByUser, user)), now, minted)
  {
  }

  lemma ConsumeAgrees(s: Store, t: Store, hash: string, now: Time, minted: set<string>)
    requires ResetsAgree(s, t, now, minted)
    ensures ConsumeResetToken(s, hash, now).1 == ConsumeResetToken(t, hash, now).1
    ensures ResetsAgree(ConsumeResetToken(s, hash, now).0, ConsumeResetToken(t, hash, now).0, now, minted)
  {
    ForgetAgrees(s, t, hash, now, minted);
    if hash in s.reset && now <= s.reset[hash].exp {
      var user := s.reset[hash].user;
      assert t.reset[hash] == s.reset[hash];
      UnindexAgrees(s.(reset := WithoutKey(s.reset, hash)), t.(reset := WithoutKey(t.reset, hash)), user, now, minted);
    }
  }

  ghost function Minted(op: Op): set<string> { if op.CreateReset? then {op.hash} else {} }

  lemma RefreshStepAgrees(s: Store, t: Store, op: Timed, minted: set<string>)
    requires Agree(s, t, op.now, minted)
    requires op.op.StoreRefresh? || op.op.ValidateRefresh? || op.op.RevokeRefresh? || op.op.RevokeAll?
    ensures Perform(s, op).1 == Perform(t, op).1
    ensures Agree(Perform(s, op).0, Perform(t, op).0, op.now, minted)
  {
    assert SameTimes(Perform(s, op).0.refresh, Perform(t, op).0.refresh, op.now);
  }

  lemma OtherStepAgrees(s: Store, t: Store, op: Timed, minted: set<string>)
    requires Agree(s, t, op.now, minted)
    requires op.op.Blocklist? || op.op.IsBlocklisted? || op.op.CreateVerification? ||
             op.op.UserByVerification? || op.op.DeleteVerification?
    ensures Perform(s, op).1 == Perform(t, op).1
    ensures Agree(Perform(s, op).0, Perform(t, op).0, op.now, minted)
  {
  }

  lemma StepAgrees(s: Store, t: Store, op: Timed, minted: set<string>)
    requires Agree(s, t, op.now, minted) && !op.op.Evict?
    requires op.op.CreateReset? ==> op.op.hash !in minted
    ensures Perform(s, op).1 == Perform(t, op).1
    ensures Agree(Perform(s, op).0, Perform(t, op).0, op.now, minted + Minted(op.op))
  {
    if op.op.CreateReset? {
      CreateResetAgrees(s, t, op.op.hash, op.op.user, op.op.ttl, op.now, minted);
    } else {
      assert minted + Minted(op.op) == minted;
      if op.op.ConsumeReset? {
        ConsumeAgrees(s, t, op.op.hash, op.now, minted);
      } else if op.op.StoreRefresh? || op.op.ValidateRefresh? || op.op.RevokeRefresh? || op.op.RevokeAll? {
        RefreshStepAgrees(s, t, op, minted);
      } else {
        OtherStepAgrees(s, t, op, minted);
      }
    }
  }

  lemma AnswersFrom(s: Store, ops: seq<Timed>)
    requires ops != []
    ensures Answers(s, ops)
            == (if ops[0].op.Evict? then [] else [Perform(s, ops[0]).1]) + Answers(Perform(s, ops[0]).0, ops[1..])
  {}

  lemma AnswersWithoutEvictionsFrom(t: Store, ops: seq<Timed>)
    requires ops != []
    ensures Answers(t, WithoutEvictions(ops))
            == if ops[0].op.Evict? then Answers(t, WithoutEvictions(ops[1..]))
               else [Perform(t, ops[0]).1] + Answers(Perform(t, ops[0]).0, WithoutEvictions(ops[1..]))
  {
    var rest := WithoutEvictions(ops[1..]);
    if ops[0].op.Evict? {
      assert WithoutEvictions(ops) == rest;
    } else {
      assert WithoutEvictions(ops) == [ops[0]] + rest && ([ops[0]] + rest)[1..] == rest;
    }
  }

  lemma FreshTail(ops: seq<Timed>, minted: set<string>)
    requires ops != [] && Monotone(ops) && FreshHashes(ops, minted)
    ensures Monotone(ops[1..]) && FreshHashes(ops[1..], minted + Minted(ops[0].op))
    ensures ops[1..] != [] ==> ops[0].now <= ops[1..][0].now
  {}

  /** The store without evictions after an operation of the other one's. */
  function Uncleaned(t: Store, op: Timed): Store { if op.op.Evict? then t else Perform(t, op).0 }

  lemma HeadAgrees(s: Store, t: Store, op: Timed, now: Time, minted: set<string>)
    requires Agree(s, t, now, minted) && now <= op.now && (op.op.CreateReset? ==> op.op.hash !in minted)
    ensures Agree(Perform(s, op).0, Uncleaned(t, op), op.now, minted + Minted(op.op))
    ensures !op.op.Evict? ==> Perform(s, op).1 == Perform(t, op).1
  {
    AgreeLater(s, t, now, op.now, minted);
    if op.op.Evict? {
      EvictionAgrees(s, t, op.now, minted);
      assert minted + Minted(op.op) == minted;
    } else {
      StepAgrees(s, t, op, minted);
    }
  }

  lemma {:induction false} AnswersAgree(s: Store, t: Store, ops: seq<Timed>, now: Time, minted: set<string>)
    requires Agree(s, t, now, minted) && Monotone(ops) && FreshHashes(ops, minted)
    requires ops != [] ==> now <= ops[0].now
    decreases |ops|
    ensures Answers(s, ops) == Answers(t, WithoutEvictions(ops))
  {
    if ops != [] {
      var op := ops[0];
      HeadAgrees(s, t, op, now, minted);
      FreshTail(ops, minted);
      AnswersFrom(s, ops);
      AnswersWithoutEvictionsFrom(t, ops);
      AnswersAgree(Perform(s, op).0, Uncleaned(t, op), ops[1..], op.now, minted + Minted(op.op));
    }
  }

  /** What the eviction leaves is what is not past its time, as it was. */
  lemma CleanupIsExact(s: Store, now: Time, k: string)
    ensures var t := Cleanup(s, now);
            && (k in t.blocklist <==> k in s.blocklist && now <= s.blocklist[k])
            && (k in t.refresh <==> k in s.refresh && now <= s.refresh[k])
            && (k in t.verification <==> k in s.verification && now <= s.verification[k].exp)
            && (k in t.reset <==> k in s.reset && now <= s.reset[k].exp)
            && (k in t.blocklist ==> t.blocklist[k] == s.blocklist[k])
            && (k in t.refresh ==> t.refresh[k] == s.refresh[k])
            && (k in t.verification ==> t.verification[k] == s.verification[k])
            && (k in t.reset ==> t.reset[k] == s.reset[k])
            && (k in t.resetByUser <==> k in s.resetByUser && forall h :: h in s.reset - t.reset.Keys ==>
                                          s.reset[h].user != k || s.resetByUser[k] != h)
            && (k in t.resetByUser ==> t.resetByUser[k] == s.resetByUser[k])
  {}

  /** Running the eviction at any points of a run changes no answer. */
  lemma EvictionIsInvisible(ops: seq<Timed>)
    requires Monotone(ops) && FreshHashes(ops, {})
    ensures Answers(EMPTY, ops) == Answers(EMPTY, WithoutEvictions(ops))
  {
    AnswersAgree(EMPTY, EMPTY, ops, if ops == [] then 0 else ops[0].now, {});
  }

  // ---- reset tokens are single-use, latest-only ----

  function After(ops: seq<Timed>): Store {
    if ops == [] then EMPTY else Perform(After(ops[..|ops| - 1]), ops[|ops| - 1]).0
  }

  predicate Mints(ops: seq<Timed>, j: int) { 0 <= j < |ops| && ops[j].op.CreateReset? }

  /** op leaves the token minted by m outstanding. */
  predicate Spares(op: Op, m: Op)
    requires m.CreateReset?
  {
    !(op.CreateReset? && op.user == m.user) && !(op.ConsumeReset? && op.hash == m.hash)
  }

  /** The token minted at j is its user's latest and has not been presented since. */
  ghost predicate Live(ops: seq<Timed>, j: int) {
    Mints(ops, j) && forall k :: j < k < |ops| ==> Spares(ops[k].op, ops[j].op)
  }

  function EntryOf(ops: seq<Timed>, j: int): Entry
    requires Mints(ops, j)
  {
    Entry(ops[j].op.user, ops[j].now + ops[j].op.ttl)
  }

  ghost predicate LiveAs(ops: seq<Timed>, j: int, hash: string, e: Entry) {
    Live(ops, j) && ops[j].op.hash == hash && EntryOf(ops, j) == e
  }

  ghost predicate MintedFor(ops: seq<Timed>, j: int, user: string, hash: string) {
    Mints(ops, j) && ops[j].op.user == user && ops[j].op.hash == hash
  }

  /** Every stored reset token is live. */
  ghost predicate OnlyLive(ops: seq<Timed>, s: Store) {
    forall h :: h in s.reset ==> exists j :: LiveAs(ops, j, h, s.reset[h])
  }

  /** Every live reset token that has not expired is stored. */
  ghost predicate AllLive(ops: seq<Timed>, s: Store, now: Time) {
    forall j :: Live(ops, j) && now <= EntryOf(ops, j).exp ==>
      ops[j].op.hash in s.reset && s.reset[ops[j].op.hash] == EntryOf(ops, j)
  }

  ghost predicate IndexMinted(ops: seq<Timed>, s: Store) {
    forall u :: u in s.resetByUser ==> exists j :: MintedFor(ops, j, u, s.resetByUser[u])
  }

  /** The index leads from each stored token's user to the token. */
  predicate Indexed(s: Store) {
    forall h :: h in s.reset ==> s.reset[h].user in s.resetByUser && s.resetByUser[s.reset[h].user] == h
  }

  /** How the store's reset tables stand to the history of the run, now being its last time. */
  ghost predicate ResetInv(ops: seq<Timed>, s: Store, now: Time) {
    OnlyLive(ops, s) && AllLive(ops, s, now) && IndexMinted(ops, s) && Indexed(s)
  }

  lemma LiveExtends(ops: seq<Timed>, op: Timed, j: int)
    requires 0 <= j < |ops|
    ensures Mints(ops + [op], j) <==> Mints(ops, j)
    ensures Live(ops + [op], j) <==> Live(ops, j) && Spares(op.op, ops[j].op)
  {
    var all := ops + [op];
    if Live(all, j) {
      assert forall k :: j < k < |ops| ==> all[k] == ops[k];
      assert Spares(all[|ops|].op, all[j].op);
    }
  }

  lemma MintedForExtends(ops: seq<Timed>, op: Timed, j: int, user: string, hash: string)
    requires MintedFor(ops, j, user, hash)
    ensures MintedFor(ops + [op], j, user, hash)
  {
  }

  lemma CreateKeepsIndexed(s: Store, hash: string, user: string, ttl: int, now: Time)
    requires Indexed(s)
    ensures Indexed(CreateResetToken(s, hash, user, ttl, now))
  {}

  lemma ConsumeKeepsIndexed(s: Store, hash: string, now: Time)
    requires Indexed(s)
    ensures Indexed(ConsumeResetToken(s, hash, now).0)
  {}

  lemma CleanupKeepsIndexed(s: Store, now: Time)
    requires Indexed(s)
    ensures Indexed(Cleanup(s, now))
  {}

  lemma OthersKeepResets(s: Store, op: Timed)
    requires !op.op.CreateReset? && !op.op.ConsumeReset? && !op.op.Evict?
    ensures Perform(s, op).0.reset == s.reset && Perform(s, op).0.resetByUser == s.resetByUser
  {}

  lemma StaysIndexed(s: Store, op: Timed)
    requires Indexed(s)
    ensures Indexed(Perform(s, op).0)
  {
    match op.op
    case CreateReset(hash, user, ttl) => CreateKeepsIndexed(s, hash, user, ttl, op.now);
    case ConsumeReset(hash) => ConsumeKeepsIndexed(s, hash, op.now);
    case Evict => CleanupKeepsIndexed(s, op.now);
    case _ => OthersKeepResets(s, op);
  }

  lemma IndexStaysMinted(ops: seq<Timed>, op: Timed, s: Store)
    requires IndexMinted(ops, s)
    ensures IndexMinted(ops + [op], Perform(s, op).0)
  {
    var all, t := ops + [op], Perform(s, op).0;
    forall u | u in t.resetByUser ensures exists j :: MintedFor(all, j, u, t.resetByUser[u]) {
      if op.op.CreateReset? && op.op.user == u {
        assert MintedFor(all, |ops|, u, t.resetByUser[u]);
      } else {
        var j :| MintedFor(ops, j, u, s.resetByUser[u]);
        MintedForExtends(ops, op, j, u, s.resetByUser[u]);
      }
    }
  }

  lemma CreateKeepsOthers(s: Store, hash: string, user: string, ttl: int, now: Time, h: string)
    requires Indexed(s) && h in CreateResetToken(s, hash, user, ttl, now).reset && h != hash
    ensures h in s.reset && CreateResetToken(s, hash, user, ttl, now).reset[h] == s.reset[h]
    ensures s.reset[h].user != user
  {}

  /** A stored token that was not just created was there before and has been spared. */
  lemma KeptIsSpared(s: Store, op: Timed, h: string)
    requires Indexed(s) && h in Perform(s, op).0.reset && !(op.op.CreateReset? && op.op.hash == h)
    ensures h in s.reset && Perform(s, op).0.reset[h] == s.reset[h]
    ensures op.op.CreateReset? ==> op.op.user != s.reset[h].user
    ensures op.op.ConsumeReset? ==> op.op.hash != h
  {
    match op.op
    case CreateReset(hash, user, ttl) => CreateKeepsOthers(s, hash, user, ttl, op.now, h);
    case ConsumeReset(hash) =>
    case Evict =>
    case _ => OthersKeepResets(s, op);
  }

  lemma StaysOnlyLive(ops: seq<Timed>, op: Timed, s: Store)
    requires OnlyLive(ops, s) && Indexed(s)
    ensures OnlyLive(ops + [op], Perform(s, op).0)
  {
    var all, t := ops + [op], Perform(s, op).0;
    forall h | h in t.reset ensures exists j :: LiveAs(all, j, h, t.reset[h]) {
      if op.op.CreateReset? && op.op.hash == h {
        assert LiveAs(all, |ops|, h, t.reset[h]);
      } else {
        KeptIsSpared(s, op, h);
        var j :| LiveAs(ops, j, h, s.reset[h]);
        LiveExtends(ops, op, j);
        assert LiveAs(all, j, h, t.reset[h]);
      }
    }
  }

  /** What is not presented and has not expired is kept by everything but a mint. */
  lemma OthersSpareStored(s: Store, op: Timed, h: string)
    requires h in s.reset && !op.op.CreateReset? && op.op != ConsumeReset(h) && op.now <= s.reset[h].exp
    ensures h in Perform(s, op).0.reset && Perform(s, op).0.reset[h] == s.reset[h]
  {
    match op.op
    case ConsumeReset(other) =>
    case Evict =>
    case _ => OthersKeepResets(s, op);
  }

  lemma OthersKeepAllLive(ops: seq<Timed>, op: Timed, s: Store, now: Time)
    requires AllLive(ops, s, now) && now <= op.now && !op.op.CreateReset?
    ensures AllLive(ops + [op], Perform(s, op).0, op.now)
  {
    var all, t := ops + [op], Perform(s, op).0;
    forall j | Live(all, j) && op.now <= EntryOf(all, j).exp
      ensures all[j].op.hash in t.reset && t.reset[all[j].op.hash] == EntryOf(all, j)
    {
      LiveExtends(ops, op, j);
      assert EntryOf(all, j) == EntryOf(ops, j);
      OthersSpareStored(s, op, all[j].op.hash);
    }
  }

  lemma SameHashSameMint(ops: seq<Timed>, i: int, j: int)
    requires FreshHashes(ops, {}) && Mints(ops, i) && Mints(ops, j) && ops[i].op.hash == ops[j].op.hash
    ensures i == j
  {
  }

  /** A mint leaves another user's live token where it is. */
  lemma MintSparesStored(ops: seq<Timed>, op: Timed, s: Store, j: int)
    requires IndexMinted(ops, s) && FreshHashes(ops + [op], {}) && op.op.CreateReset?
    requires Mints(ops, j) && op.op.user != ops[j].op.user && ops[j].op.hash in s.reset
    ensures var h, t := ops[j].op.hash, Perform(s, op).0; h in t.reset && t.reset[h] == s.reset[h]
  {
    var all, n, user := ops + [op], |ops|, op.op.user;
    assert Mints(all, n) && Mints(all, j);
    if ops[j].op.hash == op.op.hash { SameHashSameMint(all, j, n); }
    if user in s.resetByUser && s.resetByUser[user] == ops[j].op.hash {
      var i :| MintedFor(ops, i, user, s.resetByUser[user]);
      MintedForExtends(ops, op, i, user, s.resetByUser[user]);
      SameHashSameMint(all, i, j);
    }
  }

  lemma CreateKeepsAllLive(ops: seq<Timed>, op: Timed, s: Store, now: Time)
    requires AllLive(ops, s, now) && IndexMinted(ops, s) && now <= op.now
    requires FreshHashes(ops + [op], {}) && op.op.CreateReset?
    ensures AllLive(ops + [op], Perform(s, op).0, op.now)
  {
    var all, t, n := ops + [op], Perform(s, op).0, |ops|;
    forall j | Live(all, j) && op.now <= EntryOf(all, j).exp
      ensures all[j].op.hash in t.reset && t.reset[all[j].op.hash] == EntryOf(all, j)
    {
      if j < n {
        LiveExtends(ops, op, j);
        assert EntryOf(all, j) == EntryOf(ops, j);
        MintSparesStored(ops, op, s, j);
      }
    }
  }

  lemma StepKeepsResetInv(ops: seq<Timed>, op: Timed, s: Store, now: Time)
    requires ResetInv(ops, s, now) && now <= op.now && FreshHashes(ops + [op], {})
    ensures ResetInv(ops + [op], Perform(s, op).0, op.now)
  {
    StaysIndexed(s, op);
    IndexStaysMinted(ops, op, s);
    StaysOnlyLive(ops, op, s);
    if op.op.CreateReset? { CreateKeepsAllLive(ops, op, s, now); } else { OthersKeepAllLive(ops, op, s, now); }
  }

  lemma PrefixIsFresh(ops: seq<Timed>)
    requires ops != [] && Monotone(ops) && FreshHashes(ops, {})
    ensures var init := ops[..|ops| - 1];
            Monotone(init) && FreshHashes(init, {}) && (init != [] ==> init[|init| - 1].now <= ops[|ops| - 1].now)
  {
    var init := ops[..|ops| - 1];
    assert forall i :: 0 <= i < |init| ==> init[i] == ops[i];
  }

  lemma {:induction false} RunKeepsResetInv(ops: seq<Timed>, now: Time)
    requires Monotone(ops) && FreshHashes(ops, {})
    requires ops != [] ==> now == ops[|ops| - 1].now
    ensures ResetInv(ops, After(ops), now)
  {
    if ops != [] {
      var init, op := ops[..|ops| - 1], ops[|ops| - 1];
      PrefixIsFresh(ops);
      var before := if init == [] then op.now else init[|init| - 1].now;
      RunKeepsResetInv(init, before);
      assert ops == init + [op];
      StepKeepsResetInv(init, op, After(init), before);
    }
  }

  /** A reset token is accepted exactly when it is the latest minted for its user, has not
      been presented before, and has not expired; it then names that user. */
  lemma ResetTokenAcceptedExactly(ops: seq<Timed>, hash: string, now: Time, user: string)
    requires Monotone(ops) && FreshHashes(ops, {})
    requires ops != [] ==> ops[|ops| - 1].now <= now
    ensures ConsumeResetToken(After(ops), hash, now).1 == Some(user) <==>
            exists j ::
              Live(ops, j) && ops[j].op.hash == hash && EntryOf(ops, j).user == user && now <= EntryOf(ops, j).exp
  {
    var last := if ops == [] then now else ops[|ops| - 1].now;
    RunKeepsResetInv(ops, last);
    var s := After(ops);
    if hash in s.reset {
      var j :| LiveAs(ops, j, hash, s.reset[hash]);
      assert Live(ops, j);
    }
  }

  lemma PresentedIsNotLive(ops: seq<Timed>, hash: string, j: int, i: int, k: int)
    requires FreshHashes(ops, {}) && Mints(ops, j) && ops[j].op.hash == hash
    requires j < i < |ops| && ops[i].op == ConsumeReset(hash)
    ensures !(Live(ops, k) && ops[k].op.hash == hash)
  {
    if Mints(ops, k) && ops[k].op.hash == hash {
      SameHashSameMint(ops, j, k);
      assert !Spares(ops[i].op, ops[k].op);
    }
  }

  /** Presenting a token again, after it worked or failed, is refused. */
  lemma ResetTokenWorksOnce(ops: seq<Timed>, hash: string, now: Time, j: nat, i: nat)
    requires Monotone(ops) && FreshHashes(ops, {})
    requires ops != [] ==> ops[|ops| - 1].now <= now
    requires Mints(ops, j) && ops[j].op.hash == hash
    requires j < i < |ops| && ops[i].op == ConsumeReset(hash)
    ensures ConsumeResetToken(After(ops), hash, now).1 == None
  {
    forall k ensures !(Live(ops, k) && ops[k].op.hash == hash) {
      PresentedIsNotLive(ops, hash, j, i, k);
    }
    forall user ensures ConsumeResetToken(After(ops), hash, now).1 != Some(user) {
      ResetTokenAcceptedExactly(ops, hash, now, user);
    }
  }

  // ---- refresh keys ----

  lemma FirstColonIsUnique(k: string, m: nat, n: nat)
    requires m < |k| && n < |k| && k[m] == ':' && k[n] == ':'
    requires forall i :: 0 <= i < m || 0 <= i < n ==> k[i] != ':'
    ensures m == n
  {
  }

  /** User ids without a colon keep the users' refresh keys apart. */
  lemma RefreshKeysDiffer(u: string, v: string, token: string)
    requires ':' !in u && ':' !in v
    ensures u + ":" <= RefreshKey(v, token) <==> u == v
  {
    var k := RefreshKey(v, token);
    assert k[..|v|] == v && k[|v|] == ':';
    if u + ":" <= k {
      assert k[|u|] == (u + ":")[|u|];
      assert k[..|u|] == (u + ":")[..|u|] == u;
      forall i | 0 <= i < |u| ensures k[i] != ':' { assert k[i] == u[i]; }
      forall i | 0 <= i < |v| ensures k[i] != ':' { assert k[i] == v[i]; }
      FirstColonIsUnique(k, |u|, |v|);
    }
  }

  /** Revoking all of a user's tokens hits that user's tokens and no one else's. */
  lemma RevokeAllIsExact(s: Store, user: string, v: string, token: string)
    requires ':' !in user && ':' !in v
    ensures RefreshKey(v, token) in RevokeAllUserRefreshTokens(s, user).refresh <==>
            RefreshKey(v, token) in s.refresh && v != user
  {
    RefreshKeysDiffer(user, v, token);
  }
}
