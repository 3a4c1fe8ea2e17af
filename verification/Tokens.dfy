/** The in-memory token store: auth/memory_store.go.  Every operation is given the time at
    which it runs, and the random tokens it draws; a reset token is known by its hash. */
module Tokens {
  import opened Options

  type Time = int

  datatype Entry = Entry(user: string, exp: Time)

  datatype Store = Store(
    blocklist: map<string, Time>,
    refresh: map<string, Time>,
    verification: map<string, Entry>,
    reset: map<string, Entry>,
    resetByUser: map<string, string>)

  const EMPTY := Store(map[], map[], map[], map[], map[])

  function RefreshKey(user: string, token: string): string { user + ":" + token }

  function WithoutKey<V>(m: map<string, V>, k: string): map<string, V> { m - {k} }

  function BlocklistToken(s: Store, token: string, ttl: int, now: Time): Store {
    s.(blocklist := s.blocklist[token := now + ttl])
  }

  predicate IsTokenBlocklisted(s: Store, token: string, now: Time) {
    token in s.blocklist && now < s.blocklist[token]
  }

  function StoreRefreshToken(s: Store, user: string, token: string, ttl: int, now: Time): Store {
    s.(refresh := s.refresh[RefreshKey(user, token) := now + ttl])
  }

  predicate ValidateRefreshToken(s: Store, user: string, token: string, now: Time) {
    var k := RefreshKey(user, token);
    k in s.refresh && now < s.refresh[k]
  }

  function RevokeRefreshToken(s: Store, user: string, token: string): Store {
    s.(refresh := WithoutKey(s.refresh, RefreshKey(user, token)))
  }

  function RevokeAllUserRefreshTokens(s: Store, user: string): Store {
    s.(refresh := map k | k in s.refresh && !(user + ":" <= k) :: s.refresh[k])
  }

  function CreateVerificationToken(s: Store, token: string, user: string, ttl: int, now: Time): Store {
    s.(verification := s.verification[token := Entry(user, now + ttl)])
  }

  function UserByVerificationToken(s: Store, token: string, now: Time): Option<string> {
    if token !in s.verification || now > s.verification[token].exp then None
    else Some(s.verification[token].user)
  }

  function DeleteVerificationToken(s: Store, token: string): Store {
    s.(verification := WithoutKey(s.verification, token))
  }

  function CreateResetToken(s: Store, hash: string, user: string, ttl: int, now: Time): Store {
    var kept := if user in s.resetByUser then WithoutKey(s.reset, s.resetByUser[user]) else s.reset;
    s.(reset := kept[hash := Entry(user, now + ttl)], resetByUser := s.resetByUser[user := hash])
  }

  function ConsumeResetToken(s: Store, hash: string, now: Time): (Store, Option<string>) {
    var gone := s.(reset := WithoutKey(s.reset, hash));
    if hash !in s.reset || now > s.reset[hash].exp then (gone, None)
    else
      var user := s.reset[hash].user;
      (if user in s.resetByUser && s.resetByUser[user] == hash
       then gone.(resetByUser := WithoutKey(s.resetByUser, user)) else gone,
       Some(user))
  }

  // ---- eviction ----

  function LiveTimes(m: map<string, Time>, now: Time): map<string, Time> {
    map k | k in m && now <= m[k] :: m[k]
  }

  function LiveEntries(m: map<string, Entry>, now: Time): map<string, Entry> {
    map k | k in m && now <= m[k].exp :: m[k]
  }

  /** A user's index entry goes when its hash is evicted as that user's. */
  predicate Evicts(s: Store, user: string, now: Time)
    requires user in s.resetByUser
  {
    var hash := s.resetByUser[user];
    hash in s.reset && s.reset[hash].user == user && now > s.reset[hash].exp
  }

  function Cleanup(s: Store, now: Time): Store {
    Store(LiveTimes(s.blocklist, now), LiveTimes(s.refresh, now),
          LiveEntries(s.verification, now), LiveEntries(s.reset, now),
          map u | u in s.resetByUser && !Evicts(s, u, now) :: s.resetByUser[u])
  }

  class MemoryTokenStore {
    var blocklist: map<string, Time>
    var refreshTokens: map<string, Time>
    var verificationTokens: map<string, Entry>
    var resetTokens: map<string, Entry>
    var resetByUser: map<string, string>

    ghost function State(): Store
      reads this
    {
      Store(blocklist, refreshTokens, verificationTokens, resetTokens, resetByUser)
    }

    constructor ()
      ensures State() == EMPTY
    {
      blocklist, refreshTokens, verificationTokens, resetTokens, resetByUser := map[], map[], map[], map[], map[];
    }

    /** One tick of the background loop: the four range loops, in any key order. */
    method CleanupExpired(now: Time)
      modifies this
      ensures State() == Cleanup(old(State()), now)
    {
      blocklist := EvictTimes(blocklist, now);
      refreshTokens := EvictTimes(refreshTokens, now);
      verificationTokens := EvictEntries(verificationTokens, now);
      resetTokens, resetByUser := EvictResets(resetTokens, resetByUser, now);
    }

    static method EvictTimes(m: map<string, Time>, now: Time) returns (r: map<string, Time>)
      ensures r == LiveTimes(m, now)
    {
      r := m;
      var left := m.Keys;
      while left != {}
        invariant left <= m.Keys
        invariant r == map k | k in m && (k in left || now <= m[k]) :: m[k]
        decreases left
      {
        var k :| k in left;
        if now > r[k] { r := WithoutKey(r, k); }
        left := left - {k};
      }
    }

    static method EvictEntries(m: map<string, Entry>, now: Time) returns (r: map<string, Entry>)
      ensures r == LiveEntries(m, now)
    {
      r := m;
      var left := m.Keys;
      while left != {}
        invariant left <= m.Keys
        invariant r == map k | k in m && (k in left || now <= m[k].exp) :: m[k]
        decreases left
      {
        var k :| k in left;
        if now > r[k].exp { r := WithoutKey(r, k); }
        left := left - {k};
      }
    }

    static method EvictResets(m: map<string, Entry>, byUser: map<string, string>, now: Time)
      returns (r: map<string, Entry>, index: map<string, string>)
      ensures r == LiveEntries(m, now)
      ensures index == map u | u in byUser &&
                !(byUser[u] in m && m[byUser[u]].user == u && now > m[byUser[u]].exp) :: byUser[u]
    {
      r, index := m, byUser;
      var left := m.Keys;
      while left != {}
        invariant left <= m.Keys
        invariant r == map k | k in m && (k in left || now <= m[k].exp) :: m[k]
        invariant index == map u | u in byUser &&
                    !(byUser[u] in m && byUser[u] !in left && m[byUser[u]].user == u && now > m[byUser[u]].exp)
                    :: byUser[u]
        decreases left
      {
        var hash :| hash in left;
        var e := r[hash];
        if now > e.exp {
          r := WithoutKey(r, hash);
          if e.user in index && index[e.user] == hash {
            index := WithoutKey(index, e.user);
          }
        }
        left := left - {hash};
      }
    }

    method RevokeAll(user: string)
      modifies this`refreshTokens
      ensures State() == RevokeAllUserRefreshTokens(old(State()), user)
    {
      var prefix := user + ":";
      ghost var m := refreshTokens;
      var left := refreshTokens.Keys;
      while left != {}
        invariant left <= m.Keys
        invariant refreshTokens == map k | k in m && (k in left || !(prefix <= k)) :: m[k]
        decreases left
      {
        var k :| k in left;
        if prefix <= k { refreshTokens := WithoutKey(refreshTokens, k); }
        left := left - {k};
      }
    }

    method StoreRefresh(user: string, token: string, ttl: int, now: Time)
      modifies this`refreshTokens
      ensures State() == StoreRefreshToken(old(State()), user, token, ttl, now)
    {
      refreshTokens := refreshTokens[user + ":" + token := now + ttl];
    }

    method ValidateRefresh(user: string, token: string, now: Time) returns (valid: bool)
      ensures valid == ValidateRefreshToken(State(), user, token, now)
    {
      if user + ":" + token !in refreshTokens { return false; }
      valid := now < refreshTokens[user + ":" + token];
    }

    method RevokeRefresh(user: string, token: string)
      modifies this`refreshTokens
      ensures State() == RevokeRefreshToken(old(State()), user, token)
    {
      refreshTokens := WithoutKey(refreshTokens, user + ":" + token);
    }

    method CreateVerification(token: string, user: string, ttl: int, now: Time)
      modifies this`verificationTokens
      ensures State() == CreateVerificationToken(old(State()), token, user, ttl, now)
    {
      verificationTokens := verificationTokens[token := Entry(user, now + ttl)];
    }

    method UserByVerification(token: string, now: Time) returns (user: Option<string>)
      ensures user == UserByVerificationToken(State(), token, now)
    {
      if token !in verificationTokens || now > verificationTokens[token].exp { return None; }
      user := Some(verificationTokens[token].user);
    }

    method DeleteVerification(token: string)
      modifies this`verificationTokens
      ensures State() == DeleteVerificationToken(old(State()), token)
    {
      verificationTokens := WithoutKey(verificationTokens, token);
    }

    method CreateReset(hash: string, user: string, ttl: int, now: Time)
      modifies this`resetTokens, this`resetByUser
      ensures State() == CreateResetToken(old(State()), hash, user, ttl, now)
    {
      if user in resetByUser {
        resetTokens := WithoutKey(resetTokens, resetByUser[user]);
      }
      resetTokens := resetTokens[hash := Entry(user, now + ttl)];
      resetByUser := resetByUser[user := hash];
    }

    method ConsumeReset(hash: string, now: Time) returns (user: Option<string>)
      modifies this`resetTokens, this`resetByUser
      ensures (State(), user) == ConsumeResetToken(old(State()), hash, now)
    {
      if hash !in resetTokens || now > resetTokens[hash].exp {
        resetTokens := WithoutKey(resetTokens, hash);
        return None;
      }
      var entry := resetTokens[hash];
      resetTokens := WithoutKey(resetTokens, hash);
      if entry.user in resetByUser && resetByUser[entry.user] == hash {
        resetByUser := WithoutKey(resetByUser, entry.user);
      }
      user := Some(entry.user);
    }
  }
}
