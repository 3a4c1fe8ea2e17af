/** The Redis checker and the database checker accept the same events. */
module DedupLaws {
  import opened GoStrings
  import opened Dedup

  function Run(w: Windows, ms: seq<Mark>): State {
    if ms == [] then State(map[], []) else Next(w, Run(w, ms[..|ms| - 1]), ms[|ms| - 1])
  }

  predicate Taken(w: Windows, ms: seq<Mark>, i: nat)
    requires i < |ms|
  {
    AnswerOf(w, Run(w, ms[..i]), ms[i]) == Accepted
  }

  ghost predicate GoodIds(ms: seq<Mark>) {
    forall i :: 0 <= i < |ms| ==> ParsesIds(ms[i])
  }

  // ---- keys

  ghost predicate NoColon(s: string) { forall i :: 0 <= i < |s| ==> s[i] != ':' }

  lemma SplitAtLastColon(a: string, b: string, c: string, d: string)
    requires a + ":" + b == c + ":" + d && NoColon(b) && NoColon(d)
    ensures a == c && b == d
  {
    var s := a + ":" + b;
    assert s[|a|] == ':' && s[|c|] == ':';
    assert forall k :: |a| < k < |s| ==> s[k] == b[k - |a| - 1];
    assert forall k :: |c| < k < |s| ==> s[k] == d[k - |c| - 1];
    assert a == s[..|a|] && b == s[|a| + 1..];
  }

  lemma IntTextIsPlain(n: int)
    ensures NoColon(IntText(n))
  {
    var s := Decimal(if n < 0 then -n else n);
    forall i | 0 <= i < |s| ensures s[i] != ':' { assert s[i] in s; }
  }

  lemma SignShows(n: int)
    ensures IntText(n) != [] && (n < 0 <==> IntText(n)[0] == '-')
  {
    if n >= 0 { assert Decimal(n)[0] in Decimal(n); }
  }

  lemma IntTextIsInjective(a: int, b: int)
    requires IntText(a) == IntText(b)
    ensures a == b
  {
    SignShows(a);
    SignShows(b);
    assert a < 0 <==> b < 0;
    var x, y := if a < 0 then -a else a, if b < 0 then -b else b;
    if a < 0 {
      assert IntText(a)[1..] == Decimal(x) && IntText(b)[1..] == Decimal(y);
    }
    DecimalRoundTrip(x);
    DecimalRoundTrip(y);
  }

  lemma DocumentIsPlain(document: string)
    requires document != "" ==> IsUuid(document)
    ensures NoColon(if document == "" then "_" else document)
  {}

  lemma PageTailIsInjective(v: string, d: string, p: int, v': string, d': string, p': int)
    requires (d != "" ==> IsUuid(d)) && (d' != "" ==> IsUuid(d'))
    requires PageTail(v, d, p) == PageTail(v', d', p')
    ensures v == v' && d == d' && p == p'
  {
    IntTextIsPlain(p);
    IntTextIsPlain(p');
    DocumentIsPlain(d);
    DocumentIsPlain(d');
    var e, e' := if d == "" then "_" else d, if d' == "" then "_" else d';
    SplitAtLastColon(v + ":" + e, IntText(p), v' + ":" + e', IntText(p'));
    SplitAtLastColon(v, e, v', e');
    IntTextIsInjective(p, p');
    assert |e| == 1 <==> d == "";
    assert |e'| == 1 <==> d' == "";
  }

  lemma TailOfSum(a: string, b: string, c: string, d: string)
    requires |a| == |c| && a + b == c + d
    ensures a == c && b == d
  {
    assert a == (a + b)[..|a|] && b == (a + b)[|a|..];
    assert c == (c + d)[..|c|] && d == (c + d)[|c|..];
  }

  lemma KindsDiffer(x: string, y: string)
    ensures "dedup:link_open:" + x != "dedup:page_view:" + y
  {
    assert ("dedup:link_open:" + x)[6] == 'l';
    assert ("dedup:page_view:" + y)[6] == 'p';
  }

  /** Two events share a Redis key exactly when they are the same open or page view, even if a visitor
      id holds colons. */
  lemma KeyIsIdentity(a: Mark, b: Mark)
    requires ParsesIds(a) && ParsesIds(b)
    ensures Key(a) == Key(b) <==> Same(a, b)
  {
    var x := if a.what.Open? then a.visitor else PageTail(a.visitor, a.what.document, a.what.page);
    var y := if b.what.Open? then b.visitor else PageTail(b.visitor, b.what.document, b.what.page);
    if a.what.Open? != b.what.Open? {
      KindsDiffer(a.link + (":" + x), b.link + (":" + y));
      KindsDiffer(b.link + (":" + y), a.link + (":" + x));
    } else if Key(a) == Key(b) {
      var p := if a.what.Open? then "dedup:link_open:" else "dedup:page_view:";
      TailOfSum(p, a.link + (":" + x), p, b.link + (":" + y));
      TailOfSum(a.link, ":" + x, b.link, ":" + y);
      TailOfSum(":", x, ":", y);
      if a.what.Page? {
        PageTailIsInjective(a.visitor, a.what.document, a.what.page, b.visitor, b.what.document, b.what.page);
      }
    }
  }

  // ---- what the two stores remember

  /** Mark j was accepted, by Redis if only that counts, and m comes less than a window after it. */
  ghost predicate Blocks(w: Windows, ms: seq<Mark>, j: nat, m: Mark, t: Time, onlyUp: bool)
    requires j < |ms|
  {
    && Taken(w, ms, j) && Same(ms[j], m)
    && (onlyUp ==> ms[j].up)
    && t - ms[j].at < WindowOf(w, m.what)
  }

  ghost predicate Blocked(w: Windows, ms: seq<Mark>, m: Mark, t: Time, onlyUp: bool) {
    exists j :: 0 <= j < |ms| && Blocks(w, ms, j, m, t, onlyUp)
  }

  lemma BlockedOneMore(w: Windows, ms: seq<Mark>, m: Mark, t: Time, onlyUp: bool)
    requires ms != []
    ensures Blocked(w, ms, m, t, onlyUp)
            <==> Blocked(w, ms[..|ms| - 1], m, t, onlyUp) || Blocks(w, ms, |ms| - 1, m, t, onlyUp)
  {
    var n := |ms| - 1;
    forall j | 0 <= j < n ensures Blocks(w, ms, j, m, t, onlyUp) == Blocks(w, ms[..n], j, m, t, onlyUp) {
      assert ms[..n][..j] == ms[..j];
    }
    if Blocked(w, ms[..n], m, t, onlyUp) {
      var j :| 0 <= j < n && Blocks(w, ms[..n], j, m, t, onlyUp);
      assert Blocks(w, ms, j, m, t, onlyUp);
    }
  }

  lemma NextRedis(w: Windows, s: State, e: Mark, key: string, t: Time)
    ensures IsLive(Next(w, s, e).redis, key, t)
            <==> if AnswerOf(w, s, e) == Accepted && e.up && Key(e) == key then t < e.at + WindowOf(w, e.what)
                 else IsLive(s.redis, key, t)
  {}

  /** A Redis key is live exactly while it is less than a window since Redis accepted its event. */
  lemma {:induction false} LiveIffBlocked(w: Windows, ms: seq<Mark>, m: Mark, t: Time)
    requires Positive(w) && GoodIds(ms) && ParsesIds(m)
    ensures IsLive(Run(w, ms).redis, Key(m), t) <==> Blocked(w, ms, m, t, true)
    decreases |ms|
  {
    if ms != [] {
      var n := |ms| - 1;
      var s := Run(w, ms[..n]);
      LiveIffBlocked(w, ms[..n], m, t);
      BlockedOneMore(w, ms, m, t, true);
      NextRedis(w, s, ms[n], Key(m), t);
      KeyIsIdentity(ms[n], m);
      if Taken(w, ms, n) && ms[n].up && Same(ms[n], m) {
        LiveIffBlocked(w, ms[..n], m, ms[n].at);
        if Blocked(w, ms[..n], m, t, true) {
          var j :| 0 <= j < n && Blocks(w, ms[..n], j, m, t, true);
          assert !Blocks(w, ms[..n], j, m, ms[n].at, true);
        }
      }
    }
  }

  ghost predicate Recent(rows: seq<Mark>, i: nat, m: Mark, t: Time, window: Time)
    requires i < |rows|
  {
    Matches(rows[i], m) && t - rows[i].at < window
  }

  ghost predicate HasRecent(rows: seq<Mark>, m: Mark, t: Time, window: Time) {
    exists i :: 0 <= i < |rows| && Recent(rows, i, m, t, window)
  }

  lemma HasRecentOneMore(rows: seq<Mark>, e: Mark, m: Mark, t: Time, window: Time)
    ensures HasRecent(rows + [e], m, t, window)
            <==> HasRecent(rows, m, t, window) || (Matches(e, m) && t - e.at < window)
  {
    var after := rows + [e];
    assert after[|rows|] == e;
    if HasRecent(rows, m, t, window) {
      var i :| 0 <= i < |rows| && Recent(rows, i, m, t, window);
      assert Recent(after, i, m, t, window);
    }
    if Matches(e, m) && t - e.at < window { assert Recent(after, |rows|, m, t, window); }
    if HasRecent(after, m, t, window) {
      var i :| 0 <= i < |after| && Recent(after, i, m, t, window);
      if i < |rows| { assert Recent(rows, i, m, t, window); }
    }
  }

  lemma HasRowOneMore(rows: seq<Mark>, m: Mark)
    requires rows != []
    ensures HasRow(rows, m) <==> HasRow(rows[..|rows| - 1], m) || Matches(rows[|rows| - 1], m)
  {
    var n := |rows| - 1;
    if HasRow(rows[..n], m) {
      var i :| 0 <= i < n && Matches(rows[..n][i], m);
      assert Matches(rows[i], m);
    }
  }

  /** The newest row decides for all of them. */
  lemma {:induction false} LastRowDecides(rows: seq<Mark>, m: Mark, t: Time, window: Time)
    requires window > 0
    ensures HasRecent(rows, m, t, window) <==> HasRow(rows, m) && t - LastRow(rows, m) < window
    decreases |rows|
  {
    if rows != [] {
      var n := |rows| - 1;
      LastRowDecides(rows[..n], m, t, window);
      assert rows[..n] + [rows[n]] == rows;
      HasRecentOneMore(rows[..n], rows[n], m, t, window);
      HasRowOneMore(rows, m);
    }
  }

  /** The recorded rows are the accepted events. */
  lemma {:induction false} RecentIffBlocked(w: Windows, ms: seq<Mark>, m: Mark, t: Time)
    requires m.visitor != ""
    ensures HasRecent(Run(w, ms).records, m, t, WindowOf(w, m.what)) <==> Blocked(w, ms, m, t, false)
    decreases |ms|
  {
    if ms != [] {
      var n := |ms| - 1;
      RecentIffBlocked(w, ms[..n], m, t);
      BlockedOneMore(w, ms, m, t, false);
      HasRecentOneMore(Run(w, ms[..n]).records, ms[n], m, t, WindowOf(w, m.what));
    }
  }

  lemma NoRowOfUnknown(rows: seq<Mark>, m: Mark)
    requires m.visitor == ""
    ensures !HasRow(rows, m)
  {}

  /** The answer to mark i by what was accepted before it: the database looks at all of it, Redis at
      what Redis itself accepted, and an unknown visitor's events are never duplicates to the database. */
  lemma AnswerByHistory(w: Windows, ms: seq<Mark>, i: nat)
    requires Positive(w) && GoodIds(ms) && i < |ms|
    ensures ms[i].up ==> (Taken(w, ms, i) <==> !Blocked(w, ms[..i], ms[i], ms[i].at, true))
    ensures !ms[i].up ==> (Taken(w, ms, i) <==> ms[i].visitor == "" || !Blocked(w, ms[..i], ms[i], ms[i].at, false))
  {
    var m := ms[i];
    if m.up {
      LiveIffBlocked(w, ms[..i], m, m.at);
    } else {
      var rows := Run(w, ms[..i]).records;
      LastRowDecides(rows, m, m.at, WindowOf(w, m.what));
      if m.visitor != "" { RecentIffBlocked(w, ms[..i], m, m.at); } else { NoRowOfUnknown(rows, m); }
    }
  }

  /** The windows as they are configured: half an hour between opens and five minutes between views of a page
      where nothing positive is given. */
  function Window(forOpen: Time, forPage: Time, what: What): Time {
    match what
    case Open => if forOpen > 0 then forOpen else 30 * 60 * 1_000_000_000
    case Page(_, _) => if forPage > 0 then forPage else 5 * 60 * 1_000_000_000
  }

  /** An earlier one of the same opens or views, accepted less than so long before. */
  ghost predicate Precedes(w: Windows, ms: seq<Mark>, j: nat, i: nat, window: Time)
    requires j < |ms| && i < |ms|
  {
    && j < i && Taken(w, ms, j) && ms[i].at - ms[j].at < window
    && ms[j].what == ms[i].what && ms[j].link == ms[i].link && ms[j].visitor == ms[i].visitor
  }

  /** Each event is held to the window of its kind: Redis turns it away exactly when it has accepted the same
      less than that before, the database exactly when anything has, of a known visitor. */
  lemma DuplicateExactly(forOpen: Time, forPage: Time, ms: seq<Mark>, i: nat)
    requires GoodIds(ms) && i < |ms|
    ensures var w, window := WindowsOf(forOpen, forPage), Window(forOpen, forPage, ms[i].what);
            && (ms[i].up ==> (!Taken(w, ms, i) <==>
                  exists j :: 0 <= j < |ms| && Precedes(w, ms, j, i, window) && ms[j].up))
            && (!ms[i].up ==> (!Taken(w, ms, i) <==>
                  ms[i].visitor != "" && exists j :: 0 <= j < |ms| && Precedes(w, ms, j, i, window)))
  {
    var w, window := WindowsOf(forOpen, forPage), Window(forOpen, forPage, ms[i].what);
    AnswerByHistory(w, ms, i);
    assert WindowOf(w, ms[i].what) == window;
    forall j | 0 <= j < i
      ensures Blocks(w, ms[..i], j, ms[i], ms[i].at, false) <==> Precedes(w, ms, j, i, window)
      ensures Blocks(w, ms[..i], j, ms[i], ms[i].at, true) <==> Precedes(w, ms, j, i, window) && ms[j].up
    {
      assert ms[..i][..j] == ms[..j];
    }
    if j :| 0 <= j < |ms| && Precedes(w, ms, j, i, window) { assert Blocks(w, ms[..i], j, ms[i], ms[i].at, false); }
    if j :| 0 <= j < |ms| && Precedes(w, ms, j, i, window) && ms[j].up {
      assert Blocks(w, ms[..i], j, ms[i], ms[i].at, true);
    }
  }

  predicate AllHex(s: string) { forall c :: c in s ==> c in "0123456789abcdef" }

  lemma HexDigit(c: char)
    ensures IsHex(c) <==> c in "0123456789abcdef"
  {
    var digits := "0123456789abcdef";
    assert IsHex(c) ==> (c <= '9' && c == digits[c as int - '0' as int]) ||
                        (c >= 'a' && c == digits[10 + (c as int - 'a' as int)]);
  }

  /** The form of an id: 8, 4, 4, 4 and 12 hexadecimal digits with dashes between them. */
  lemma UuidIsFiveGroups(s: string)
    ensures IsUuid(s) <==>
            && |s| == 36 && s[8] == s[13] == s[18] == s[23] == '-'
            && AllHex(s[..8]) && AllHex(s[9..13]) && AllHex(s[14..18]) && AllHex(s[19..23]) && AllHex(s[24..])
  {
    forall c ensures IsHex(c) <==> c in "0123456789abcdef" { HexDigit(c); }
    if |s| == 36 {
      assert forall i :: 0 <= i < 8 ==> s[i] == s[..8][i];
      assert forall i :: 9 <= i < 13 ==> s[i] == s[9..13][i - 9];
      assert forall i :: 14 <= i < 18 ==> s[i] == s[14..18][i - 14];
      assert forall i :: 19 <= i < 23 ==> s[i] == s[19..23][i - 19];
      assert forall i :: 24 <= i < 36 ==> s[i] == s[24..][i - 24];
    }
  }

  /** An id that does not parse is refused by the database and never looked at by Redis. */
  lemma BadIdsExactly(w: Windows, s: State, m: Mark)
    ensures AnswerOf(w, s, m) == BadId
            <==> !m.up && !(IsUuid(m.link) && (m.what.Open? || m.what.document == "" || IsUuid(m.what.document)))
  {}

  // ---- spacing

  ghost predicate TooClose(w: Windows, ms: seq<Mark>, j: nat, i: nat)
    requires j < |ms| && i < |ms|
  {
    Same(ms[j], ms[i]) && ms[i].at - ms[j].at < WindowOf(w, ms[i].what)
  }

  ghost predicate ClearOfAccepted(w: Windows, ms: seq<Mark>, i: nat)
    requires i < |ms|
  {
    forall j :: 0 <= j < i && Taken(w, ms, j) ==> !TooClose(w, ms, j, i)
  }

  /** Exactly the events less than a window after an accepted one are turned away. */
  ghost predicate Spaced(w: Windows, ms: seq<Mark>) {
    forall i :: 0 <= i < |ms| ==> (Taken(w, ms, i) <==> ClearOfAccepted(w, ms, i))
  }

  /** The accepted event j is less than a window before i, and Redis knows of it. */
  ghost predicate CloseInRedis(w: Windows, ms: seq<Mark>, j: nat, i: nat)
    requires j < |ms| && i < |ms|
  {
    Taken(w, ms, j) && ms[j].up && TooClose(w, ms, j, i)
  }

  /** Whenever Redis answers, it knows an accepted event within the window if there is one at all. */
  ghost predicate RedisKnowsEnough(w: Windows, ms: seq<Mark>) {
    forall i :: 0 <= i < |ms| && ms[i].up && !ClearOfAccepted(w, ms, i) ==>
      exists j :: 0 <= j < i && CloseInRedis(w, ms, j, i)
  }

  /** The database, which cannot match unknown visitors, is not asked about one within a window of an
      accepted event. */
  ghost predicate UnknownAreClear(w: Windows, ms: seq<Mark>) {
    forall i :: 0 <= i < |ms| && !ms[i].up && ms[i].visitor == "" ==> ClearOfAccepted(w, ms, i)
  }

  lemma BlockedIsClose(w: Windows, ms: seq<Mark>, i: nat)
    requires i < |ms|
    ensures Blocked(w, ms[..i], ms[i], ms[i].at, false) <==> !ClearOfAccepted(w, ms, i)
    ensures Blocked(w, ms[..i], ms[i], ms[i].at, true) <==> exists j :: 0 <= j < i && CloseInRedis(w, ms, j, i)
  {
    forall j | 0 <= j < i
      ensures Blocks(w, ms[..i], j, ms[i], ms[i].at, false) <==> Taken(w, ms, j) && TooClose(w, ms, j, i)
      ensures Blocks(w, ms[..i], j, ms[i], ms[i].at, true) <==> CloseInRedis(w, ms, j, i)
    {
      assert ms[..i][..j] == ms[..j];
    }
    if !ClearOfAccepted(w, ms, i) {
      var j :| 0 <= j < i && Taken(w, ms, j) && TooClose(w, ms, j, i);
      assert Blocks(w, ms[..i], j, ms[i], ms[i].at, false);
    }
    if j :| 0 <= j < i && CloseInRedis(w, ms, j, i) { assert Blocks(w, ms[..i], j, ms[i], ms[i].at, true); }
  }

  lemma SpacedAtExactly(w: Windows, ms: seq<Mark>, i: nat)
    requires Positive(w) && GoodIds(ms) && i < |ms|
    ensures (Taken(w, ms, i) <==> ClearOfAccepted(w, ms, i))
            <==> if ms[i].up then ClearOfAccepted(w, ms, i) || exists j :: 0 <= j < i && CloseInRedis(w, ms, j, i)
                 else ms[i].visitor != "" || ClearOfAccepted(w, ms, i)
  {
    AnswerByHistory(w, ms, i);
    BlockedIsClose(w, ms, i);
  }

  /** Over any pattern of Redis being up or down, accepted events are spaced exactly when Redis always
      knows enough and the database is asked about no unknown visitor too soon. */
  lemma SpacedExactly(w: Windows, ms: seq<Mark>)
    requires Positive(w) && GoodIds(ms)
    ensures Spaced(w, ms) <==> RedisKnowsEnough(w, ms) && UnknownAreClear(w, ms)
  {
    forall i | 0 <= i < |ms|
      ensures (Taken(w, ms, i) <==> ClearOfAccepted(w, ms, i))
              <==> if ms[i].up then ClearOfAccepted(w, ms, i) || exists j :: 0 <= j < i && CloseInRedis(w, ms, j, i)
                   else ms[i].visitor != "" || ClearOfAccepted(w, ms, i)
    {
      SpacedAtExactly(w, ms, i);
    }
  }

  /** All marks up to the first one Redis does not answer are answered by Redis, all later ones are not. */
  ghost predicate SwitchesOnce(ms: seq<Mark>) {
    forall i, j :: 0 <= i < j < |ms| && ms[j].up ==> ms[i].up
  }

  ghost predicate KnownVisitors(ms: seq<Mark>) {
    forall i :: 0 <= i < |ms| && !ms[i].up ==> ms[i].visitor != ""
  }

  /** So spacing is kept with Redis, with the database, and across one switch from Redis to the database. */
  lemma OneSwitchKeepsSpacing(w: Windows, ms: seq<Mark>)
    requires Positive(w) && GoodIds(ms) && SwitchesOnce(ms) && KnownVisitors(ms)
    ensures Spaced(w, ms)
  {
    forall i | 0 <= i < |ms| && ms[i].up && !ClearOfAccepted(w, ms, i)
      ensures exists j :: 0 <= j < i && CloseInRedis(w, ms, j, i)
    {
      var j :| 0 <= j < i && Taken(w, ms, j) && TooClose(w, ms, j, i);
      assert CloseInRedis(w, ms, j, i);
    }
    SpacedExactly(w, ms);
  }

  /** The way back breaks it: what the database accepted is not in Redis. */
  lemma SwitchBackForgets(w: Windows, m: Mark, later: Time)
    requires Positive(w) && ParsesIds(m) && m.at <= later < m.at + WindowOf(w, m.what)
    ensures var ms := [m.(up := false), m.(at := later, up := true)];
            Taken(w, ms, 0) && Taken(w, ms, 1) && TooClose(w, ms, 0, 1)
  {
    var ms := [m.(up := false), m.(at := later, up := true)];
    assert ms[..0] == [] && ms[..1] == [ms[0]];
    assert [ms[0]][..0] == [];
  }

  // ---- the two checkers on one stream

  function Via(ms: seq<Mark>, up: bool): seq<Mark> {
    seq(|ms|, i requires 0 <= i < |ms| => ms[i].(up := up))
  }

  ghost predicate Agree(w: Windows, ms: seq<Mark>) {
    forall i :: 0 <= i < |ms| ==> (Taken(w, Via(ms, true), i) <==> Taken(w, Via(ms, false), i))
  }

  /** Events of unknown visitors that share a link (and page) are at least a window apart. */
  ghost predicate UnknownAreSpaced(w: Windows, ms: seq<Mark>) {
    forall i, j :: 0 <= j < i < |ms| && ms[i].visitor == "" ==> !TooClose(w, ms, j, i)
  }

  lemma AllUpIsClose(w: Windows, ms: seq<Mark>, i: nat)
    requires i < |ms| && forall j :: 0 <= j < i ==> ms[j].up
    ensures (exists j :: 0 <= j < i && CloseInRedis(w, ms, j, i)) <==> !ClearOfAccepted(w, ms, i)
  {
    if !ClearOfAccepted(w, ms, i) {
      var j :| 0 <= j < i && Taken(w, ms, j) && TooClose(w, ms, j, i);
      assert CloseInRedis(w, ms, j, i);
    }
  }

  lemma RedisAnswer(w: Windows, ms: seq<Mark>, i: nat)
    requires Positive(w) && GoodIds(ms) && i < |ms|
    ensures Taken(w, Via(ms, true), i) <==> ClearOfAccepted(w, Via(ms, true), i)
  {
    AnswerByHistory(w, Via(ms, true), i);
    BlockedIsClose(w, Via(ms, true), i);
    AllUpIsClose(w, Via(ms, true), i);
  }

  lemma DatabaseAnswer(w: Windows, ms: seq<Mark>, i: nat)
    requires Positive(w) && GoodIds(ms) && i < |ms|
    ensures Taken(w, Via(ms, false), i) <==> ms[i].visitor == "" || ClearOfAccepted(w, Via(ms, false), i)
  {
    AnswerByHistory(w, Via(ms, false), i);
    BlockedIsClose(w, Via(ms, false), i);
  }

  lemma TooCloseVia(w: Windows, ms: seq<Mark>, up: bool, j: nat, i: nat)
    requires j < |ms| && i < |ms|
    ensures TooClose(w, Via(ms, up), j, i) == TooClose(w, ms, j, i)
  {}

  lemma {:induction false} AgreeUpTo(w: Windows, ms: seq<Mark>, i: nat)
    requires Positive(w) && GoodIds(ms) && UnknownAreSpaced(w, ms) && i < |ms|
    ensures Taken(w, Via(ms, true), i) <==> Taken(w, Via(ms, false), i)
    decreases i
  {
    RedisAnswer(w, ms, i);
    DatabaseAnswer(w, ms, i);
    forall j | 0 <= j < i
      ensures Taken(w, Via(ms, true), j) <==> Taken(w, Via(ms, false), j)
      ensures TooClose(w, Via(ms, true), j, i) == TooClose(w, Via(ms, false), j, i) == TooClose(w, ms, j, i)
    {
      AgreeUpTo(w, ms, j);
      TooCloseVia(w, ms, true, j, i);
      TooCloseVia(w, ms, false, j, i);
    }
  }

  lemma AgreeingAreSpaced(w: Windows, ms: seq<Mark>, j: nat, i: nat)
    requires Positive(w) && GoodIds(ms) && Agree(w, ms) && j < i < |ms| && ms[i].visitor == ""
    ensures !TooClose(w, ms, j, i)
  {
    if TooClose(w, ms, j, i) {
      DatabaseAnswer(w, ms, i);
      DatabaseAnswer(w, ms, j);
      RedisAnswer(w, ms, i);
      TooCloseVia(w, ms, true, j, i);
    }
  }

  /** On any stream whose accepted events are recorded when they are marked, Redis and the database
      accept the same events if and only if no two events of unknown visitors are too close. */
  lemma RedisAgreesWithDatabaseExactly(w: Windows, ms: seq<Mark>)
    requires Positive(w) && GoodIds(ms)
    ensures Agree(w, ms) <==> UnknownAreSpaced(w, ms)
  {
    if UnknownAreSpaced(w, ms) {
      forall i | 0 <= i < |ms| ensures Taken(w, Via(ms, true), i) <==> Taken(w, Via(ms, false), i) {
        AgreeUpTo(w, ms, i);
      }
    }
    if Agree(w, ms) {
      forall i, j | 0 <= j < i < |ms| && ms[i].visitor == "" ensures !TooClose(w, ms, j, i) {
        AgreeingAreSpaced(w, ms, j, i);
      }
    }
  }
}
