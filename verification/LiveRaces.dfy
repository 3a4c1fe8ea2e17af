/** Page views that arrive together: analytics/reading_session.go as the statements of concurrent requests,
    each statement being atomic, with the retry after a competing insert. */
module LiveRaces {
  import ClusterLaws
  import opened LiveSessions
  import opened Options
  import opened SessionCluster
  import opened Sums

  const ATTEMPTS: nat := 3

  /** What a request does next; seen is how many rows there were when it looked for the open one. */
  datatype Stage =
    | Looking(attempt: nat)
    | Closing(attempt: nat, seen: nat, row: nat)
    | Creating(attempt: nat, seen: nat)
    | Adding(row: nat)
    | Refreshing(row: nat)
    | Finished(row: nat)
    | Conflict
    | Broken
    | Half(row: nat)

  /** arrived is how many rows there were when the request came; Half is Broken with its page added. */
  datatype Request = Request(view: View, arrived: nat, stage: Stage)

  datatype State = State(rows: seq<Row>, requests: seq<Request>)

  datatype Action =
    | Arrive(view: View)
    | Look(request: nat, now: Time)
    | CloseRow(request: nat)
    | Create(request: nat, now: Time)
    | AddPage(request: nat)
    | Refresh(request: nat, now: Time)
    | Fail(request: nat)

  const EMPTY := State([], [])

  predicate IsAt(s: State, k: nat, at: Stage -> bool) { k < |s.requests| && at(s.requests[k].stage) }

  predicate Ends(stage: Stage) { stage.Finished? || stage.Conflict? || stage.Broken? || stage.Half? }

  predicate Enabled(s: State, a: Action) {
    match a
    case Arrive(v) => v.event.visitor != [] && v.event.page > 0
    case Look(k, _) => IsAt(s, k, (st: Stage) => st.Looking?)
    case CloseRow(k) => IsAt(s, k, (st: Stage) => st.Closing? && st.row < |s.rows|)
    case Create(k, _) => IsAt(s, k, (st: Stage) => st.Creating?)
    case AddPage(k) => IsAt(s, k, (st: Stage) => st.Adding? && st.row < |s.rows|)
    case Refresh(k, _) => IsAt(s, k, (st: Stage) => st.Refreshing? && st.row < |s.rows|)
    case Fail(k) => IsAt(s, k, (st: Stage) => !Ends(st))
  }

  function At(v: View, now: Time): View { v.(event := v.event.(at := now)) }

  /** GetOpenReadingSession and the decision on what it returns */
  function LookedUp(rows: seq<Row>, v: View, attempt: nat, now: Time): Stage {
    var i := OpenIndex(rows, v.event.link, v.event.visitor);
    if i < 0 then Creating(attempt, |rows|)
    else if Stale(rows[i], At(v, now)) then Closing(attempt, |rows|, i)
    else Adding(i)
  }

  function Ended(r: Row): Row { if r.endedAt.None? then r.(endedAt := Some(r.body.lastActivityAt)) else r }

  function WithPage(c: Cluster, e: Event): Cluster { c.(pages := AddTo(c.pages, e.page, Clamp(e.duration))) }

  function WithStats(c: Cluster, e: Event): Cluster {
    c.(lastActivityAt := e.at, maxPage := if e.page > c.maxPage then e.page else c.maxPage,
       total := c.total + Clamp(e.duration), distinctPages := |c.pages|)
  }

  function Moved(s: State, k: nat, stage: Stage): State
    requires k < |s.requests|
  {
    s.(requests := s.requests[k := s.requests[k].(stage := stage)])
  }

  function WithRow(s: State, i: nat, r: Row): State
    requires i < |s.rows|
  {
    s.(rows := s.rows[i := r])
  }

  function NewRow(v: View, now: Time): Row { Row(LiveSessions.Created(At(v, now).event), v.document, None) }

  /** The unique index refuses a second open row for one visitor of a link. */
  function Inserting(s: State, k: nat, now: Time): State
    requires k < |s.requests| && s.requests[k].stage.Creating?
  {
    var v, attempt := s.requests[k].view, s.requests[k].stage.attempt;
    if OpenIndex(s.rows, v.event.link, v.event.visitor) >= 0 then
      Moved(s, k, if attempt + 1 < ATTEMPTS then Looking(attempt + 1) else Conflict)
    else
      Moved(s.(rows := s.rows + [NewRow(v, now)]), k, Adding(|s.rows|))
  }

  function Do(s: State, a: Action): State
    requires Enabled(s, a)
  {
    match a
    case Arrive(v) => s.(requests := s.requests + [Request(v, |s.rows|, Looking(0))])
    case Look(k, now) =>
      Moved(s, k, LookedUp(s.rows, s.requests[k].view, s.requests[k].stage.attempt, now))
    case CloseRow(k) =>
      var st := s.requests[k].stage;
      Moved(WithRow(s, st.row, Ended(s.rows[st.row])), k, Creating(st.attempt, st.seen))
    case Create(k, now) => Inserting(s, k, now)
    case AddPage(k) =>
      var i, e := s.requests[k].stage.row, s.requests[k].view.event;
      Moved(WithRow(s, i, s.rows[i].(body := WithPage(s.rows[i].body, e))), k, Refreshing(i))
    case Refresh(k, now) =>
      var i, e := s.requests[k].stage.row, At(s.requests[k].view, now).event;
      Moved(WithRow(s, i, s.rows[i].(body := WithStats(s.rows[i].body, e))), k, Finished(i))
    case Fail(k) =>
      var st := s.requests[k].stage;
      Moved(s, k, if st.Refreshing? then Half(st.row) else Broken)
  }

  predicate CanRun(s: State, actions: seq<Action>)
    decreases |actions|
  {
    actions == [] || (Enabled(s, actions[0]) && CanRun(Do(s, actions[0]), actions[1..]))
  }

  function Run(s: State, actions: seq<Action>): State
    requires CanRun(s, actions)
    decreases |actions|
  {
    if actions == [] then s else Run(Do(s, actions[0]), actions[1..])
  }

  // ---- rows keep their visitor, and at most one is open

  ghost predicate OneOpen(rows: seq<Row>) {
    forall i, j :: 0 <= i < j < |rows| && rows[i].endedAt.None? && rows[j].endedAt.None? ==>
      !OfActor(rows[j].body, rows[i].body.link, rows[i].body.visitor)
  }

  predicate Points(stage: Stage) {
    stage.Closing? || stage.Adding? || stage.Refreshing? || stage.Finished? || stage.Half?
  }

  predicate InPlace(rows: seq<Row>, q: Request) {
    Points(q.stage) ==>
      q.stage.row < |rows| && OfActor(rows[q.stage.row].body, q.view.event.link, q.view.event.visitor)
  }

  ghost predicate AllInPlace(s: State) { forall k :: 0 <= k < |s.requests| ==> InPlace(s.rows, s.requests[k]) }

  /** Rows stay, with their visitor; an ended one stays as it ended. */
  ghost predicate RowsStay(rows: seq<Row>, after: seq<Row>) {
    && |rows| <= |after|
    && forall i :: 0 <= i < |rows| ==>
         && after[i].body.link == rows[i].body.link && after[i].body.visitor == rows[i].body.visitor
         && (rows[i].endedAt.Some? ==> after[i].endedAt == rows[i].endedAt)
  }

  lemma ActionKeepsRows(s: State, a: Action)
    requires Enabled(s, a)
    ensures RowsStay(s.rows, Do(s, a).rows)
  {}

  lemma RowsStayOn(a: seq<Row>, b: seq<Row>, c: seq<Row>)
    requires RowsStay(a, b) && RowsStay(b, c)
    ensures RowsStay(a, c)
  {}

  /** In every interleaving rows are never lost, pass to no other visitor, and end once. */
  lemma {:induction false} RunKeepsRows(s: State, actions: seq<Action>)
    requires CanRun(s, actions)
    ensures var after := Run(s, actions).rows;
            && |s.rows| <= |after|
            && forall i :: 0 <= i < |s.rows| ==>
                 && after[i].body.link == s.rows[i].body.link && after[i].body.visitor == s.rows[i].body.visitor
                 && (s.rows[i].endedAt.Some? ==> after[i].endedAt == s.rows[i].endedAt)
    decreases |actions|
  {
    if actions != [] {
      ActionKeepsRows(s, actions[0]);
      RunKeepsRows(Do(s, actions[0]), actions[1..]);
      RowsStayOn(s.rows, Do(s, actions[0]).rows, Run(s, actions).rows);
    }
  }

  lemma ActionKeepsOneOpen(s: State, a: Action)
    requires Enabled(s, a) && OneOpen(s.rows)
    ensures OneOpen(Do(s, a).rows)
  {}

  lemma ActionKeepsInPlace(s: State, a: Action)
    requires Enabled(s, a) && AllInPlace(s)
    ensures AllInPlace(Do(s, a))
  {
    var t := Do(s, a);
    ActionKeepsRows(s, a);
    forall k | 0 <= k < |t.requests| ensures InPlace(t.rows, t.requests[k]) {
      if k < |s.requests| { assert InPlace(s.rows, s.requests[k]); }
    }
  }

  // ---- no page view is lost or doubled

  /** A request's share of a row's total. */
  function Total(row: nat): Request -> int {
    (q: Request) => if q.stage == Finished(row) then ClusterLaws.ReadingTime(q.view.event) else 0
  }

  predicate HasAdded(stage: Stage, row: nat) {
    stage == Refreshing(row) || stage == Finished(row) || stage == Half(row)
  }

  /** A request's share of the time on a page of a row. */
  function OnPage(row: nat, page: int): Request -> int {
    (q: Request) =>
      if HasAdded(q.stage, row) && q.view.event.page == page then ClusterLaws.ReadingTime(q.view.event) else 0
  }

  function PageTime(c: Cluster, page: int): int { if page in c.pages then c.pages[page] else 0 }

  ghost predicate Accounted(s: State, i: nat)
    requires i < |s.rows|
  {
    && s.rows[i].body.total == Sum(s.requests, Total(i))
    && forall p :: PageTime(s.rows[i].body, p) == Sum(s.requests, OnPage(i, p))
  }

  ghost predicate AllAccounted(s: State) { forall i :: 0 <= i < |s.rows| ==> Accounted(s, i) }

  lemma MovedSums(s: State, k: nat, stage: Stage, w: Request -> int)
    requires k < |s.requests|
    ensures Sum(Moved(s, k, stage).requests, w)
            == Sum(s.requests, w) - w(s.requests[k]) + w(s.requests[k].(stage := stage))
  {
    SumUpdated(s.requests, k, s.requests[k].(stage := stage), w);
  }

  /** Nobody has a share in a row that is not there yet. */
  lemma NewRowIsAccounted(s: State)
    requires AllInPlace(s)
    ensures Sum(s.requests, Total(|s.rows|)) == 0
    ensures forall p :: Sum(s.requests, OnPage(|s.rows|, p)) == 0
  {
    forall k | 0 <= k < |s.requests| ensures InPlace(s.rows, s.requests[k]) {}
    SumOfNothing(s.requests, Total(|s.rows|));
    forall p ensures Sum(s.requests, OnPage(|s.rows|, p)) == 0 {
      SumOfNothing(s.requests, OnPage(|s.rows|, p));
    }
  }

  /** A request moves without a share in row i coming or going. */
  lemma MovingKeepsAccount(s: State, k: nat, stage: Stage, i: nat)
    requires k < |s.requests| && i < |s.rows| && Accounted(s, i)
    requires HasAdded(s.requests[k].stage, i) == HasAdded(stage, i)
    requires s.requests[k].stage != Finished(i) && stage != Finished(i)
    ensures Accounted(Moved(s, k, stage), i)
  {
    MovedSums(s, k, stage, Total(i));
    forall p ensures Sum(Moved(s, k, stage).requests, OnPage(i, p)) == Sum(s.requests, OnPage(i, p)) {
      MovedSums(s, k, stage, OnPage(i, p));
    }
  }

  lemma AddingKeepsAccount(s: State, k: nat, i: nat)
    requires Enabled(s, AddPage(k)) && i < |s.rows| && Accounted(s, i)
    ensures Accounted(Do(s, AddPage(k)), i)
  {
    var t, q := Do(s, AddPage(k)), s.requests[k];
    var j := q.stage.row;
    MovedSums(s, k, Refreshing(j), Total(i));
    forall p ensures PageTime(t.rows[i].body, p) == Sum(t.requests, OnPage(i, p)) {
      MovedSums(s, k, Refreshing(j), OnPage(i, p));
    }
  }

  lemma RefreshingKeepsAccount(s: State, k: nat, now: Time, i: nat)
    requires Enabled(s, Refresh(k, now)) && i < |s.rows| && Accounted(s, i)
    ensures Accounted(Do(s, Refresh(k, now)), i)
  {
    var t, q := Do(s, Refresh(k, now)), s.requests[k];
    var j := q.stage.row;
    MovedSums(s, k, Finished(j), Total(i));
    forall p ensures PageTime(t.rows[i].body, p) == Sum(t.requests, OnPage(i, p)) {
      MovedSums(s, k, Finished(j), OnPage(i, p));
    }
  }

  lemma ArrivingKeepsAccount(s: State, v: View, i: nat)
    requires Enabled(s, Arrive(v)) && i < |s.rows| && Accounted(s, i)
    ensures Accounted(Do(s, Arrive(v)), i)
  {
    var q := Request(v, |s.rows|, Looking(0));
    SumAppended(s.requests, q, Total(i));
    forall p ensures Sum(s.requests + [q], OnPage(i, p)) == Sum(s.requests, OnPage(i, p)) {
      SumAppended(s.requests, q, OnPage(i, p));
    }
  }

  lemma CreatingKeepsAccount(s: State, k: nat, now: Time, i: nat)
    requires Enabled(s, Create(k, now)) && AllInPlace(s) && AllAccounted(s) && i < |Do(s, Create(k, now)).rows|
    ensures Accounted(Do(s, Create(k, now)), i)
  {
    var v, st := s.requests[k].view, s.requests[k].stage;
    if OpenIndex(s.rows, v.event.link, v.event.visitor) >= 0 {
      MovingKeepsAccount(s, k, if st.attempt + 1 < ATTEMPTS then Looking(st.attempt + 1) else Conflict, i);
    } else {
      var grown := s.(rows := s.rows + [NewRow(v, now)]);
      NewRowIsAccounted(s);
      if i < |s.rows| { assert Accounted(s, i); }
      assert Accounted(grown, i);
      MovingKeepsAccount(grown, k, Adding(|s.rows|), i);
    }
  }

  lemma ClosingKeepsAccount(s: State, k: nat, i: nat)
    requires Enabled(s, CloseRow(k)) && i < |s.rows| && Accounted(s, i)
    ensures Accounted(Do(s, CloseRow(k)), i)
  {
    var st := s.requests[k].stage;
    var t := WithRow(s, st.row, Ended(s.rows[st.row]));
    assert t.rows[i].body == s.rows[i].body;
    assert Accounted(t, i);
    MovingKeepsAccount(t, k, Creating(st.attempt, st.seen), i);
  }

  lemma ActionKeepsAccount(s: State, a: Action, i: nat)
    requires Enabled(s, a) && AllInPlace(s) && AllAccounted(s) && i < |Do(s, a).rows|
    ensures Accounted(Do(s, a), i)
  {
    if a.Create? {
      CreatingKeepsAccount(s, a.request, a.now, i);
    } else {
      assert Accounted(s, i);
      match a
      case Arrive(v) => ArrivingKeepsAccount(s, v, i);
      case Look(k, now) =>
        MovingKeepsAccount(s, k, LookedUp(s.rows, s.requests[k].view, s.requests[k].stage.attempt, now), i);
      case CloseRow(k) => ClosingKeepsAccount(s, k, i);
      case AddPage(k) => AddingKeepsAccount(s, k, i);
      case Refresh(k, now) => RefreshingKeepsAccount(s, k, now, i);
      case Fail(k) =>
        var st := s.requests[k].stage;
        MovingKeepsAccount(s, k, if st.Refreshing? then Half(st.row) else Broken, i);
      case Create(_, _) =>
    }
  }

  ghost predicate Inv(s: State) { OneOpen(s.rows) && AllInPlace(s) && AllAccounted(s) }

  lemma ActionKeepsInv(s: State, a: Action)
    requires Enabled(s, a) && Inv(s)
    ensures Inv(Do(s, a))
  {
    ActionKeepsOneOpen(s, a);
    ActionKeepsInPlace(s, a);
    forall i | 0 <= i < |Do(s, a).rows| ensures Accounted(Do(s, a), i) { ActionKeepsAccount(s, a, i); }
  }

  /** In every interleaving of page views, with any statements failing: a visitor has at most one open row on
      a link, every request works on a row of its own visitor, a row's total is that of the requests that
      finished on it, and its pages hold the time of exactly the requests that added theirs. */
  lemma {:induction false} RunKeepsInv(s: State, actions: seq<Action>)
    requires CanRun(s, actions) && Inv(s)
    ensures Inv(Run(s, actions))
    decreases |actions|
  {
    if actions != [] {
      ActionKeepsInv(s, actions[0]);
      RunKeepsInv(Do(s, actions[0]), actions[1..]);
    }
  }

  // ---- all rows of a visitor

  function TotalsOf(rows: seq<Row>, link: string, visitor: string): int {
    if rows == [] then 0
    else
      var n := |rows| - 1;
      TotalsOf(rows[..n], link, visitor) + if OfActor(rows[n].body, link, visitor) then rows[n].body.total else 0
  }

  function FinishedOf(link: string, visitor: string): Request -> int {
    (q: Request) =>
      if q.stage.Finished? && q.view.event.link == link && q.view.event.visitor == visitor
      then ClusterLaws.ReadingTime(q.view.event) else 0
  }

  /** What a request adds to the visitor's first n rows. */
  function ShareOf(rows: seq<Row>, n: nat, q: Request, link: string, visitor: string): int
    requires n <= |rows|
  {
    if q.stage.Finished? && q.stage.row < n && OfActor(rows[q.stage.row].body, link, visitor)
    then ClusterLaws.ReadingTime(q.view.event) else 0
  }

  /** The requests' shares in the visitor's first n rows, row by row. */
  function SharesOf(rows: seq<Row>, n: nat, qs: seq<Request>, link: string, visitor: string): int
    requires n <= |rows|
  {
    if n == 0 then 0
    else
      SharesOf(rows, n - 1, qs, link, visitor)
      + if OfActor(rows[n - 1].body, link, visitor) then Sum(qs, Total(n - 1)) else 0
  }

  lemma {:induction false} SharesOneMore(rows: seq<Row>, n: nat, qs: seq<Request>, link: string, visitor: string)
    requires n <= |rows| && qs != []
    ensures SharesOf(rows, n, qs, link, visitor)
            == SharesOf(rows, n, qs[..|qs| - 1], link, visitor) + ShareOf(rows, n, qs[|qs| - 1], link, visitor)
  {
    if n > 0 { SharesOneMore(rows, n - 1, qs, link, visitor); }
  }

  lemma {:induction false} SharesOfNobody(rows: seq<Row>, n: nat, link: string, visitor: string)
    requires n <= |rows|
    ensures SharesOf(rows, n, [], link, visitor) == 0
  {
    if n > 0 { SharesOfNobody(rows, n - 1, link, visitor); }
  }

  lemma {:induction false} SharesAreFinished(rows: seq<Row>, qs: seq<Request>, link: string, visitor: string)
    requires forall k :: 0 <= k < |qs| ==> InPlace(rows, qs[k])
    ensures SharesOf(rows, |rows|, qs, link, visitor) == Sum(qs, FinishedOf(link, visitor))
  {
    if qs == [] {
      SharesOfNobody(rows, |rows|, link, visitor);
    } else {
      var n := |qs| - 1;
      SharesAreFinished(rows, qs[..n], link, visitor);
      SharesOneMore(rows, |rows|, qs, link, visitor);
      assert InPlace(rows, qs[n]);
    }
  }

  lemma {:induction false} TotalsAreShares(s: State, n: nat, link: string, visitor: string)
    requires AllAccounted(s) && n <= |s.rows|
    ensures TotalsOf(s.rows[..n], link, visitor) == SharesOf(s.rows, n, s.requests, link, visitor)
  {
    if n > 0 {
      TotalsAreShares(s, n - 1, link, visitor);
      assert s.rows[..n][..n - 1] == s.rows[..n - 1];
      assert Accounted(s, n - 1);
    }
  }

  /** In every interleaving the totals of a visitor's rows add up to the durations of the visitor's finished
      page views: none is lost and none counted twice. */
  lemma NothingIsLostOrDoubled(actions: seq<Action>, link: string, visitor: string)
    requires CanRun(EMPTY, actions)
    ensures var s := Run(EMPTY, actions);
            TotalsOf(s.rows, link, visitor) == Sum(s.requests, FinishedOf(link, visitor))
  {
    var s := Run(EMPTY, actions);
    RunKeepsInv(EMPTY, actions);
    assert s.rows[..|s.rows|] == s.rows;
    TotalsAreShares(s, |s.rows|, link, visitor);
    SharesAreFinished(s.rows, s.requests, link, visitor);
  }

  // ---- a request alone

  lemma RunOf(s: State, a: Action, rest: seq<Action>)
    requires Enabled(s, a) && CanRun(Do(s, a), rest)
    ensures CanRun(s, [a] + rest) && Run(s, [a] + rest) == Run(Do(s, a), rest)
  {
    assert ([a] + rest)[1..] == rest;
  }

  /** The two statements that add a page come to ApplyPage. */
  lemma PageAndStats(s: State, k: nat, now: Time) returns (rest: seq<Action>)
    requires k < |s.requests| && s.requests[k].stage.Adding? && s.requests[k].stage.row < |s.rows|
    ensures var i, e := s.requests[k].stage.row, At(s.requests[k].view, now).event;
            && CanRun(s, rest) && Run(s, rest).requests == s.requests[k := s.requests[k].(stage := Finished(i))]
            && Run(s, rest).rows == s.rows[i := s.rows[i].(body := ApplyPage(s.rows[i].body, e))]
  {
    var t := Do(s, AddPage(k));
    RunOf(t, Refresh(k, now), []);
    RunOf(s, AddPage(k), [Refresh(k, now)] + []);
    rest := [AddPage(k)] + ([Refresh(k, now)] + []);
  }

  lemma CreateAlone(s: State, k: nat, now: Time) returns (rest: seq<Action>)
    requires k < |s.requests| && s.requests[k].stage.Creating?
    requires OpenIndex(s.rows, s.requests[k].view.event.link, s.requests[k].view.event.visitor) < 0
    ensures CanRun(s, rest) && Run(s, rest).rows == s.rows + [Opened(At(s.requests[k].view, now))]
  {
    var t := Do(s, Create(k, now));
    rest := PageAndStats(t, k, now);
    RunOf(s, Create(k, now), rest);
    rest := [Create(k, now)] + rest;
  }

  lemma ClosedLeavesNone(s: State, k: nat)
    requires Enabled(s, CloseRow(k)) && OneOpen(s.rows)
    requires var e := s.requests[k].view.event; s.requests[k].stage.row == OpenIndex(s.rows, e.link, e.visitor)
    ensures var e := s.requests[k].view.event; OpenIndex(Do(s, CloseRow(k)).rows, e.link, e.visitor) < 0
  {}

  lemma FromLooking(s: State, k: nat, now: Time) returns (rest: seq<Action>)
    requires Enabled(s, Look(k, now)) && OneOpen(s.rows)
    requires s.requests[k].view.event.visitor != [] && s.requests[k].view.event.page > 0
    ensures CanRun(s, rest) && Run(s, rest).rows == Touch(s.rows, At(s.requests[k].view, now))
  {
    var t := Do(s, Look(k, now));
    if t.requests[k].stage.Adding? {
      rest := PageAndStats(t, k, now);
    } else if t.requests[k].stage.Creating? {
      rest := CreateAlone(t, k, now);
    } else {
      ClosedLeavesNone(t, k);
      rest := CreateAlone(Do(t, CloseRow(k)), k, now);
      RunOf(t, CloseRow(k), rest);
      rest := [CloseRow(k)] + rest;
    }
    RunOf(s, Look(k, now), rest);
    rest := [Look(k, now)] + rest;
  }

  /** Without others in between the statements of one request come to Touch. */
  lemma AloneIsTouch(s: State, v: View, now: Time) returns (steps: seq<Action>)
    requires OneOpen(s.rows) && Enabled(s, Arrive(v))
    ensures CanRun(s, steps) && Run(s, steps).rows == Touch(s.rows, View(v.event.(at := now), v.document))
  {
    var rest := FromLooking(Do(s, Arrive(v)), |s.requests|, now);
    RunOf(s, Arrive(v), rest);
    steps := [Arrive(v)] + rest;
  }

  // ---- giving up

  /** How many of the rows from place n on are the visitor's. */
  function RowsSince(rows: seq<Row>, n: nat, link: string, visitor: string): nat {
    if |rows| <= n then 0
    else
      var m := |rows| - 1;
      RowsSince(rows[..m], n, link, visitor) + if OfActor(rows[m].body, link, visitor) then 1 else 0
  }

  lemma {:induction false} RowsSinceMonotone(rows: seq<Row>, after: seq<Row>, n: nat, link: string, visitor: string)
    requires RowsStay(rows, after)
    ensures RowsSince(rows, n, link, visitor) <= RowsSince(after, n, link, visitor)
    decreases |after|
  {
    if |after| > |rows| {
      RowsSinceMonotone(rows, after[..|after| - 1], n, link, visitor);
    } else if |rows| > n {
      RowsSinceMonotone(rows[..|rows| - 1], after[..|after| - 1], n, link, visitor);
    }
  }

  /** One of the visitor's rows behind the m first ones counts on top of those. */
  lemma {:induction false} OneMoreSince(rows: seq<Row>, n: nat, m: nat, j: nat, link: string, visitor: string)
    requires n <= m <= j < |rows| && OfActor(rows[j].body, link, visitor)
    ensures RowsSince(rows, n, link, visitor) >= RowsSince(rows[..m], n, link, visitor) + 1
    decreases |rows|
  {
    var init := rows[..|rows| - 1];
    if j < |rows| - 1 {
      OneMoreSince(init, n, m, j, link, visitor);
      assert init[..m] == rows[..m];
    } else {
      assert init[..m] == rows[..m];
      RowsSinceMonotone(rows[..m], init, n, link, visitor);
    }
  }

  /** Of the rows that a request saw none of its visitor's is open any more, but for the one it is to close. */
  ghost predicate SeenAreEnded(rows: seq<Row>, q: Request)
    requires q.stage.Closing? || q.stage.Creating?
  {
    && q.arrived <= q.stage.seen <= |rows|
    && RowsSince(rows[..q.stage.seen], q.arrived, q.view.event.link, q.view.event.visitor) >= q.stage.attempt
    && forall i :: 0 <= i < q.stage.seen && IsOpen(rows[i], q.view.event.link, q.view.event.visitor) ==>
         q.stage.Closing? && i == q.stage.row
  }

  function RivalRows(rows: seq<Row>, q: Request): nat {
    RowsSince(rows, q.arrived, q.view.event.link, q.view.event.visitor)
  }

  /** Each attempt of a request was lost to a row that came after it looked. */
  ghost predicate Outrun(rows: seq<Row>, q: Request) {
    && q.arrived <= |rows|
    && (q.stage.Looking? ==> RivalRows(rows, q) >= q.stage.attempt)
    && (q.stage.Closing? || q.stage.Creating? ==> SeenAreEnded(rows, q))
    && ((q.stage.Looking? || q.stage.Closing? || q.stage.Creating?) ==> q.stage.attempt < ATTEMPTS)
    && (q.stage.Conflict? ==> RivalRows(rows, q) >= ATTEMPTS)
  }

  ghost predicate AllOutrun(s: State) { forall k :: 0 <= k < |s.requests| ==> Outrun(s.rows, s.requests[k]) }

  lemma OutrunStays(rows: seq<Row>, after: seq<Row>, q: Request)
    requires RowsStay(rows, after) && Outrun(rows, q)
    ensures Outrun(after, q)
  {
    var e := q.view.event;
    RowsSinceMonotone(rows, after, q.arrived, e.link, e.visitor);
    if q.stage.Closing? || q.stage.Creating? {
      RowsSinceMonotone(rows[..q.stage.seen], after[..q.stage.seen], q.arrived, e.link, e.visitor);
    }
  }

  lemma LookingStaysOutrun(s: State, k: nat, now: Time)
    requires Enabled(s, Look(k, now)) && OneOpen(s.rows) && Outrun(s.rows, s.requests[k])
    ensures Outrun(s.rows, Do(s, Look(k, now)).requests[k])
  {
    assert s.rows[..|s.rows|] == s.rows;
  }

  lemma ClosingStaysOutrun(s: State, k: nat)
    requires Enabled(s, CloseRow(k)) && Outrun(s.rows, s.requests[k])
    ensures Outrun(Do(s, CloseRow(k)).rows, Do(s, CloseRow(k)).requests[k])
  {
    var q, t := s.requests[k], Do(s, CloseRow(k));
    OutrunStays(s.rows, t.rows, q);
  }

  lemma CreatingStaysOutrun(s: State, k: nat, now: Time)
    requires Enabled(s, Create(k, now)) && Outrun(s.rows, s.requests[k])
    ensures Outrun(Do(s, Create(k, now)).rows, Do(s, Create(k, now)).requests[k])
  {
    var q, e := s.requests[k], s.requests[k].view.event;
    var j := OpenIndex(s.rows, e.link, e.visitor);
    if j >= 0 { OneMoreSince(s.rows, q.arrived, q.stage.seen, j, e.link, e.visitor); }
  }

  lemma ActionKeepsOutrun(s: State, a: Action)
    requires Enabled(s, a) && OneOpen(s.rows) && AllOutrun(s)
    ensures AllOutrun(Do(s, a))
  {
    var t := Do(s, a);
    ActionKeepsRows(s, a);
    forall k | 0 <= k < |t.requests| ensures Outrun(t.rows, t.requests[k]) {
      if k < |s.requests| {
        OutrunStays(s.rows, t.rows, s.requests[k]);
        if a.Look? && a.request == k {
          LookingStaysOutrun(s, k, a.now);
        } else if a.CloseRow? && a.request == k {
          ClosingStaysOutrun(s, k);
        } else if a.Create? && a.request == k {
          CreatingStaysOutrun(s, k, a.now);
        }
      }
    }
  }

  /** A request gives up only when three rows of its visitor have come since it arrived; itself it has opened
      none. */
  lemma {:induction false} ConflictMeansThreeRivals(s: State, actions: seq<Action>, k: nat)
    requires CanRun(s, actions) && OneOpen(s.rows) && AllOutrun(s)
    requires k < |Run(s, actions).requests| && Run(s, actions).requests[k].stage.Conflict?
    ensures RivalRows(Run(s, actions).rows, Run(s, actions).requests[k]) >= 3
    decreases |actions|
  {
    if actions != [] {
      ActionKeepsOneOpen(s, actions[0]);
      ActionKeepsOutrun(s, actions[0]);
      ConflictMeansThreeRivals(Do(s, actions[0]), actions[1..], k);
    }
  }
}
