/** When the live sessions of a reader are the clusters of the same views. */
module LiveLaws {
  import opened ClusterLaws
  import opened LiveSessions
  import opened Options
  import opened SessionCluster

  predicate Relevant(e: Event, link: string, visitor: string) {
    Valid(e) && e.link == link && e.visitor == visitor
  }

  function ActorEvents(s: seq<Event>, link: string, visitor: string): (r: seq<Event>)
    ensures forall e :: e in r <==> e in s && Relevant(e, link, visitor)
  {
    if s == [] then []
    else ActorEvents(s[..|s| - 1], link, visitor) +
         if Relevant(s[|s| - 1], link, visitor) then [s[|s| - 1]] else []
  }

  function ActorClusters(out: seq<Cluster>, link: string, visitor: string): seq<Cluster> {
    if out == [] then []
    else ActorClusters(out[..|out| - 1], link, visitor) +
         if OfActor(out[|out| - 1], link, visitor) then [out[|out| - 1]] else []
  }

  // ---- batch side: one actor's clusters are the clusters of the actor's views ----

  lemma ActorClustersOfAppend(out: seq<Cluster>, c: Cluster, link: string, visitor: string)
    ensures ActorClusters(out + [c], link, visitor) ==
            ActorClusters(out, link, visitor) + if OfActor(c, link, visitor) then [c] else []
  {
    assert (out + [c])[..|out|] == out;
  }

  /** How the scan of all views stands to the scan of one actor's views. */
  ghost predicate Tracks(all: Scan, mine: Scan, link: string, visitor: string) {
    if all.cur.Some? && OfActor(all.cur.value, link, visitor) then
      mine == Scan(ActorClusters(all.out, link, visitor), all.cur)
    else Flush(mine) == ActorClusters(all.out, link, visitor)
  }

  lemma TracksFlush(all: Scan, mine: Scan, link: string, visitor: string)
    requires Tracks(all, mine, link, visitor)
    ensures ActorClusters(Flush(all), link, visitor) == Flush(mine)
  {
    if all.cur.Some? { ActorClustersOfAppend(all.out, Close(all.cur.value), link, visitor); }
  }

  lemma StepTracks(all: Scan, mine: Scan, e: Event, idle: int, link: string, visitor: string)
    requires Tracks(all, mine, link, visitor) && idle > 0 && Valid(e)
    requires OfActor(Open(e), link, visitor) ==>
               mine == Scan([], None) || (all.cur.Some? && OfActor(all.cur.value, link, visitor))
    ensures var next := if OfActor(Open(e), link, visitor) then Step(mine, e, idle) else mine;
            Tracks(Step(all, e, idle), next, link, visitor)
  {
    TracksFlush(all, mine, link, visitor);
  }

  /** The open cluster belongs to the actor of the last view. */
  lemma OpenClusterOfLast(s: seq<Event>, idle: int)
    requires s != [] && Valid(s[|s| - 1])
    ensures ScanOf(s, idle).cur.Some?
    ensures OfActor(ScanOf(s, idle).cur.value, s[|s| - 1].link, s[|s| - 1].visitor)
  {
  }

  lemma {:induction false} NothingRelevant(s: seq<Event>, link: string, visitor: string)
    requires forall i :: 0 <= i < |s| ==> !Relevant(s[i], link, visitor)
    ensures ActorEvents(s, link, visitor) == []
  {
    if s != [] { NothingRelevant(s[..|s| - 1], link, visitor); }
  }

  lemma NoEarlierView(s: seq<Event>, link: string, visitor: string)
    requires |s| > 1 && Ordered(s) && (forall e :: e in s ==> Valid(e))
    requires Relevant(s[|s| - 1], link, visitor) && !Relevant(s[|s| - 2], link, visitor)
    ensures ActorEvents(s[..|s| - 1], link, visitor) == []
  {
    var init := s[..|s| - 1];
    forall i | 0 <= i < |init| ensures !Relevant(init[i], link, visitor) {
      assert s[|s| - 2] in s;
      if Relevant(s[i], link, visitor) && i < |s| - 2 {
        ActorsAreContiguous(s[i], s[|s| - 2], s[|s| - 1]);
      }
    }
    NothingRelevant(init, link, visitor);
  }

  lemma OthersEventsAreSkipped(s: seq<Event>, link: string, visitor: string)
    requires s != [] && !Relevant(s[|s| - 1], link, visitor)
    ensures ActorEvents(s, link, visitor) == ActorEvents(s[..|s| - 1], link, visitor)
  {}

  lemma {:induction false} ScanOfActor(s: seq<Event>, idle: int, link: string, visitor: string)
    requires Ordered(s) && idle > 0 && forall e :: e in s ==> Valid(e)
    ensures Tracks(ScanOf(s, idle), ScanOf(ActorEvents(s, link, visitor), idle), link, visitor)
  {
    if s != [] {
      var init, e := s[..|s| - 1], s[|s| - 1];
      assert e in s;
      ScanOfActor(init, idle, link, visitor);
      var mine := ActorEvents(init, link, visitor);
      if Relevant(e, link, visitor) {
        if init != [] {
          assert s[|s| - 2] in s;
          OpenClusterOfLast(init, idle);
          if !Relevant(s[|s| - 2], link, visitor) { NoEarlierView(s, link, visitor); }
        }
        ScanOfAppend(mine, e, idle);
      } else {
        OthersEventsAreSkipped(s, link, visitor);
      }
      StepTracks(ScanOf(init, idle), ScanOf(mine, idle), e, idle, link, visitor);
    }
  }

  lemma {:induction false} ActorEventsOfValid(s: seq<Event>, link: string, visitor: string)
    ensures ActorEvents(ValidOf(s), link, visitor) == ActorEvents(s, link, visitor)
  {
    if s != [] {
      var init, e := s[..|s| - 1], s[|s| - 1];
      ActorEventsOfValid(init, link, visitor);
      if Valid(e) {
        assert (ValidOf(init) + [e])[..|ValidOf(init)|] == ValidOf(init);
      } else {
        assert ValidOf(init) + [] == ValidOf(init);
        assert ActorEvents(init, link, visitor) + [] == ActorEvents(init, link, visitor);
      }
    }
  }

  lemma {:induction false} ActorEventsCount(s: seq<Event>, link: string, visitor: string, e: Event)
    ensures multiset(ActorEvents(s, link, visitor))[e] == if Relevant(e, link, visitor) then multiset(s)[e] else 0
  {
    if s != [] {
      var init, last := s[..|s| - 1], s[|s| - 1];
      ActorEventsCount(init, link, visitor, e);
      assert s == init + [last];
    }
  }

  ghost predicate TimeOrdered(s: seq<Event>) {
    forall i, j :: 0 <= i < j < |s| ==> s[i].at <= s[j].at
  }

  lemma {:induction false} ActorEventsOrdered(s: seq<Event>, link: string, visitor: string)
    requires TimeOrdered(s)
    ensures Ordered(ActorEvents(s, link, visitor))
  {
    if s != [] {
      var init, e := s[..|s| - 1], s[|s| - 1];
      ActorEventsOrdered(init, link, visitor);
      var r := ActorEvents(init, link, visitor);
      forall k | 0 <= k < |r| && Relevant(e, link, visitor) ensures NotAfter(r[k], e) {
        assert r[k] in r;
        var i :| 0 <= i < |init| && init[i] == r[k];
        assert s[i].at <= s[|s| - 1].at;
      }
    }
  }

  lemma {:induction false} OrderedActorEvents(s: seq<Event>, link: string, visitor: string)
    requires Ordered(s)
    ensures Ordered(ActorEvents(s, link, visitor))
  {
    if s != [] {
      var init, e := s[..|s| - 1], s[|s| - 1];
      OrderedActorEvents(init, link, visitor);
      var r := ActorEvents(init, link, visitor);
      forall k | 0 <= k < |r| ensures NotAfter(r[k], e) {
        assert r[k] in r;
        var i :| 0 <= i < |init| && init[i] == r[k];
        assert s[i] == r[k];
      }
    }
  }

  lemma SameActorScan(events: seq<Event>, gap: int, link: string, visitor: string)
    requires TimeOrdered(events) && gap > 0
    ensures ScanOf(ActorEvents(Scanned(events), link, visitor), gap) ==
            ScanOf(ActorEvents(events, link, visitor), gap)
  {
    var sorted := StableSort(events);
    StableSortSorts(events);
    SortedIsOrdered(sorted);
    ActorEventsOfValid(sorted, link, visitor);
    OrderedActorEvents(sorted, link, visitor);
    ActorEventsOrdered(events, link, visitor);
    forall e
      ensures multiset(ActorEvents(sorted, link, visitor))[e] == multiset(ActorEvents(events, link, visitor))[e]
    {
      ActorEventsCount(sorted, link, visitor, e);
      ActorEventsCount(events, link, visitor, e);
    }
    assert multiset(ActorEvents(sorted, link, visitor)) == multiset(ActorEvents(events, link, visitor));
    OrderedScansAgree(ActorEvents(sorted, link, visitor), ActorEvents(events, link, visitor), gap);
  }

  /** For views that arrive in time order, an actor's clusters are the scan of the actor's
      views in arrival order. */
  lemma ClustersOfActor(events: seq<Event>, idle: int, link: string, visitor: string)
    requires TimeOrdered(events)
    ensures ActorClusters(Clusters(events, idle), link, visitor) ==
            Flush(ScanOf(ActorEvents(events, link, visitor), EffectiveIdle(idle)))
  {
    var gap, sorted, s := EffectiveIdle(idle), StableSort(events), Scanned(events);
    ScannedFacts(events);
    ScanSkipsInvalid(sorted, gap);
    ScanOfActor(s, gap, link, visitor);
    TracksFlush(ScanOf(s, gap), ScanOf(ActorEvents(s, link, visitor), gap), link, visitor);
    SameActorScan(events, gap, link, visitor);
  }

  // ---- live side ----

  function ActorRows(rows: seq<Row>, link: string, visitor: string): seq<Row> {
    if rows == [] then []
    else (if OfActor(rows[0].body, link, visitor) then [rows[0]] else []) + ActorRows(rows[1..], link, visitor)
  }

  lemma {:induction false} InActorRows(rows: seq<Row>, r: Row, link: string, visitor: string)
    requires r in ActorRows(rows, link, visitor)
    ensures r in rows && OfActor(r.body, link, visitor)
  {
    if r in ActorRows(rows[1..], link, visitor) {
      InActorRows(rows[1..], r, link, visitor);
    }
  }

  function Bodies(rows: seq<Row>): seq<Cluster> {
    seq(|rows|, i requires 0 <= i < |rows| => rows[i].body)
  }

  lemma ActorRowsOfFirst(r: Row, rest: seq<Row>, link: string, visitor: string)
    ensures ActorRows([r] + rest, link, visitor)
            == (if OfActor(r.body, link, visitor) then [r] else []) + ActorRows(rest, link, visitor)
  {
    assert ([r] + rest)[1..] == rest;
  }

  lemma RegroupRows(a: seq<Row>, b: seq<Row>, c: seq<Row>)
    ensures (a + b) + c == a + (b + c)
  {}

  lemma {:induction false} ActorRowsOfConcat(a: seq<Row>, b: seq<Row>, link: string, visitor: string)
    ensures ActorRows(a + b, link, visitor) == ActorRows(a, link, visitor) + ActorRows(b, link, visitor)
  {
    if a == [] {
      assert a + b == b;
    } else {
      var first, rest := if OfActor(a[0].body, link, visitor) then [a[0]] else [], a[1..];
      ActorRowsOfConcat(rest, b, link, visitor);
      assert a == [a[0]] + rest;
      ActorRowsOfFirst(a[0], rest + b, link, visitor);
      RegroupRows([a[0]], rest, b);
      RegroupRows(first, ActorRows(rest, link, visitor), ActorRows(b, link, visitor));
    }
  }

  lemma ActorRowsOfUpdate(rows: seq<Row>, i: nat, r: Row, link: string, visitor: string)
    requires i < |rows| && OfActor(r.body, rows[i].body.link, rows[i].body.visitor)
    ensures var before, after := ActorRows(rows[..i], link, visitor), ActorRows(rows[i + 1..], link, visitor);
            && ActorRows(rows[i := r], link, visitor) == before + ActorRows([r], link, visitor) + after
            && ActorRows(rows, link, visitor) == before + ActorRows([rows[i]], link, visitor) + after
  {
    assert rows[i := r] == rows[..i] + [r] + rows[i + 1..];
    assert rows == rows[..i] + [rows[i]] + rows[i + 1..];
    ActorRowsOfConcat(rows[..i] + [r], rows[i + 1..], link, visitor);
    ActorRowsOfConcat(rows[..i], [r], link, visitor);
    ActorRowsOfConcat(rows[..i] + [rows[i]], rows[i + 1..], link, visitor);
    ActorRowsOfConcat(rows[..i], [rows[i]], link, visitor);
  }

  /** An actor's rows: all closed at their last activity but the last, which is open. */
  ghost predicate Kept(rows: seq<Row>) {
    forall i :: 0 <= i < |rows| ==>
      rows[i].endedAt == if i == |rows| - 1 then None else Some(rows[i].body.lastActivityAt)
  }

  lemma KeptHasOpenRow(mine: seq<Row>)
    requires Kept(mine) && mine != []
    ensures exists r :: r in mine && r.endedAt.None?
  {
    assert mine[|mine| - 1] in mine;
  }

  /** The row found open is the actor's last one. */
  lemma OpenRowIsLast(rows: seq<Row>, link: string, visitor: string)
    requires Kept(ActorRows(rows, link, visitor))
    ensures var i, mine := OpenIndex(rows, link, visitor), ActorRows(rows, link, visitor);
            if i < 0 then mine == []
            else
              && mine == ActorRows(rows[..i], link, visitor) + [rows[i]]
              && ActorRows(rows[i + 1..], link, visitor) == []
  {
    var i, mine := OpenIndex(rows, link, visitor), ActorRows(rows, link, visitor);
    if i < 0 {
      if mine != [] {
        KeptHasOpenRow(mine);
        var r :| r in mine && r.endedAt.None?;
        InActorRows(rows, r, link, visitor);
      }
    } else {
      ActorRowsOfUpdate(rows, i, rows[i], link, visitor);
      var before := ActorRows(rows[..i], link, visitor);
      assert ActorRows([rows[i]], link, visitor) == [rows[i]];
      assert mine[|before|] == rows[i];
    }
  }

  lemma OpeningMatches(e: Event)
    ensures ApplyPage(Created(e), e) == Close(Open(e))
  {
  }

  lemma OtherRowsAreSkipped(r: Row, link: string, visitor: string)
    requires !OfActor(r.body, link, visitor)
    ensures ActorRows([r], link, visitor) == []
  {}

  lemma ReplaceOtherRow(rows: seq<Row>, i: nat, r: Row, link: string, visitor: string)
    requires i < |rows| && !OfActor(rows[i].body, link, visitor)
    requires OfActor(r.body, rows[i].body.link, rows[i].body.visitor)
    ensures ActorRows(rows[i := r], link, visitor) == ActorRows(rows, link, visitor)
  {
    OtherRowsAreSkipped(r, link, visitor);
    OtherRowsAreSkipped(rows[i], link, visitor);
    ActorRowsOfUpdate(rows, i, r, link, visitor);
  }

  lemma AppendOtherRow(rows: seq<Row>, r: Row, link: string, visitor: string)
    requires !OfActor(r.body, link, visitor)
    ensures ActorRows(rows + [r], link, visitor) == ActorRows(rows, link, visitor)
  {
    OtherRowsAreSkipped(r, link, visitor);
    ActorRowsOfConcat(rows, [r], link, visitor);
  }

  lemma TouchOthers(rows: seq<Row>, v: View, link: string, visitor: string)
    requires link != [] && visitor != [] && !Relevant(v.event, link, visitor)
    ensures ActorRows(Touch(rows, v), link, visitor) == ActorRows(rows, link, visitor)
  {
    var e := v.event;
    var i := OpenIndex(rows, e.link, e.visitor);
    if e.visitor == [] || e.page <= 0 {
    } else if i < 0 {
      AppendOtherRow(rows, Opened(v), link, visitor);
    } else if Stale(rows[i], v) {
      var closed := rows[i].(endedAt := Some(rows[i].body.lastActivityAt));
      ReplaceOtherRow(rows, i, closed, link, visitor);
      AppendOtherRow(rows[i := closed], Opened(v), link, visitor);
    } else {
      ReplaceOtherRow(rows, i, rows[i].(body := ApplyPage(rows[i].body, e)), link, visitor);
    }
  }

  /** Replacing the row found open replaces the actor's last row. */
  lemma ReplaceOpenRow(rows: seq<Row>, r: Row, link: string, visitor: string)
    requires Kept(ActorRows(rows, link, visitor)) && OpenIndex(rows, link, visitor) >= 0
    requires OfActor(r.body, link, visitor)
    ensures var i, mine := OpenIndex(rows, link, visitor), ActorRows(rows, link, visitor);
            && mine != [] && rows[i] == mine[|mine| - 1]
            && ActorRows(rows[i := r], link, visitor) == mine[|mine| - 1 := r]
  {
    var i := OpenIndex(rows, link, visitor);
    OpenRowIsLast(rows, link, visitor);
    ActorRowsOfUpdate(rows, i, r, link, visitor);
    assert ActorRows([r], link, visitor) == [r];
  }

  lemma AppendOwnRow(rows: seq<Row>, r: Row, link: string, visitor: string)
    requires OfActor(r.body, link, visitor)
    ensures ActorRows(rows + [r], link, visitor) == ActorRows(rows, link, visitor) + [r]
  {
    ActorRowsOfConcat(rows, [r], link, visitor);
    assert ActorRows([r], link, visitor) == [r];
  }

  /** A view of the actor works on the actor's last row as if there were no other rows. */
  ghost function TouchLast(mine: seq<Row>, v: View): seq<Row> {
    if mine == [] then [Opened(v)]
    else
      var last := mine[|mine| - 1];
      if Stale(last, v) then mine[|mine| - 1 := last.(endedAt := Some(last.body.lastActivityAt))] + [Opened(v)]
      else mine[|mine| - 1 := last.(body := ApplyPage(last.body, v.event))]
  }

  lemma TouchOwn(rows: seq<Row>, v: View, link: string, visitor: string)
    requires Relevant(v.event, link, visitor) && Kept(ActorRows(rows, link, visitor))
    ensures ActorRows(Touch(rows, v), link, visitor) == TouchLast(ActorRows(rows, link, visitor), v)
  {
    var i := OpenIndex(rows, link, visitor);
    OpenRowIsLast(rows, link, visitor);
    if i < 0 {
      AppendOwnRow(rows, Opened(v), link, visitor);
    } else if Stale(rows[i], v) {
      var closed := rows[i].(endedAt := Some(rows[i].body.lastActivityAt));
      ReplaceOpenRow(rows, closed, link, visitor);
      AppendOwnRow(rows[i := closed], Opened(v), link, visitor);
    } else {
      ReplaceOpenRow(rows, rows[i].(body := ApplyPage(rows[i].body, v.event)), link, visitor);
    }
  }

  function Events(views: seq<View>): seq<Event> {
    seq(|views|, i requires 0 <= i < |views| => views[i].event)
  }

  lemma EventsOneMore(views: seq<View>, v: View)
    ensures Events(views + [v]) == Events(views) + [v.event]
  {}

  /** The actor's views in the order they arrive. */
  function ActorViews(views: seq<View>, link: string, visitor: string): seq<View> {
    if views == [] then []
    else
      var n := |views| - 1;
      ActorViews(views[..n], link, visitor) + if Relevant(views[n].event, link, visitor) then [views[n]] else []
  }

  lemma {:induction false} ActorViewsAreRelevant(views: seq<View>, link: string, visitor: string, i: nat)
    requires i < |ActorViews(views, link, visitor)|
    ensures ActorViews(views, link, visitor)[i] in views
    ensures Relevant(ActorViews(views, link, visitor)[i].event, link, visitor)
  {
    var n := |views| - 1;
    if i < |ActorViews(views[..n], link, visitor)| {
      ActorViewsAreRelevant(views[..n], link, visitor, i);
    }
  }

  lemma {:induction false} EventsOfActorViews(views: seq<View>, link: string, visitor: string)
    ensures Events(ActorViews(views, link, visitor)) == ActorEvents(Events(views), link, visitor)
  {
    if views != [] {
      var n := |views| - 1;
      EventsOfActorViews(views[..n], link, visitor);
      assert Events(views)[..n] == Events(views[..n]);
      EventsOneMore(ActorViews(views[..n], link, visitor), views[n]);
    }
  }

  /** An actor's rows after the actor's views. */
  ghost function LiveOf(vs: seq<View>): seq<Row> {
    if vs == [] then [] else TouchLast(LiveOf(vs[..|vs| - 1]), vs[|vs| - 1])
  }

  lemma LiveOfOneMore(vs: seq<View>, v: View)
    ensures LiveOf(vs + [v]) == TouchLast(LiveOf(vs), v)
  {
    assert (vs + [v])[..|vs|] == vs;
  }

  lemma TouchLastKeepsKept(mine: seq<Row>, v: View)
    requires Kept(mine)
    ensures Kept(TouchLast(mine, v))
  {}

  lemma {:induction false} LiveOfIsKept(vs: seq<View>)
    ensures Kept(LiveOf(vs))
  {
    if vs != [] {
      LiveOfIsKept(vs[..|vs| - 1]);
      TouchLastKeepsKept(LiveOf(vs[..|vs| - 1]), vs[|vs| - 1]);
    }
  }

  /** Other readers do not touch an actor's rows. */
  lemma {:induction false} RowsOfActor(views: seq<View>, link: string, visitor: string)
    requires link != [] && visitor != []
    ensures ActorRows(LiveRun(views), link, visitor) == LiveOf(ActorViews(views, link, visitor))
  {
    if views != [] {
      var init, v := views[..|views| - 1], views[|views| - 1];
      var mine := ActorViews(init, link, visitor);
      RowsOfActor(init, link, visitor);
      LiveOfIsKept(mine);
      if Relevant(v.event, link, visitor) {
        LiveOfOneMore(mine, v);
        TouchOwn(LiveRun(init), v, link, visitor);
      } else {
        assert mine + [] == mine;
        TouchOthers(LiveRun(init), v, link, visitor);
      }
    }
  }

  // ---- live and batch, view by view

  /** The view begins a batch session. */
  predicate GapBefore(vs: seq<View>, i: nat)
    requires i < |vs|
  {
    i == 0 || vs[i].event.at - vs[i - 1].event.at > HALF_HOUR
  }

  /** The first view of the batch session that view i is in. */
  function SessionStart(vs: seq<View>, i: nat): (j: nat)
    requires i < |vs|
    ensures j <= i
  {
    if GapBefore(vs, i) then i else SessionStart(vs, i - 1)
  }

  /** View i names another document than the one its batch session began with. */
  predicate Clashes(vs: seq<View>, i: nat)
    requires i < |vs|
  {
    var first := vs[SessionStart(vs, i)].document;
    first.Some? && vs[i].document.Some? && vs[i].document != first
  }

  ghost predicate NoClash(vs: seq<View>) {
    forall i :: 0 <= i < |vs| ==> !Clashes(vs, i)
  }

  ghost predicate OneActor(vs: seq<View>, link: string, visitor: string) {
    forall i :: 0 <= i < |vs| ==> Relevant(vs[i].event, link, visitor)
  }

  lemma {:induction false} SessionStartInPrefix(vs: seq<View>, v: View, i: nat)
    requires i < |vs|
    ensures SessionStart(vs + [v], i) == SessionStart(vs, i) && Clashes(vs + [v], i) == Clashes(vs, i)
  {
    if !GapBefore(vs, i) { SessionStartInPrefix(vs, v, i - 1); }
  }

  lemma NoClashOneMore(vs: seq<View>, v: View)
    ensures NoClash(vs + [v]) <==> NoClash(vs) && !Clashes(vs + [v], |vs|)
  {
    forall i | 0 <= i < |vs| ensures Clashes(vs + [v], i) == Clashes(vs, i) { SessionStartInPrefix(vs, v, i); }
    if NoClash(vs + [v]) {
      forall i | 0 <= i < |vs| ensures !Clashes(vs, i) { assert !Clashes(vs + [v], i); }
    }
  }

  function BatchOf(vs: seq<View>): Scan { ScanOf(Events(vs), READING_SESSION_IDLE) }

  lemma BatchOneMore(vs: seq<View>, v: View)
    ensures BatchOf(vs + [v]) == Step(BatchOf(vs), v.event, READING_SESSION_IDLE)
  {
    EventsOneMore(vs, v);
    ScanOfAppend(Events(vs), v.event, READING_SESSION_IDLE);
  }

  /** Both sides have seen the last view. */
  ghost predicate UpToDate(vs: seq<View>, rows: seq<Row>, scan: Scan, link: string, visitor: string) {
    if vs == [] then rows == [] && scan == Scan([], None)
    else
      var at := vs[|vs| - 1].event.at;
      && rows != [] && rows[|rows| - 1].body.lastActivityAt == at
      && scan.cur.Some? && OfActor(scan.cur.value, link, visitor) && scan.cur.value.lastActivityAt == at
  }

  lemma {:induction false} BothUpToDate(vs: seq<View>, link: string, visitor: string)
    requires OneActor(vs, link, visitor)
    ensures UpToDate(vs, LiveOf(vs), BatchOf(vs), link, visitor)
  {
    if vs != [] {
      var n := |vs| - 1;
      var init, v := vs[..n], vs[n];
      assert vs == init + [v];
      BothUpToDate(init, link, visitor);
      LiveOfOneMore(init, v);
      BatchOneMore(init, v);
    }
  }

  lemma BatchStep(vs: seq<View>, v: View, link: string, visitor: string)
    requires OneActor(vs + [v], link, visitor) && UpToDate(vs, LiveOf(vs), BatchOf(vs), link, visitor)
    ensures var scan := BatchOf(vs);
            BatchOf(vs + [v]) == if GapBefore(vs + [v], |vs|) then Scan(Flush(scan), Some(Open(v.event)))
                                 else Scan(scan.out, Some(Extend(scan.cur.value, v.event)))
  {
    assert (vs + [v])[|vs|] == v;
    BatchOneMore(vs, v);
  }

  lemma LiveStep(vs: seq<View>, v: View, link: string, visitor: string)
    requires UpToDate(vs, LiveOf(vs), BatchOf(vs), link, visitor)
    ensures var rows := LiveOf(vs);
            && |LiveOf(vs + [v])|
               == |rows| + (if GapBefore(vs + [v], |vs|) || DocumentChanged(rows[|rows| - 1], v) then 1 else 0)
  {
    LiveOfOneMore(vs, v);
  }

  /** A live row begins wherever a batch session does. */
  lemma {:induction false} NoFewerRows(vs: seq<View>, link: string, visitor: string)
    requires OneActor(vs, link, visitor)
    ensures |LiveOf(vs)| >= |Flush(BatchOf(vs))|
  {
    if vs != [] {
      var n := |vs| - 1;
      var init, v := vs[..n], vs[n];
      assert vs == init + [v];
      NoFewerRows(init, link, visitor);
      BothUpToDate(init, link, visitor);
      BatchStep(init, v, link, visitor);
      LiveStep(init, v, link, visitor);
    }
  }

  /** Row by row the same, and the last row about the document its session began with. */
  ghost predicate Matches(vs: seq<View>, rows: seq<Row>, scan: Scan) {
    && Bodies(rows) == Flush(scan)
    && (vs != [] ==> rows != [] && rows[|rows| - 1].document == vs[SessionStart(vs, |vs| - 1)].document)
  }

  lemma BodiesAppend(rows: seq<Row>, r: Row)
    ensures Bodies(rows + [r]) == Bodies(rows) + [r.body]
  {}

  lemma BodiesUpdate(rows: seq<Row>, i: nat, r: Row)
    requires i < |rows|
    ensures Bodies(rows[i := r]) == Bodies(rows)[i := r.body]
  {}

  lemma AppendMatches(mine: seq<Row>, v: View)
    requires mine == [] || Stale(mine[|mine| - 1], v)
    ensures Bodies(TouchLast(mine, v)) == Bodies(mine) + [Close(Open(v.event))]
  {
    OpeningMatches(v.event);
    if mine == [] {
      BodiesAppend(mine, Opened(v));
    } else {
      var n, last := |mine| - 1, mine[|mine| - 1];
      var closed := mine[n := last.(endedAt := Some(last.body.lastActivityAt))];
      BodiesUpdate(mine, n, closed[n]);
      assert Bodies(closed) == Bodies(mine);
      BodiesAppend(closed, Opened(v));
    }
  }

  lemma ExtendMatches(mine: seq<Row>, scan: Scan, e: Event)
    requires mine != [] && scan.cur.Some? && Bodies(mine) == Flush(scan)
    ensures var last := mine[|mine| - 1];
            Bodies(mine[|mine| - 1 := last.(body := ApplyPage(last.body, e))])
            == Flush(Scan(scan.out, Some(Extend(scan.cur.value, e))))
  {
    var n, last := |mine| - 1, mine[|mine| - 1];
    assert |Flush(scan)| == |mine| && Flush(scan)[n] == Bodies(mine)[n] == last.body;
    assert ApplyPage(Close(scan.cur.value), e) == Close(Extend(scan.cur.value, e));
    BodiesUpdate(mine, n, last.(body := ApplyPage(last.body, e)));
  }

  lemma {:induction false} MatchesOneMore(vs: seq<View>, v: View, link: string, visitor: string)
    requires OneActor(vs + [v], link, visitor) && UpToDate(vs, LiveOf(vs), BatchOf(vs), link, visitor)
    requires Matches(vs, LiveOf(vs), BatchOf(vs)) && !Clashes(vs + [v], |vs|)
    ensures Matches(vs + [v], LiveOf(vs + [v]), BatchOf(vs + [v]))
  {
    var all, n, mine := vs + [v], |vs|, LiveOf(vs);
    BatchStep(vs, v, link, visitor);
    LiveOfOneMore(vs, v);
    if GapBefore(all, n) {
      AppendMatches(mine, v);
    } else if n > 0 {
      SessionStartInPrefix(vs, v, n - 1);
      ExtendMatches(mine, BatchOf(vs), v.event);
    }
  }

  /** The first view that clashes splits the live session and not the batch one. */
  lemma ClashAddsRow(vs: seq<View>, v: View, link: string, visitor: string)
    requires OneActor(vs + [v], link, visitor) && UpToDate(vs, LiveOf(vs), BatchOf(vs), link, visitor)
    requires Matches(vs, LiveOf(vs), BatchOf(vs)) && Clashes(vs + [v], |vs|)
    ensures |LiveOf(vs + [v])| > |Flush(BatchOf(vs + [v]))|
  {
    var n := |vs|;
    assert !GapBefore(vs + [v], n);
    SessionStartInPrefix(vs, v, n - 1);
    BatchStep(vs, v, link, visitor);
    LiveStep(vs, v, link, visitor);
    assert |Bodies(LiveOf(vs))| == |LiveOf(vs)|;
  }

  lemma {:induction false} MatchesUntilClash(vs: seq<View>, link: string, visitor: string)
    requires OneActor(vs, link, visitor)
    ensures NoClash(vs) ==> Matches(vs, LiveOf(vs), BatchOf(vs))
    ensures !NoClash(vs) ==> |LiveOf(vs)| > |Flush(BatchOf(vs))|
  {
    if vs != [] {
      var n := |vs| - 1;
      var init, v := vs[..n], vs[n];
      assert vs == init + [v];
      MatchesUntilClash(init, link, visitor);
      BothUpToDate(init, link, visitor);
      NoClashOneMore(init, v);
      if !NoClash(init) {
        BatchStep(init, v, link, visitor);
        LiveStep(init, v, link, visitor);
      } else if Clashes(vs, n) {
        ClashAddsRow(init, v, link, visitor);
      } else {
        MatchesOneMore(init, v, link, visitor);
      }
    }
  }

  // ---- the result

  lemma ActorViewsAreOneActor(views: seq<View>, link: string, visitor: string)
    ensures OneActor(ActorViews(views, link, visitor), link, visitor)
  {
    forall i | 0 <= i < |ActorViews(views, link, visitor)|
      ensures Relevant(ActorViews(views, link, visitor)[i].event, link, visitor)
    {
      ActorViewsAreRelevant(views, link, visitor, i);
    }
  }

  /** The rows kept live for a reader are the clusters that a rebuild makes of the same views, whatever
      other readers do in between, exactly when no view names another document than the one that the first
      view of its batch session named; otherwise there are more of them. */
  lemma LiveEqualsBatchExactly(views: seq<View>, link: string, visitor: string)
    requires link != [] && visitor != [] && TimeOrdered(Events(views))
    ensures var rows := ActorRows(LiveRun(views), link, visitor);
            var clusters := ActorClusters(Clusters(Events(views), HALF_HOUR), link, visitor);
            && (Bodies(rows) == clusters <==> NoClash(ActorViews(views, link, visitor)))
            && |rows| >= |clusters| && Kept(rows)
  {
    var vs := ActorViews(views, link, visitor);
    RowsOfActor(views, link, visitor);
    ClustersOfActor(Events(views), READING_SESSION_IDLE, link, visitor);
    EventsOfActorViews(views, link, visitor);
    ActorViewsAreOneActor(views, link, visitor);
    MatchesUntilClash(vs, link, visitor);
    NoFewerRows(vs, link, visitor);
    LiveOfIsKept(vs);
  }

  /** The views of one actor are all of one document, or say nothing about it. */
  ghost predicate SingleDocument(views: seq<View>, link: string, visitor: string, document: string) {
    forall v :: v in views && Relevant(v.event, link, visitor) ==> v.document == None || v.document == Some(document)
  }

  /** So live and batch agree for every reader of one document. */
  lemma LiveEqualsBatch(views: seq<View>, link: string, visitor: string, document: string)
    requires link != [] && visitor != [] && TimeOrdered(Events(views))
    requires SingleDocument(views, link, visitor, document)
    ensures Bodies(ActorRows(LiveRun(views), link, visitor)) ==
            ActorClusters(Clusters(Events(views), HALF_HOUR), link, visitor)
  {
    var vs := ActorViews(views, link, visitor);
    forall i | 0 <= i < |vs| ensures vs[i].document == None || vs[i].document == Some(document) {
      ActorViewsAreRelevant(views, link, visitor, i);
    }
    LiveEqualsBatchExactly(views, link, visitor);
  }
}
