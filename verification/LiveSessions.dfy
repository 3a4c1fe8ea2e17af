/** Reading sessions as they are kept while visitors read: analytics/reading_session.go and
    the five queries it calls (queries.sql:955-1002).  A row of reading_sessions is taken
    together with its reading_session_pages; the clock and now() read the same instant. */
module LiveSessions {
  import opened Options
  import opened SessionCluster

  /** body holds the columns that a rebuilt cluster has too. */
  datatype Row = Row(body: Cluster, document: Option<string>, endedAt: Option<Time>)

  /** A page view as it arrives: at is the time of the request. */
  datatype View = View(event: Event, document: Option<string>)

  predicate OfActor(c: Cluster, link: string, visitor: string) { c.link == link && c.visitor == visitor }

  predicate IsOpen(r: Row, link: string, visitor: string) { r.endedAt.None? && OfActor(r.body, link, visitor) }

  /** GetOpenReadingSession: the position of the open row, -1 when there is none. */
  function OpenIndex(rows: seq<Row>, link: string, visitor: string): (i: int)
    ensures -1 <= i < |rows|
    ensures i >= 0 ==> IsOpen(rows[i], link, visitor)
    ensures forall k :: 0 <= k < (if i < 0 then |rows| else i) ==> !IsOpen(rows[k], link, visitor)
  {
    if rows == [] then -1
    else if IsOpen(rows[0], link, visitor) then 0
    else
      var i := OpenIndex(rows[1..], link, visitor);
      if i < 0 then -1 else i + 1
  }

  /** UpsertReadingSessionPage, then RefreshReadingSessionStats. */
  function ApplyPage(c: Cluster, e: Event): Cluster { Close(Extend(c, e)) }

  /** CreateReadingSession */
  function Created(e: Event): Cluster { Cluster(e.link, e.visitor, e.at, e.at, e.page, 0, 0, map[]) }

  predicate DocumentChanged(r: Row, v: View) {
    v.document.Some? && r.document.Some? && v.document != r.document
  }

  predicate Stale(r: Row, v: View) {
    v.event.at - r.body.lastActivityAt > READING_SESSION_IDLE || DocumentChanged(r, v)
  }

  function Opened(v: View): Row { Row(ApplyPage(Created(v.event), v.event), v.document, None) }

  function Touch(rows: seq<Row>, v: View): seq<Row> {
    var e := v.event;
    var i := OpenIndex(rows, e.link, e.visitor);
    if e.visitor == [] || e.page <= 0 then rows
    else if i < 0 then rows + [Opened(v)]
    else if Stale(rows[i], v) then
      rows[i := rows[i].(endedAt := Some(rows[i].body.lastActivityAt))] + [Opened(v)]
    else rows[i := rows[i].(body := ApplyPage(rows[i].body, e))]
  }

  function LiveRun(views: seq<View>): seq<Row> {
    if views == [] then [] else Touch(LiveRun(views[..|views| - 1]), views[|views| - 1])
  }

  class SessionTable {
    var rows: seq<Row>

    constructor ()
      ensures rows == []
    {
      rows := [];
    }

    /** resolveReadingSession without a competing request, whose first attempt succeeds; LiveRaces has the
        retries. */
    method Resolve(v: View)
      modifies this
      ensures rows == Touch(old(rows), v)
    {
      if v.event.visitor == "" || v.event.page <= 0 { return; }
      TouchOrOpen(v);
    }

    method TouchOrOpen(v: View)
      requires v.event.visitor != [] && v.event.page > 0
      modifies this
      ensures rows == Touch(old(rows), v)
    {
      var e := v.event;
      var i := OpenIndex(rows, e.link, e.visitor);
      if i >= 0 {
        var last := rows[i].body.lastActivityAt;
        var docChanged := v.document.Some? && rows[i].document.Some? && v.document != rows[i].document;
        if e.at - last > READING_SESSION_IDLE || docChanged {
          rows := rows[i := rows[i].(endedAt := Some(rows[i].body.lastActivityAt))];
        } else {
          ApplyPageTo(i, e);
          return;
        }
      }
      rows := rows + [Row(Created(e), v.document, None)];
      ghost var created := rows;
      ApplyPageTo(|rows| - 1, e);
      assert rows == created[..|created| - 1] + [Opened(v)];
    }

    method ApplyPageTo(i: nat, e: Event)
      requires i < |rows|
      modifies this
      ensures rows == old(rows)[i := old(rows)[i].(body := ApplyPage(old(rows)[i].body, e))]
    {
      var dur := if e.duration < 0 then 0 else e.duration;
      var c := rows[i].body;
      c := c.(pages := AddTo(c.pages, e.page, dur));
      c := c.(lastActivityAt := e.at,
              maxPage := if e.page > c.maxPage then e.page else c.maxPage,
              total := c.total + dur,
              distinctPages := |c.pages|);
      rows := rows[i := rows[i].(body := c)];
    }
  }
}
