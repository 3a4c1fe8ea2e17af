/** Duplicate opens and page views: analytics/dedup.go:56-149 over the Redis keys and over the last
    recorded row (queries.sql:1763-1780).  Ids are in the form uuid.String gives. */
module Dedup {
  import opened GoStrings

  type Time = int

  const MINUTE: int := 60 * 1_000_000_000

  datatype What = Open | Page(document: string, page: int)

  /** One event to be marked; up tells whether Redis answers. */
  datatype Mark = Mark(what: What, link: string, visitor: string, at: Time, up: bool)

  datatype Windows = Windows(forOpen: Time, forPage: Time)

  /** When each Redis key expires, and the rows that were recorded. */
  datatype State = State(redis: map<string, Time>, records: seq<Mark>)

  datatype Answer = Accepted | Duplicate | BadId

  predicate Positive(w: Windows) { w.forOpen > 0 && w.forPage > 0 }

  /** NewFailoverDedupChecker's defaults: windows are positive whatever is configured. */
  function WindowsOf(forOpen: Time, forPage: Time): (w: Windows)
    ensures Positive(w)
  {
    Windows(if forOpen <= 0 then 30 * MINUTE else forOpen, if forPage <= 0 then 5 * MINUTE else forPage)
  }

  function WindowOf(w: Windows, what: What): Time {
    if what == Open then w.forOpen else w.forPage
  }

  predicate IsHex(c: char) { IsDigit(c) || 'a' <= c <= 'f' }

  predicate IsUuid(s: string) {
    |s| == 36 && forall i :: 0 <= i < 36 ==>
      if i == 8 || i == 13 || i == 18 || i == 23 then s[i] == '-' else IsHex(s[i])
  }

  function IntText(n: int): string {
    if n < 0 then "-" + Decimal(-n) else Decimal(n)
  }

  function PageTail(visitor: string, document: string, page: int): string {
    (visitor + ":" + (if document == "" then "_" else document)) + ":" + IntText(page)
  }

  function Key(m: Mark): string {
    match m.what
    case Open => "dedup:link_open:" + (m.link + (":" + m.visitor))
    case Page(document, page) => "dedup:page_view:" + (m.link + (":" + PageTail(m.visitor, document, page)))
  }

  predicate ParsesIds(m: Mark) {
    IsUuid(m.link) && (m.what.Page? && m.what.document != "" ==> IsUuid(m.what.document))
  }

  /** What the database compares; a NULL visitor equals none. */
  predicate Same(a: Mark, b: Mark) {
    a.what == b.what && a.link == b.link && a.visitor == b.visitor
  }

  predicate Matches(row: Mark, m: Mark) { m.visitor != "" && Same(row, m) }

  predicate HasRow(rows: seq<Mark>, m: Mark) {
    exists i | 0 <= i < |rows| :: Matches(rows[i], m)
  }

  /** The newest matching row. */
  function LastRow(rows: seq<Mark>, m: Mark): Time
    requires HasRow(rows, m)
  {
    var n := |rows| - 1;
    if !HasRow(rows[..n], m) then rows[n].at
    else
      var before := LastRow(rows[..n], m);
      if Matches(rows[n], m) && rows[n].at > before then rows[n].at else before
  }

  predicate IsLive(redis: map<string, Time>, key: string, t: Time) {
    key in redis && t < redis[key]
  }

  function DbAnswer(w: Windows, rows: seq<Mark>, m: Mark): Answer {
    if !ParsesIds(m) then BadId
    else if !HasRow(rows, m) then Accepted
    else if m.at - LastRow(rows, m) >= WindowOf(w, m.what) then Accepted
    else Duplicate
  }

  function AnswerOf(w: Windows, s: State, m: Mark): Answer {
    if m.up then (if IsLive(s.redis, Key(m), m.at) then Duplicate else Accepted)
    else DbAnswer(w, s.records, m)
  }

  /** Marking an event and, when it is accepted, recording it. */
  function Next(w: Windows, s: State, m: Mark): State {
    if AnswerOf(w, s, m) != Accepted then s
    else State(if m.up then s.redis[Key(m) := m.at + WindowOf(w, m.what)] else s.redis, s.records + [m])
  }

  class FailoverDedupChecker {
    const windows: Windows
    var redis: map<string, Time>
    var records: seq<Mark>

    constructor (forOpen: Time, forPage: Time)
      ensures windows == WindowsOf(forOpen, forPage)
      ensures Contents() == State(map[], [])
    {
      windows := WindowsOf(forOpen, forPage);
      redis, records := map[], [];
    }

    function Contents(): State
      reads this
    {
      State(redis, records)
    }

    /** SETNX with an expiry. */
    method SetNx(key: string, now: Time, ttl: Time) returns (stored: bool)
      modifies this`redis
      ensures stored == !IsLive(old(redis), key, now)
      ensures redis == if stored then old(redis)[key := now + ttl] else old(redis)
    {
      if key in redis && now < redis[key] { return false; }
      redis := redis[key := now + ttl];
      return true;
    }

    method Check(m: Mark) returns (r: Answer)
      modifies this`redis
      ensures r == AnswerOf(windows, old(Contents()), m)
      ensures redis == if m.up && r == Accepted then old(redis)[Key(m) := m.at + WindowOf(windows, m.what)]
                       else old(redis)
    {
      var window := WindowOf(windows, m.what);
      if m.up {
        var stored := SetNx(Key(m), m.at, window);
        return if stored then Accepted else Duplicate;
      }
      if !ParsesIds(m) { return BadId; }
      if !HasRow(records, m) { return Accepted; }
      var last := LastRow(records, m);
      return if m.at - last >= window then Accepted else Duplicate;
    }

    method CheckAndRecord(m: Mark) returns (r: Answer)
      modifies this
      ensures r == AnswerOf(windows, old(Contents()), m)
      ensures Contents() == Next(windows, old(Contents()), m)
    {
      r := Check(m);
      if r == Accepted { records := records + [m]; }
    }
  }
}
