/** Idle-gap clustering of page views: analytics/session_cluster.go.
    Times are nanoseconds; int32 counters are unbounded integers. */
module SessionCluster {
  import opened GoStrings
  import opened Options

  type Time = int

  const READING_SESSION_IDLE: int := 30 * 60 * 1_000_000_000

  datatype Event = Event(link: string, visitor: string, at: Time, page: int, duration: int, order: int)

  datatype Cluster = Cluster(
    link: string, visitor: string, startedAt: Time, lastActivityAt: Time,
    maxPage: int, distinctPages: nat, total: int, pages: map<int, int>)

  predicate Valid(e: Event) { e.link != [] && e.visitor != [] && e.page > 0 }

  predicate SameActor(a: Event, b: Event) { a.link == b.link && a.visitor == b.visitor }

  function Clamp(duration: int): nat { if duration < 0 then 0 else duration }

  function EffectiveIdle(idle: int): (r: int)
    ensures r > 0
  {
    if idle <= 0 then READING_SESSION_IDLE else idle
  }

  // ---- order ----

  /** The comparison function given to the sort. */
  predicate Before(a: Event, b: Event) {
    if a.link != b.link then Less(a.link, b.link)
    else if a.visitor != b.visitor then Less(a.visitor, b.visitor)
    else if a.at != b.at then a.at < b.at
    else a.order < b.order
  }

  lemma NotBeforeIsTransitive(a: Event, b: Event, c: Event)
    requires !Before(b, a) && !Before(c, b)
    ensures !Before(c, a)
  {
    LessIsTotal(a.link, b.link);
    LessIsTotal(b.link, c.link);
    LessIsTotal(a.link, c.link);
    if Less(a.link, b.link) && Less(b.link, c.link) { LessIsTransitive(a.link, b.link, c.link); }
    LessIsTotal(a.visitor, b.visitor);
    LessIsTotal(b.visitor, c.visitor);
    LessIsTotal(a.visitor, c.visitor);
    if Less(a.visitor, b.visitor) && Less(b.visitor, c.visitor) { LessIsTransitive(a.visitor, b.visitor, c.visitor); }
  }

  ghost predicate NotAfter(a: Event, b: Event) {
    if a.link != b.link then Less(a.link, b.link)
    else if a.visitor != b.visitor then Less(a.visitor, b.visitor)
    else a.at <= b.at
  }

  /** Sorted as far as clustering can tell: actors together, each in time order. */
  ghost predicate Ordered(s: seq<Event>) {
    forall i, j :: 0 <= i < j < |s| ==> NotAfter(s[i], s[j])
  }

  lemma NotBeforeIsNotAfter(a: Event, b: Event)
    requires !Before(b, a)
    ensures NotAfter(a, b)
  {
    LessIsTotal(a.link, b.link);
    LessIsTotal(a.visitor, b.visitor);
  }

  /** An actor's events are contiguous in an ordered sequence. */
  lemma ActorsAreContiguous(a: Event, b: Event, c: Event)
    requires NotAfter(a, b) && NotAfter(b, c) && SameActor(a, c)
    ensures SameActor(a, b)
  {
    LessIsTotal(a.link, b.link);
    LessIsTotal(a.visitor, b.visitor);
  }

  function InsertSorted(s: seq<Event>, e: Event): seq<Event> {
    if s == [] || !Before(e, s[|s| - 1]) then s + [e]
    else InsertSorted(s[..|s| - 1], e) + [s[|s| - 1]]
  }

  /** sort.SliceStable */
  function StableSort(s: seq<Event>): seq<Event> {
    if s == [] then [] else InsertSorted(StableSort(s[..|s| - 1]), s[|s| - 1])
  }

  ghost predicate Sorted(s: seq<Event>) {
    forall i, j :: 0 <= i < j < |s| ==> !Before(s[j], s[i])
  }

  lemma {:induction false} InsertKeepsEvents(s: seq<Event>, e: Event)
    ensures multiset(InsertSorted(s, e)) == multiset(s) + multiset{e}
  {
    if s != [] {
      var init, last := s[..|s| - 1], s[|s| - 1];
      assert s == init + [last];
      if Before(e, last) { InsertKeepsEvents(init, e); }
    }
  }

  lemma BeforeIsAsymmetric(a: Event, b: Event)
    requires Before(a, b)
    ensures !Before(b, a)
  {
    LessIsTotal(a.link, b.link);
    LessIsTotal(a.visitor, b.visitor);
  }

  /** Nothing that goes behind an event of the result may come before it. */
  lemma InsertedIsBelow(init: seq<Event>, last: Event, e: Event, k: nat)
    requires Sorted(init + [last]) && Before(e, last) && k < |InsertSorted(init, e)|
    ensures !Before(last, InsertSorted(init, e)[k])
  {
    var r := InsertSorted(init, e);
    InsertKeepsEvents(init, e);
    BeforeIsAsymmetric(e, last);
    assert r[k] in multiset(r);
    if r[k] != e {
      assert r[k] in init;
      var m :| 0 <= m < |init| && init[m] == r[k];
      assert (init + [last])[m] == r[k] && (init + [last])[|init|] == last;
    }
  }

  lemma {:induction false} InsertKeepsSorted(s: seq<Event>, e: Event)
    requires Sorted(s)
    ensures Sorted(InsertSorted(s, e))
  {
    if s != [] {
      var init, last := s[..|s| - 1], s[|s| - 1];
      assert s == init + [last];
      if Before(e, last) {
        InsertKeepsSorted(init, e);
        var r := InsertSorted(init, e);
        forall k | 0 <= k < |r| ensures !Before(last, r[k]) { InsertedIsBelow(init, last, e, k); }
      } else {
        forall k | 0 <= k < |s| ensures !Before(e, s[k]) {
          if k < |s| - 1 { NotBeforeIsTransitive(s[k], last, e); }
        }
      }
    }
  }

  lemma {:induction false} StableSortSorts(s: seq<Event>)
    ensures Sorted(StableSort(s))
    ensures multiset(StableSort(s)) == multiset(s)
  {
    if s != [] {
      var init, last := s[..|s| - 1], s[|s| - 1];
      assert s == init + [last];
      StableSortSorts(init);
      InsertKeepsSorted(StableSort(init), last);
      InsertKeepsEvents(StableSort(init), last);
    }
  }

  lemma SortedIsOrdered(s: seq<Event>)
    requires Sorted(s)
    ensures Ordered(s)
  {
    forall i, j | 0 <= i < j < |s| ensures NotAfter(s[i], s[j]) {
      NotBeforeIsNotAfter(s[i], s[j]);
    }
  }

  // ---- the scan ----

  /** The loop's variables: closed clusters and the open one. */
  datatype Scan = Scan(out: seq<Cluster>, cur: Option<Cluster>)

  function Open(e: Event): Cluster {
    Cluster(e.link, e.visitor, e.at, e.at, e.page, 0, Clamp(e.duration), map[e.page := Clamp(e.duration)])
  }

  function AddTo(pages: map<int, int>, page: int, duration: int): map<int, int> {
    pages[page := (if page in pages then pages[page] else 0) + duration]
  }

  function Extend(c: Cluster, e: Event): Cluster {
    c.(lastActivityAt := e.at,
       maxPage := if e.page > c.maxPage then e.page else c.maxPage,
       pages := AddTo(c.pages, e.page, Clamp(e.duration)),
       total := c.total + Clamp(e.duration))
  }

  function Close(c: Cluster): Cluster { c.(distinctPages := |c.pages|) }

  predicate Continues(c: Cluster, e: Event, idle: int) {
    c.link == e.link && c.visitor == e.visitor && e.at - c.lastActivityAt <= idle
  }

  function Flush(s: Scan): seq<Cluster> {
    match s.cur
    case None => s.out
    case Some(c) => s.out + [Close(c)]
  }

  function Step(s: Scan, e: Event, idle: int): Scan {
    if !Valid(e) then s
    else if s.cur.Some? && Continues(s.cur.value, e, idle) then Scan(s.out, Some(Extend(s.cur.value, e)))
    else Scan(Flush(s), Some(Open(e)))
  }

  function ScanOf(events: seq<Event>, idle: int): Scan {
    if events == [] then Scan([], None)
    else Step(ScanOf(events[..|events| - 1], idle), events[|events| - 1], idle)
  }

  function Clusters(events: seq<Event>, idle: int): seq<Cluster> {
    Flush(ScanOf(StableSort(events), EffectiveIdle(idle)))
  }

  /** session_cluster.go:36-110 */
  method ClusterPageViewsIntoSessions(events: seq<Event>, idle: int) returns (out: seq<Cluster>)
    ensures out == Clusters(events, idle)
  {
    var gap := if idle <= 0 then READING_SESSION_IDLE else idle;
    if |events| == 0 { return []; }
    var sorted := StableSort(events);
    out := [];
    var cur: Option<Cluster> := None;
    var curLink, curVisitor, lastAt := "", "", 0;
    for i := 0 to |sorted|
      invariant ScanOf(sorted[..i], gap) == Scan(out, cur)
      invariant cur.Some? ==> cur.value.link == curLink && cur.value.visitor == curVisitor &&
                              cur.value.lastActivityAt == lastAt
    {
      var ev := sorted[i];
      assert sorted[..i + 1][..i] == sorted[..i];
      if ev.link == "" || ev.visitor == "" || ev.page <= 0 { continue; }
      var dur := if ev.duration < 0 then 0 else ev.duration;
      var sameActor := cur.Some? && curLink == ev.link && curVisitor == ev.visitor;
      if !sameActor || ev.at - lastAt > gap {
        if cur.Some? {
          out := out + [cur.value.(distinctPages := |cur.value.pages|)];
        }
        cur := Some(Cluster(ev.link, ev.visitor, ev.at, ev.at, ev.page, 0, dur, map[ev.page := dur]));
        curLink, curVisitor, lastAt := ev.link, ev.visitor, ev.at;
        continue;
      }
      var c := cur.value.(lastActivityAt := ev.at);
      if ev.page > c.maxPage {
        c := c.(maxPage := ev.page);
      }
      c := c.(pages := AddTo(c.pages, ev.page, dur), total := c.total + dur);
      cur, lastAt := Some(c), ev.at;
    }
    assert sorted[..|sorted|] == sorted;
    if cur.Some? {
      out := out + [cur.value.(distinctPages := |cur.value.pages|)];
    }
  }
}
