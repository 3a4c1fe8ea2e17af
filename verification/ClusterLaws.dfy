/** What the clusters of a set of page views are, independently of the scan. */
module ClusterLaws {
  import opened GoStrings
  import opened Options
  import opened SessionCluster
  import opened Sums

  const HALF_HOUR: int := 30 * 60 * 1_000_000_000

  // ---- the output does not depend on the order of the input ----

  predicate SameMoment(a: Event, b: Event) { SameActor(a, b) && a.at == b.at }

  lemma AddToCommutes(pages: map<int, int>, p: int, d: int, q: int, e: int)
    ensures AddTo(AddTo(pages, p, d), q, e) == AddTo(AddTo(pages, q, e), p, d)
  {}

  lemma ExtendsCommute(c: Cluster, a: Event, b: Event)
    requires a.at == b.at
    ensures Extend(Extend(c, a), b) == Extend(Extend(c, b), a)
  {
    AddToCommutes(c.pages, a.page, Clamp(a.duration), b.page, Clamp(b.duration));
  }

  lemma OpeningsCommute(a: Event, b: Event)
    requires SameMoment(a, b)
    ensures Extend(Open(a), b) == Extend(Open(b), a)
  {
    assert Extend(Open(a), b).pages == Extend(Open(b), a).pages;
  }

  lemma SameMomentStepsCommute(s: Scan, a: Event, b: Event, idle: int)
    requires SameMoment(a, b) && idle > 0
    ensures Step(Step(s, a, idle), b, idle) == Step(Step(s, b, idle), a, idle)
  {
    OpeningsCommute(a, b);
    if s.cur.Some? { ExtendsCommute(s.cur.value, a, b); }
  }

  lemma {:induction false} ScanMovesToEnd(x: seq<Event>, a: Event, y: seq<Event>, idle: int)
    requires idle > 0 && forall e :: e in y ==> SameMoment(a, e)
    ensures ScanOf(x + [a] + y, idle) == ScanOf(x + y + [a], idle)
  {
    if y == [] {
      assert x + [a] + y == x + y + [a];
    } else {
      var init, b := y[..|y| - 1], y[|y| - 1];
      assert y == init + [b] && b in y;
      ScanMovesToEnd(x, a, init, idle);
      assert (x + [a] + y)[..|x + [a] + y| - 1] == x + [a] + init;
      assert (x + y + [a])[..|x + y|] == x + y && (x + y)[..|x + y| - 1] == x + init;
      assert (x + init + [a])[..|x + init|] == x + init;
      SameMomentStepsCommute(ScanOf(x + init, idle), a, b, idle);
    }
  }

  lemma MutuallyNotAfterIsSameMoment(a: Event, b: Event)
    requires NotAfter(a, b) && NotAfter(b, a)
    ensures SameMoment(a, b)
  {
    LessIsTotal(a.link, b.link);
    LessIsTotal(a.visitor, b.visitor);
  }

  /** What follows an event in one ordered arrangement although it is last in another. */
  lemma AfterTheLast(s: seq<Event>, t: seq<Event>, j: nat, k: nat)
    requires Ordered(s) && Ordered(t) && multiset(s) == multiset(t)
    requires s != [] && j < k < |t| && t[j] == s[|s| - 1]
    ensures SameMoment(t[j], t[k])
  {
    assert t[k] in multiset(s);
    var m :| 0 <= m < |s| && s[m] == t[k];
    if m < |s| - 1 { MutuallyNotAfterIsSameMoment(t[j], t[k]); }
  }

  lemma ScanOfAppend(s: seq<Event>, e: Event, idle: int)
    ensures ScanOf(s + [e], idle) == Step(ScanOf(s, idle), e, idle)
  {
    assert (s + [e])[..|s|] == s;
  }

  lemma MoveLast(s: seq<Event>, t: seq<Event>, j: nat, idle: int)
    requires Ordered(s) && Ordered(t) && multiset(s) == multiset(t) && idle > 0
    requires s != [] && j < |t| && t[j] == s[|s| - 1]
    ensures ScanOf(t, idle) == Step(ScanOf(t[..j] + t[j + 1..], idle), t[j], idle)
  {
    var x, a, y := t[..j], t[j], t[j + 1..];
    assert t == x + [a] + y;
    forall e | e in y ensures SameMoment(a, e) {
      var k :| 0 <= k < |y| && y[k] == e;
      AfterTheLast(s, t, j, j + 1 + k);
    }
    ScanMovesToEnd(x, a, y, idle);
    ScanOfAppend(x + y, a, idle);
  }

  lemma SmallerArrangements(init: seq<Event>, a: Event, x: seq<Event>, y: seq<Event>)
    requires multiset(init + [a]) == multiset(x + [a] + y)
    ensures multiset(init) == multiset(x + y)
  {
    assert multiset(init) == multiset(init + [a]) - multiset{a};
    assert multiset(x + y) == multiset(x + [a] + y) - multiset{a};
  }

  lemma ArrangementWithout(init: seq<Event>, a: Event, t: seq<Event>, j: nat)
    requires multiset(init + [a]) == multiset(t) && j < |t| && t[j] == a
    ensures multiset(init) == multiset(t[..j] + t[j + 1..])
  {
    assert t == t[..j] + [a] + t[j + 1..];
    SmallerArrangements(init, a, t[..j], t[j + 1..]);
  }

  lemma OrderedWithout(t: seq<Event>, j: nat)
    requires Ordered(t) && j < |t|
    ensures Ordered(t[..j] + t[j + 1..])
  {
    var r := t[..j] + t[j + 1..];
    forall m, n | 0 <= m < n < |r| ensures NotAfter(r[m], r[n]) {
      assert r[m] == t[if m < j then m else m + 1] && r[n] == t[if n < j then n else n + 1];
    }
  }

  /** Two ordered arrangements of the same views are scanned alike. */
  lemma {:induction false} OrderedScansAgree(s: seq<Event>, t: seq<Event>, idle: int)
    requires Ordered(s) && Ordered(t) && multiset(s) == multiset(t) && idle > 0
    ensures ScanOf(s, idle) == ScanOf(t, idle)
    decreases |s|
  {
    assert |s| == |multiset(s)| == |multiset(t)| == |t|;
    if s != [] {
      var init, a := s[..|s| - 1], s[|s| - 1];
      assert s == init + [a];
      assert a in multiset(t);
      var j :| 0 <= j < |t| && t[j] == a;
      MoveLast(s, t, j, idle);
      OrderedWithout(t, j);
      ArrangementWithout(init, a, t, j);
      OrderedScansAgree(init, t[..j] + t[j + 1..], idle);
    }
  }

  /** Every permutation of the input gives the same clusters. */
  lemma ClustersIgnoreInputOrder(s: seq<Event>, t: seq<Event>, idle: int)
    requires multiset(s) == multiset(t)
    ensures Clusters(s, idle) == Clusters(t, idle)
  {
    StableSortSorts(s);
    StableSortSorts(t);
    SortedIsOrdered(StableSort(s));
    SortedIsOrdered(StableSort(t));
    OrderedScansAgree(StableSort(s), StableSort(t), EffectiveIdle(idle));
  }

  // ---- the clusters as segments of the ordered valid views ----

  function ValidOf(s: seq<Event>): (r: seq<Event>)
    ensures forall e :: e in r <==> e in s && Valid(e)
  {
    if s == [] then []
    else ValidOf(s[..|s| - 1]) + if Valid(s[|s| - 1]) then [s[|s| - 1]] else []
  }

  lemma {:induction false} ScanSkipsInvalid(s: seq<Event>, idle: int)
    ensures ScanOf(s, idle) == ScanOf(ValidOf(s), idle)
  {
    if s != [] {
      var init, e := s[..|s| - 1], s[|s| - 1];
      ScanSkipsInvalid(init, idle);
      if Valid(e) { assert (ValidOf(init) + [e])[..|ValidOf(init)|] == ValidOf(init); }
      else { assert ValidOf(init) + [] == ValidOf(init); }
    }
  }

  lemma {:induction false} ValidOfOrdered(s: seq<Event>)
    requires Ordered(s)
    ensures Ordered(ValidOf(s))
  {
    if s != [] {
      var init, e := s[..|s| - 1], s[|s| - 1];
      ValidOfOrdered(init);
      forall k | 0 <= k < |ValidOf(init)| ensures NotAfter(ValidOf(init)[k], e) {
        assert ValidOf(init)[k] in init;
      }
    }
  }

  predicate Breaks(a: Event, b: Event, idle: int) { !SameActor(a, b) || b.at - a.at > idle }

  /** The positions at which a cluster starts. */
  function Starts(s: seq<Event>, idle: int): (r: seq<nat>)
    ensures s != [] ==> r != [] && r[0] == 0
    ensures forall k :: 0 <= k < |r| ==> r[k] < |s|
    ensures forall i, j :: 0 <= i < j < |r| ==> r[i] < r[j]
  {
    if s == [] then []
    else Starts(s[..|s| - 1], idle) +
         if |s| == 1 || Breaks(s[|s| - 2], s[|s| - 1], idle) then [|s| - 1] else []
  }

  function EndOf(starts: seq<nat>, n: nat, m: nat): nat
    requires m < |starts|
  {
    if m + 1 < |starts| then starts[m + 1] else n
  }

  function MaxPage(g: seq<Event>): int
    requires g != []
  {
    if |g| == 1 then g[0].page
    else
      var m, last := MaxPage(g[..|g| - 1]), g[|g| - 1].page;
      if last > m then last else m
  }

  function TotalDuration(g: seq<Event>): nat {
    if g == [] then 0 else TotalDuration(g[..|g| - 1]) + Clamp(g[|g| - 1].duration)
  }

  function PageDurations(g: seq<Event>): map<int, int> {
    if g == [] then map[]
    else AddTo(PageDurations(g[..|g| - 1]), g[|g| - 1].page, Clamp(g[|g| - 1].duration))
  }

  /** The aggregate of one segment. */
  function Summary(g: seq<Event>): Cluster
    requires g != []
  {
    Cluster(g[0].link, g[0].visitor, g[0].at, g[|g| - 1].at, MaxPage(g), 0, TotalDuration(g), PageDurations(g))
  }

  lemma SummaryOfOne(e: Event)
    ensures Summary([e]) == Open(e)
  {
    assert [e][..0] == [];
    assert PageDurations([e]) == AddTo(PageDurations([]), e.page, Clamp(e.duration));
    assert TotalDuration([e]) == TotalDuration([]) + Clamp(e.duration);
  }

  lemma SummaryExtends(g: seq<Event>, e: Event)
    requires g != []
    ensures Summary(g + [e]) == Extend(Summary(g), e)
  {
    assert (g + [e])[..|g|] == g;
  }

  ghost predicate IsSegments(s: seq<Event>, starts: seq<nat>, r: Scan)
    requires starts != [] && forall k :: 0 <= k < |starts| ==> starts[k] < |s|
    requires forall i, j :: 0 <= i < j < |starts| ==> starts[i] < starts[j]
  {
    && |r.out| == |starts| - 1
    && (forall m :: 0 <= m < |r.out| ==> r.out[m] == Close(Summary(s[starts[m]..starts[m + 1]])))
    && r.cur == Some(Summary(s[starts[|starts| - 1]..]))
  }

  lemma CurrentOfSegments(s: seq<Event>, starts: seq<nat>, r: Scan)
    requires starts != [] && forall k :: 0 <= k < |starts| ==> starts[k] < |s|
    requires forall i, j :: 0 <= i < j < |starts| ==> starts[i] < starts[j]
    requires IsSegments(s, starts, r)
    ensures r.cur == Some(Summary(s[starts[|starts| - 1]..]))
  {}

  /** Where the last segment starts. */
  function LastStart(s: seq<Event>, idle: int): (k: nat)
    requires s != []
    ensures k < |s|
  {
    var starts := Starts(s, idle);
    starts[|starts| - 1]
  }

  lemma StartsWithoutBreak(s: seq<Event>, idle: int)
    requires |s| > 1 && !Breaks(s[|s| - 2], s[|s| - 1], idle)
    ensures Starts(s, idle) == Starts(s[..|s| - 1], idle)
  {
    assert Starts(s, idle) == Starts(s[..|s| - 1], idle) + [] == Starts(s[..|s| - 1], idle);
  }

  lemma StartsWithBreak(s: seq<Event>, idle: int)
    requires s != [] && (|s| == 1 || Breaks(s[|s| - 2], s[|s| - 1], idle))
    ensures Starts(s, idle) == Starts(s[..|s| - 1], idle) + [|s| - 1]
  {}

  function Last(s: seq<Event>): Event
    requires s != []
  {
    s[|s| - 1]
  }

  /** The last segment has one actor. */
  lemma {:induction false} LastSegmentActor(s: seq<Event>, idle: int)
    requires s != []
    ensures SameActor(Last(s), s[LastStart(s, idle)])
  {
    if |s| > 1 && !Breaks(s[|s| - 2], s[|s| - 1], idle) {
      StartsWithoutBreak(s, idle);
      LastSegmentActor(s[..|s| - 1], idle);
    } else {
      StartsWithBreak(s, idle);
    }
  }

  /** The last segment has one actor and ends with the last event. */
  lemma SegmentActor(s: seq<Event>, idle: int)
    requires s != []
    ensures SameActor(Last(s), s[LastStart(s, idle)]) && Last(s[LastStart(s, idle)..]) == Last(s)
  {
    LastSegmentActor(s, idle);
  }

  lemma ContinuesMeansNoBreak(s: seq<Event>, r: Scan, e: Event, idle: int)
    requires s != [] && IsSegments(s, Starts(s, idle), r)
    ensures Continues(r.cur.value, e, idle) <==> !Breaks(s[|s| - 1], e, idle)
  {
    CurrentOfSegments(s, Starts(s, idle), r);
    SegmentActor(s, idle);
  }

  lemma BreakAddsSegment(s: seq<Event>, starts: seq<nat>, r: Scan)
    requires |s| > 1 && starts != [] && forall k :: 0 <= k < |starts| ==> starts[k] < |s| - 1
    requires forall i, j :: 0 <= i < j < |starts| ==> starts[i] < starts[j]
    requires IsSegments(s[..|s| - 1], starts, r)
    ensures IsSegments(s, starts + [|s| - 1], Scan(Flush(r), Some(Open(s[|s| - 1]))))
  {
    var init, next := s[..|s| - 1], starts + [|s| - 1];
    assert s[|s| - 1..] == [s[|s| - 1]];
    SummaryOfOne(s[|s| - 1]);
    forall m | 0 <= m < |starts|
      ensures Flush(r)[m] == Close(Summary(s[next[m]..next[m + 1]]))
    {
      if m < |starts| - 1 {
        assert init[starts[m]..starts[m + 1]] == s[next[m]..next[m + 1]];
      } else {
        assert init[starts[m]..] == s[next[m]..next[m + 1]];
      }
    }
  }

  lemma ExtendLastSegment(s: seq<Event>, starts: seq<nat>, r: Scan)
    requires |s| > 1 && starts != [] && forall k :: 0 <= k < |starts| ==> starts[k] < |s| - 1
    requires forall i, j :: 0 <= i < j < |starts| ==> starts[i] < starts[j]
    requires IsSegments(s[..|s| - 1], starts, r)
    ensures IsSegments(s, starts, Scan(r.out, Some(Extend(r.cur.value, s[|s| - 1]))))
  {
    var init, k := s[..|s| - 1], starts[|starts| - 1];
    assert s[k..] == init[k..] + [s[|s| - 1]];
    SummaryExtends(init[k..], s[|s| - 1]);
    forall m | 0 <= m < |starts| - 1
      ensures init[starts[m]..starts[m + 1]] == s[starts[m]..starts[m + 1]]
    {
    }
  }

  lemma ScanOneMore(s: seq<Event>, idle: int)
    requires |s| > 1 && Valid(s[|s| - 1])
    requires IsSegments(s[..|s| - 1], Starts(s[..|s| - 1], idle), ScanOf(s[..|s| - 1], idle))
    ensures IsSegments(s, Starts(s, idle), ScanOf(s, idle))
  {
    var init, e := s[..|s| - 1], s[|s| - 1];
    ContinuesMeansNoBreak(init, ScanOf(init, idle), e, idle);
    if Breaks(s[|s| - 2], e, idle) {
      StartsWithBreak(s, idle);
      BreakAddsSegment(s, Starts(init, idle), ScanOf(init, idle));
    } else {
      StartsWithoutBreak(s, idle);
      ExtendLastSegment(s, Starts(init, idle), ScanOf(init, idle));
    }
  }

  /** The scan has closed every segment but the last. */
  lemma {:induction false} ScanIsSegments(s: seq<Event>, idle: int)
    requires s != [] && forall e :: e in s ==> Valid(e)
    ensures IsSegments(s, Starts(s, idle), ScanOf(s, idle))
  {
    var n := |s|;
    var init, e := s[..n - 1], s[n - 1];
    if n == 1 {
      assert e in s;
      assert init == [] && s[0..] == [e];
      SummaryOfOne(e);
    } else {
      ScanIsSegments(init, idle);
      ScanOneMore(s, idle);
    }
  }

  /** A position starts a cluster exactly when it is first or breaks with its predecessor. */
  lemma {:induction false} StartsAreBreaks(s: seq<Event>, idle: int, i: nat)
    requires i < |s|
    ensures i in Starts(s, idle) <==> i == 0 || Breaks(s[i - 1], s[i], idle)
  {
    var init := s[..|s| - 1];
    if i < |s| - 1 {
      StartsAreBreaks(init, idle, i);
    }
  }

  /** The views that are clustered, in scan order. */
  function Scanned(events: seq<Event>): seq<Event> { ValidOf(StableSort(events)) }

  lemma ScannedFacts(events: seq<Event>)
    ensures Ordered(Scanned(events))
    ensures forall e :: e in Scanned(events) <==> e in events && Valid(e)
  {
    StableSortSorts(events);
    SortedIsOrdered(StableSort(events));
    ValidOfOrdered(StableSort(events));
    forall e ensures e in StableSort(events) <==> e in events {
      assert e in multiset(StableSort(events)) <==> e in multiset(events);
    }
  }

  predicate IsSegment(s: seq<Event>, idle: int, m: int) { 0 <= m < |Starts(s, idle)| }

  function StartOf(s: seq<Event>, idle: int, m: nat): (a: nat)
    requires IsSegment(s, idle, m)
    ensures a < |s|
  {
    Starts(s, idle)[m]
  }

  function StopOf(s: seq<Event>, idle: int, m: nat): (b: nat)
    requires IsSegment(s, idle, m)
    ensures StartOf(s, idle, m) < b <= |s|
    ensures b < |s| ==> IsSegment(s, idle, m + 1) && b == StartOf(s, idle, m + 1)
  {
    EndOf(Starts(s, idle), |s|, m)
  }

  function Segment(s: seq<Event>, idle: int, m: nat): (r: seq<Event>)
    requires IsSegment(s, idle, m)
    ensures r != []
  {
    s[StartOf(s, idle, m)..StopOf(s, idle, m)]
  }

  predicate InSegment(s: seq<Event>, idle: int, m: nat, i: nat) {
    IsSegment(s, idle, m) && StartOf(s, idle, m) <= i < StopOf(s, idle, m)
  }

  lemma FlushedSegment(s: seq<Event>, idle: int, r: Scan, m: nat)
    requires s != [] && IsSegments(s, Starts(s, idle), r) && m < |Starts(s, idle)|
    ensures |Flush(r)| == |Starts(s, idle)| && Flush(r)[m] == Close(Summary(Segment(s, idle, m)))
  {
    var starts := Starts(s, idle);
    if m == |starts| - 1 {
      assert s[starts[m]..] == s[starts[m]..|s|];
    }
  }

  lemma FlushedSegments(s: seq<Event>, idle: int)
    requires forall e :: e in s ==> Valid(e)
    ensures var out := Flush(ScanOf(s, idle));
            |out| == |Starts(s, idle)| &&
            forall m :: 0 <= m < |out| ==> out[m] == Close(Summary(Segment(s, idle, m)))
  {
    if s != [] {
      ScanIsSegments(s, idle);
      var r := ScanOf(s, idle);
      FlushedSegment(s, idle, r, 0);
      forall m | 0 <= m < |Starts(s, idle)|
        ensures Flush(r)[m] == Close(Summary(Segment(s, idle, m)))
      {
        FlushedSegment(s, idle, r, m);
      }
    }
  }

  /** The output clusters are the summaries of the segments. */
  lemma OutputIsSegments(events: seq<Event>, idle: int)
    ensures var s, gap := Scanned(events), EffectiveIdle(idle);
            |Clusters(events, idle)| == |Starts(s, gap)| &&
            forall m :: 0 <= m < |Starts(s, gap)| ==>
              Clusters(events, idle)[m] == Close(Summary(Segment(s, gap, m)))
  {
    ScanSkipsInvalid(StableSort(events), EffectiveIdle(idle));
    FlushedSegments(Scanned(events), EffectiveIdle(idle));
  }

  // ---- which cluster a view is in ----

  predicate Covers(c: Cluster, e: Event) {
    c.link == e.link && c.visitor == e.visitor && c.startedAt <= e.at <= c.lastActivityAt
  }

  lemma NoStartInside(s: seq<Event>, idle: int, m: nat, i: nat)
    requires InSegment(s, idle, m, i) && i > StartOf(s, idle, m)
    ensures !Breaks(s[i - 1], s[i], idle)
  {
    StartsAreBreaks(s, idle, i);
    var starts := Starts(s, idle);
    forall k | 0 <= k < |starts| ensures starts[k] != i {
      if k < m {
        assert starts[k] < starts[m];
      } else if k > m + 1 {
        assert starts[m + 1] < starts[k];
      }
    }
  }

  lemma {:induction false} SegmentHasOneActor(s: seq<Event>, idle: int, m: nat, i: nat)
    requires InSegment(s, idle, m, i)
    ensures SameActor(s[StartOf(s, idle, m)], s[i])
    decreases i
  {
    if i > StartOf(s, idle, m) {
      NoStartInside(s, idle, m, i);
      SegmentHasOneActor(s, idle, m, i - 1);
    }
  }

  lemma StartBreaks(s: seq<Event>, idle: int, m: nat)
    requires IsSegment(s, idle, m) && StartOf(s, idle, m) > 0
    ensures Breaks(s[StartOf(s, idle, m) - 1], s[StartOf(s, idle, m)], idle)
  {
    StartsAreBreaks(s, idle, StartOf(s, idle, m));
  }

  /** Across a start, one actor's views are more than the idle gap apart. */
  lemma StartSeparates(s: seq<Event>, idle: int, k: nat, i: nat, j: nat)
    requires Ordered(s) && idle > 0 && i < k <= j < |s|
    requires Breaks(s[k - 1], s[k], idle) && SameActor(s[i], s[j])
    ensures s[j].at - s[i].at > idle
  {
    if i < k - 1 { ActorsAreContiguous(s[i], s[k - 1], s[j]); }
    if k < j { ActorsAreContiguous(s[i], s[k], s[j]); }
    assert SameActor(s[k - 1], s[k]);
  }

  /** What a cluster says about its segment's ends. */
  lemma SummaryEnds(s: seq<Event>, idle: int, m: nat)
    requires IsSegment(s, idle, m)
    ensures var c := Close(Summary(Segment(s, idle, m)));
            var first, last := s[StartOf(s, idle, m)], s[StopOf(s, idle, m) - 1];
            && c.link == first.link == last.link && c.visitor == first.visitor == last.visitor
            && c.startedAt == first.at && c.lastActivityAt == last.at
  {
    SegmentHasOneActor(s, idle, m, StopOf(s, idle, m) - 1);
  }

  /** A view of the same actor in another segment lies before this one or behind it. */
  lemma OutsideIsApart(s: seq<Event>, idle: int, m: nat, i: nat)
    requires Ordered(s) && idle > 0 && IsSegment(s, idle, m) && i < |s| && !InSegment(s, idle, m, i)
    requires SameActor(s[StartOf(s, idle, m)], s[i])
    ensures s[i].at < s[StartOf(s, idle, m)].at || s[i].at > s[StopOf(s, idle, m) - 1].at
  {
    var a, b := StartOf(s, idle, m), StopOf(s, idle, m);
    if i < a {
      StartBreaks(s, idle, m);
      StartSeparates(s, idle, a, i, a);
    } else {
      SegmentHasOneActor(s, idle, m, b - 1);
      StartBreaks(s, idle, m + 1);
      StartSeparates(s, idle, b, b - 1, i);
    }
  }

  /** A cluster covers exactly the views of its segment. */
  lemma CoversItsSegment(s: seq<Event>, idle: int, m: nat, i: nat)
    requires Ordered(s) && idle > 0 && IsSegment(s, idle, m) && i < |s|
    ensures Covers(Close(Summary(Segment(s, idle, m))), s[i]) <==> InSegment(s, idle, m, i)
  {
    var a, b := StartOf(s, idle, m), StopOf(s, idle, m);
    SummaryEnds(s, idle, m);
    SegmentHasOneActor(s, idle, m, b - 1);
    if a <= i < b {
      SegmentHasOneActor(s, idle, m, i);
      assert a < i ==> NotAfter(s[a], s[i]);
      assert i < b - 1 ==> NotAfter(s[i], s[b - 1]);
    } else if SameActor(s[a], s[i]) {
      OutsideIsApart(s, idle, m, i);
    }
  }

  lemma {:induction false} FindSegment(s: seq<Event>, idle: int, i: nat, last: nat) returns (m: nat)
    requires IsSegment(s, idle, last) && i < StopOf(s, idle, last)
    ensures InSegment(s, idle, m, i)
  {
    if StartOf(s, idle, last) <= i {
      m := last;
    } else {
      m := FindSegment(s, idle, i, last - 1);
    }
  }

  /** The cluster and the position of a view. */
  lemma Locate(events: seq<Event>, idle: int, e: Event) returns (i: nat, m: nat)
    requires e in events && Valid(e)
    ensures var s, gap := Scanned(events), EffectiveIdle(idle);
            i < |s| && s[i] == e && InSegment(s, gap, m, i)
  {
    var s, gap := Scanned(events), EffectiveIdle(idle);
    ScannedFacts(events);
    i :| 0 <= i < |s| && s[i] == e;
    m := FindSegment(s, gap, i, |Starts(s, gap)| - 1);
  }

  /** Output cluster m covers the view at position i exactly when it lies in segment m. */
  lemma OutputCovers(events: seq<Event>, idle: int, m: nat, i: nat)
    requires m < |Clusters(events, idle)| && i < |Scanned(events)|
    ensures Covers(Clusters(events, idle)[m], Scanned(events)[i]) <==>
            InSegment(Scanned(events), EffectiveIdle(idle), m, i)
  {
    ScannedFacts(events);
    OutputIsSegments(events, idle);
    CoversItsSegment(Scanned(events), EffectiveIdle(idle), m, i);
  }

  lemma SegmentsInOrder(s: seq<Event>, idle: int, m: nat, n: nat)
    requires m < n && IsSegment(s, idle, n)
    ensures StopOf(s, idle, m) <= StartOf(s, idle, n)
  {
    var starts := Starts(s, idle);
    if m + 1 < n { assert starts[m + 1] < starts[n]; }
  }

  lemma SegmentsAreDisjoint(s: seq<Event>, idle: int, m: nat, n: nat, i: nat)
    requires InSegment(s, idle, m, i) && InSegment(s, idle, n, i)
    ensures m == n
  {
    if m < n { SegmentsInOrder(s, idle, m, n); }
    if n < m { SegmentsInOrder(s, idle, n, m); }
  }

  /** Every valid view is in exactly one cluster. */
  lemma ClustersPartitionViews(events: seq<Event>, idle: int, e: Event)
    requires e in events && Valid(e)
    ensures var out := Clusters(events, idle);
            exists m :: 0 <= m < |out| && Covers(out[m], e) &&
                        forall n :: 0 <= n < |out| && Covers(out[n], e) ==> n == m
  {
    var i, m := Locate(events, idle, e);
    OutputIsSegments(events, idle);
    OutputCovers(events, idle, m, i);
    forall n | 0 <= n < |Clusters(events, idle)| && Covers(Clusters(events, idle)[n], e) ensures n == m {
      OutputCovers(events, idle, n, i);
      SegmentsAreDisjoint(Scanned(events), EffectiveIdle(idle), m, n, i);
    }
  }

  // ---- chains ----

  /** Valid views of one actor, each at most the idle gap from the next, in either direction. */
  ghost predicate IsChain(events: seq<Event>, chain: seq<Event>, idle: int) {
    && chain != []
    && (forall k :: 0 <= k < |chain| ==> chain[k] in events && Valid(chain[k]) && SameActor(chain[0], chain[k]))
    && (forall k :: 0 < k < |chain| ==> -idle <= chain[k].at - chain[k - 1].at <= idle)
  }

  ghost predicate Linked(events: seq<Event>, e: Event, f: Event, idle: int) {
    exists chain :: IsChain(events, chain, idle) && chain[0] == e && chain[|chain| - 1] == f
  }

  ghost predicate SameCluster(events: seq<Event>, idle: int, e: Event, f: Event) {
    var out := Clusters(events, idle);
    exists m :: 0 <= m < |out| && Covers(out[m], e) && Covers(out[m], f)
  }

  lemma OneActorWithin(s: seq<Event>, idle: int, m: nat, i: nat, j: nat)
    requires InSegment(s, idle, m, i) && InSegment(s, idle, m, j)
    ensures SameActor(s[i], s[j])
  {
    SegmentHasOneActor(s, idle, m, i);
    SegmentHasOneActor(s, idle, m, j);
  }

  lemma MembersOfSlice(events: seq<Event>, s: seq<Event>, idle: int, m: nat, i: nat, j: nat)
    requires forall e :: e in s ==> e in events && Valid(e)
    requires InSegment(s, idle, m, i) && InSegment(s, idle, m, j) && i <= j
    ensures var chain := s[i..j + 1];
            forall k :: 0 <= k < |chain| ==> chain[k] in events && Valid(chain[k]) && SameActor(chain[0], chain[k])
  {
    var chain := s[i..j + 1];
    forall k | 0 <= k < |chain|
      ensures chain[k] in events && Valid(chain[k]) && SameActor(chain[0], chain[k])
    {
      assert chain[k] == s[i + k] && s[i + k] in s;
      OneActorWithin(s, idle, m, i, i + k);
    }
  }

  lemma SmallGapWithin(s: seq<Event>, idle: int, m: nat, i: nat)
    requires Ordered(s) && idle > 0 && InSegment(s, idle, m, i) && i > StartOf(s, idle, m)
    ensures -idle <= s[i].at - s[i - 1].at <= idle
  {
    NoStartInside(s, idle, m, i);
    assert NotAfter(s[i - 1], s[i]);
  }

  lemma GapsOfSlice(s: seq<Event>, idle: int, m: nat, i: nat, j: nat)
    requires Ordered(s) && idle > 0 && InSegment(s, idle, m, i) && InSegment(s, idle, m, j) && i <= j
    ensures var chain := s[i..j + 1];
            forall k :: 0 < k < |chain| ==> -idle <= chain[k].at - chain[k - 1].at <= idle
  {
    var chain := s[i..j + 1];
    forall k | 0 < k < |chain| ensures -idle <= chain[k].at - chain[k - 1].at <= idle {
      SmallGapWithin(s, idle, m, i + k);
    }
  }

  lemma SegmentIsChain(events: seq<Event>, idle: int, m: nat, i: nat, j: nat)
    requires var s, gap := Scanned(events), EffectiveIdle(idle);
             InSegment(s, gap, m, i) && InSegment(s, gap, m, j) && i <= j
    ensures IsChain(events, Scanned(events)[i..j + 1], EffectiveIdle(idle))
  {
    var s, gap := Scanned(events), EffectiveIdle(idle);
    ScannedFacts(events);
    forall e | e in s ensures e in events && Valid(e) {}
    MembersOfSlice(events, s, gap, m, i, j);
    GapsOfSlice(s, gap, m, i, j);
  }

  function Reverse(s: seq<Event>): seq<Event> { seq(|s|, i requires 0 <= i < |s| => s[|s| - 1 - i]) }

  lemma ReversedChain(events: seq<Event>, chain: seq<Event>, idle: int)
    requires IsChain(events, chain, idle)
    ensures IsChain(events, Reverse(chain), idle)
  {
    var r, n := Reverse(chain), |chain|;
    assert SameActor(chain[0], chain[n - 1]);
    forall k | 0 < k < n ensures -idle <= r[k].at - r[k - 1].at <= idle {
      assert r[k] == chain[n - 1 - k] && r[k - 1] == chain[n - k];
    }
  }

  /** Two views at most the idle gap apart are in one segment. */
  lemma CloseViewsShareSegment(s: seq<Event>, idle: int, m: nat, i: nat, j: nat)
    requires Ordered(s) && idle > 0 && i <= j < |s|
    requires SameActor(s[i], s[j]) && s[j].at - s[i].at <= idle
    requires InSegment(s, idle, m, i) || InSegment(s, idle, m, j)
    ensures InSegment(s, idle, m, i) && InSegment(s, idle, m, j)
  {
    if i < StartOf(s, idle, m) {
      StartBreaks(s, idle, m);
      StartSeparates(s, idle, StartOf(s, idle, m), i, j);
    }
    if StopOf(s, idle, m) <= j {
      StartBreaks(s, idle, m + 1);
      StartSeparates(s, idle, StopOf(s, idle, m), i, j);
    }
  }

  /** A cluster that covers a view covers every view within the idle gap of it. */
  lemma CoverSpreads(events: seq<Event>, idle: int, m: nat, e: Event, f: Event)
    requires e in events && f in events && Valid(e) && Valid(f) && SameActor(e, f)
    requires -EffectiveIdle(idle) <= f.at - e.at <= EffectiveIdle(idle)
    requires m < |Clusters(events, idle)| && Covers(Clusters(events, idle)[m], e)
    ensures Covers(Clusters(events, idle)[m], f)
  {
    var i, _ := Locate(events, idle, e);
    var j, _ := Locate(events, idle, f);
    OutputCovers(events, idle, m, i);
    OutputCovers(events, idle, m, j);
    ScannedFacts(events);
    if i <= j {
      CloseViewsShareSegment(Scanned(events), EffectiveIdle(idle), m, i, j);
    } else {
      CloseViewsShareSegment(Scanned(events), EffectiveIdle(idle), m, j, i);
    }
  }

  lemma ChainStep(events: seq<Event>, chain: seq<Event>, idle: int, k: nat)
    requires IsChain(events, chain, idle) && 0 < k < |chain|
    ensures chain[k - 1] in events && chain[k] in events && Valid(chain[k - 1]) && Valid(chain[k])
    ensures SameActor(chain[k - 1], chain[k]) && -idle <= chain[k].at - chain[k - 1].at <= idle
  {}

  lemma CoverOneStep(events: seq<Event>, idle: int, m: nat, chain: seq<Event>, k: nat)
    requires IsChain(events, chain, EffectiveIdle(idle)) && 0 < k < |chain|
    requires m < |Clusters(events, idle)| && Covers(Clusters(events, idle)[m], chain[k - 1])
    ensures Covers(Clusters(events, idle)[m], chain[k])
  {
    ChainStep(events, chain, EffectiveIdle(idle), k);
    CoverSpreads(events, idle, m, chain[k - 1], chain[k]);
  }

  lemma {:induction false} CoverFollowsChain(events: seq<Event>, idle: int, m: nat, chain: seq<Event>, k: nat)
    requires IsChain(events, chain, EffectiveIdle(idle)) && k < |chain|
    requires m < |Clusters(events, idle)| && Covers(Clusters(events, idle)[m], chain[0])
    ensures Covers(Clusters(events, idle)[m], chain[k])
  {
    if k > 0 {
      CoverFollowsChain(events, idle, m, chain, k - 1);
      CoverOneStep(events, idle, m, chain, k);
    }
  }

  lemma LinkedIsSymmetric(events: seq<Event>, e: Event, f: Event, idle: int)
    requires Linked(events, e, f, idle)
    ensures Linked(events, f, e, idle)
  {
    var chain :| IsChain(events, chain, idle) && chain[0] == e && chain[|chain| - 1] == f;
    ReversedChain(events, chain, idle);
    var back := Reverse(chain);
    assert back[0] == f && back[|back| - 1] == e;
  }

  lemma SegmentLinksUp(events: seq<Event>, idle: int, m: nat, i: nat, j: nat)
    requires var s, gap := Scanned(events), EffectiveIdle(idle);
             InSegment(s, gap, m, i) && InSegment(s, gap, m, j) && i <= j
    ensures Linked(events, Scanned(events)[i], Scanned(events)[j], EffectiveIdle(idle))
  {
    var chain := Scanned(events)[i..j + 1];
    SegmentIsChain(events, idle, m, i, j);
    assert chain[0] == Scanned(events)[i] && chain[|chain| - 1] == Scanned(events)[j];
  }

  lemma SegmentLinks(events: seq<Event>, idle: int, m: nat, i: nat, j: nat)
    requires var s, gap := Scanned(events), EffectiveIdle(idle);
             InSegment(s, gap, m, i) && InSegment(s, gap, m, j)
    ensures Linked(events, Scanned(events)[i], Scanned(events)[j], EffectiveIdle(idle))
  {
    if i <= j {
      SegmentLinksUp(events, idle, m, i, j);
    } else {
      SegmentLinksUp(events, idle, m, j, i);
      LinkedIsSymmetric(events, Scanned(events)[j], Scanned(events)[i], EffectiveIdle(idle));
    }
  }

  lemma SharedClusterIsLinked(events: seq<Event>, idle: int, e: Event, f: Event)
    requires e in events && f in events && Valid(e) && Valid(f)
    requires SameCluster(events, idle, e, f)
    ensures Linked(events, e, f, EffectiveIdle(idle))
  {
    var i, _ := Locate(events, idle, e);
    var j, _ := Locate(events, idle, f);
    var out := Clusters(events, idle);
    var m :| 0 <= m < |out| && Covers(out[m], e) && Covers(out[m], f);
    OutputCovers(events, idle, m, i);
    OutputCovers(events, idle, m, j);
    SegmentLinks(events, idle, m, i, j);
  }

  /** Two valid views are in one cluster exactly when a chain of gaps joins them. */
  lemma SameClusterIffLinked(events: seq<Event>, idle: int, e: Event, f: Event)
    requires e in events && f in events && Valid(e) && Valid(f)
    ensures SameCluster(events, idle, e, f) <==> Linked(events, e, f, if idle > 0 then idle else HALF_HOUR)
  {
    if SameCluster(events, idle, e, f) { SharedClusterIsLinked(events, idle, e, f); }
    if Linked(events, e, f, EffectiveIdle(idle)) {
      var chain :| IsChain(events, chain, EffectiveIdle(idle)) && chain[0] == e && chain[|chain| - 1] == f;
      ClustersPartitionViews(events, idle, e);
      var m :| 0 <= m < |Clusters(events, idle)| && Covers(Clusters(events, idle)[m], e);
      CoverFollowsChain(events, idle, m, chain, |chain| - 1);
    }
  }

  // ---- what a cluster adds up ----

  lemma {:induction false} SumIgnoresOrder(s: seq<Event>, t: seq<Event>, w: Event -> int)
    requires multiset(s) == multiset(t)
    ensures Sum(s, w) == Sum(t, w)
    decreases |s|
  {
    assert |s| == |multiset(s)| == |multiset(t)| == |t|;
    if s != [] {
      var init, a := s[..|s| - 1], s[|s| - 1];
      assert s == init + [a];
      assert a in multiset(t);
      var j :| 0 <= j < |t| && t[j] == a;
      assert t == t[..j] + [a] + t[j + 1..];
      SmallerArrangements(init, a, t[..j], t[j + 1..]);
      SumIgnoresOrder(init, t[..j] + t[j + 1..], w);
      SumOfConcat(t[..j], t[j + 1..], w);
      SumOfConcat(t[..j] + [a], t[j + 1..], w);
      SumOfConcat(t[..j], [a], w);
      assert [a][..0] == [];
    }
  }

  lemma {:induction false} SumSkipsInvalid(s: seq<Event>, w: Event -> int)
    requires forall e :: !Valid(e) ==> w(e) == 0
    ensures Sum(s, w) == Sum(ValidOf(s), w)
  {
    if s != [] {
      var init, e := s[..|s| - 1], s[|s| - 1];
      SumSkipsInvalid(init, w);
      SumOfConcat(ValidOf(init), if Valid(e) then [e] else [], w);
      assert [e][..0] == [];
    }
  }

  lemma SumOverScanned(events: seq<Event>, w: Event -> int)
    requires forall e :: !Valid(e) ==> w(e) == 0
    ensures Sum(events, w) == Sum(Scanned(events), w)
  {
    StableSortSorts(events);
    SumIgnoresOrder(events, StableSort(events), w);
    SumSkipsInvalid(StableSort(events), w);
  }

  /** A measure of the input that only looks at one cluster's views is taken on its segment. */
  lemma SumOverSegment(events: seq<Event>, idle: int, m: nat, w: Event -> int)
    requires m < |Clusters(events, idle)|
    requires forall e :: !(Valid(e) && Covers(Clusters(events, idle)[m], e)) ==> w(e) == 0
    ensures IsSegment(Scanned(events), EffectiveIdle(idle), m)
    ensures Sum(events, w) == Sum(Segment(Scanned(events), EffectiveIdle(idle), m), w)
  {
    var s, gap := Scanned(events), EffectiveIdle(idle);
    SumOverScanned(events, w);
    OutputIsSegments(events, idle);
    forall i | 0 <= i < |s| && !InSegment(s, gap, m, i) ensures w(s[i]) == 0 {
      OutputCovers(events, idle, m, i);
    }
    SumOfSlice(s, StartOf(s, gap, m), StopOf(s, gap, m), w);
  }

  /** The time a view tells of; a negative duration tells of none. */
  function ReadingTime(e: Event): nat { if e.duration > 0 then e.duration else 0 }

  /** The duration of the valid views a cluster covers, on all pages or on one. */
  function CoveredDuration(c: Cluster, e: Event): nat {
    if Valid(e) && Covers(c, e) then ReadingTime(e) else 0
  }

  function CoveredOnPage(c: Cluster, page: int, e: Event): nat {
    if e.page == page then CoveredDuration(c, e) else 0
  }

  lemma {:induction false} TotalIsSum(g: seq<Event>, c: Cluster)
    requires forall i :: 0 <= i < |g| ==> Valid(g[i]) && Covers(c, g[i])
    ensures TotalDuration(g) == Sum(g, e => CoveredDuration(c, e))
  {
    if g != [] { TotalIsSum(g[..|g| - 1], c); }
  }

  lemma {:induction false} PagesAreSums(g: seq<Event>, c: Cluster, page: int)
    requires forall i :: 0 <= i < |g| ==> Valid(g[i]) && Covers(c, g[i])
    ensures var pages := PageDurations(g);
            && (page in pages <==> exists i :: 0 <= i < |g| && g[i].page == page)
            && (if page in pages then pages[page] else 0) == Sum(g, e => CoveredOnPage(c, page, e))
  {
    if g != [] {
      var init := g[..|g| - 1];
      PagesAreSums(init, c, page);
      assert g == init + [g[|g| - 1]];
    }
  }

  lemma {:induction false} MaxPageIsMax(g: seq<Event>)
    requires g != []
    ensures exists i :: 0 <= i < |g| && g[i].page == MaxPage(g)
    ensures forall i :: 0 <= i < |g| ==> g[i].page <= MaxPage(g)
  {
    if |g| > 1 {
      var init := g[..|g| - 1];
      MaxPageIsMax(init);
      var i :| 0 <= i < |init| && init[i].page == MaxPage(init);
      assert g[i].page == init[i].page;
      assert g[|g| - 1].page <= MaxPage(g);
      forall k | 0 <= k < |g| ensures g[k].page <= MaxPage(g) {
        if k < |init| { assert init[k] == g[k]; }
      }
    } else {
      assert g[0].page == MaxPage(g);
    }
  }

  lemma SliceMembers(s: seq<Event>, a: nat, b: nat, e: Event)
    requires a <= b <= |s|
    ensures e in s[a..b] <==> exists i :: a <= i < b && s[i] == e
  {
    if e in s[a..b] {
      var k :| 0 <= k < |s[a..b]| && s[a..b][k] == e;
      assert s[a + k] == e;
    }
    if i :| a <= i < b && s[i] == e {
      assert s[a..b][i - a] == e;
    }
  }

  /** The views of a cluster's segment are input views that the cluster covers, and there is
      no other. */
  lemma SegmentIsCovered(events: seq<Event>, idle: int, m: nat, e: Event)
    requires m < |Clusters(events, idle)|
    ensures IsSegment(Scanned(events), EffectiveIdle(idle), m)
    ensures e in Segment(Scanned(events), EffectiveIdle(idle), m) <==>
            e in events && Valid(e) && Covers(Clusters(events, idle)[m], e)
  {
    var s, gap := Scanned(events), EffectiveIdle(idle);
    OutputIsSegments(events, idle);
    ScannedFacts(events);
    SliceMembers(s, StartOf(s, gap, m), StopOf(s, gap, m), e);
    var c := Clusters(events, idle)[m];
    if e in Segment(s, gap, m) {
      var i :| StartOf(s, gap, m) <= i < StopOf(s, gap, m) && s[i] == e;
      OutputCovers(events, idle, m, i);
    } else if e in s && Covers(c, e) {
      var i :| 0 <= i < |s| && s[i] == e;
      OutputCovers(events, idle, m, i);
    }
  }

  /** A cluster's totals are the sums over exactly the valid views it covers. */
  lemma ClusterTotals(events: seq<Event>, idle: int, m: nat, page: int)
    requires m < |Clusters(events, idle)|
    ensures var c := Clusters(events, idle)[m];
            && c.total == Sum(events, e => CoveredDuration(c, e))
            && (if page in c.pages then c.pages[page] else 0) == Sum(events, e => CoveredOnPage(c, page, e))
            && (page in c.pages <==> exists e :: e in events && Valid(e) && Covers(c, e) && e.page == page)
            && c.distinctPages == |c.pages.Keys|
  {
    var c := Clusters(events, idle)[m];
    OutputIsSegments(events, idle);
    SumOverSegment(events, idle, m, e => CoveredDuration(c, e));
    SumOverSegment(events, idle, m, e => CoveredOnPage(c, page, e));
    var g := Segment(Scanned(events), EffectiveIdle(idle), m);
    forall e ensures e in g <==> e in events && Valid(e) && Covers(c, e) {
      SegmentIsCovered(events, idle, m, e);
    }
    forall i | 0 <= i < |g| ensures Valid(g[i]) && Covers(c, g[i]) { assert g[i] in g; }
    TotalIsSum(g, c);
    PagesAreSums(g, c, page);
    if page in c.pages {
      var i :| 0 <= i < |g| && g[i].page == page;
      assert g[i] in g;
    }
  }

  /** A cluster's bounds and deepest page are those of the valid views it covers, and each
      is attained. */
  lemma ClusterExtremes(events: seq<Event>, idle: int, m: nat)
    requires m < |Clusters(events, idle)|
    ensures var c := Clusters(events, idle)[m];
            && (forall e :: e in events && Valid(e) && Covers(c, e) ==> e.page <= c.maxPage)
            && (exists e :: e in events && Valid(e) && Covers(c, e) && e.page == c.maxPage)
            && (exists e :: e in events && Valid(e) && Covers(c, e) && e.at == c.startedAt)
            && (exists e :: e in events && Valid(e) && Covers(c, e) && e.at == c.lastActivityAt)
  {
    var c := Clusters(events, idle)[m];
    OutputIsSegments(events, idle);
    forall e ensures e in Segment(Scanned(events), EffectiveIdle(idle), m) <==>
                     e in events && Valid(e) && Covers(c, e)
    {
      SegmentIsCovered(events, idle, m, e);
    }
    var g := Segment(Scanned(events), EffectiveIdle(idle), m);
    MaxPageIsMax(g);
    var i :| 0 <= i < |g| && g[i].page == MaxPage(g);
    assert g[i] in g && g[0] in g && g[|g| - 1] in g;
  }

  // ---- conservation ----

  function SumOfTotals(out: seq<Cluster>): int {
    if out == [] then 0 else SumOfTotals(out[..|out| - 1]) + out[|out| - 1].total
  }

  /** A view counts when it says which link, visitor and page it is about. */
  function ValidDuration(e: Event): int {
    if e.link != "" && e.visitor != "" && e.page > 0 then ReadingTime(e) else 0
  }

  lemma StepAddsDuration(s: Scan, e: Event, idle: int)
    ensures SumOfTotals(Flush(Step(s, e, idle))) == SumOfTotals(Flush(s)) + ValidDuration(e)
  {
    if Valid(e) {
      var t := Step(s, e, idle);
      assert Flush(t)[..|t.out|] == t.out;
      if s.cur.Some? { assert Flush(s)[..|s.out|] == s.out; }
    }
  }

  lemma {:induction false} ScanConservesDuration(s: seq<Event>, idle: int)
    ensures SumOfTotals(Flush(ScanOf(s, idle))) == Sum(s, ValidDuration)
  {
    if s != [] {
      ScanConservesDuration(s[..|s| - 1], idle);
      StepAddsDuration(ScanOf(s[..|s| - 1], idle), s[|s| - 1], idle);
    }
  }

  /** No reading time is lost or counted twice. */
  lemma ClustersConserveDuration(events: seq<Event>, idle: int)
    ensures SumOfTotals(Clusters(events, idle)) == Sum(events, ValidDuration)
  {
    StableSortSorts(events);
    ScanConservesDuration(StableSort(events), EffectiveIdle(idle));
    SumIgnoresOrder(events, StableSort(events), ValidDuration);
  }
}
