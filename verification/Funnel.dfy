/** The reach funnel of a document: analytics/funnel.go.  Sums are unbounded integers but for the one that
    the median takes in 32 bits; rates are reals. */
module Funnel {
  import opened Sums

  const TWO_TO_31: int := 0x8000_0000
  const TWO_TO_32: int := 0x1_0000_0000

  predicate IsInt32(x: int) { -TWO_TO_31 <= x < TWO_TO_31 }

  datatype Reach = Reach(maxPage: int, distinctPages: int, duration: int)

  datatype FunnelStep = FunnelStep(pageNumber: int, reached: int, dropOff: real)

  datatype ReadingFunnel = ReadingFunnel(
    pageCount: int, sessionCount: nat, completed: nat, completionRate: real,
    medianMaxPage: real, averagePages: real, averageDuration: real,
    biggestDropOffPage: int, steps: seq<FunnelStep>)

  /** A funnel without steps. */
  function NoFunnel(pageCount: int, sessionCount: nat): ReadingFunnel {
    ReadingFunnel(pageCount, sessionCount, 0, 0.0, 0.0, 0.0, 0.0, 0, [])
  }

  /** How many sessions reached a page. */
  function AtLeast(sessions: seq<Reach>, page: int): nat {
    if sessions == [] then 0
    else AtLeast(sessions[..|sessions| - 1], page) + if sessions[|sessions| - 1].maxPage >= page then 1 else 0
  }

  /** The deepest page seen, not below the given depth. */
  function Deepest(sessions: seq<Reach>, depth: int): int {
    if sessions == [] then depth
    else
      var d, m := Deepest(sessions[..|sessions| - 1], depth), sessions[|sessions| - 1].maxPage;
      if m > d then m else d
  }

  function Depth(pageCount: int, sessions: seq<Reach>): int {
    if pageCount > 0 then pageCount else Deepest(sessions, pageCount)
  }

  function Drop(sessions: seq<Reach>, page: int): int {
    AtLeast(sessions, page - 1) - AtLeast(sessions, page)
  }

  /** page is the first page after which no later or earlier page loses more sessions. */
  ghost predicate FirstGreatestDrop(sessions: seq<Reach>, depth: int, page: int) {
    && 2 <= page <= depth
    && (forall q :: 2 <= q <= depth ==> Drop(sessions, q) <= Drop(sessions, page))
    && (forall q :: 2 <= q < page ==> Drop(sessions, q) < Drop(sessions, page))
  }

  function Rate(part: int, whole: nat): real
    requires whole > 0
  {
    part as real / whole as real
  }

  /** The share of the previous page's sessions lost on a page. */
  function LostShare(reached: int, prev: int): real {
    if prev > 0 then 1.0 - Rate(reached, prev) else 0.0
  }

  function ExpectedStep(sessions: seq<Reach>, page: int): FunnelStep {
    FunnelStep(page, AtLeast(sessions, page),
               if page > 1 then LostShare(AtLeast(sessions, page), AtLeast(sessions, page - 1)) else 0.0)
  }

  function MaxPages(sessions: seq<Reach>): seq<int> {
    seq(|sessions|, i requires 0 <= i < |sessions| => sessions[i].maxPage)
  }

  /** funnel.go:69-79 */
  method SumUp(sessions: seq<Reach>, depth: int)
    returns (maxPages: seq<int>, pages: int, duration: int, completed: nat)
    ensures maxPages == MaxPages(sessions) && completed == AtLeast(sessions, depth)
    ensures pages == Sum(sessions, (s: Reach) => s.distinctPages)
    ensures duration == Sum(sessions, (s: Reach) => s.duration)
  {
    maxPages, pages, duration, completed := [], 0, 0, 0;
    for k := 0 to |sessions|
      invariant |maxPages| == k && forall i :: 0 <= i < k ==> maxPages[i] == sessions[i].maxPage
      invariant completed == AtLeast(sessions[..k], depth)
      invariant pages == Sum(sessions[..k], (s: Reach) => s.distinctPages)
      invariant duration == Sum(sessions[..k], (s: Reach) => s.duration)
    {
      assert sessions[..k + 1][..k] == sessions[..k];
      maxPages := maxPages + [sessions[k].maxPage];
      pages := pages + sessions[k].distinctPages;
      duration := duration + sessions[k].duration;
      if sessions[k].maxPage >= depth { completed := completed + 1; }
    }
    assert sessions[..|sessions|] == sessions;
  }

  /** funnel.go:85-94 */
  method FillReached(sessions: seq<Reach>, reached: array<int>)
    requires forall i :: 0 <= i < reached.Length ==> reached[i] == 0
    modifies reached
    ensures forall i :: 0 <= i < reached.Length ==> reached[i] == AtLeast(sessions, i + 1)
  {
    for k := 0 to |sessions|
      invariant forall i :: 0 <= i < reached.Length ==> reached[i] == AtLeast(sessions[..k], i + 1)
    {
      assert sessions[..k + 1][..k] == sessions[..k];
      var limit := sessions[k].maxPage;
      if limit > reached.Length { limit := reached.Length; }
      var p := 1;
      while p <= limit
        invariant 1 <= p && (p <= limit + 1 || limit < 1)
        invariant forall i :: 0 <= i < reached.Length ==>
          reached[i] == AtLeast(sessions[..k], i + 1) + if i + 1 < p && i + 1 <= limit then 1 else 0
      {
        reached[p - 1] := reached[p - 1] + 1;
        p := p + 1;
      }
    }
    assert sessions[..|sessions|] == sessions;
  }

  lemma GreatestDropExtends(sessions: seq<Reach>, depth: int, page: int)
    requires FirstGreatestDrop(sessions, depth, page)
    ensures FirstGreatestDrop(sessions, depth + 1,
              if Drop(sessions, depth + 1) > Drop(sessions, page) then depth + 1 else page)
  {
  }

  /** There is one page only that the drop can be told of. */
  lemma GreatestDropIsOne(sessions: seq<Reach>, depth: int, p: int, q: int)
    requires FirstGreatestDrop(sessions, depth, p) && FirstGreatestDrop(sessions, depth, q)
    ensures p == q && forall r :: 2 <= r <= depth ==>
              Drop(sessions, r) < Drop(sessions, p) || (Drop(sessions, r) == Drop(sessions, p) && r >= p)
  {
    assert Drop(sessions, p) == Drop(sessions, q);
  }

  lemma {:induction false} ReachNeverIncreases(sessions: seq<Reach>, p: int, q: int)
    requires p <= q
    ensures AtLeast(sessions, q) <= AtLeast(sessions, p)
  {
    if sessions != [] { ReachNeverIncreases(sessions[..|sessions| - 1], p, q); }
  }

  /** funnel.go:96-119 */
  method DropSteps(sessions: seq<Reach>, reached: array<int>) returns (steps: seq<FunnelStep>, biggestPage: int)
    requires reached.Length > 0
    requires forall i :: 0 <= i < reached.Length ==> reached[i] == AtLeast(sessions, i + 1)
    ensures |steps| == reached.Length
    ensures forall i :: 0 <= i < |steps| ==> steps[i] == ExpectedStep(sessions, i + 1)
    ensures if reached.Length == 1 then biggestPage == 0
            else FirstGreatestDrop(sessions, reached.Length, biggestPage)
  {
    steps := [];
    var biggestDrop := -1;
    biggestPage := 0;
    for i := 0 to reached.Length
      invariant |steps| == i
      invariant forall k :: 0 <= k < i ==> steps[k] == ExpectedStep(sessions, k + 1)
      invariant i <= 1 ==> biggestDrop == -1 && biggestPage == 0
      invariant i > 1 ==> FirstGreatestDrop(sessions, i, biggestPage) && biggestDrop == Drop(sessions, biggestPage)
    {
      var page := i + 1;
      var step := FunnelStep(page, reached[i], 0.0);
      if i > 0 {
        ReachNeverIncreases(sessions, i, i + 1);
        var prev := reached[i - 1];
        step := step.(dropOff := LostShare(reached[i], prev));
        var dropAbs := prev - reached[i];
        if i > 1 { GreatestDropExtends(sessions, i, biggestPage); }
        if dropAbs > biggestDrop {
          biggestDrop := dropAbs;
          biggestPage := page;
        }
      }
      steps := steps + [step];
    }
  }

  ghost predicate Ascending(s: seq<int>) { forall i, j :: 0 <= i < j < |s| ==> s[i] <= s[j] }

  function Insert(s: seq<int>, x: int): (r: seq<int>)
    requires Ascending(s)
    ensures |r| == |s| + 1 && Ascending(r)
    ensures forall y :: y in r <==> y in s || y == x
  {
    if s == [] || x <= s[0] then [x] + s
    else
      var rest := Insert(s[1..], x);
      assert forall j :: 0 <= j < |rest| ==> rest[j] in rest;
      [s[0]] + rest
  }

  /** sort.Slice of integers */
  function Sorted(s: seq<int>): (r: seq<int>)
    ensures |r| == |s| && Ascending(r)
    ensures forall y :: y in r <==> y in s
  {
    if s == [] then [] else Insert(Sorted(s[1..]), s[0])
  }

  /** int32 arithmetic */
  function Wrap32(x: int): (r: int)
    ensures IsInt32(r)
    ensures IsInt32(x) ==> r == x
  {
    (x + TWO_TO_31) % TWO_TO_32 - TWO_TO_31
  }

  /** medianInt32, whose sum of the two middle values is one of int32. */
  function Median(values: seq<int>): real {
    if values == [] then 0.0
    else
      var s := Sorted(values);
      var mid := |s| / 2;
      if |s| % 2 == 1 then s[mid] as real else Wrap32(s[mid - 1] + s[mid]) as real / 2.0
  }

  method BuildReadingFunnel(pageCount: int, sessions: seq<Reach>) returns (r: ReadingFunnel)
    ensures var depth := Depth(pageCount, sessions);
            if sessions == [] || depth <= 0 then
              && r.pageCount == (if sessions == [] then pageCount else depth) && r.sessionCount == |sessions|
              && r.completed == r.biggestDropOffPage == 0 && r.steps == []
              && r.completionRate == r.medianMaxPage == r.averagePages == r.averageDuration == 0.0
            else
              && r.pageCount == depth && r.sessionCount == |sessions|
              && r.completed == AtLeast(sessions, depth)
              && r.completionRate == Rate(r.completed, |sessions|)
              && r.medianMaxPage == Median(MaxPages(sessions))
              && r.averagePages == Rate(Sum(sessions, (s: Reach) => s.distinctPages), |sessions|)
              && r.averageDuration == Rate(Sum(sessions, (s: Reach) => s.duration), |sessions|)
              && |r.steps| == depth
              && (forall i :: 0 <= i < depth ==> r.steps[i] == ExpectedStep(sessions, i + 1))
              && (if depth == 1 then r.biggestDropOffPage == 0
                  else FirstGreatestDrop(sessions, depth, r.biggestDropOffPage))
  {
    if |sessions| == 0 { return NoFunnel(pageCount, 0); }
    var depth := pageCount;
    if depth <= 0 {
      for k := 0 to |sessions|
        invariant depth == Deepest(sessions[..k], pageCount)
      {
        assert sessions[..k + 1][..k] == sessions[..k];
        if sessions[k].maxPage > depth { depth := sessions[k].maxPage; }
      }
      assert sessions[..|sessions|] == sessions;
    }
    if depth <= 0 { return NoFunnel(depth, |sessions|); }
    var maxPages, pages, duration, completed := SumUp(sessions, depth);
    var reached := new int[depth](_ => 0);
    FillReached(sessions, reached);
    var steps, biggestPage := DropSteps(sessions, reached);
    r := ReadingFunnel(depth, |sessions|, completed, Rate(completed, |sessions|), Median(maxPages),
                       Rate(pages, |sessions|), Rate(duration, |sessions|), biggestPage, steps);
  }

  lemma {:induction false} DeepestIsGreatest(sessions: seq<Reach>, depth: int)
    ensures Deepest(sessions, depth) >= depth
    ensures forall i :: 0 <= i < |sessions| ==> sessions[i].maxPage <= Deepest(sessions, depth)
    ensures Deepest(sessions, depth) == depth ||
            exists i :: 0 <= i < |sessions| && sessions[i].maxPage == Deepest(sessions, depth)
  {
    if sessions != [] {
      var init := sessions[..|sessions| - 1];
      DeepestIsGreatest(init, depth);
      if i :| 0 <= i < |init| && init[i].maxPage == Deepest(init, depth) {
        assert sessions[i].maxPage == Deepest(init, depth);
      }
      forall i | 0 <= i < |init| ensures sessions[i].maxPage <= Deepest(init, depth) { assert sessions[i] == init[i]; }
    }
  }

  /** The funnel is as deep as the document; where that has no page count, as the deepest session. */
  lemma DepthExactly(pageCount: int, sessions: seq<Reach>)
    ensures var depth := Depth(pageCount, sessions);
            && (pageCount > 0 ==> depth == pageCount)
            && (pageCount <= 0 ==>
                 && (depth > 0 <==> exists i :: 0 <= i < |sessions| && sessions[i].maxPage > 0)
                 && (depth > 0 ==>
                      && (forall i :: 0 <= i < |sessions| ==> sessions[i].maxPage <= depth)
                      && (exists i :: 0 <= i < |sessions| && sessions[i].maxPage == depth)))
  {
    DeepestIsGreatest(sessions, pageCount);
  }

  lemma ShareOfWhole(part: nat, whole: nat)
    requires part <= whole && whole > 0
    ensures 0.0 <= Rate(part, whole) <= 1.0 && part as real == Rate(part, whole) * whole as real
  {
    var rate, n := Rate(part, whole), whole as real;
    assert rate * n == part as real;
    assert (1.0 - rate) * n == whole as real - part as real;
  }

  /** A step's drop-off is the share of the sessions on the page before that do not come to this page. */
  lemma DropOffIsShareLost(sessions: seq<Reach>, page: int)
    ensures var step, before := ExpectedStep(sessions, page), AtLeast(sessions, page - 1);
            && step.pageNumber == page && step.reached == AtLeast(sessions, page) && 0.0 <= step.dropOff <= 1.0
            && (page > 1 ==> step.reached as real == (1.0 - step.dropOff) * before as real)
            && (page <= 1 || before == 0 ==> step.dropOff == 0.0)
  {
    var step, before := ExpectedStep(sessions, page), AtLeast(sessions, page - 1);
    ReachNeverIncreases(sessions, page - 1, page);
    if page > 1 && before > 0 {
      ShareOfWhole(step.reached, before);
    }
  }

  /** Session depth within the document. */
  function ClampedDepth(s: Reach, depth: nat): nat {
    if s.maxPage < 0 then 0 else if s.maxPage > depth then depth else s.maxPage
  }

  function SumOfDepths(sessions: seq<Reach>, depth: nat): nat {
    if sessions == [] then 0
    else SumOfDepths(sessions[..|sessions| - 1], depth) + ClampedDepth(sessions[|sessions| - 1], depth)
  }

  function SumOfReach(sessions: seq<Reach>, depth: nat): nat {
    if depth == 0 then 0 else SumOfReach(sessions, depth - 1) + AtLeast(sessions, depth)
  }

  lemma {:induction false} NoDepth(sessions: seq<Reach>)
    ensures SumOfDepths(sessions, 0) == 0
  {
    if sessions != [] { NoDepth(sessions[..|sessions| - 1]); }
  }

  lemma {:induction false} OnePageDeeper(sessions: seq<Reach>, depth: nat)
    requires depth > 0
    ensures SumOfDepths(sessions, depth) == SumOfDepths(sessions, depth - 1) + AtLeast(sessions, depth)
  {
    if sessions != [] { OnePageDeeper(sessions[..|sessions| - 1], depth); }
  }

  /** Pages reached, summed over pages, are pages reached, summed over sessions. */
  lemma {:induction false} ReachSumsToDepths(sessions: seq<Reach>, depth: nat)
    ensures SumOfReach(sessions, depth) == SumOfDepths(sessions, depth)
    decreases depth, |sessions|
  {
    if depth == 0 {
      NoDepth(sessions);
    } else {
      ReachSumsToDepths(sessions, depth - 1);
      OnePageDeeper(sessions, depth);
    }
  }

  function SumOfDrops(sessions: seq<Reach>, depth: nat): int {
    if depth <= 1 then 0 else SumOfDrops(sessions, depth - 1) + Drop(sessions, depth)
  }

  /** The drops account for every session lost between the first page and completion. */
  lemma {:induction false} DropsTelescope(sessions: seq<Reach>, depth: nat)
    requires depth > 0
    ensures SumOfDrops(sessions, depth) == AtLeast(sessions, 1) - AtLeast(sessions, depth)
  {
    if depth > 1 { DropsTelescope(sessions, depth - 1); }
  }

  // ---- the median

  predicate Meets(x: int, m: real, upTo: bool) { if upTo then x as real <= m else x as real >= m }

  /** How many values are at most m, or at least m. */
  function Side(s: seq<int>, m: real, upTo: bool): nat {
    if s == [] then 0 else (if Meets(s[0], m, upTo) then 1 else 0) + Side(s[1..], m, upTo)
  }

  /** m has half of the values on either side, values equal to it counting for both. */
  predicate Halves(values: seq<int>, m: real) {
    2 * Side(values, m, true) >= |values| && 2 * Side(values, m, false) >= |values|
  }

  lemma {:induction false} SideOfInsert(s: seq<int>, x: int, m: real, upTo: bool)
    requires Ascending(s)
    ensures Side(Insert(s, x), m, upTo) == Side(s, m, upTo) + if Meets(x, m, upTo) then 1 else 0
  {
    if s == [] || x <= s[0] {
      assert ([x] + s)[1..] == s;
    } else {
      SideOfInsert(s[1..], x, m, upTo);
      assert Insert(s, x)[1..] == Insert(s[1..], x);
    }
  }

  lemma {:induction false} SideOfSorted(s: seq<int>, m: real, upTo: bool)
    ensures Side(Sorted(s), m, upTo) == Side(s, m, upTo)
  {
    if s != [] {
      SideOfSorted(s[1..], m, upTo);
      SideOfInsert(Sorted(s[1..]), s[0], m, upTo);
    }
  }

  lemma {:induction false} SideSplits(s: seq<int>, k: nat, m: real, upTo: bool)
    requires k <= |s|
    ensures Side(s, m, upTo) == Side(s[..k], m, upTo) + Side(s[k..], m, upTo)
  {
    if k == 0 {
      assert s[0..] == s;
    } else {
      SideSplits(s[1..], k - 1, m, upTo);
      assert s[..k][1..] == s[1..][..k - 1] && s[1..][k - 1..] == s[k..];
    }
  }

  lemma {:induction false} AllOnSide(s: seq<int>, m: real, upTo: bool)
    ensures (forall x :: x in s ==> Meets(x, m, upTo)) ==> Side(s, m, upTo) == |s|
    ensures (forall x :: x in s ==> !Meets(x, m, upTo)) ==> Side(s, m, upTo) == 0
    ensures Side(s, m, upTo) <= |s|
  {
    if s != [] { AllOnSide(s[1..], m, upTo); }
  }

  lemma UpToPlace(s: seq<int>, k: nat, m: real)
    requires Ascending(s) && k < |s| && s[k] as real <= m
    ensures Side(s, m, true) >= k + 1
  {
    SideSplits(s, k + 1, m, true);
    AllOnSide(s[..k + 1], m, true);
  }

  lemma FromPlace(s: seq<int>, l: nat, m: real)
    requires Ascending(s) && l < |s| && m <= s[l] as real
    ensures Side(s, m, false) >= |s| - l
  {
    SideSplits(s, l, m, false);
    AllOnSide(s[l..], m, false);
  }

  /** In ascending order, values up to place k are at most m and those from place l are at least m. */
  lemma SidesOfAscending(s: seq<int>, k: nat, l: nat, m: real)
    requires Ascending(s) && k < |s| && l < |s| && s[k] as real <= m <= s[l] as real
    ensures Side(s, m, true) >= k + 1 && Side(s, m, false) >= |s| - l
  {
    UpToPlace(s, k, m);
    FromPlace(s, l, m);
  }

  /** Below the k-th value lie at most k others. */
  lemma BelowPlace(s: seq<int>, k: nat, m: real)
    requires Ascending(s) && k < |s| && m < s[k] as real
    ensures Side(s, m, true) <= k
  {
    SideSplits(s, k, m, true);
    AllOnSide(s[..k], m, true);
    AllOnSide(s[k..], m, true);
  }

  lemma AbovePlace(s: seq<int>, k: nat, m: real)
    requires Ascending(s) && k < |s| && m > s[k] as real
    ensures Side(s, m, false) <= |s| - k - 1
  {
    SideSplits(s, k + 1, m, false);
    AllOnSide(s[..k + 1], m, false);
    AllOnSide(s[k + 1..], m, false);
  }

  lemma OffTheMiddle(s: seq<int>, mid: nat, m: real)
    requires Ascending(s) && |s| == 2 * mid && mid > 0 && (m < s[mid - 1] as real || m > s[mid] as real)
    ensures !Halves(s, m)
  {
    if m < s[mid - 1] as real { BelowPlace(s, mid - 1, m); } else { AbovePlace(s, mid, m); }
  }

  /** Does the sum of the two middle values fit? */
  predicate MiddleFits(values: seq<int>) {
    |values| % 2 == 1 || values == [] || (var s, mid := Sorted(values), |values| / 2; IsInt32(s[mid - 1] + s[mid]))
  }

  lemma MedianOfOdd(values: seq<int>)
    requires |values| % 2 == 1
    ensures Halves(values, Median(values))
  {
    var s, m := Sorted(values), Median(values);
    SidesOfAscending(s, |s| / 2, |s| / 2, m);
    SideOfSorted(values, m, true);
    SideOfSorted(values, m, false);
  }

  lemma MedianOfEven(values: seq<int>)
    requires values != [] && |values| % 2 == 0 && MiddleFits(values)
    ensures Halves(values, Median(values))
  {
    var s, m, mid := Sorted(values), Median(values), |values| / 2;
    assert s[mid - 1] <= s[mid];
    SidesOfAscending(s, mid - 1, mid, m);
    SideOfSorted(values, m, true);
    SideOfSorted(values, m, false);
  }

  lemma WrappedLeavesMiddle(a: int, b: int)
    requires IsInt32(a) && IsInt32(b) && a <= b && !IsInt32(a + b)
    ensures var m := Wrap32(a + b) as real / 2.0; m < a as real || m > b as real
  {
    var x := a + b;
    if x >= TWO_TO_31 {
      assert (x + TWO_TO_31) / TWO_TO_32 == 1;
      assert Wrap32(x) == x - TWO_TO_32;
    } else {
      assert (x + TWO_TO_31) / TWO_TO_32 == -1;
      assert Wrap32(x) == x + TWO_TO_32;
    }
  }

  lemma MedianOfWrapped(values: seq<int>)
    requires (forall x :: x in values ==> IsInt32(x)) && !MiddleFits(values)
    ensures !Halves(values, Median(values))
  {
    var s, m, mid := Sorted(values), Median(values), |values| / 2;
    assert s[mid - 1] in s && s[mid] in s && s[mid - 1] <= s[mid];
    WrappedLeavesMiddle(s[mid - 1], s[mid]);
    OffTheMiddle(s, mid, m);
    SideOfSorted(values, m, true);
    SideOfSorted(values, m, false);
  }

  /** The median has half of the page numbers on either side exactly when the two middle ones do not
      overflow 32 bits. */
  lemma MedianHalvesExactly(values: seq<int>)
    requires forall x :: x in values ==> IsInt32(x)
    ensures Halves(values, Median(values)) <==> MiddleFits(values)
  {
    if |values| % 2 == 1 {
      MedianOfOdd(values);
    } else if values != [] && MiddleFits(values) {
      MedianOfEven(values);
    } else if values != [] {
      MedianOfWrapped(values);
    }
  }
}
