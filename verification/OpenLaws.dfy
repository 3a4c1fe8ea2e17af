/** What the log and the alerts of one link amount to after any run of opens. */
module OpenLaws {
  import opened Opens

  const HALF_HOUR: int := 30 * 60 * 1_000_000_000

  function Run(link: Link, s: State, os: seq<Open>): State {
    if os == [] then s else Record(link, Run(link, s, os[..|os| - 1]), os[|os| - 1]).0
  }

  /** How many alerts of a kind a run sends. */
  function Alerts(link: Link, s: State, os: seq<Open>, kind: Kind): nat {
    if os == [] then 0
    else
      var n := |os| - 1;
      Alerts(link, s, os[..n], kind)
      + if Record(link, Run(link, s, os[..n]), os[n]).1 == Notify(kind) then 1 else 0
  }

  function Rows(log: seq<Entry>, event: Event): nat {
    if log == [] then 0
    else Rows(log[..|log| - 1], event) + if log[|log| - 1].event == event then 1 else 0
  }

  predicate NoFaults(os: seq<Open>) {
    forall i :: 0 <= i < |os| ==> os[i].faults == Faults(false, false, false, false, false, false)
  }

  lemma RowsOneMore(log: seq<Entry>, e: Entry, event: Event)
    ensures Rows(log + [e], event) == Rows(log, event) + if e.event == event then 1 else 0
  {
    assert (log + [e])[..|log|] == log;
  }

  lemma VisitorsOneMore(log: seq<Entry>, e: Entry)
    ensures Visitors(log + [e]) == Visitors(log) + if e.event == Opened && e.visitor != "" then {e.visitor} else {}
  {
    var after := log + [e];
    assert forall i :: 0 <= i < |log| ==> after[i] == log[i];
    assert after[|log|] == e;
    forall v | v in Visitors(log) ensures v in Visitors(after) {
      var i :| 0 <= i < |log| && log[i].event == Opened && log[i].visitor != "" && log[i].visitor == v;
      assert after[i].visitor == v;
    }
  }

  lemma KnownIffVisitor(log: seq<Entry>, visitor: string)
    requires visitor != ""
    ensures Known(log, visitor) <==> visitor in Visitors(log)
  {
    if Known(log, visitor) {
      var i :| 0 <= i < |log| && IsOpenOf(log[i], visitor);
      assert log[i].visitor in Visitors(log);
    }
  }

  /** The rows an open adds. */
  lemma RecordedRows(link: Link, s: State, o: Open)
    ensures var t := Record(link, s, o).0;
            if IsRecorded(link, s, o)
            then t.log == (s.log + [Entry(Opened, o.visitor, o.now)]) + MarkerRows(Classify(s.log, o), o)
            else t == s
  {}

  predicate IsNew(link: Link, s: State, o: Open) {
    IsRecorded(link, s, o) && o.visitor != "" && o.visitor !in Visitors(s.log)
  }

  lemma NoOthers(log: seq<Entry>, visitor: string)
    ensures visitor !in Visitors(log) ==> (|Visitors(log) - {visitor}| > 0 <==> Visitors(log) != {})
  {
    if visitor !in Visitors(log) { assert Visitors(log) - {visitor} == Visitors(log); }
  }

  lemma NewVisitorsOpen(link: Link, s: State, o: Open)
    requires NoFaults([o])
    ensures var r := Record(link, s, o).1;
            && (r == Notify(FirstOpen) <==> IsNew(link, s, o) && Visitors(s.log) == {})
            && (r == Notify(ForwardSignal) <==> IsNew(link, s, o) && Visitors(s.log) != {})
  {
    assert [o][0].faults == Faults(false, false, false, false, false, false);
    if o.visitor != "" { KnownIffVisitor(s.log, o.visitor); }
    NoOthers(s.log, o.visitor);
  }

  lemma MarkersKeepVisitors(log: seq<Entry>, kind: Kind, o: Open)
    ensures Visitors(log + MarkerRows(kind, o)) == Visitors(log)
    ensures Rows(log + MarkerRows(kind, o), Opened) == Rows(log, Opened)
    ensures Rows(log + MarkerRows(kind, o), Forward)
            == Rows(log, Forward) + if kind == ForwardSignal && !o.faults.marker then 1 else 0
  {
    var ms := MarkerRows(kind, o);
    if ms == [] {
      assert log + ms == log;
    } else {
      assert ms == [ms[0]];
      VisitorsOneMore(log, ms[0]);
      RowsOneMore(log, ms[0], Opened);
      RowsOneMore(log, ms[0], Forward);
    }
  }

  lemma VisitorsAfterOpen(link: Link, s: State, o: Open)
    ensures Visitors(Record(link, s, o).0.log)
            == Visitors(s.log) + if IsNew(link, s, o) then {o.visitor} else {}
  {
    RecordedRows(link, s, o);
    if IsRecorded(link, s, o) {
      var e := Entry(Opened, o.visitor, o.now);
      VisitorsOneMore(s.log, e);
      MarkersKeepVisitors(s.log + [e], Classify(s.log, o), o);
    }
  }

  lemma ForwardsAfterOpen(link: Link, s: State, o: Open)
    requires NoFaults([o])
    ensures Rows(Record(link, s, o).0.log, Forward)
            == Rows(s.log, Forward) + if Record(link, s, o).1 == Notify(ForwardSignal) then 1 else 0
  {
    assert [o][0].faults == Faults(false, false, false, false, false, false);
    RecordedRows(link, s, o);
    if IsRecorded(link, s, o) {
      var e := Entry(Opened, o.visitor, o.now);
      RowsOneMore(s.log, e, Forward);
      MarkersKeepVisitors(s.log + [e], Classify(s.log, o), o);
    }
  }

  lemma NewVisitorCounts(visitors: set<string>, v: string)
    ensures v !in visitors ==> |visitors + {v}| == |visitors| + 1 && visitors + {v} != {}
    ensures visitors + {} == visitors
  {}

  /** A link gets one first-open alert when its first visitor shows up, and one forward alert and one
      forward marker for each visitor after that. */
  lemma {:induction false} OneFirstOpenAndAForwardForEachOther(link: Link, s: State, os: seq<Open>)
    requires NoFaults(os)
    ensures var t := Run(link, s, os);
            && Visitors(s.log) <= Visitors(t.log)
            && Alerts(link, s, os, FirstOpen) == (if Visitors(s.log) == {} && Visitors(t.log) != {} then 1 else 0)
            && Alerts(link, s, os, FirstOpen) + Alerts(link, s, os, ForwardSignal)
               == |Visitors(t.log)| - |Visitors(s.log)|
            && Rows(t.log, Forward) - Rows(s.log, Forward) == Alerts(link, s, os, ForwardSignal)
    decreases |os|
  {
    if os != [] {
      var n := |os| - 1;
      OneFirstOpenAndAForwardForEachOther(link, s, os[..n]);
      var before, after := Run(link, s, os[..n]), Run(link, s, os);
      assert [os[n]][0] == os[n];
      NewVisitorsOpen(link, before, os[n]);
      VisitorsAfterOpen(link, before, os[n]);
      ForwardsAfterOpen(link, before, os[n]);
      NewVisitorCounts(Visitors(before.log), os[n].visitor);
    }
  }

  /** For a new link: one first open, and as many forward markers as other visitors. */
  lemma MarkersOfNewLink(link: Link, os: seq<Open>)
    requires NoFaults(os)
    ensures var t := Run(link, State(0, []), os);
            && Alerts(link, State(0, []), os, FirstOpen) == (if Visitors(t.log) == {} then 0 else 1)
            && (Visitors(t.log) != {} ==> Rows(t.log, Forward) == |Visitors(t.log)| - 1)
            && (Visitors(t.log) == {} ==> Rows(t.log, Forward) == 0)
  {
    OneFirstOpenAndAForwardForEachOther(link, State(0, []), os);
    assert Visitors([]) == {};
  }

  // ---- alerts when queries fail

  /** A new visitor whose open sends no alert, because the count of the others failed. */
  predicate IsSilenced(link: Link, s: State, o: Open) { IsNew(link, s, o) && o.faults.others }

  /** A known visitor taken for a new one, because the read of the first access failed. */
  predicate IsMisjudged(link: Link, s: State, o: Open) {
    IsRecorded(link, s, o) && o.visitor in Visitors(s.log) && o.faults.first && !o.faults.others
  }

  /** A forward alert without its marker. */
  predicate IsUnmarked(link: Link, s: State, o: Open) {
    Record(link, s, o).1 == Notify(ForwardSignal) && o.faults.marker
  }

  datatype Mishap = Silenced | Misjudged | Unmarked

  predicate Happens(link: Link, s: State, o: Open, m: Mishap) {
    match m
    case Silenced => IsSilenced(link, s, o)
    case Misjudged => IsMisjudged(link, s, o)
    case Unmarked => IsUnmarked(link, s, o)
  }

  /** How often a mishap happens in a run. */
  function Mishaps(link: Link, s: State, os: seq<Open>, m: Mishap): nat {
    if os == [] then 0
    else
      var n := |os| - 1;
      Mishaps(link, s, os[..n], m) + if Happens(link, Run(link, s, os[..n]), os[n], m) then 1 else 0
  }

  lemma AlertsOfOpen(link: Link, s: State, o: Open)
    ensures Record(link, s, o).1 == Notify(FirstOpen) || Record(link, s, o).1 == Notify(ForwardSignal)
            <==> (IsNew(link, s, o) && !IsSilenced(link, s, o)) || IsMisjudged(link, s, o)
  {
    if o.visitor != "" { KnownIffVisitor(s.log, o.visitor); }
  }

  lemma ForwardsOfOpen(link: Link, s: State, o: Open)
    ensures Rows(Record(link, s, o).0.log, Forward) - Rows(s.log, Forward)
            == if Record(link, s, o).1 == Notify(ForwardSignal) && !IsUnmarked(link, s, o) then 1 else 0
  {
    RecordedRows(link, s, o);
    if IsRecorded(link, s, o) {
      var e := Entry(Opened, o.visitor, o.now);
      RowsOneMore(s.log, e, Forward);
      MarkersKeepVisitors(s.log + [e], Classify(s.log, o), o);
    }
  }

  lemma OnlyVisitorsAreNew(link: Link, s: State, o: Open)
    ensures IsMisjudged(link, s, o) ==> !IsNew(link, s, o) && o.visitor != ""
  {}

  /** Whatever fails, over any run: alerts are sent for the new visitors but those silenced, and again for
      known ones that are misjudged; markers stand for the forward alerts but those unmarked. */
  lemma {:induction false} AlertsAddUp(link: Link, s: State, os: seq<Open>)
    ensures var t := Run(link, s, os);
            && Alerts(link, s, os, FirstOpen) + Alerts(link, s, os, ForwardSignal) + Mishaps(link, s, os, Silenced)
               == |Visitors(t.log)| - |Visitors(s.log)| + Mishaps(link, s, os, Misjudged)
            && Rows(t.log, Forward) - Rows(s.log, Forward) + Mishaps(link, s, os, Unmarked)
               == Alerts(link, s, os, ForwardSignal)
    decreases |os|
  {
    if os != [] {
      var n := |os| - 1;
      AlertsAddUp(link, s, os[..n]);
      var before := Run(link, s, os[..n]);
      AlertsOfOpen(link, before, os[n]);
      ForwardsOfOpen(link, before, os[n]);
      OnlyVisitorsAreNew(link, before, os[n]);
      VisitorsAfterOpen(link, before, os[n]);
      NewVisitorCounts(Visitors(before.log), os[n].visitor);
    }
  }

  // ---- the access limit

  lemma CountStep(link: Link, s: State, o: Open)
    ensures Rows(Record(link, s, o).0.log, Opened) - Rows(s.log, Opened) == Record(link, s, o).0.count - s.count
  {
    RecordedRows(link, s, o);
    if IsRecorded(link, s, o) {
      var e := Entry(Opened, o.visitor, o.now);
      RowsOneMore(s.log, e, Opened);
      MarkersKeepVisitors(s.log + [e], Classify(s.log, o), o);
    }
  }

  /** The counter is the number of recorded opens and never passes the limit, whatever fails. */
  lemma {:induction false} CountIsOpens(link: Link, s: State, os: seq<Open>)
    requires s.count == Rows(s.log, Opened)
    requires link.maxAccess.AtMost? ==> s.count <= link.maxAccess.n
    ensures var t := Run(link, s, os);
            t.count == Rows(t.log, Opened) && (link.maxAccess.AtMost? ==> t.count <= link.maxAccess.n)
    decreases |os|
  {
    if os != [] {
      var n := |os| - 1;
      CountIsOpens(link, s, os[..n]);
      CountStep(link, Run(link, s, os[..n]), os[n]);
    }
  }

  predicate HasRoom(link: Link, count: nat) {
    link.active && match link.maxAccess { case Unlimited => true case AtMost(n) => count < n }
  }

  /** An open is recorded, in one row and one count, exactly when it is new to the duplicate checker, the
      queries do not fail, and the link is active with no limit or fewer opens than its limit. */
  lemma RecordedExactly(link: Link, s: State, o: Open)
    ensures var (t, r) := Record(link, s, o);
            var asked := !o.faults.dedup && o.unseen && !o.faults.insert;
            && (asked && HasRoom(link, s.count) ==>
                 t.count == s.count + 1 && s.log + [Entry(Opened, o.visitor, o.now)] <= t.log && !r.Failed?)
            && (!(asked && HasRoom(link, s.count)) ==> t == s)
            && (r == Failed(MaxAccessReached) <==> asked && !HasRoom(link, s.count))
            && (r == Failed(Database) <==> o.faults.dedup || (o.unseen && o.faults.insert))
            && (r.Notify? ==> r.kind == FirstOpen || r.kind == ForwardSignal)
            && (!o.unseen && !o.faults.dedup ==> r == Quiet)
  {}

  /** The rows of opens in a log. */
  function OpenRows(log: seq<Entry>): seq<Entry> {
    if log == [] then []
    else OpenRows(log[..|log| - 1]) + if log[|log| - 1].event == Opened then [log[|log| - 1]] else []
  }

  lemma OpenRowsOneMore(log: seq<Entry>, e: Entry)
    ensures OpenRows(log + [e]) == OpenRows(log) + if e.event == Opened then [e] else []
  {
    assert (log + [e])[..|log|] == log;
  }

  lemma MarkersAreNoOpens(log: seq<Entry>, kind: Kind, o: Open)
    ensures OpenRows(log + MarkerRows(kind, o)) == OpenRows(log)
  {
    var ms := MarkerRows(kind, o);
    if ms == [] {
      assert log + ms == log;
    } else {
      assert ms == [ms[0]];
      OpenRowsOneMore(log, ms[0]);
    }
  }

  lemma OpenRowsAfter(link: Link, s: State, o: Open)
    ensures OpenRows(Record(link, s, o).0.log)
            == OpenRows(s.log) + if IsRecorded(link, s, o) then [Entry(Opened, o.visitor, o.now)] else []
  {
    RecordedRows(link, s, o);
    if IsRecorded(link, s, o) {
      var e := Entry(Opened, o.visitor, o.now);
      OpenRowsOneMore(s.log, e);
      MarkersAreNoOpens(s.log + [e], Classify(s.log, o), o);
    }
  }

  /** All opens are new to the duplicate checker, which does not fail, nor does the insert. */
  predicate AllAsked(os: seq<Open>) {
    forall i :: 0 <= i < |os| ==> !os[i].faults.dedup && os[i].unseen && !os[i].faults.insert
  }

  /** How many of so many opens a new link takes. */
  function Taken(link: Link, opens: nat): nat {
    if !link.active then 0
    else match link.maxAccess { case Unlimited => opens case AtMost(n) => if opens < n then opens else n }
  }

  function RowsOfOpens(os: seq<Open>): seq<Entry> {
    seq(|os|, i requires 0 <= i < |os| => Entry(Opened, os[i].visitor, os[i].now))
  }

  lemma TakenOneMore(link: Link, n: nat)
    ensures HasRoom(link, Taken(link, n)) ==> Taken(link, n) == n && Taken(link, n + 1) == n + 1
    ensures !HasRoom(link, Taken(link, n)) ==> Taken(link, n + 1) == Taken(link, n)
  {}

  lemma RowsOfOpensOneMore(os: seq<Open>, o: Open)
    ensures RowsOfOpens(os + [o]) == RowsOfOpens(os) + [Entry(Opened, o.visitor, o.now)]
  {}

  lemma RecordedHasRoom(link: Link, s: State, o: Open)
    requires !o.faults.dedup && o.unseen && !o.faults.insert
    ensures Record(link, s, o).0.count == s.count + if HasRoom(link, s.count) then 1 else 0
    ensures OpenRows(Record(link, s, o).0.log)
            == OpenRows(s.log) + if HasRoom(link, s.count) then [Entry(Opened, o.visitor, o.now)] else []
  {
    RecordedExactly(link, s, o);
    OpenRowsAfter(link, s, o);
  }

  ghost predicate FirstOnes(link: Link, t: State, os: seq<Open>) {
    t.count == Taken(link, |os|) && OpenRows(t.log) == RowsOfOpens(os[..Taken(link, |os|)])
  }

  lemma FirstOnesOneMore(link: Link, t: State, os: seq<Open>, o: Open)
    requires FirstOnes(link, t, os) && !o.faults.dedup && o.unseen && !o.faults.insert
    ensures FirstOnes(link, Record(link, t, o).0, os + [o])
  {
    var k := Taken(link, |os|);
    TakenOneMore(link, |os|);
    RecordedHasRoom(link, t, o);
    if HasRoom(link, k) {
      RowsOfOpensOneMore(os, o);
      assert os[..k] == os && (os + [o])[..k + 1] == os + [o];
    } else {
      assert (os + [o])[..k] == os[..k];
    }
  }

  lemma NoneAtFirst(link: Link)
    ensures FirstOnes(link, State(0, []), [])
  {}

  /** A new link records the first opens up to its limit, in their order, and no others; an inactive one none. */
  lemma {:induction false} FirstOpensAreRecorded(link: Link, os: seq<Open>)
    requires AllAsked(os)
    ensures FirstOnes(link, Run(link, State(0, []), os), os)
  {
    if os == [] {
      NoneAtFirst(link);
    } else {
      var n := |os| - 1;
      FirstOpensAreRecorded(link, os[..n]);
      FirstOnesOneMore(link, Run(link, State(0, []), os[..n]), os[..n], os[n]);
      assert os[..n] + [os[n]] == os;
    }
  }

  // ---- return visits

  /** Row k is an open of a visitor whose every earlier open is more than half an hour old. */
  ghost predicate LateReturn(log: seq<Entry>, k: nat)
    requires k < |log|
  {
    && log[k].event == Opened && log[k].visitor != ""
    && Known(log[..k], log[k].visitor)
    && forall j :: 0 <= j < k && IsOpenOf(log[j], log[k].visitor) ==> log[k].at - log[j].at > HALF_HOUR
  }

  ghost predicate MarkedAt(log: seq<Entry>, k: nat)
    requires k < |log|
  {
    k + 1 < |log| && log[k + 1] == Entry(Return, log[k].visitor, log[k].at)
  }

  /** Return markers stand right behind the late returns, and nowhere else. */
  ghost predicate ReturnsAreMarked(log: seq<Entry>) {
    && (forall k :: 0 <= k < |log| && LateReturn(log, k) ==> MarkedAt(log, k))
    && (forall k :: 0 <= k < |log| && log[k].event == Return
          ==> k > 0 && LateReturn(log, k - 1) && MarkedAt(log, k - 1))
  }

  lemma {:induction false} LastOpenIsLatest(log: seq<Entry>, visitor: string)
    requires Known(log, visitor)
    ensures exists j :: 0 <= j < |log| && IsOpenOf(log[j], visitor) && log[j].at == LastOpen(log, visitor)
    ensures forall j :: 0 <= j < |log| && IsOpenOf(log[j], visitor) ==> log[j].at <= LastOpen(log, visitor)
  {
    var n := |log| - 1;
    if Known(log[..n], visitor) {
      LastOpenIsLatest(log[..n], visitor);
      var j :| 0 <= j < n && IsOpenOf(log[..n][j], visitor) && log[..n][j].at == LastOpen(log[..n], visitor);
      assert IsOpenOf(log[j], visitor);
      forall i | 0 <= i < n && IsOpenOf(log[i], visitor) ensures log[i].at <= LastOpen(log[..n], visitor) {
        assert log[..n][i] == log[i];
      }
    } else {
      assert forall i :: 0 <= i < n ==> log[..n][i] == log[i];
    }
  }

  lemma LateReturnInPrefix(log: seq<Entry>, more: seq<Entry>, k: nat)
    requires k < |log|
    ensures LateReturn(log + more, k) == LateReturn(log, k)
  {
    assert (log + more)[..k] == log[..k];
  }

  lemma NewestLateReturn(log: seq<Entry>, o: Open)
    requires NoFaults([o])
    ensures LateReturn(log + [Entry(Opened, o.visitor, o.now)], |log|) <==> Classify(log, o) == ReturnVisit
  {
    assert [o][0].faults == Faults(false, false, false, false, false, false);
    var after := log + [Entry(Opened, o.visitor, o.now)];
    assert after[..|log|] == log;
    if Known(log, o.visitor) { LastOpenIsLatest(log, o.visitor); }
  }

  lemma AppendKeepsMarks(log: seq<Entry>, e: Entry, ms: seq<Entry>)
    requires ReturnsAreMarked(log) && e.event == Opened && |ms| <= 1
    requires LateReturn(log + [e], |log|) ==> ms == [Entry(Return, e.visitor, e.at)]
    requires |ms| == 1 ==> ms[0].event != Opened && (ms[0].event == Return ==> LateReturn(log + [e], |log|))
    ensures ReturnsAreMarked(log + [e] + ms)
  {
    var after := log + [e] + ms;
    LateReturnInPrefix(log + [e], ms, |log|);
    forall k | 0 <= k < |log| ensures LateReturn(after, k) == LateReturn(log, k) {
      LateReturnInPrefix(log, [e] + ms, k);
      assert log + ([e] + ms) == after;
    }
  }

  lemma ReturnStep(link: Link, s: State, o: Open)
    requires NoFaults([o]) && ReturnsAreMarked(s.log)
    ensures ReturnsAreMarked(Record(link, s, o).0.log)
  {
    assert [o][0].faults == Faults(false, false, false, false, false, false);
    RecordedRows(link, s, o);
    if IsRecorded(link, s, o) {
      var e := Entry(Opened, o.visitor, o.now);
      var ms := MarkerRows(Classify(s.log, o), o);
      NewestLateReturn(s.log, o);
      AppendKeepsMarks(s.log, e, ms);
    }
  }

  /** After any run of a new link a visitor's open is marked as a return exactly when that visitor had
      opened before and not within the last half hour. */
  lemma {:induction false} ReturnsMarkedAfterRun(link: Link, s: State, os: seq<Open>)
    requires NoFaults(os) && ReturnsAreMarked(s.log)
    ensures ReturnsAreMarked(Run(link, s, os).log)
    decreases |os|
  {
    if os != [] {
      var n := |os| - 1;
      ReturnsMarkedAfterRun(link, s, os[..n]);
      assert [os[n]][0] == os[n];
      ReturnStep(link, Run(link, s, os[..n]), os[n]);
    }
  }

  // ---- what a classification means

  /** Every open of this visitor is more than half an hour old. */
  ghost predicate AllLate(log: seq<Entry>, o: Open) {
    forall j :: 0 <= j < |log| && IsOpenOf(log[j], o.visitor) ==> o.now - log[j].at > HALF_HOUR
  }

  lemma OthersEmpty(log: seq<Entry>, visitor: string)
    ensures |Visitors(log) - {visitor}| == 0 <==> Visitors(log) <= {visitor}
  {
    assert Visitors(log) - {visitor} == {} <==> Visitors(log) <= {visitor};
  }

  /** A first open or a forward is a visitor that has not opened the link, or whose first access could not be
      read, alone or not, if the others could be counted; a return is one that has, but not lately. */
  lemma KindsExactly(log: seq<Entry>, o: Open)
    ensures var taken := o.visitor != "" && (o.faults.first || o.visitor !in Visitors(log)) && !o.faults.others;
            && (Classify(log, o) == FirstOpen <==> taken && Visitors(log) <= {o.visitor})
            && (Classify(log, o) == ForwardSignal <==> taken && !(Visitors(log) <= {o.visitor}))
    ensures Classify(log, o) == ReturnVisit
            <==> o.visitor in Visitors(log) && !o.faults.first && !o.faults.last && AllLate(log, o)
  {
    OthersEmpty(log, o.visitor);
    if o.visitor != "" { KnownIffVisitor(log, o.visitor); }
    if Known(log, o.visitor) { LastOpenIsLatest(log, o.visitor); }
  }
}
