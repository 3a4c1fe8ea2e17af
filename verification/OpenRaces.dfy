/** Opens of one link that arrive together: analytics/service.go:199-257 and 375-410 as the statements of
    concurrent requests, each statement being atomic. */
module OpenRaces {
  import opened Opens
  import opened OpenLaws
  import opened Sums

  /** What a request does next: ask for its visitor's first access, then count the other visitors or read
      the last access, then record the open, then its marker.  Over is an open that was not recorded. */
  datatype Stage =
    | Asking
    | Counting
    | Dating
    | Recording(kind: Kind)
    | Marking(kind: Kind, known: bool)
    | Recorded(kind: Kind, known: bool)
    | Over

  /** unknown says that the visitor had not been recorded when the request asked, known of a recorded open
      that the visitor had been when it was recorded; counted is how many rows there were when the request
      counted the others. */
  datatype Request = Request(open: Open, unknown: bool, counted: nat, stage: Stage)

  datatype Traffic = Traffic(count: nat, log: seq<Entry>, requests: seq<Request>)

  datatype Action =
    | Arrive(open: Open)
    | Ask(request: nat)
    | CountOthers(request: nat)
    | ReadLast(request: nat)
    | RecordOpen(request: nat)
    | Mark(request: nat)

  predicate Enabled(s: Traffic, a: Action) {
    match a
    case Arrive(_) => true
    case Ask(k) => k < |s.requests| && s.requests[k].stage.Asking?
    case CountOthers(k) => k < |s.requests| && s.requests[k].stage.Counting?
    case ReadLast(k) => k < |s.requests| && s.requests[k].stage.Dating?
    case RecordOpen(k) => k < |s.requests| && s.requests[k].stage.Recording?
    case Mark(k) => k < |s.requests| && s.requests[k].stage.Marking?
  }

  function Moved(s: Traffic, k: nat, stage: Stage): Traffic
    requires k < |s.requests|
  {
    s.(requests := s.requests[k := s.requests[k].(stage := stage)])
  }

  function Arrived(o: Open): Request { Request(o, false, 0, Asking) }

  function Asked(s: Traffic, k: nat): Traffic
    requires k < |s.requests|
  {
    var q := s.requests[k];
    var o := q.open;
    if o.visitor == "" then Moved(s, k, Recording(Plain))
    else
      var unknown := !Known(s.log, o.visitor);
      var next := if o.faults.first || unknown then Counting else Dating;
      s.(requests := s.requests[k := q.(unknown := unknown, stage := next)])
  }

  function CountedKind(log: seq<Entry>, o: Open): Kind {
    if o.faults.others then Plain
    else if |Visitors(log) - {o.visitor}| > 0 then ForwardSignal
    else FirstOpen
  }

  function DatedKind(log: seq<Entry>, o: Open): Kind {
    if !o.faults.last && Known(log, o.visitor) && o.now - LastOpen(log, o.visitor) > RETURN_AFTER then ReturnVisit
    else Plain
  }

  function RecordStep(link: Link, s: Traffic, k: nat): Traffic
    requires k < |s.requests| && s.requests[k].stage.Recording?
  {
    var o := s.requests[k].open;
    if IsRecorded(link, Opens.State(s.count, s.log), o) then
      Moved(s.(count := s.count + 1, log := s.log + [Entry(Opened, o.visitor, o.now)]), k,
            Marking(s.requests[k].stage.kind, Known(s.log, o.visitor)))
    else Moved(s, k, Over)
  }

  function Do(link: Link, s: Traffic, a: Action): Traffic
    requires Enabled(s, a)
  {
    match a
    case Arrive(o) => s.(requests := s.requests + [Arrived(o)])
    case Ask(k) => Asked(s, k)
    case CountOthers(k) =>
      var q := s.requests[k];
      s.(requests := s.requests[k := q.(counted := |s.log|, stage := Recording(CountedKind(s.log, q.open)))])
    case ReadLast(k) => Moved(s, k, Recording(DatedKind(s.log, s.requests[k].open)))
    case RecordOpen(k) => RecordStep(link, s, k)
    case Mark(k) =>
      var q := s.requests[k];
      Moved(s.(log := s.log + MarkerRows(q.stage.kind, q.open)), k, Recorded(q.stage.kind, q.stage.known))
  }

  predicate CanRun(link: Link, s: Traffic, actions: seq<Action>)
    decreases |actions|
  {
    actions == [] || (Enabled(s, actions[0]) && CanRun(link, Do(link, s, actions[0]), actions[1..]))
  }

  function Run(link: Link, s: Traffic, actions: seq<Action>): Traffic
    requires CanRun(link, s, actions)
    decreases |actions|
  {
    if actions == [] then s else Run(link, Do(link, s, actions[0]), actions[1..])
  }

  // ---- what a request knows

  predicate IsAlert(kind: Kind) { kind == FirstOpen || kind == ForwardSignal }

  /** Was the visitor taken for a new one, and could the others be counted? */
  predicate TakenForNew(q: Request) {
    q.open.visitor != "" && (q.open.faults.first || q.unknown) && !q.open.faults.others
  }

  predicate HasKind(stage: Stage) { stage.Recording? || stage.Marking? || stage.Recorded? }

  predicate IsIn(stage: Stage) { stage.Marking? || stage.Recorded? }

  predicate Consistent(log: seq<Entry>, q: Request) {
    && (q.stage.Counting? ==> q.open.visitor != "" && (q.open.faults.first || q.unknown))
    && (q.stage.Dating? ==> !q.open.faults.first && !q.unknown)
    && (HasKind(q.stage) ==> (IsAlert(q.stage.kind) <==> TakenForNew(q)))
    && (!q.stage.Asking? && !q.stage.Over? && q.open.visitor != "" && !q.unknown ==> q.open.visitor in Visitors(log))
    && (IsIn(q.stage) && q.open.visitor != "" && !q.unknown ==> q.stage.known)
  }

  /** A first-open alert goes with the opens that counted before anybody else was recorded. */
  predicate CountedAlone(log: seq<Entry>, q: Request) {
    && q.counted <= |log|
    && (HasKind(q.stage) ==>
         (q.stage.kind == FirstOpen <==> TakenForNew(q) && Visitors(log[..q.counted]) <= {q.open.visitor}))
  }

  ghost predicate AllConsistent(s: Traffic) {
    forall k :: 0 <= k < |s.requests| ==> Consistent(s.log, s.requests[k])
  }

  ghost predicate AllCountedAlone(s: Traffic) {
    forall k :: 0 <= k < |s.requests| ==> CountedAlone(s.log, s.requests[k])
  }

  /** Markers and opens only add visitors. */
  lemma ActionKeepsVisitors(link: Link, s: Traffic, a: Action)
    requires Enabled(s, a)
    ensures Visitors(s.log) <= Visitors(Do(link, s, a).log)
  {
    if a.RecordOpen? {
      var o := s.requests[a.request].open;
      VisitorsOneMore(s.log, Entry(Opened, o.visitor, o.now));
    } else if a.Mark? {
      MarkersKeepVisitors(s.log, s.requests[a.request].stage.kind, s.requests[a.request].open);
    }
  }

  lemma ConsistentLater(log: seq<Entry>, after: seq<Entry>, q: Request)
    requires Consistent(log, q) && Visitors(log) <= Visitors(after)
    ensures Consistent(after, q)
  {}

  lemma AskingIsConsistent(link: Link, s: Traffic, k: nat)
    requires Enabled(s, Ask(k))
    ensures Consistent(s.log, Asked(s, k).requests[k])
  {
    var o := s.requests[k].open;
    if o.visitor != "" { KnownIffVisitor(s.log, o.visitor); }
  }

  lemma RecordingIsConsistent(link: Link, s: Traffic, k: nat)
    requires Enabled(s, RecordOpen(k)) && Consistent(s.log, s.requests[k])
    ensures Consistent(Do(link, s, RecordOpen(k)).log, Do(link, s, RecordOpen(k)).requests[k])
  {
    var o := s.requests[k].open;
    ActionKeepsVisitors(link, s, RecordOpen(k));
    if o.visitor != "" { KnownIffVisitor(s.log, o.visitor); }
  }

  lemma OwnStepIsConsistent(link: Link, s: Traffic, a: Action)
    requires Enabled(s, a) && !a.Arrive? && Consistent(s.log, s.requests[a.request])
    ensures Consistent(Do(link, s, a).log, Do(link, s, a).requests[a.request])
  {
    ActionKeepsVisitors(link, s, a);
    if a.Ask? {
      AskingIsConsistent(link, s, a.request);
    } else if a.RecordOpen? {
      RecordingIsConsistent(link, s, a.request);
    }
  }

  lemma ActionKeepsConsistent(link: Link, s: Traffic, a: Action)
    requires Enabled(s, a) && AllConsistent(s)
    ensures AllConsistent(Do(link, s, a))
  {
    var t := Do(link, s, a);
    ActionKeepsVisitors(link, s, a);
    forall k | 0 <= k < |t.requests| ensures Consistent(t.log, t.requests[k]) {
      if k < |s.requests| {
        if a.Arrive? || a.request != k {
          ConsistentLater(s.log, t.log, s.requests[k]);
        } else {
          OwnStepIsConsistent(link, s, a);
        }
      }
    }
  }

  lemma LogGrows(link: Link, s: Traffic, a: Action)
    requires Enabled(s, a)
    ensures s.log <= Do(link, s, a).log
  {}

  lemma CountedLater(log: seq<Entry>, after: seq<Entry>, q: Request)
    requires CountedAlone(log, q) && log <= after
    ensures CountedAlone(after, q)
  {
    assert after[..q.counted] == log[..q.counted];
  }

  lemma CountingIsCountedAlone(link: Link, s: Traffic, k: nat)
    requires Enabled(s, CountOthers(k)) && Consistent(s.log, s.requests[k])
    ensures CountedAlone(s.log, Do(link, s, CountOthers(k)).requests[k])
  {
    var v := s.requests[k].open.visitor;
    assert s.log[..|s.log|] == s.log;
    assert |Visitors(s.log) - {v}| == 0 <==> Visitors(s.log) - {v} == {};
    assert Visitors(s.log) - {v} == {} <==> Visitors(s.log) <= {v};
  }

  lemma OwnStepIsCountedAlone(link: Link, s: Traffic, a: Action)
    requires Enabled(s, a) && !a.Arrive?
    requires Consistent(s.log, s.requests[a.request]) && CountedAlone(s.log, s.requests[a.request])
    ensures CountedAlone(Do(link, s, a).log, Do(link, s, a).requests[a.request])
  {
    LogGrows(link, s, a);
    if a.CountOthers? {
      CountingIsCountedAlone(link, s, a.request);
    } else {
      CountedLater(s.log, Do(link, s, a).log, s.requests[a.request]);
    }
  }

  lemma ActionKeepsCountedAlone(link: Link, s: Traffic, a: Action)
    requires Enabled(s, a) && AllConsistent(s) && AllCountedAlone(s)
    ensures AllCountedAlone(Do(link, s, a))
  {
    var t := Do(link, s, a);
    LogGrows(link, s, a);
    forall k | 0 <= k < |t.requests| ensures CountedAlone(t.log, t.requests[k]) {
      if k < |s.requests| {
        if a.Arrive? || a.request != k {
          CountedLater(s.log, t.log, s.requests[k]);
        } else {
          OwnStepIsCountedAlone(link, s, a);
        }
      }
    }
  }

  lemma {:induction false} RunKeepsCountedAlone(link: Link, s: Traffic, actions: seq<Action>)
    requires CanRun(link, s, actions) && AllConsistent(s) && AllCountedAlone(s)
    ensures AllCountedAlone(Run(link, s, actions))
    decreases |actions|
  {
    if actions != [] {
      ActionKeepsConsistent(link, s, actions[0]);
      ActionKeepsCountedAlone(link, s, actions[0]);
      RunKeepsCountedAlone(link, Do(link, s, actions[0]), actions[1..]);
    }
  }

  /** In every interleaving a request sends a first-open alert, once its open is recorded, exactly when it was
      taken for new and nobody else's open had been recorded when it counted the others. */
  lemma FirstOpenExactly(link: Link, log: seq<Entry>, count: nat, actions: seq<Action>, k: nat)
    requires CanRun(link, Traffic(count, log, []), actions)
    requires k < |Run(link, Traffic(count, log, []), actions).requests|
    ensures var t := Run(link, Traffic(count, log, []), actions);
            var q := t.requests[k];
            HasKind(q.stage) ==>
              q.counted <= |t.log| &&
              (q.stage.kind == FirstOpen <==> TakenForNew(q) && Visitors(t.log[..q.counted]) <= {q.open.visitor})
  {
    RunKeepsCountedAlone(link, Traffic(count, log, []), actions);
    assert CountedAlone(Run(link, Traffic(count, log, []), actions).log,
                        Run(link, Traffic(count, log, []), actions).requests[k]);
  }

  // ---- how many alerts there are

  function One(holds: bool): int { if holds then 1 else 0 }

  /** A recorded open that sends an alert. */
  function Alerting(): Request -> int { (q: Request) => One(IsIn(q.stage) && IsAlert(q.stage.kind)) }

  /** The visitor's first recorded open. */
  predicate IsNewcomer(q: Request) { IsIn(q.stage) && q.open.visitor != "" && !q.stage.known }

  function Newcomers(): Request -> int { (q: Request) => One(IsNewcomer(q)) }

  /** A first recorded open without an alert: the count of the others failed. */
  function SilencedOnes(): Request -> int { (q: Request) => One(IsNewcomer(q) && q.open.faults.others) }

  /** A later open of its visitor with an alert: when it asked nobody had recorded the visitor, or its question
      failed. */
  function Repeats(): Request -> int { (q: Request) => One(IsIn(q.stage) && q.stage.known && TakenForNew(q)) }

  lemma AlertOfRequest(log: seq<Entry>, q: Request)
    requires Consistent(log, q)
    ensures Alerting()(q) + SilencedOnes()(q) == Newcomers()(q) + Repeats()(q)
  {}

  lemma {:induction false} SumsOfAlerts(log: seq<Entry>, qs: seq<Request>)
    requires forall k :: 0 <= k < |qs| ==> Consistent(log, qs[k])
    ensures Sum(qs, Alerting()) + Sum(qs, SilencedOnes()) == Sum(qs, Newcomers()) + Sum(qs, Repeats())
  {
    if qs != [] {
      SumsOfAlerts(log, qs[..|qs| - 1]);
      AlertOfRequest(log, qs[|qs| - 1]);
    }
  }

  lemma RecordingCounts(link: Link, s: Traffic, k: nat)
    requires Enabled(s, RecordOpen(k))
    ensures var t := RecordStep(link, s, k);
            |Visitors(t.log)| - |Visitors(s.log)| == Newcomers()(t.requests[k]) - Newcomers()(s.requests[k])
  {
    var o := s.requests[k].open;
    VisitorsOneMore(s.log, Entry(Opened, o.visitor, o.now));
    NewVisitorCounts(Visitors(s.log), o.visitor);
    if o.visitor != "" { KnownIffVisitor(s.log, o.visitor); }
    if o.visitor in Visitors(s.log) { assert Visitors(s.log) + {o.visitor} == Visitors(s.log); }
  }

  lemma OwnStepCounts(link: Link, s: Traffic, a: Action)
    requires Enabled(s, a) && !a.Arrive?
    ensures var t := Do(link, s, a);
            && |t.requests| == |s.requests| && t.requests == s.requests[a.request := t.requests[a.request]]
            && |Visitors(t.log)| - |Visitors(s.log)|
               == Newcomers()(t.requests[a.request]) - Newcomers()(s.requests[a.request])
  {
    if a.RecordOpen? {
      RecordingCounts(link, s, a.request);
    } else if a.Mark? {
      MarkersKeepVisitors(s.log, s.requests[a.request].stage.kind, s.requests[a.request].open);
    }
  }

  /** Visitors and newcomers grow together. */
  lemma NewcomerStep(link: Link, s: Traffic, a: Action)
    requires Enabled(s, a)
    ensures |Visitors(Do(link, s, a).log)| - |Visitors(s.log)|
            == Sum(Do(link, s, a).requests, Newcomers()) - Sum(s.requests, Newcomers())
  {
    if a.Arrive? {
      SumAppended(s.requests, Arrived(a.open), Newcomers());
    } else {
      OwnStepCounts(link, s, a);
      SumUpdated(s.requests, a.request, Do(link, s, a).requests[a.request], Newcomers());
    }
  }

  lemma {:induction false} RunCounts(link: Link, s: Traffic, actions: seq<Action>)
    requires CanRun(link, s, actions) && AllConsistent(s)
    ensures AllConsistent(Run(link, s, actions))
    ensures |Visitors(Run(link, s, actions).log)| - |Visitors(s.log)|
            == Sum(Run(link, s, actions).requests, Newcomers()) - Sum(s.requests, Newcomers())
    decreases |actions|
  {
    if actions != [] {
      ActionKeepsConsistent(link, s, actions[0]);
      NewcomerStep(link, s, actions[0]);
      RunCounts(link, Do(link, s, actions[0]), actions[1..]);
    }
  }

  /** Without another request in between a request is classified as Classify says. */
  lemma AloneIsClassify(link: Link, s: Traffic, k: nat)
    requires Enabled(s, Ask(k))
    ensures var t, o := Asked(s, k), s.requests[k].open;
            && (t.requests[k].stage.Recording? || t.requests[k].stage.Counting? || t.requests[k].stage.Dating?)
            && (t.requests[k].stage.Recording? ==> t.requests[k].stage.kind == Classify(s.log, o))
            && (t.requests[k].stage.Counting? ==> CountedKind(t.log, o) == Classify(s.log, o))
            && (t.requests[k].stage.Dating? ==> DatedKind(t.log, o) == Classify(s.log, o))
  {}

  /** In every interleaving, whatever fails: the recorded opens with an alert and the silenced newcomers are
      the new visitors and the repeats.  So without failing reads there is one alert more for each open that
      asked before its visitor's first open was recorded and was itself recorded after it. */
  lemma AlertsOfInterleaving(link: Link, log: seq<Entry>, count: nat, actions: seq<Action>)
    requires CanRun(link, Traffic(count, log, []), actions)
    ensures var t := Run(link, Traffic(count, log, []), actions);
            Sum(t.requests, Alerting()) + Sum(t.requests, SilencedOnes())
            == |Visitors(t.log)| - |Visitors(log)| + Sum(t.requests, Repeats())
  {
    RunCounts(link, Traffic(count, log, []), actions);
    SumsOfAlerts(Run(link, Traffic(count, log, []), actions).log, Run(link, Traffic(count, log, []), actions).requests);
  }

  // ---- the access limit

  /** An open that has been recorded. */
  function Entered(): Request -> int { (q: Request) => One(IsIn(q.stage)) }

  lemma RowsOfAction(link: Link, s: Traffic, a: Action)
    requires Enabled(s, a)
    ensures Rows(Do(link, s, a).log, Opened) - Rows(s.log, Opened) == Do(link, s, a).count - s.count
  {
    if a.RecordOpen? {
      var o := s.requests[a.request].open;
      RowsOneMore(s.log, Entry(Opened, o.visitor, o.now), Opened);
    } else if a.Mark? {
      MarkersKeepVisitors(s.log, s.requests[a.request].stage.kind, s.requests[a.request].open);
    }
  }

  lemma EnteredByAction(link: Link, s: Traffic, a: Action)
    requires Enabled(s, a)
    ensures var t := Do(link, s, a); Sum(t.requests, Entered()) - Sum(s.requests, Entered()) == t.count - s.count
  {
    var t := Do(link, s, a);
    if a.Arrive? {
      SumAppended(s.requests, Arrived(a.open), Entered());
    } else {
      assert t.requests == s.requests[a.request := t.requests[a.request]];
      SumUpdated(s.requests, a.request, t.requests[a.request], Entered());
    }
  }

  lemma LimitOfAction(link: Link, s: Traffic, a: Action)
    requires Enabled(s, a)
    ensures var t := Do(link, s, a); t.count > s.count ==> HasRoom(link, s.count) && t.count == s.count + 1
  {}

  /** In every interleaving, whatever fails, the counter is the number of rows and of requests that recorded
      their open; it never passes the limit, and an inactive link records nothing. */
  lemma {:induction false} CountIsOpensInterleaved(link: Link, s: Traffic, actions: seq<Action>)
    requires CanRun(link, s, actions) && s.count == Rows(s.log, Opened) == Sum(s.requests, Entered())
    requires link.maxAccess.AtMost? ==> s.count <= link.maxAccess.n
    ensures var t := Run(link, s, actions);
            && t.count == Rows(t.log, Opened) == Sum(t.requests, Entered())
            && (link.maxAccess.AtMost? ==> t.count <= link.maxAccess.n)
            && (!link.active ==> t.count <= s.count)
    decreases |actions|
  {
    if actions != [] {
      RowsOfAction(link, s, actions[0]);
      EnteredByAction(link, s, actions[0]);
      LimitOfAction(link, s, actions[0]);
      CountIsOpensInterleaved(link, Do(link, s, actions[0]), actions[1..]);
    }
  }
}
