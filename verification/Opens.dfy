/** Opens of one link: recording, the access limit and their classification
    (analytics/service.go:199-257, 375-410; queries.sql:932-947, 7128-7147). */
module Opens {
  type Time = int

  const RETURN_AFTER: int := 30 * 60 * 1_000_000_000

  datatype Event = Opened | Forward | Return

  /** A row of access_logs; "" is a visitor that is not known. */
  datatype Entry = Entry(event: Event, visitor: string, at: Time)

  datatype Link = Link(active: bool, maxAccess: Limit)
  datatype Limit = Unlimited | AtMost(n: nat)

  datatype State = State(count: nat, log: seq<Entry>)

  /** The database calls that fail during an open. */
  datatype Faults = Faults(dedup: bool, first: bool, others: bool, last: bool, insert: bool, marker: bool)

  /** One open; unseen is the duplicate checker's answer. */
  datatype Open = Open(visitor: string, now: Time, unseen: bool, faults: Faults)

  datatype Kind = FirstOpen | ForwardSignal | ReturnVisit | Plain

  datatype Error = Database | MaxAccessReached

  /** Notify(kind) is what the caller sends alerts about; Quiet asks for none. */
  datatype Outcome = Notify(kind: Kind) | Quiet | Failed(error: Error)

  predicate IsOpenOf(e: Entry, visitor: string) { e.event == Opened && e.visitor == visitor }

  predicate Known(log: seq<Entry>, visitor: string) {
    exists i | 0 <= i < |log| :: IsOpenOf(log[i], visitor)
  }

  /** MAX(created_at) over the visitor's opens. */
  function LastOpen(log: seq<Entry>, visitor: string): Time
    requires Known(log, visitor)
  {
    var n := |log| - 1;
    if !Known(log[..n], visitor) then log[n].at
    else
      var before := LastOpen(log[..n], visitor);
      if IsOpenOf(log[n], visitor) && log[n].at > before then log[n].at else before
  }

  /** The visitors that have opened the link. */
  function Visitors(log: seq<Entry>): set<string> {
    set i | 0 <= i < |log| && log[i].event == Opened && log[i].visitor != "" :: log[i].visitor
  }

  /** DetectForwardOrReturn: a failing first read makes any visitor a new one. */
  function Classify(log: seq<Entry>, o: Open): Kind {
    if o.visitor == "" then Plain
    else if o.faults.first || !Known(log, o.visitor) then
      if o.faults.others then Plain
      else if |Visitors(log) - {o.visitor}| > 0 then ForwardSignal
      else FirstOpen
    else if o.faults.last then Plain
    else if o.now - LastOpen(log, o.visitor) > RETURN_AFTER then ReturnVisit
    else Plain
  }

  predicate Admits(link: Link, count: nat) {
    link.active && (link.maxAccess.AtMost? ==> count < link.maxAccess.n)
  }

  function MarkerRows(kind: Kind, o: Open): seq<Entry> {
    if o.faults.marker then []
    else if kind == ForwardSignal then [Entry(Forward, o.visitor, o.now)]
    else if kind == ReturnVisit then [Entry(Return, o.visitor, o.now)]
    else []
  }

  function Notice(kind: Kind): Outcome {
    if kind == FirstOpen || kind == ForwardSignal then Notify(kind) else Quiet
  }

  predicate IsRecorded(link: Link, s: State, o: Open) {
    !o.faults.dedup && o.unseen && !o.faults.insert && Admits(link, s.count)
  }

  /** RecordClassifiedOpen */
  function Record(link: Link, s: State, o: Open): (State, Outcome) {
    if o.faults.dedup then (s, Failed(Database))
    else if !o.unseen then (s, Quiet)
    else if o.faults.insert then (s, Failed(Database))
    else if !Admits(link, s.count) then (s, Failed(MaxAccessReached))
    else
      var kind := Classify(s.log, o);
      (State(s.count + 1, s.log + [Entry(Opened, o.visitor, o.now)] + MarkerRows(kind, o)), Notice(kind))
  }

  class OpenLog {
    const link: Link
    var count: nat
    var log: seq<Entry>

    constructor (link: Link)
      ensures this.link == link && Contents() == State(0, [])
    {
      this.link := link;
      count, log := 0, [];
    }

    function Contents(): State
      reads this
    {
      State(count, log)
    }

    method Detect(o: Open) returns (kind: Kind)
      ensures kind == Classify(log, o)
    {
      if o.visitor == "" { return Plain; }
      var isNew := o.faults.first || !Known(log, o.visitor);
      if isNew {
        if o.faults.others { return Plain; }
        var others := |Visitors(log) - {o.visitor}|;
        if others > 0 { return ForwardSignal; }
        return FirstOpen;
      }
      if o.faults.last { return Plain; }
      var last := LastOpen(log, o.visitor);
      if o.now - last > RETURN_AFTER { return ReturnVisit; }
      return Plain;
    }

    /** The counter and the row go together: neither changes when the link takes no more opens. */
    method RecordLinkOpened(o: Open) returns (recorded: bool, error: Outcome)
      modifies this
      ensures recorded <==> IsRecorded(link, old(Contents()), o)
      ensures Contents() == if recorded then State(old(count) + 1, old(log) + [Entry(Opened, o.visitor, o.now)])
                            else old(Contents())
      ensures !recorded ==> error == Record(link, old(Contents()), o).1
    {
      if o.faults.dedup { return false, Failed(Database); }
      if !o.unseen { return false, Quiet; }
      if o.faults.insert { return false, Failed(Database); }
      if !Admits(link, count) { return false, Failed(MaxAccessReached); }
      count := count + 1;
      log := log + [Entry(Opened, o.visitor, o.now)];
      return true, Quiet;
    }

    method RecordClassifiedOpen(o: Open) returns (r: Outcome)
      modifies this
      ensures (Contents(), r) == Record(link, old(Contents()), o)
    {
      var kind := Detect(o);
      var recorded, error := RecordLinkOpened(o);
      if !recorded { return error; }
      if kind == ForwardSignal && !o.faults.marker {
        log := log + [Entry(Forward, o.visitor, o.now)];
      } else if kind == ReturnVisit && !o.faults.marker {
        log := log + [Entry(Return, o.visitor, o.now)];
      } else {
        assert log + [] == log;
      }
      if kind == FirstOpen || kind == ForwardSignal { return Notify(kind); }
      return Quiet;
    }
  }
}
