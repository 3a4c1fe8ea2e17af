/** The billing event applier: billing/apply.go over workspace_billing and billing_stripe_events
    (queries.sql:3544-3623).  "" stands for a NULL text column. */
module Billing {
  import opened GoStrings
  import opened Options
  import opened Prices

  type WorkspaceId = string
  type Time = int

  const ACTIVE := "active"
  const PAST_DUE := "past_due"
  const CANCELED := "canceled"

  datatype Row = Row(plan: string, period: string, customer: string, subscription: string, price: string,
                     status: string, periodEnd: Option<Time>, pastDueAt: Option<Time>)

  /** What uuid.Parse makes of the trimmed workspace id of an event. */
  datatype WorkspaceRef = NoWorkspace | Malformed | Workspace(id: WorkspaceId)

  datatype View = View(workspace: WorkspaceRef, subscription: string, customer: string, status: string,
                       price: string, plan: string, period: string, periodEnd: Option<Time>)

  datatype Parsed = OtherEvent | Undecodable | Subscription(view: View)

  datatype Fault = NoFault | BeginFails | ClaimFails | ReadFails | WriteFails | CommitFails

  /** One delivery of an event: the time, the workspaces that exist then, and the database call
      that fails, if any. */
  datatype Delivery = Delivery(id: string, parsed: Parsed, now: Time, known: set<WorkspaceId>, fault: Fault)

  datatype Error = Decode | Database | MissingWorkspace | CustomerMismatch | UnknownPrice

  datatype Outcome = Done | Failed(error: Error)

  datatype State = State(claimed: set<string>, billing: map<WorkspaceId, Row>)

  const NEVER_BILLED := Row("", "", "", "", "", "", None, None)

  /** plan/catalog.go:263-272 */
  function NormalizePeriod(period: string): string {
    var p := ToLower(TrimSpace(period));
    if p == MONTHLY || p == "" then MONTHLY
    else if p == YEARLY || p == "annual" || p == "annually" then YEARLY
    else ""
  }

  /** apply.go:214-221 */
  predicate HasActiveSubscription(row: Row) {
    var st := ToLower(TrimSpace(row.status));
    st == ACTIVE || st == PAST_DUE
  }

  datatype Terms =
    | NoTerms
    | NoSuchPrice
    | Terms(plan: string, period: string, status: string, subscription: string, price: string)

  function PaidPlan(view: View, c: Catalog): Option<Sku> {
    var price := TrimSpace(view.price);
    if price != "" then LookupPrice(c, price)
    else
      var plan, period := ToLower(TrimSpace(view.plan)), NormalizePeriod(view.period);
      if (plan == PRO || plan == BUSINESS) && period != "" then Some(Sku(plan, period)) else None
  }

  function PaidStatus(st: string): Option<string> {
    if st == "past_due" then Some(PAST_DUE)
    else if st == "active" || st == "trialing" || st == "" then Some(ACTIVE)
    else None
  }

  /** resolveApply (apply.go:168-202). */
  function ResolveApply(view: View, c: Catalog): Terms {
    var st := ToLower(TrimSpace(view.status));
    if st == "canceled" || st == "unpaid" || st == "incomplete_expired" then
      Terms(FREE, MONTHLY, CANCELED, "", "")
    else if st == "incomplete" || st == "paused" then NoTerms
    else
      var sku := PaidPlan(view, c);
      if sku.None? then NoSuchPrice
      else
        var status := PaidStatus(st);
        if status.None? then NoTerms
        else Terms(sku.value.plan, sku.value.period, status.value, view.subscription, TrimSpace(view.price))
  }

  /** The row ApplyStripeWorkspaceBilling leaves behind. */
  function NewRow(existing: Row, view: View, terms: Terms, now: Time): Row
    requires terms.Terms?
  {
    var pastDueAt :=
      if terms.status != PAST_DUE then None
      else if existing.status == PAST_DUE && existing.pastDueAt.Some? then existing.pastDueAt
      else Some(now);
    Row(terms.plan, terms.period,
        if TrimSpace(view.customer) != "" then TrimSpace(view.customer) else existing.customer,
        TrimSpace(terms.subscription), TrimSpace(terms.price), terms.status, view.periodEnd, pastDueAt)
  }

  ghost predicate Owns(billing: map<WorkspaceId, Row>, w: WorkspaceId, customer: string) {
    w in billing && billing[w].customer == customer
  }

  /** The row with a customer id; the unique index leaves one at most. */
  ghost function Owner(billing: map<WorkspaceId, Row>, customer: string): Option<WorkspaceId> {
    if exists w :: Owns(billing, w, customer) then
      var w :| Owns(billing, w, customer);
      Some(w)
    else None
  }

  ghost predicate UniqueCustomers(billing: map<WorkspaceId, Row>) {
    forall v, w :: v in billing && w in billing && billing[v].customer == billing[w].customer != "" ==> v == w
  }

  predicate Taken(billing: map<WorkspaceId, Row>, ws: WorkspaceId, customer: string) {
    customer != "" && exists w | w in billing.Keys :: w != ws && billing[w].customer == customer
  }

  datatype Resolved = Nobody | Refused(error: Error) | Found(ws: WorkspaceId, existing: Row)

  function RowOf(billing: map<WorkspaceId, Row>, w: WorkspaceId): Row {
    if w in billing then billing[w] else NEVER_BILLED
  }

  /** resolveWorkspace (apply.go:133-166). */
  ghost function ResolveWorkspace(billing: map<WorkspaceId, Row>, view: View, d: Delivery): Resolved {
    match view.workspace
    case Malformed => Refused(MissingWorkspace)
    case Workspace(w) =>
      if d.fault.ReadFails? then Refused(Database)
      else if w !in d.known then Nobody
      else Found(w, RowOf(billing, w))
    case NoWorkspace =>
      if TrimSpace(view.customer) == "" then Refused(MissingWorkspace)
      else if d.fault.ReadFails? then Refused(Database)
      else
        var w := Owner(billing, TrimSpace(view.customer));
        if w.None? then Nobody else Found(w.value, RowOf(billing, w.value))
  }

  datatype Change = Nothing | Refusal(error: Error) | Write(ws: WorkspaceId, row: Row)

  function ChangeOf(billing: map<WorkspaceId, Row>, ws: WorkspaceId, existing: Row, view: View, c: Catalog,
                    d: Delivery): Change
  {
    if existing.customer != "" && view.customer != "" && existing.customer != view.customer then
      Refusal(CustomerMismatch)
    else
      match ResolveApply(view, c)
      case NoTerms => Nothing
      case NoSuchPrice => Refusal(UnknownPrice)
      case Terms(_, _, _, _, _) =>
        var row := NewRow(existing, view, ResolveApply(view, c), d.now);
        if d.fault.WriteFails? || Taken(billing, ws, row.customer) then Refusal(Database) else Write(ws, row)
  }

  /** applyView (apply.go:80-131): what the event does to the billing table. */
  ghost function ApplyView(billing: map<WorkspaceId, Row>, view: View, c: Catalog, d: Delivery): Change {
    match ResolveWorkspace(billing, view, d)
    case Nobody => Nothing
    case Refused(e) => Refusal(e)
    case Found(ws, existing) => ChangeOf(billing, ws, existing, view, c, d)
  }

  function Changed(billing: map<WorkspaceId, Row>, change: Change): map<WorkspaceId, Row> {
    if change.Write? then billing[change.ws := change.row] else billing
  }

  /** handleIn (apply.go:66-78), the claim and the change as the queries make them. */
  ghost function HandleIn(s: State, view: View, c: Catalog, d: Delivery): (State, Outcome) {
    if d.fault.ClaimFails? then (s, Failed(Database))
    else if d.id in s.claimed then (s, Done)
    else
      var change := ApplyView(s.billing, view, c, d);
      (State(s.claimed + {d.id}, Changed(s.billing, change)),
       if change.Refusal? then Failed(change.error) else Done)
  }

  /** HandleEvent with a transaction (apply.go:41-64). */
  ghost function HandleEvent(s: State, c: Catalog, d: Delivery): (State, Outcome) {
    match d.parsed
    case OtherEvent => (s, Done)
    case Undecodable => (s, Failed(Decode))
    case Subscription(view) =>
      if d.fault.BeginFails? then (s, Failed(Database))
      else
        var (t, r) := HandleIn(s, view, c, d);
        if r.Failed? then (s, r)
        else if d.fault.CommitFails? then (s, Failed(Database))
        else (t, r)
  }

  /** HandleEvent of an applier that was given no transaction starter (apply.go:49-51). */
  ghost function HandleEventBare(s: State, c: Catalog, d: Delivery): (State, Outcome) {
    match d.parsed
    case OtherEvent => (s, Done)
    case Undecodable => (s, Failed(Decode))
    case Subscription(view) => HandleIn(s, view, c, d)
  }

  lemma WriteKeepsUnique(billing: map<WorkspaceId, Row>, ws: WorkspaceId, row: Row)
    requires UniqueCustomers(billing) && !Taken(billing, ws, row.customer)
    ensures UniqueCustomers(billing[ws := row])
  {}

  /** The applier and the two tables it writes. */
  class Applier {
    const prices: Catalog
    const transactional: bool
    var claimed: set<string>
    var billing: map<WorkspaceId, Row>

    constructor (prices: Catalog, transactional: bool, billing: map<WorkspaceId, Row>)
      requires UniqueCustomers(billing)
      ensures this.prices == prices && this.transactional == transactional
      ensures Contents() == State({}, billing) && Valid()
    {
      this.prices := prices;
      this.transactional := transactional;
      this.claimed := {};
      this.billing := billing;
    }

    ghost function Contents(): State
      reads this
    {
      State(claimed, billing)
    }

    ghost predicate Valid()
      reads this
    {
      UniqueCustomers(billing)
    }

    method FindWorkspace(view: View, d: Delivery) returns (r: Resolved)
      requires Valid()
      ensures r == ResolveWorkspace(billing, view, d)
    {
      match view.workspace {
        case Malformed => return Refused(MissingWorkspace);
        case Workspace(w) =>
          if d.fault.ReadFails? { return Refused(Database); }
          if w !in d.known { return Nobody; }
          return Found(w, RowOf(billing, w));
        case NoWorkspace =>
          var customer := TrimSpace(view.customer);
          if customer == "" { return Refused(MissingWorkspace); }
          if d.fault.ReadFails? { return Refused(Database); }
          if w :| w in billing.Keys && billing[w].customer == customer {
            assert Owns(billing, w, customer);
            return Found(w, billing[w]);
          }
          assert forall w :: !Owns(billing, w, customer);
          return Nobody;
      }
    }

    method ApplyEvent(view: View, d: Delivery) returns (r: Outcome)
      requires Valid()
      modifies this`billing
      ensures var change := ApplyView(old(billing), view, prices, d);
              && billing == Changed(old(billing), change)
              && r == if change.Refusal? then Failed(change.error) else Done
      ensures Valid()
    {
      var found := FindWorkspace(view, d);
      if found.Nobody? { return Done; }
      if found.Refused? { return Failed(found.error); }
      var existing := found.existing;
      if existing.customer != "" && view.customer != "" && existing.customer != view.customer {
        return Failed(CustomerMismatch);
      }
      var terms := ResolveApply(view, prices);
      if terms.NoTerms? { return Done; }
      if terms.NoSuchPrice? { return Failed(UnknownPrice); }
      var row := NewRow(existing, view, terms, d.now);
      if d.fault.WriteFails? || Taken(billing, found.ws, row.customer) { return Failed(Database); }
      WriteKeepsUnique(billing, found.ws, row);
      billing := billing[found.ws := row];
      return Done;
    }

    method Claim(view: View, d: Delivery) returns (r: Outcome)
      requires Valid()
      modifies this
      ensures (Contents(), r) == HandleIn(old(Contents()), view, prices, d)
      ensures Valid()
    {
      if d.fault.ClaimFails? { return Failed(Database); }
      if d.id in claimed { return Done; }
      claimed := claimed + {d.id};
      r := ApplyEvent(view, d);
    }

    /** A transaction that does not commit puts both tables back. */
    method Handle(d: Delivery) returns (r: Outcome)
      requires Valid()
      modifies this
      ensures (Contents(), r) == if transactional then HandleEvent(old(Contents()), prices, d)
                                 else HandleEventBare(old(Contents()), prices, d)
      ensures Valid()
    {
      if d.parsed.OtherEvent? { return Done; }
      if d.parsed.Undecodable? { return Failed(Decode); }
      if !transactional {
        r := Claim(d.parsed.view, d);
        return;
      }
      if d.fault.BeginFails? { return Failed(Database); }
      var claimedBefore, billingBefore := claimed, billing;
      r := Claim(d.parsed.view, d);
      if r.Done? && d.fault.CommitFails? { r := Failed(Database); }
      if r.Failed? { claimed, billing := claimedBefore, billingBefore; }
    }
  }
}
