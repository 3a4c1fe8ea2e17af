/** What each billing event brings about, by the words it carries (billing/apply.go:80-202). */
module BillingEffects {
  import opened Billing
  import BillingLaws
  import opened GoStrings
  import opened Options
  import opened Prices

  function Word(s: string): string { ToLower(TrimSpace(s)) }

  /** A first attempt at a new event, none of whose queries fails. */
  predicate IsFirst(s: State, d: Delivery, view: View) {
    d.parsed == Subscription(view) && d.id !in s.claimed && d.fault.NoFault?
  }

  /** The workspace that an event names, or else the one that has its customer. */
  predicate IsAbout(billing: map<WorkspaceId, Row>, d: Delivery, view: View, w: WorkspaceId) {
    || (view.workspace == Workspace(w) && w in d.known)
    || (view.workspace.NoWorkspace? && TrimSpace(view.customer) != "" &&
        w in billing && billing[w].customer == TrimSpace(view.customer))
  }

  /** The event names a workspace that is no id, or neither a workspace nor a customer. */
  predicate NamesNobody(view: View) {
    view.workspace.Malformed? || (view.workspace.NoWorkspace? && TrimSpace(view.customer) == "")
  }

  /** The workspace has another customer than the event. */
  predicate Differs(row: Row, view: View) {
    row.customer != "" && view.customer != "" && row.customer != view.customer
  }

  function CustomerAfter(row: Row, view: View): string {
    if TrimSpace(view.customer) == "" then row.customer else TrimSpace(view.customer)
  }

  /** Another workspace has the customer already. */
  ghost predicate IsTaken(billing: map<WorkspaceId, Row>, w: WorkspaceId, customer: string) {
    customer != "" && exists v :: v in billing && v != w && billing[v].customer == customer
  }

  function PastDueAfter(row: Row, status: string, now: Time): Option<Time> {
    if status != "past_due" then None
    else if row.status == "past_due" && row.pastDueAt.Some? then row.pastDueAt
    else Some(now)
  }

  /** The row of w is replaced, or the unique index refuses it; no other row changes. */
  ghost predicate Replaces(s: State, c: Catalog, d: Delivery, view: View, w: WorkspaceId, plan: string, period: string,
                           status: string, subscription: string, price: string)
  {
    var (t, r) := HandleEvent(s, c, d);
    var row := RowOf(s.billing, w);
    var customer := CustomerAfter(row, view);
    if IsTaken(s.billing, w, customer) then t == s && r == Failed(Database)
    else
      && r == Done && t.claimed == s.claimed + {d.id}
      && t.billing == s.billing[w := Row(plan, period, customer, subscription, price, status, view.periodEnd,
                                         PastDueAfter(row, status, d.now))]
  }

  predicate IsEnd(word: string) { word == "canceled" || word == "unpaid" || word == "incomplete_expired" }

  predicate IsPending(word: string) { word == "incomplete" || word == "paused" }

  predicate IsPaid(word: string) { word == "active" || word == "trialing" || word == "" }

  predicate NamesPeriod(text: string, period: string) {
    || (period == "monthly" && (Word(text) == "monthly" || Word(text) == ""))
    || (period == "yearly" && (Word(text) == "yearly" || Word(text) == "annual" || Word(text) == "annually"))
  }

  /** The price is on sale as that plan and period, or without one the event names a paid plan and a period. */
  predicate Buys(view: View, c: Catalog, plan: string, period: string) {
    if TrimSpace(view.price) != "" then LookupPrice(c, view.price) == Some(Sku(plan, period))
    else Word(view.plan) == plan && (plan == "pro" || plan == "business") && NamesPeriod(view.period, period)
  }

  // ---- the pieces

  lemma AboutIsFound(billing: map<WorkspaceId, Row>, d: Delivery, view: View, w: WorkspaceId)
    requires UniqueCustomers(billing) && IsAbout(billing, d, view, w)
    requires d.fault.NoFault? || d.fault.WriteFails?
    ensures ResolveWorkspace(billing, view, d) == Found(w, RowOf(billing, w))
  {
    if view.workspace.NoWorkspace? { assert Owns(billing, w, TrimSpace(view.customer)); }
  }

  lemma SaleIsPlan(view: View, c: Catalog, plan: string, period: string)
    ensures Buys(view, c, plan, period) <==> PaidPlan(view, c) == Some(Sku(plan, period))
  {
    BillingLaws.TrimTwice(view.price);
  }

  lemma NoSaleIsNoPlan(view: View, c: Catalog)
    ensures (exists plan, period :: Buys(view, c, plan, period)) <==> PaidPlan(view, c).Some?
  {
    if PaidPlan(view, c).Some? {
      var sku := PaidPlan(view, c).value;
      SaleIsPlan(view, c, sku.plan, sku.period);
    }
    forall plan, period ensures Buys(view, c, plan, period) <==> PaidPlan(view, c) == Some(Sku(plan, period)) {
      SaleIsPlan(view, c, plan, period);
    }
  }

  lemma FirstIsApplied(s: State, c: Catalog, d: Delivery, view: View)
    requires IsFirst(s, d, view)
    ensures var change, t := ApplyView(s.billing, view, c, d), HandleEvent(s, c, d);
            t == if change.Refusal? then (s, Failed(change.error))
                 else (State(s.claimed + {d.id}, Changed(s.billing, change)), Done)
  {}

  lemma TermsChange(s: State, c: Catalog, d: Delivery, view: View, w: WorkspaceId, terms: Terms)
    requires UniqueCustomers(s.billing) && IsAbout(s.billing, d, view, w) && !Differs(RowOf(s.billing, w), view)
    requires (d.fault.NoFault? || d.fault.WriteFails?) && terms.Terms? && ResolveApply(view, c) == terms
    ensures var row := NewRow(RowOf(s.billing, w), view, terms, d.now);
            ApplyView(s.billing, view, c, d)
            == if d.fault.WriteFails? || Taken(s.billing, w, row.customer) then Refusal(Database) else Write(w, row)
  {
    AboutIsFound(s.billing, d, view, w);
  }

  lemma TermsReplace(s: State, c: Catalog, d: Delivery, view: View, w: WorkspaceId, terms: Terms)
    requires IsFirst(s, d, view) && UniqueCustomers(s.billing) && IsAbout(s.billing, d, view, w)
    requires !Differs(RowOf(s.billing, w), view) && terms.Terms? && ResolveApply(view, c) == terms
    ensures Replaces(s, c, d, view, w, terms.plan, terms.period, terms.status, TrimSpace(terms.subscription),
                     TrimSpace(terms.price))
  {
    TermsChange(s, c, d, view, w, terms);
    FirstIsApplied(s, c, d, view);
    var customer := CustomerAfter(RowOf(s.billing, w), view);
    assert Taken(s.billing, w, customer) <==> IsTaken(s.billing, w, customer);
  }

  // ---- the effects

  /** A cancellation puts the workspace on the free plan, without a price or a subscription. */
  lemma EndFreesWorkspace(s: State, c: Catalog, d: Delivery, view: View, w: WorkspaceId)
    requires IsFirst(s, d, view) && UniqueCustomers(s.billing) && IsAbout(s.billing, d, view, w)
    requires !Differs(RowOf(s.billing, w), view) && IsEnd(Word(view.status))
    ensures Replaces(s, c, d, view, w, "free", "monthly", "canceled", "", "")
  {
    TermsReplace(s, c, d, view, w, Terms("free", "monthly", "canceled", "", ""));
  }

  /** A paid or overdue status puts it on the plan that is bought, with the event's subscription and price. */
  lemma SaleIsEntered(s: State, c: Catalog, d: Delivery, view: View, w: WorkspaceId, plan: string, period: string)
    requires IsFirst(s, d, view) && UniqueCustomers(s.billing) && IsAbout(s.billing, d, view, w)
    requires !Differs(RowOf(s.billing, w), view) && Buys(view, c, plan, period)
    ensures Word(view.status) == "past_due" ==>
              Replaces(s, c, d, view, w, plan, period, "past_due", TrimSpace(view.subscription), TrimSpace(view.price))
    ensures IsPaid(Word(view.status)) ==>
              Replaces(s, c, d, view, w, plan, period, "active", TrimSpace(view.subscription), TrimSpace(view.price))
  {
    SaleIsPlan(view, c, plan, period);
    BillingLaws.TrimTwice(view.price);
    if Word(view.status) == "past_due" {
      TermsReplace(s, c, d, view, w, Terms(plan, period, "past_due", view.subscription, TrimSpace(view.price)));
    } else if IsPaid(Word(view.status)) {
      TermsReplace(s, c, d, view, w, Terms(plan, period, "active", view.subscription, TrimSpace(view.price)));
    }
  }

  /** Every other status leaves the table alone; it and a paid one are refused when nothing is bought, except
      that a pending one is never looked at. */
  lemma OtherWordsChangeNothing(s: State, c: Catalog, d: Delivery, view: View, w: WorkspaceId)
    requires IsFirst(s, d, view) && UniqueCustomers(s.billing) && IsAbout(s.billing, d, view, w)
    requires !Differs(RowOf(s.billing, w), view) && !IsEnd(Word(view.status))
    ensures var (t, r) := HandleEvent(s, c, d);
            var word, bought := Word(view.status), exists plan, period :: Buys(view, c, plan, period);
            && (!IsPending(word) && !bought ==> t == s && r == Failed(UnknownPrice))
            && (IsPending(word) || (bought && word != "past_due" && !IsPaid(word)) ==>
                  t == State(s.claimed + {d.id}, s.billing) && r == Done)
  {
    AboutIsFound(s.billing, d, view, w);
    FirstIsApplied(s, c, d, view);
    NoSaleIsNoPlan(view, c);
  }

  /** An event with another customer than the workspace's is refused. */
  lemma OtherCustomerIsRefused(s: State, c: Catalog, d: Delivery, view: View, w: WorkspaceId)
    requires IsFirst(s, d, view) && UniqueCustomers(s.billing) && IsAbout(s.billing, d, view, w)
    requires Differs(RowOf(s.billing, w), view)
    ensures HandleEvent(s, c, d) == (s, Failed(CustomerMismatch))
  {
    AboutIsFound(s.billing, d, view, w);
    FirstIsApplied(s, c, d, view);
  }

  /** An event about no workspace there is is done without effect, unless it names none and no customer. */
  lemma NobodyIsDone(s: State, c: Catalog, d: Delivery, view: View)
    requires IsFirst(s, d, view) && forall w :: !IsAbout(s.billing, d, view, w)
    ensures HandleEvent(s, c, d) ==
            if NamesNobody(view) then (s, Failed(MissingWorkspace)) else (State(s.claimed + {d.id}, s.billing), Done)
  {
    FirstIsApplied(s, c, d, view);
    if view.workspace.NoWorkspace? {
      forall w ensures !Owns(s.billing, w, TrimSpace(view.customer)) || TrimSpace(view.customer) == "" {
        assert !IsAbout(s.billing, d, view, w);
      }
    } else if view.workspace.Workspace? {
      assert !IsAbout(s.billing, d, view, view.workspace.id);
    }
  }

  predicate IsNew(s: State, d: Delivery, view: View) { d.parsed == Subscription(view) && d.id !in s.claimed }

  lemma ReadFailureRefuses(s: State, c: Catalog, d: Delivery, view: View)
    requires IsNew(s, d, view) && d.fault.ReadFails?
    ensures HandleEvent(s, c, d) == (s, Failed(if NamesNobody(view) then MissingWorkspace else Database))
  {}

  lemma ApplyIgnoresCommit(s: State, c: Catalog, d: Delivery, view: View)
    requires d.fault.CommitFails?
    ensures ApplyView(s.billing, view, c, d) == ApplyView(s.billing, view, c, d.(fault := NoFault))
  {}

  lemma CommitFailureRefuses(s: State, c: Catalog, d: Delivery, view: View)
    requires IsNew(s, d, view) && d.fault.CommitFails?
    ensures var u := HandleEvent(s, c, d.(fault := NoFault));
            HandleEvent(s, c, d) == (s, if u.1.Failed? then u.1 else Failed(Database))
  {
    ApplyIgnoresCommit(s, c, d, view);
  }

  /** A failing query refuses the event, so that it can be delivered again. */
  lemma FailuresRefuse(s: State, c: Catalog, d: Delivery, view: View)
    requires IsNew(s, d, view)
    ensures var t := HandleEvent(s, c, d);
            && (d.fault.BeginFails? || d.fault.ClaimFails? ==> t == (s, Failed(Database)))
            && (d.fault.ReadFails? ==>
                 t == (s, Failed(if NamesNobody(view) then MissingWorkspace else Database)))
            && (d.fault.CommitFails? ==>
                 var u := HandleEvent(s, c, d.(fault := NoFault));
                 t == (s, if u.1.Failed? then u.1 else Failed(Database)))
  {
    if d.fault.ReadFails? { ReadFailureRefuses(s, c, d, view); }
    if d.fault.CommitFails? { CommitFailureRefuses(s, c, d, view); }
  }

  /** The event has a row to write. */
  ghost predicate Writes(view: View, c: Catalog) {
    || IsEnd(Word(view.status))
    || ((exists plan, period :: Buys(view, c, plan, period)) &&
        (Word(view.status) == "past_due" || IsPaid(Word(view.status))))
  }

  lemma WritesHasTerms(view: View, c: Catalog)
    requires Writes(view, c)
    ensures ResolveApply(view, c).Terms?
  {
    NoSaleIsNoPlan(view, c);
  }

  lemma RefusedIsFailed(s: State, c: Catalog, d: Delivery, view: View)
    requires IsNew(s, d, view) && d.fault.WriteFails? && ApplyView(s.billing, view, c, d) == Refusal(Database)
    ensures HandleEvent(s, c, d) == (s, Failed(Database))
  {}

  /** So does a failing write, where there is one. */
  lemma FailedWriteRefuses(s: State, c: Catalog, d: Delivery, view: View, w: WorkspaceId)
    requires IsNew(s, d, view) && d.fault.WriteFails? && UniqueCustomers(s.billing) && IsAbout(s.billing, d, view, w)
    requires !Differs(RowOf(s.billing, w), view) && Writes(view, c)
    ensures HandleEvent(s, c, d) == (s, Failed(Database))
  {
    WritesHasTerms(view, c);
    TermsChange(s, c, d, view, w, ResolveApply(view, c));
    RefusedIsFailed(s, c, d, view);
  }

  /** An event that was claimed, or is about something else, is done without effect; an unreadable one fails. */
  lemma OthersChangeNothing(s: State, c: Catalog, d: Delivery)
    ensures d.parsed.OtherEvent? ==> HandleEvent(s, c, d) == (s, Done)
    ensures d.parsed.Undecodable? ==> HandleEvent(s, c, d) == (s, Failed(Decode))
    ensures d.parsed.Subscription? && d.id in s.claimed &&
            (d.fault.NoFault? || d.fault.ReadFails? || d.fault.WriteFails?)
            ==> HandleEvent(s, c, d) == (s, Done)
  {}

  /** Without a transaction an attempt that fails after the claim is answered alike, but keeps the claim. */
  lemma BareIsSameButClaims(s: State, c: Catalog, d: Delivery)
    requires !d.fault.BeginFails? && !d.fault.CommitFails?
    ensures var t, u := HandleEvent(s, c, d), HandleEventBare(s, c, d);
            && u.1 == t.1 && u.0.billing == t.0.billing
            && (t.1.Done? || d.fault.ClaimFails? || !d.parsed.Subscription? ==> u == t)
            && (t.1.Failed? && !d.fault.ClaimFails? && d.parsed.Subscription? ==>
                 u.0 == State(s.claimed + {d.id}, s.billing))
  {}
}
