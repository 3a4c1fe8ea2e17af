/** At-least-once deliveries, exactly-once effects; and what holds of every row the applier writes. */
module BillingLaws {
  import opened Billing
  import opened GoStrings
  import opened Options
  import opened Prices

  ghost function Run(s: State, c: Catalog, ds: seq<Delivery>): State {
    if ds == [] then s else HandleEvent(Run(s, c, ds[..|ds| - 1]), c, ds[|ds| - 1]).0
  }

  /** Delivery i is of a subscription event and is answered without an error. */
  ghost predicate Succeeds(s: State, c: Catalog, ds: seq<Delivery>, i: nat)
    requires i < |ds|
  {
    ds[i].parsed.Subscription? && HandleEvent(Run(s, c, ds[..i]), c, ds[i]).1.Done?
  }

  /** Delivery i is the first successful one of its event. */
  ghost predicate FirstSuccess(s: State, c: Catalog, ds: seq<Delivery>, i: nat)
    requires i < |ds|
  {
    && Succeeds(s, c, ds, i)
    && ds[i].id !in s.claimed
    && forall j :: 0 <= j < i && ds[j].id == ds[i].id ==> !Succeeds(s, c, ds, j)
  }

  ghost function FirstSuccesses(s: State, c: Catalog, ds: seq<Delivery>): seq<Delivery> {
    if ds == [] then []
    else
      var n := |ds| - 1;
      FirstSuccesses(s, c, ds[..n]) + if FirstSuccess(s, c, ds, n) then [ds[n]] else []
  }

  /** The events of ds applied one after another, without any record of what was seen. */
  ghost function AppliedOnce(billing: map<WorkspaceId, Row>, c: Catalog, ds: seq<Delivery>): map<WorkspaceId, Row> {
    if ds == [] then billing
    else
      var before := AppliedOnce(billing, c, ds[..|ds| - 1]);
      var d := ds[|ds| - 1];
      if d.parsed.Subscription? then Changed(before, ApplyView(before, d.parsed.view, c, d)) else before
  }

  lemma AppliedOnceOneMore(billing: map<WorkspaceId, Row>, c: Catalog, ds: seq<Delivery>, d: Delivery)
    requires d.parsed.Subscription?
    ensures AppliedOnce(billing, c, ds + [d])
            == Changed(AppliedOnce(billing, c, ds), ApplyView(AppliedOnce(billing, c, ds), d.parsed.view, c, d))
  {
    assert (ds + [d])[..|ds|] == ds;
  }

  /** A failed attempt changes neither table. */
  lemma FailureChangesNothing(s: State, c: Catalog, d: Delivery)
    ensures HandleEvent(s, c, d).1.Failed? ==> HandleEvent(s, c, d).0 == s
    ensures d.parsed.Subscription? && HandleEvent(s, c, d).1.Done?
            ==> HandleEvent(s, c, d).0.claimed == s.claimed + {d.id}
    ensures d.id in s.claimed || !d.parsed.Subscription? ==> HandleEvent(s, c, d).0 == s
  {}

  lemma OneClaim(s: State, view: View, c: Catalog, d: Delivery)
    ensures var t := HandleIn(s, view, c, d);
            && (d.id in s.claimed ==> t.0 == s)
            && (t.1.Done? && d.id !in s.claimed ==> t.0.billing == Changed(s.billing, ApplyView(s.billing, view, c, d)))
  {}

  /** What one delivery leaves in the billing table. */
  lemma OneDelivery(s: State, c: Catalog, d: Delivery)
    ensures var t := HandleEvent(s, c, d);
            t.0.billing == if d.parsed.Subscription? && t.1.Done? && d.id !in s.claimed
                           then Changed(s.billing, ApplyView(s.billing, d.parsed.view, c, d))
                           else s.billing
  {
    if d.parsed.Subscription? { OneClaim(s, d.parsed.view, c, d); }
  }

  lemma SucceedsInPrefix(s: State, c: Catalog, ds: seq<Delivery>, n: nat, i: nat)
    requires i < n <= |ds|
    ensures Succeeds(s, c, ds, i) == Succeeds(s, c, ds[..n], i)
  {
    assert ds[..n][..i] == ds[..i];
  }

  /** The claims after a run: those before it and the ids that succeeded, so an event all of whose
      deliveries failed can still be delivered. */
  lemma {:induction false} ClaimedIffSucceeded(s: State, c: Catalog, ds: seq<Delivery>, id: string)
    ensures id in Run(s, c, ds).claimed
            <==> id in s.claimed || exists i :: 0 <= i < |ds| && ds[i].id == id && Succeeds(s, c, ds, i)
    decreases |ds|
  {
    if ds != [] {
      var n := |ds| - 1;
      ClaimedIffSucceeded(s, c, ds[..n], id);
      forall i | 0 <= i < n ensures Succeeds(s, c, ds, i) == Succeeds(s, c, ds[..n], i) {
        SucceedsInPrefix(s, c, ds, n, i);
      }
      FailureChangesNothing(Run(s, c, ds[..n]), c, ds[n]);
      assert Succeeds(s, c, ds, n)
             == (ds[n].parsed.Subscription? && HandleEvent(Run(s, c, ds[..n]), c, ds[n]).1.Done?);
    }
  }

  lemma FirstIffUnclaimed(s: State, c: Catalog, ds: seq<Delivery>)
    requires ds != []
    ensures var n := |ds| - 1;
            FirstSuccess(s, c, ds, n) <==> Succeeds(s, c, ds, n) && ds[n].id !in Run(s, c, ds[..n]).claimed
  {
    var n := |ds| - 1;
    ClaimedIffSucceeded(s, c, ds[..n], ds[n].id);
    forall i | 0 <= i < n ensures Succeeds(s, c, ds, i) == Succeeds(s, c, ds[..n], i) {
      SucceedsInPrefix(s, c, ds, n, i);
    }
  }

  /** The billing table after any deliveries is the one of applying each event once, at its first
      successful delivery. */
  lemma {:induction false} ExactlyOnce(s: State, c: Catalog, ds: seq<Delivery>)
    ensures Run(s, c, ds).billing == AppliedOnce(s.billing, c, FirstSuccesses(s, c, ds))
    decreases |ds|
  {
    if ds != [] {
      var n := |ds| - 1;
      ExactlyOnce(s, c, ds[..n]);
      var before := Run(s, c, ds[..n]);
      OneDelivery(before, c, ds[n]);
      FirstIffUnclaimed(s, c, ds);
      if FirstSuccess(s, c, ds, n) {
        AppliedOnceOneMore(s.billing, c, FirstSuccesses(s, c, ds[..n]), ds[n]);
      } else {
        assert FirstSuccesses(s, c, ds) == FirstSuccesses(s, c, ds[..n]);
      }
    }
  }

  ghost predicate NoRepeats(es: seq<Delivery>) {
    forall i, j :: 0 <= i < j < |es| ==> es[i].id != es[j].id
  }

  function Ids(es: seq<Delivery>): set<string> {
    set i | 0 <= i < |es| :: es[i].id
  }

  lemma IdsOneMore(es: seq<Delivery>, d: Delivery)
    ensures Ids(es + [d]) == Ids(es) + {d.id}
    ensures NoRepeats(es) && d.id !in Ids(es) ==> NoRepeats(es + [d])
  {
    var fs := es + [d];
    assert fs[|es|] == d;
    assert forall i :: 0 <= i < |es| ==> fs[i] == es[i];
    forall id | id in Ids(es) + {d.id} ensures id in Ids(fs) {
      if id != d.id {
        var i :| 0 <= i < |es| && es[i].id == id;
        assert fs[i].id == id;
      }
    }
  }

  /** The events applied are those newly claimed, none of them twice. */
  lemma {:induction false} EachEventOnce(s: State, c: Catalog, ds: seq<Delivery>)
    ensures NoRepeats(FirstSuccesses(s, c, ds))
    ensures Run(s, c, ds).claimed == s.claimed + Ids(FirstSuccesses(s, c, ds))
    ensures s.claimed !! Ids(FirstSuccesses(s, c, ds))
    decreases |ds|
  {
    if ds != [] {
      var n := |ds| - 1;
      EachEventOnce(s, c, ds[..n]);
      FirstIffUnclaimed(s, c, ds);
      FailureChangesNothing(Run(s, c, ds[..n]), c, ds[n]);
      IdsOneMore(FirstSuccesses(s, c, ds[..n]), ds[n]);
      if !FirstSuccess(s, c, ds, n) {
        assert FirstSuccesses(s, c, ds) == FirstSuccesses(s, c, ds[..n]);
      }
    }
  }

  /** Without a transaction a failed attempt can be retried exactly when it failed at the claim;
      otherwise every later delivery of the event is answered without effect and the event is lost. */
  lemma LostWithoutTransaction(s: State, c: Catalog, d: Delivery, again: Delivery)
    requires d.parsed.Subscription? && d.id !in s.claimed && HandleEventBare(s, c, d).1.Failed?
    requires again.parsed.Subscription? && again.id == d.id && again.fault.NoFault?
    ensures HandleEventBare(s, c, d).0.billing == s.billing
    ensures d.fault.ClaimFails? ==> HandleEventBare(s, c, d).0 == s
    ensures !d.fault.ClaimFails?
            ==> HandleEventBare(HandleEventBare(s, c, d).0, c, again) == (HandleEventBare(s, c, d).0, Done)
    ensures !d.fault.ClaimFails? <==> d.id in HandleEventBare(s, c, d).0.claimed
  {}

  // ---- the rows that are written

  ghost predicate IsCatalog(c: Catalog) {
    exists ids: seq<string> :: |ids| == 4 && Distinct(ids, 4) && Holds(c, ids, 4)
  }

  /** A price and its plan and period lead to each other. */
  ghost predicate Agrees(c: Catalog, price: string, plan: string, period: string) {
    LookupPrice(c, price) == Some(Sku(plan, period)) && PriceId(c, plan, period) == Some(price)
  }

  ghost predicate SoundRow(c: Catalog, row: Row) {
    && (HasActiveSubscription(row) <==> row.plan == PRO || row.plan == BUSINESS)
    && (row.price != "" ==> Agrees(c, row.price, row.plan, row.period))
    && (row.pastDueAt.Some? <==> row.status == PAST_DUE)
  }

  lemma TrimLeftTwice(s: string)
    ensures TrimLeft(s) == [] || !IsSpace(TrimLeft(s)[0])
  {}

  lemma {:induction false} TrimRightKeeps(s: string)
    ensures TrimRight(s) <= s
    ensures TrimRight(s) == [] || !IsSpace(TrimRight(s)[|TrimRight(s)| - 1])
  {
    if s != [] && IsSpace(s[|s| - 1]) { TrimRightKeeps(s[..|s| - 1]); }
  }

  lemma TrimTwice(s: string)
    ensures TrimSpace(TrimSpace(s)) == TrimSpace(s)
  {
    TrimLeftTwice(s);
    TrimRightKeeps(TrimLeft(s));
    var t := TrimSpace(s);
    assert t == [] || !IsSpace(t[0]);
    assert TrimLeft(t) == t;
    assert TrimRight(t) == t;
  }

  lemma LookupIsInverse(c: Catalog, price: string)
    requires IsCatalog(c) && LookupPrice(c, price).Some? && TrimSpace(price) == price
    ensures var sku := LookupPrice(c, price).value;
            Agrees(c, price, sku.plan, sku.period) && (sku.plan == PRO || sku.plan == BUSINESS)
  {
    var ids :| |ids| == 4 && Distinct(ids, 4) && Holds(c, ids, 4);
    LookupLeadsBack(c, ids, price);
  }

  lemma StatusWords()
    ensures HasActiveSubscription(NEVER_BILLED.(status := ACTIVE))
    ensures HasActiveSubscription(NEVER_BILLED.(status := PAST_DUE))
    ensures !HasActiveSubscription(NEVER_BILLED.(status := CANCELED))
    ensures CANCELED != PAST_DUE && ACTIVE != PAST_DUE && CANCELED != ACTIVE
  {
    PlainWord(ACTIVE);
    PlainWord(PAST_DUE);
    PlainWord(CANCELED);
    assert ACTIVE[0] != PAST_DUE[0] && CANCELED[0] != ACTIVE[0] && CANCELED[0] != PAST_DUE[0];
  }

  lemma ActiveByStatus(row: Row, st: string)
    requires row.status == st
    ensures HasActiveSubscription(row) == HasActiveSubscription(NEVER_BILLED.(status := st))
  {}

  lemma PaidPlanIsPaid(view: View, c: Catalog)
    requires IsCatalog(c) && PaidPlan(view, c).Some?
    ensures var sku := PaidPlan(view, c).value;
            && (sku.plan == PRO || sku.plan == BUSINESS)
            && (TrimSpace(view.price) != "" ==> Agrees(c, TrimSpace(view.price), sku.plan, sku.period))
  {
    if TrimSpace(view.price) != "" {
      TrimTwice(view.price);
      LookupIsInverse(c, TrimSpace(view.price));
    }
  }

  lemma TermsCases(view: View, c: Catalog)
    requires ResolveApply(view, c).Terms?
    ensures var t := ResolveApply(view, c);
            || t == Terms(FREE, MONTHLY, CANCELED, "", "")
            || (PaidPlan(view, c).Some? && (t.status == ACTIVE || t.status == PAST_DUE)
                && t.plan == PaidPlan(view, c).value.plan && t.period == PaidPlan(view, c).value.period
                && t.price == TrimSpace(view.price))
  {}

  ghost predicate SoundTerms(c: Catalog, t: Terms)
    requires t.Terms?
  {
    && (t.status == CANCELED || t.status == ACTIVE || t.status == PAST_DUE)
    && (t.status != CANCELED <==> t.plan == PRO || t.plan == BUSINESS)
    && TrimSpace(t.price) == t.price
    && (t.price != "" ==> Agrees(c, t.price, t.plan, t.period))
  }

  lemma FreeTermsAreSound(c: Catalog)
    ensures SoundTerms(c, Terms(FREE, MONTHLY, CANCELED, "", ""))
  {
    assert FREE[0] != PRO[0] && FREE[0] != BUSINESS[0];
    assert TrimLeft("") == "";
  }

  lemma TermsAreSound(view: View, c: Catalog)
    requires IsCatalog(c) && ResolveApply(view, c).Terms?
    ensures SoundTerms(c, ResolveApply(view, c))
  {
    TermsCases(view, c);
    var t := ResolveApply(view, c);
    if t == Terms(FREE, MONTHLY, CANCELED, "", "") {
      FreeTermsAreSound(c);
    } else {
      PaidPlanIsPaid(view, c);
      TrimTwice(view.price);
      StatusWords();
    }
  }

  lemma NewRowIsSound(existing: Row, view: View, terms: Terms, now: Time, c: Catalog)
    requires terms.Terms? && SoundTerms(c, terms)
    ensures SoundRow(c, NewRow(existing, view, terms, now))
  {
    var row := NewRow(existing, view, terms, now);
    StatusWords();
    ActiveByStatus(row, terms.status);
  }

  lemma FoundIsOwnRow(billing: map<WorkspaceId, Row>, view: View, d: Delivery)
    ensures var found := ResolveWorkspace(billing, view, d);
            found.Found? ==> found.existing == RowOf(billing, found.ws)
  {}

  lemma FoundWrites(billing: map<WorkspaceId, Row>, ws: WorkspaceId, existing: Row, view: View, c: Catalog, d: Delivery)
    requires ChangeOf(billing, ws, existing, view, c, d).Write?
    ensures ResolveApply(view, c).Terms?
    ensures ChangeOf(billing, ws, existing, view, c, d)
            == Write(ws, NewRow(existing, view, ResolveApply(view, c), d.now))
    ensures existing.customer != "" ==> view.customer == "" || view.customer == existing.customer
  {}

  lemma WriteIsOfOwnRow(billing: map<WorkspaceId, Row>, view: View, c: Catalog, d: Delivery)
    requires ApplyView(billing, view, c, d).Write?
    ensures var change := ApplyView(billing, view, c, d);
            change == ChangeOf(billing, change.ws, RowOf(billing, change.ws), view, c, d)
  {
    var found := ResolveWorkspace(billing, view, d);
    FoundIsOwnRow(billing, view, d);
    FoundWrites(billing, found.ws, found.existing, view, c, d);
  }

  /** An event that writes a row writes it over that workspace's own row. */
  lemma WritesOverExisting(billing: map<WorkspaceId, Row>, view: View, c: Catalog, d: Delivery)
    requires ApplyView(billing, view, c, d).Write?
    ensures ResolveApply(view, c).Terms?
    ensures var change := ApplyView(billing, view, c, d);
            change.row == NewRow(RowOf(billing, change.ws), view, ResolveApply(view, c), d.now)
  {
    WriteIsOfOwnRow(billing, view, c, d);
    var ws := ApplyView(billing, view, c, d).ws;
    FoundWrites(billing, ws, RowOf(billing, ws), view, c, d);
  }

  /** Every row written is sound, whatever was there before. */
  lemma WrittenRowIsSound(billing: map<WorkspaceId, Row>, view: View, c: Catalog, d: Delivery)
    requires IsCatalog(c) && ApplyView(billing, view, c, d).Write?
    ensures SoundRow(c, ApplyView(billing, view, c, d).row)
  {
    var change := ApplyView(billing, view, c, d);
    WritesOverExisting(billing, view, c, d);
    TermsAreSound(view, c);
    NewRowIsSound(RowOf(billing, change.ws), view, ResolveApply(view, c), d.now, c);
  }

  function StatusOf(s: State, w: WorkspaceId): string {
    RowOf(s.billing, w).status
  }

  /** One event leaves a workspace's row alone or writes a sound one. */
  lemma EventKeepsSound(s: State, c: Catalog, d: Delivery, w: WorkspaceId)
    requires IsCatalog(c)
    ensures var t := HandleEvent(s, c, d).0;
            RowOf(t.billing, w) == RowOf(s.billing, w) || SoundRow(c, RowOf(t.billing, w))
  {
    OneDelivery(s, c, d);
    if d.parsed.Subscription? && ApplyView(s.billing, d.parsed.view, c, d).Write? {
      WrittenRowIsSound(s.billing, d.parsed.view, c, d);
    }
  }

  lemma {:induction false} RowsStaySound(s: State, c: Catalog, ds: seq<Delivery>, w: WorkspaceId)
    requires IsCatalog(c)
    ensures var t := Run(s, c, ds);
            RowOf(t.billing, w) == RowOf(s.billing, w) || SoundRow(c, RowOf(t.billing, w))
    decreases |ds|
  {
    if ds != [] {
      RowsStaySound(s, c, ds[..|ds| - 1], w);
      EventKeepsSound(Run(s, c, ds[..|ds| - 1]), c, ds[|ds| - 1], w);
    }
  }

  ghost function StatusAfter(s: State, c: Catalog, ds: seq<Delivery>, w: WorkspaceId, k: nat): string
    requires k <= |ds|
  {
    StatusOf(Run(s, c, ds[..k]), w)
  }

  /** Delivery i put w into past_due, and w has been past_due after every delivery since. */
  ghost predicate PastDueSince(s: State, c: Catalog, ds: seq<Delivery>, w: WorkspaceId, i: nat) {
    && i < |ds|
    && StatusAfter(s, c, ds, w, i) != PAST_DUE
    && forall k :: i < k <= |ds| ==> StatusAfter(s, c, ds, w, k) == PAST_DUE
  }

  lemma NewRowPastDue(existing: Row, view: View, terms: Terms, now: Time)
    requires terms.Terms? && terms.status == PAST_DUE
    requires existing.status == PAST_DUE ==> existing.pastDueAt.Some?
    ensures NewRow(existing, view, terms, now).pastDueAt
            == if existing.status == PAST_DUE then existing.pastDueAt else Some(now)
  {}

  /** What one event does to the past-due date of a workspace. */
  lemma PastDueStep(s: State, c: Catalog, d: Delivery, w: WorkspaceId)
    requires StatusOf(HandleEvent(s, c, d).0, w) == PAST_DUE
    requires StatusOf(s, w) == PAST_DUE ==> RowOf(s.billing, w).pastDueAt.Some?
    ensures RowOf(HandleEvent(s, c, d).0.billing, w).pastDueAt
            == if StatusOf(s, w) == PAST_DUE then RowOf(s.billing, w).pastDueAt else Some(d.now)
  {
    OneDelivery(s, c, d);
    if d.parsed.Subscription? {
      var view := d.parsed.view;
      var change := ApplyView(s.billing, view, c, d);
      if change.Write? {
        WritesOverExisting(s.billing, view, c, d);
        if change.ws == w && change.row.status == PAST_DUE {
          NewRowPastDue(RowOf(s.billing, w), view, ResolveApply(view, c), d.now);
        }
      }
    }
  }

  ghost predicate StreakBegan(s: State, c: Catalog, ds: seq<Delivery>, w: WorkspaceId, i: nat) {
    PastDueSince(s, c, ds, w, i) && RowOf(Run(s, c, ds).billing, w).pastDueAt == Some(ds[i].now)
  }

  ghost predicate AlwaysPastDue(s: State, c: Catalog, ds: seq<Delivery>, w: WorkspaceId) {
    forall k :: 0 <= k <= |ds| ==> StatusAfter(s, c, ds, w, k) == PAST_DUE
  }

  ghost predicate UnbrokenFromStart(s: State, c: Catalog, ds: seq<Delivery>, w: WorkspaceId) {
    && AlwaysPastDue(s, c, ds, w)
    && RowOf(Run(s, c, ds).billing, w).pastDueAt == RowOf(s.billing, w).pastDueAt
  }

  lemma StreakGrows(s: State, c: Catalog, ds: seq<Delivery>, w: WorkspaceId, i: nat)
    requires ds != [] && PastDueSince(s, c, ds[..|ds| - 1], w, i)
    requires StatusOf(Run(s, c, ds), w) == PAST_DUE
    ensures PastDueSince(s, c, ds, w, i)
  {
    var n := |ds| - 1;
    assert ds[..|ds|] == ds && ds[..n][..i] == ds[..i];
    forall k | i < k <= |ds| ensures StatusAfter(s, c, ds, w, k) == PAST_DUE {
      if k <= n {
        assert ds[..n][..k] == ds[..k];
        assert StatusAfter(s, c, ds[..n], w, k) == PAST_DUE;
      }
    }
  }

  lemma UnbrokenGrows(s: State, c: Catalog, ds: seq<Delivery>, w: WorkspaceId)
    requires ds != [] && StatusOf(Run(s, c, ds), w) == PAST_DUE
    requires AlwaysPastDue(s, c, ds[..|ds| - 1], w)
    ensures AlwaysPastDue(s, c, ds, w)
  {
    var n := |ds| - 1;
    assert ds[..|ds|] == ds;
    forall k | 0 <= k <= n ensures StatusAfter(s, c, ds, w, k) == PAST_DUE {
      assert ds[..n][..k] == ds[..k];
      assert StatusAfter(s, c, ds[..n], w, k) == PAST_DUE;
    }
  }

  lemma {:induction false} FindStreak(s: State, c: Catalog, ds: seq<Delivery>, w: WorkspaceId) returns (i: nat)
    requires IsCatalog(c)
    requires StatusOf(s, w) == PAST_DUE ==> RowOf(s.billing, w).pastDueAt.Some?
    requires StatusOf(Run(s, c, ds), w) == PAST_DUE
    ensures StreakBegan(s, c, ds, w, i) || UnbrokenFromStart(s, c, ds, w)
    decreases |ds|
  {
    if ds == [] { return 0; }
    var n := |ds| - 1;
    var before := Run(s, c, ds[..n]);
    RowsStaySound(s, c, ds[..n], w);
    PastDueStep(before, c, ds[n], w);
    if StatusOf(before, w) != PAST_DUE {
      i := n;
      assert ds[..|ds|] == ds;
    } else {
      i := FindStreak(s, c, ds[..n], w);
      if StreakBegan(s, c, ds[..n], w, i) {
        StreakGrows(s, c, ds, w, i);
      } else {
        UnbrokenGrows(s, c, ds, w);
      }
    }
  }

  /** The past-due date is the time of the event that began the present unbroken streak; a streak
      that was there from the start keeps the date it had. */
  lemma PastDueDateIsStartOfStreak(s: State, c: Catalog, ds: seq<Delivery>, w: WorkspaceId)
    requires IsCatalog(c)
    requires StatusOf(s, w) == PAST_DUE ==> RowOf(s.billing, w).pastDueAt.Some?
    requires StatusOf(Run(s, c, ds), w) == PAST_DUE
    ensures (exists i: nat :: StreakBegan(s, c, ds, w, i)) || UnbrokenFromStart(s, c, ds, w)
  {
    var _ := FindStreak(s, c, ds, w);
  }

  // ---- customers

  /** The same customer id, but for white space around it. */
  predicate SameCustomer(before: string, after: string) {
    after != "" && TrimSpace(after) == TrimSpace(before)
  }

  lemma NewRowKeepsCustomer(existing: Row, view: View, terms: Terms, now: Time)
    requires terms.Terms? && existing.customer != ""
    requires view.customer == "" || view.customer == existing.customer
    ensures SameCustomer(existing.customer, NewRow(existing, view, terms, now).customer)
  {
    TrimTwice(existing.customer);
    assert TrimLeft("") == "";
  }

  lemma CustomersMatch(billing: map<WorkspaceId, Row>, view: View, c: Catalog, d: Delivery)
    requires ApplyView(billing, view, c, d).Write?
    ensures var existing := RowOf(billing, ApplyView(billing, view, c, d).ws);
            existing.customer != "" ==> view.customer == "" || view.customer == existing.customer
  {
    WriteIsOfOwnRow(billing, view, c, d);
    var ws := ApplyView(billing, view, c, d).ws;
    FoundWrites(billing, ws, RowOf(billing, ws), view, c, d);
  }

  lemma WriteKeepsCustomer(billing: map<WorkspaceId, Row>, view: View, c: Catalog, d: Delivery)
    requires ApplyView(billing, view, c, d).Write?
    requires RowOf(billing, ApplyView(billing, view, c, d).ws).customer != ""
    ensures var change := ApplyView(billing, view, c, d);
            SameCustomer(RowOf(billing, change.ws).customer, change.row.customer)
  {
    var existing := RowOf(billing, ApplyView(billing, view, c, d).ws);
    WritesOverExisting(billing, view, c, d);
    CustomersMatch(billing, view, c, d);
    NewRowKeepsCustomer(existing, view, ResolveApply(view, c), d.now);
  }

  lemma EventKeepsCustomer(s: State, c: Catalog, d: Delivery, w: WorkspaceId)
    requires RowOf(s.billing, w).customer != ""
    ensures var after := RowOf(HandleEvent(s, c, d).0.billing, w).customer;
            SameCustomer(RowOf(s.billing, w).customer, after)
  {
    OneDelivery(s, c, d);
    if d.parsed.Subscription? {
      var change := ApplyView(s.billing, d.parsed.view, c, d);
      if change.Write? && change.ws == w { WriteKeepsCustomer(s.billing, d.parsed.view, c, d); }
    }
  }

  /** Once a workspace has a customer, no run of events gives it another one. */
  lemma {:induction false} CustomerNeverChanges(s: State, c: Catalog, ds: seq<Delivery>, w: WorkspaceId)
    requires RowOf(s.billing, w).customer != ""
    ensures SameCustomer(RowOf(s.billing, w).customer, RowOf(Run(s, c, ds).billing, w).customer)
    decreases |ds|
  {
    if ds != [] {
      CustomerNeverChanges(s, c, ds[..|ds| - 1], w);
      EventKeepsCustomer(Run(s, c, ds[..|ds| - 1]), c, ds[|ds| - 1], w);
    }
  }

  lemma AdmittedByIndex(billing: map<WorkspaceId, Row>, view: View, c: Catalog, d: Delivery)
    requires UniqueCustomers(billing) && ApplyView(billing, view, c, d).Write?
    ensures UniqueCustomers(Changed(billing, ApplyView(billing, view, c, d)))
  {
    var change := ApplyView(billing, view, c, d);
    WriteKeepsUnique(billing, change.ws, change.row);
  }

  /** And no customer comes to two workspaces. */
  lemma {:induction false} CustomersStayUnique(s: State, c: Catalog, ds: seq<Delivery>)
    requires UniqueCustomers(s.billing)
    ensures UniqueCustomers(Run(s, c, ds).billing)
    decreases |ds|
  {
    if ds != [] {
      var before, d := Run(s, c, ds[..|ds| - 1]), ds[|ds| - 1];
      CustomersStayUnique(s, c, ds[..|ds| - 1]);
      OneDelivery(before, c, d);
      if d.parsed.Subscription? && ApplyView(before.billing, d.parsed.view, c, d).Write? {
        AdmittedByIndex(before.billing, d.parsed.view, c, d);
      }
    }
  }
}
