/** The price catalog: billing/prices.go. */
module Prices {
  import opened GoStrings
  import opened Options

  const PRO := "pro"
  const BUSINESS := "business"
  const FREE := "free"
  const MONTHLY := "monthly"
  const YEARLY := "yearly"

  datatype Sku = Sku(plan: string, period: string)

  datatype Catalog = Catalog(byId: map<string, Sku>, bySku: map<string, string>)

  function SkuKey(plan: string, period: string): string {
    ToLower(TrimSpace(plan)) + ":" + ToLower(TrimSpace(period))
  }

  function LookupPrice(c: Catalog, priceId: string): Option<Sku> {
    var id := TrimSpace(priceId);
    if id in c.byId then Some(c.byId[id]) else None
  }

  function PriceId(c: Catalog, plan: string, period: string): Option<string> {
    var key := SkuKey(plan, period);
    if key in c.bySku && c.bySku[key] != [] then Some(c.bySku[key]) else None
  }

  /** The four self-serve SKUs in the order of NewPrices' arguments. */
  function SkuAt(i: nat): Sku
    requires i < 4
  {
    Sku(if i < 2 then PRO else BUSINESS, if i % 2 == 0 then MONTHLY else YEARLY)
  }

  function KeyAt(i: nat): string
    requires i < 4
  {
    SkuAt(i).plan + ":" + SkuAt(i).period
  }

  lemma PlainWord(s: string)
    requires s != [] && !IsSpace(s[0]) && !IsSpace(s[|s| - 1])
    requires forall i :: 0 <= i < |s| ==> LowerRune(s[i]) == s[i]
    ensures ToLower(TrimSpace(s)) == s
  {
    assert TrimLeft(s) == s && TrimRight(s) == s;
  }

  lemma PlainPlan(i: nat)
    requires i < 4
    ensures ToLower(TrimSpace(SkuAt(i).plan)) == SkuAt(i).plan
  {
    PlainWord(SkuAt(i).plan);
  }

  lemma PlainPeriod(i: nat)
    requires i < 4
    ensures ToLower(TrimSpace(SkuAt(i).period)) == SkuAt(i).period
  {
    PlainWord(SkuAt(i).period);
  }

  lemma KeysOfSkus(i: nat)
    requires i < 4
    ensures SkuKey(SkuAt(i).plan, SkuAt(i).period) == KeyAt(i)
  {
    PlainPlan(i);
    PlainPeriod(i);
  }

  ghost predicate IsIdAt(byId: map<string, Sku>, ids: seq<string>, id: string, i: int)
    requires |ids| == 4 && id in byId
  {
    0 <= i < 4 && ids[i] == id && id != [] && byId[id] == SkuAt(i)
  }

  ghost predicate IsKeyAt(bySku: map<string, string>, ids: seq<string>, key: string, i: int)
    requires |ids| == 4 && key in bySku
  {
    0 <= i < 4 && KeyAt(i) == key && ids[i] != [] && bySku[key] == ids[i]
  }

  ghost predicate HoldsIds(byId: map<string, Sku>, ids: seq<string>, n: nat)
    requires n <= |ids| == 4
  {
    && (forall id :: id in byId ==> exists i :: IsIdAt(byId, ids, id, i) && i < n)
    && (forall i :: 0 <= i < n && ids[i] != [] ==> ids[i] in byId)
  }

  ghost predicate HoldsKeys(bySku: map<string, string>, ids: seq<string>, n: nat)
    requires n <= |ids| == 4
  {
    && (forall key :: key in bySku ==> exists i :: IsKeyAt(bySku, ids, key, i) && i < n)
    && (forall i :: 0 <= i < n && ids[i] != [] ==> KeyAt(i) in bySku)
  }

  /** Both maps hold exactly the first n configured prices. */
  ghost predicate Holds(c: Catalog, ids: seq<string>, n: nat)
    requires n <= |ids| == 4
  {
    HoldsIds(c.byId, ids, n) && HoldsKeys(c.bySku, ids, n)
  }

  ghost predicate Distinct(ids: seq<string>, n: nat)
    requires n <= |ids|
  {
    forall i, j :: 0 <= i < j < n && ids[i] != [] ==> ids[i] != ids[j]
  }

  function Trimmed(raw: seq<string>): seq<string> {
    seq(|raw|, i requires 0 <= i < |raw| => TrimSpace(raw[i]))
  }

  lemma FoundIsRepeat(byId: map<string, Sku>, ids: seq<string>, n: nat)
    requires n < |ids| == 4 && HoldsIds(byId, ids, n) && ids[n] in byId
    ensures !Distinct(ids, n + 1)
  {
    var i :| IsIdAt(byId, ids, ids[n], i) && i < n;
  }

  lemma IdsBlank(byId: map<string, Sku>, ids: seq<string>, n: nat)
    requires n < |ids| == 4 && HoldsIds(byId, ids, n) && ids[n] == []
    ensures HoldsIds(byId, ids, n + 1)
  {
    forall id | id in byId ensures exists i :: IsIdAt(byId, ids, id, i) && i < n + 1 {
      var i :| IsIdAt(byId, ids, id, i) && i < n;
    }
  }

  lemma KeysBlank(bySku: map<string, string>, ids: seq<string>, n: nat)
    requires n < |ids| == 4 && HoldsKeys(bySku, ids, n) && ids[n] == []
    ensures HoldsKeys(bySku, ids, n + 1)
  {
    forall key | key in bySku ensures exists i :: IsKeyAt(bySku, ids, key, i) && i < n + 1 {
      var i :| IsKeyAt(bySku, ids, key, i) && i < n;
    }
  }

  lemma HoldsBlank(c: Catalog, ids: seq<string>, n: nat)
    requires n < |ids| == 4 && HoldsIds(c.byId, ids, n) && HoldsKeys(c.bySku, ids, n) && ids[n] == []
    ensures HoldsIds(c.byId, ids, n + 1)
    ensures HoldsKeys(c.bySku, ids, n + 1)
  {
    IdsBlank(c.byId, ids, n);
    KeysBlank(c.bySku, ids, n);
  }

  lemma DistinctBlank(ids: seq<string>, n: nat)
    requires n < |ids| && Distinct(ids, n) && ids[n] == []
    ensures Distinct(ids, n + 1)
  {}

  lemma SkipsBlank(c: Catalog, ids: seq<string>, n: nat)
    requires n < |ids| == 4 && Holds(c, ids, n) && Distinct(ids, n) && ids[n] == []
    ensures Holds(c, ids, n + 1) && Distinct(ids, n + 1)
  {
    HoldsBlank(c, ids, n);
    DistinctBlank(ids, n);
  }

  lemma IdsOneMore(byId: map<string, Sku>, ids: seq<string>, n: nat)
    requires n < |ids| == 4 && HoldsIds(byId, ids, n) && ids[n] != [] && ids[n] !in byId
    ensures HoldsIds(byId[ids[n] := SkuAt(n)], ids, n + 1)
  {
    var more := byId[ids[n] := SkuAt(n)];
    assert IsIdAt(more, ids, ids[n], n);
    forall id | id in byId ensures exists i :: IsIdAt(more, ids, id, i) && i < n + 1 {
      var i :| IsIdAt(byId, ids, id, i) && i < n;
      assert IsIdAt(more, ids, id, i);
    }
  }

  lemma KeysDiffer(n: nat)
    requires n < 4
    ensures forall i :: 0 <= i < 4 && i != n ==> KeyAt(i) != KeyAt(n)
  {
    forall i | 0 <= i < 4 && i != n ensures KeyAt(i) != KeyAt(n) {
      var a, b := KeyAt(i), KeyAt(n);
      if (i < 2) == (n < 2) {
        var k := if n < 2 then 4 else 9;
        assert a[k] == SkuAt(i).period[0] && b[k] == SkuAt(n).period[0];
      } else {
        assert a[0] == SkuAt(i).plan[0] && b[0] == SkuAt(n).plan[0];
      }
    }
  }

  lemma KeysOneMore(bySku: map<string, string>, ids: seq<string>, n: nat)
    requires n < |ids| == 4 && HoldsKeys(bySku, ids, n) && ids[n] != []
    ensures KeyAt(n) !in bySku
    ensures HoldsKeys(bySku[KeyAt(n) := ids[n]], ids, n + 1)
  {
    KeysDiffer(n);
    var more := bySku[KeyAt(n) := ids[n]];
    assert IsKeyAt(more, ids, KeyAt(n), n);
    forall key | key in bySku ensures key != KeyAt(n) && exists i :: IsKeyAt(more, ids, key, i) && i < n + 1 {
      var i :| IsKeyAt(bySku, ids, key, i) && i < n;
      assert IsKeyAt(more, ids, key, i);
    }
  }

  lemma HoldsOneMore(c: Catalog, ids: seq<string>, n: nat)
    requires n < |ids| == 4 && Holds(c, ids, n) && Distinct(ids, n) && ids[n] != [] && ids[n] !in c.byId
    ensures KeyAt(n) !in c.bySku && Distinct(ids, n + 1)
    ensures Holds(Catalog(c.byId[ids[n] := SkuAt(n)], c.bySku[KeyAt(n) := ids[n]]), ids, n + 1)
  {
    IdsOneMore(c.byId, ids, n);
    KeysOneMore(c.bySku, ids, n);
  }

  /** One round: a blank price is left out, a repeated one refused. */
  method AddPrice(c: Catalog, rawId: string, i: nat, ghost ids: seq<string>) returns (r: Option<Catalog>)
    requires i < |ids| == 4 && ids[i] == TrimSpace(rawId) && Holds(c, ids, i) && Distinct(ids, i)
    ensures r.Some? ==> Holds(r.value, ids, i + 1) && Distinct(ids, i + 1)
    ensures r.None? ==> !Distinct(ids, i + 1)
  {
    var id := TrimSpace(rawId);
    if id == [] {
      SkipsBlank(c, ids, i);
      return Some(c);
    }
    if id in c.byId {
      FoundIsRepeat(c.byId, ids, i);
      return None;
    }
    var sku := SkuAt(i);
    var key := SkuKey(sku.plan, sku.period);
    KeysOfSkus(i);
    HoldsOneMore(c, ids, i);
    if key in c.bySku { return None; }
    r := Some(Catalog(c.byId[id := sku], c.bySku[key := id]));
  }

  lemma RepeatStays(ids: seq<string>, n: nat)
    requires n <= |ids| && !Distinct(ids, n)
    ensures !Distinct(ids, |ids|)
  {}

  /** Configured prices, blank ones left out, become a catalog exactly when no two of them
      are the same. */
  method NewPrices(raw: seq<string>) returns (r: Option<Catalog>)
    requires |raw| == 4
    ensures r.Some? <==> Distinct(Trimmed(raw), 4)
    ensures r.Some? ==> Holds(r.value, Trimmed(raw), 4)
  {
    var c := Catalog(map[], map[]);
    ghost var ids := Trimmed(raw);
    for i := 0 to 4
      invariant Distinct(ids, i)
      invariant Holds(c, ids, i)
    {
      var next := AddPrice(c, raw[i], i, ids);
      if next.None? {
        RepeatStays(ids, i + 1);
        return None;
      }
      c := next.value;
    }
    r := Some(c);
  }

  lemma SkusDiffer(n: nat)
    requires n < 4
    ensures forall i :: 0 <= i < 4 && i != n ==> SkuAt(i) != SkuAt(n)
  {
    assert PRO[0] != BUSINESS[0] && MONTHLY[0] != YEARLY[0];
  }

  /** A price id and its SKU lead to each other. */
  lemma PricesAreInverse(c: Catalog, ids: seq<string>, id: string, i: nat)
    requires |ids| == 4 && Holds(c, ids, 4) && i < 4
    requires Distinct(ids, 4)
    ensures LookupPrice(c, id) == Some(SkuAt(i)) <==> PriceId(c, SkuAt(i).plan, SkuAt(i).period) == Some(TrimSpace(id))
  {
    KeysOfSkus(i);
    KeysDiffer(i);
    SkusDiffer(i);
  }

  lemma PlanOfSku(i: nat)
    requires i < 4
    ensures SkuAt(i).plan == PRO || SkuAt(i).plan == BUSINESS
  {}

  lemma SkuOfPrice(c: Catalog, ids: seq<string>, price: string) returns (i: nat)
    requires |ids| == 4 && Holds(c, ids, 4) && LookupPrice(c, price).Some?
    ensures i < 4 && LookupPrice(c, price) == Some(SkuAt(i))
  {
    i :| IsIdAt(c.byId, ids, TrimSpace(price), i);
  }

  /** A price that is found is one of the configured ones, and its SKU leads back to it. */
  lemma LookupLeadsBack(c: Catalog, ids: seq<string>, price: string)
    requires |ids| == 4 && Holds(c, ids, 4) && Distinct(ids, 4) && LookupPrice(c, price).Some?
    ensures var sku := LookupPrice(c, price).value;
            PriceId(c, sku.plan, sku.period) == Some(TrimSpace(price)) && (sku.plan == PRO || sku.plan == BUSINESS)
  {
    var i := SkuOfPrice(c, ids, price);
    PricesAreInverse(c, ids, price, i);
    PlanOfSku(i);
  }
}
