/** The inventory-intelligence dashboard (frontend/src/pages/InventoryIntelligence.jsx):
    the expiry-risk colour and label, and the lists `processedData` builds from
    the inventory the page fetched. Day counts are inputs: the number of days
    to expiry, the age of the batch and the days of stock left, each absent
    when the page computes null. */
module Dashboard {
  import opened Common

  const CriticalColor: string := "#FF4444"
  const WarningColor: string := "#FFA500"
  const SafeColor: string := "#00C49F"

  /** `getExpiryRiskColor`: red up to a week (past expiry included), orange
      up to a month, green beyond that or with no expiry date. */
  function RiskColor(days: Option<int>): (c: string)
    ensures c == CriticalColor <==> days.Some? && days.value <= 7
    ensures c == WarningColor <==> days.Some? && 7 < days.value <= 30
    ensures c == SafeColor <==> days.None? || days.value > 30
  {
    if days.None? then SafeColor
    else if days.value < 0 then CriticalColor
    else if days.value <= 7 then CriticalColor
    else if days.value <= 30 then WarningColor
    else SafeColor
  }

  /** The risk-level chip of the table. */
  function RiskLabel(days: Option<int>): (l: string)
    ensures l == "Expired" <==> days.Some? && days.value < 0
    ensures l == "Critical" <==> days.Some? && 0 <= days.value <= 7
    ensures l == "Warning" <==> days.Some? && 7 < days.value <= 30
    ensures l == "Safe" <==> days.None? || days.value > 30
  {
    if days.None? then "Safe"
    else if days.value < 0 then "Expired"
    else if days.value <= 7 then "Critical"
    else if days.value <= 30 then "Warning"
    else "Safe"
  }

  /** The background of a table row. */
  function RowShade(days: Option<int>): string
  {
    if days.Some? && days.value <= 7 then "#ffebee"
    else if days.Some? && days.value <= 30 then "#fff3e0"
    else "transparent"
  }

  /** The chip's label, its colour and the row's background always tell the
      same story: an expired or critical label is red on a red row, a
      warning is orange on an orange row, and a safe item is green on a
      plain row. */
  lemma {:induction false} RiskViewsAgree(days: Option<int>)
    ensures (RiskLabel(days) == "Expired" || RiskLabel(days) == "Critical") <==> RiskColor(days) == CriticalColor
    ensures RiskLabel(days) == "Warning" <==> RiskColor(days) == WarningColor
    ensures RiskLabel(days) == "Safe" <==> RiskColor(days) == SafeColor
    ensures RowShade(days) == "#ffebee" <==> RiskColor(days) == CriticalColor
    ensures RowShade(days) == "#fff3e0" <==> RiskColor(days) == WarningColor
    ensures RowShade(days) == "transparent" <==> RiskColor(days) == SafeColor
  {
  }

  /** One inventory document as the page sees it. An empty string stands for
      a missing name, code, category or batch; `ageDays` is absent when the
      item has no `createdAt`. */
  datatype Entry = Entry(
    itemName: string,
    itemCode: string,
    category: string,
    quantity: int,
    threshold: int,
    batchID: string,
    ageDays: Option<int>,
    daysUntilExpiry: Option<int>,
    daysLeft: Option<int>)

  /** `item.itemName?.substring(0, 20) || item.itemCode || 'Unknown'`. */
  function DisplayName(e: Entry): (n: string)
    ensures n != "" && |n| <= |e.itemName| + |e.itemCode| + 7
    ensures e.itemName != "" ==> n <= e.itemName && |n| <= 20
    ensures e.itemName != "" ==> n == e.itemName[..if |e.itemName| < 20 then |e.itemName| else 20]
    ensures e.itemName == "" && e.itemCode != "" ==> n == e.itemCode
    ensures e.itemName == "" && e.itemCode == "" ==> n == "Unknown"
  {
    if e.itemName != "" then Take(e.itemName, 20)
    else if e.itemCode != "" then e.itemCode
    else "Unknown"
  }

  // ---- stock by category -----------------------------------------------------

  datatype CategoryTotal = CategoryTotal(name: string, value: int)

  /** `item.category || 'Other'`. */
  function CategoryOf(e: Entry): string
  {
    if e.category == "" then "Other" else e.category
  }

  function NameIs(name: string): CategoryTotal -> bool
  {
    (t: CategoryTotal) => t.name == name
  }

  /** The names of the members every object inherits from `Object.prototype`.
      The reduce's `{}` accumulator answers such a name with the inherited
      member, which is truthy, so no entry is created for it; the `+=` then
      writes onto the inherited member and `Object.values` never sees it. */
  predicate Inherited(name: string)
  {
    name in {"constructor", "__proto__", "__defineGetter__", "__defineSetter__",
             "__lookupGetter__", "__lookupSetter__", "hasOwnProperty", "isPrototypeOf",
             "propertyIsEnumerable", "toLocaleString", "toString", "valueOf"}
  }

  /** One step of the reduce: add the quantity to the category's total,
      creating the total the first time the category is seen; a name the
      accumulator already answers (`inherited`) leaves its own entries as
      they were. */
  function AddTo(acc: seq<CategoryTotal>, name: string, q: int, inherited: string -> bool): seq<CategoryTotal>
  {
    if inherited(name) then acc
    else match FindFirst(acc, NameIs(name))
    case Some(k) => acc[k := acc[k].(value := acc[k].value + q)]
    case None => acc + [CategoryTotal(name, q)]
  }

  /** The reduce over the inventory in order, then the accumulator's values
      in insertion order. */
  function Totals(entries: seq<Entry>, inherited: string -> bool): seq<CategoryTotal>
  {
    if |entries| == 0 then []
    else
      var n := |entries| - 1;
      AddTo(Totals(entries[..n], inherited), CategoryOf(entries[n]), entries[n].quantity, inherited)
  }

  /** `stockByCategory`, with the `{}` accumulator's inherited names. */
  function StockByCategory(entries: seq<Entry>): seq<CategoryTotal>
  {
    Totals(entries, Inherited)
  }

  /** Total quantity of the entries of one category. */
  function CategorySum(entries: seq<Entry>, name: string): int
  {
    if |entries| == 0 then 0
    else
      var n := |entries| - 1;
      CategorySum(entries[..n], name) + (if CategoryOf(entries[n]) == name then entries[n].quantity else 0)
  }

  function TotalQuantity(entries: seq<Entry>): int
  {
    if |entries| == 0 then 0 else TotalQuantity(entries[..|entries| - 1]) + entries[|entries| - 1].quantity
  }

  /** Total quantity of the entries whose category is an inherited name. */
  function InheritedQuantity(entries: seq<Entry>, inherited: string -> bool): int
  {
    if |entries| == 0 then 0
    else
      var n := |entries| - 1;
      InheritedQuantity(entries[..n], inherited) + (if inherited(CategoryOf(entries[n])) then entries[n].quantity else 0)
  }

  function Total(totals: seq<CategoryTotal>): int
  {
    if |totals| == 0 then 0 else Total(totals[..|totals| - 1]) + totals[|totals| - 1].value
  }

  ghost predicate DistinctNames(totals: seq<CategoryTotal>)
  {
    forall i, j :: 0 <= i < j < |totals| ==> totals[i].name != totals[j].name
  }

  /** The total shown for a category, 0 when it has none. */
  function ValueOf(totals: seq<CategoryTotal>, name: string): int
  {
    match FindFirst(totals, NameIs(name))
    case Some(k) => totals[k].value
    case None => 0
  }

  /** One reduce step keeps one total per category ... */
  lemma AddToDistinct(acc: seq<CategoryTotal>, c: string, q: int, inherited: string -> bool)
    requires DistinctNames(acc)
    ensures DistinctNames(AddTo(acc, c, q, inherited))
  {
    if !inherited(c) {
      match FindFirst(acc, NameIs(c))
      case Some(k) =>
      case None =>
    }
  }

  /** ... adds the quantity to its own category's total only ... */
  lemma AddToValue(acc: seq<CategoryTotal>, c: string, q: int, name: string, inherited: string -> bool)
    ensures ValueOf(AddTo(acc, c, q, inherited), name) == ValueOf(acc, name) + (if c == name && !inherited(c) then q else 0)
    ensures FindFirst(AddTo(acc, c, q, inherited), NameIs(name)).Some? <==>
      FindFirst(acc, NameIs(name)).Some? || (c == name && !inherited(c))
  {
    if !inherited(c) {
      AddOwnValue(acc, c, q, name, inherited);
    }
  }

  /** The step for a name the accumulator owns or creates. */
  lemma AddOwnValue(acc: seq<CategoryTotal>, c: string, q: int, name: string, inherited: string -> bool)
    requires !inherited(c)
    ensures ValueOf(AddTo(acc, c, q, inherited), name) == ValueOf(acc, name) + (if c == name then q else 0)
    ensures FindFirst(AddTo(acc, c, q, inherited), NameIs(name)).Some? <==> FindFirst(acc, NameIs(name)).Some? || c == name
  {
    match FindFirst(acc, NameIs(c))
    case Some(k) =>
      FindFirstUpdate(acc, NameIs(name), k, acc[k].(value := acc[k].value + q));
    case None =>
      FindFirstAppend(acc, NameIs(name), CategoryTotal(c, q));
  }

  /** ... and grows the sum of the totals by the quantity. */
  lemma AddToTotal(acc: seq<CategoryTotal>, c: string, q: int, inherited: string -> bool)
    ensures Total(AddTo(acc, c, q, inherited)) == Total(acc) + (if inherited(c) then 0 else q)
  {
    if !inherited(c) {
      match FindFirst(acc, NameIs(c))
      case Some(k) =>
        TotalUpdate(acc, k, q);
      case None =>
        assert (acc + [CategoryTotal(c, q)])[..|acc|] == acc;
    }
  }

  lemma {:induction false} TotalsDistinct(entries: seq<Entry>, inherited: string -> bool)
    ensures DistinctNames(Totals(entries, inherited))
    decreases |entries|
  {
    if |entries| > 0 {
      var n := |entries| - 1;
      TotalsDistinct(entries[..n], inherited);
      AddToDistinct(Totals(entries[..n], inherited), CategoryOf(entries[n]), entries[n].quantity, inherited);
    }
  }

  lemma {:induction false} TotalsValue(entries: seq<Entry>, name: string, inherited: string -> bool)
    ensures ValueOf(Totals(entries, inherited), name) == if inherited(name) then 0 else CategorySum(entries, name)
    decreases |entries|
  {
    if |entries| > 0 {
      var n := |entries| - 1;
      TotalsValue(entries[..n], name, inherited);
      AddToValue(Totals(entries[..n], inherited), CategoryOf(entries[n]), entries[n].quantity, name, inherited);
    }
  }

  lemma {:induction false} TotalsPresent(entries: seq<Entry>, name: string, inherited: string -> bool)
    ensures FindFirst(Totals(entries, inherited), NameIs(name)).Some? <==>
      !inherited(name) && exists j :: 0 <= j < |entries| && CategoryOf(entries[j]) == name
    decreases |entries|
  {
    if |entries| > 0 {
      var n := |entries| - 1;
      var prev := entries[..n];
      TotalsPresent(prev, name, inherited);
      AddToValue(Totals(prev, inherited), CategoryOf(entries[n]), entries[n].quantity, name, inherited);
      if exists j :: 0 <= j < |entries| && CategoryOf(entries[j]) == name {
        var j :| 0 <= j < |entries| && CategoryOf(entries[j]) == name;
        if j < n {
          assert CategoryOf(prev[j]) == name;
        }
      }
      if exists j :: 0 <= j < n && CategoryOf(prev[j]) == name {
        var j :| 0 <= j < n && CategoryOf(prev[j]) == name;
        assert CategoryOf(entries[j]) == name;
      }
    }
  }

  lemma {:induction false} TotalsCover(entries: seq<Entry>, inherited: string -> bool)
    ensures Total(Totals(entries, inherited)) == TotalQuantity(entries) - InheritedQuantity(entries, inherited)
    decreases |entries|
  {
    if |entries| > 0 {
      var n := |entries| - 1;
      TotalsCover(entries[..n], inherited);
      AddToTotal(Totals(entries[..n], inherited), CategoryOf(entries[n]), entries[n].quantity, inherited);
    }
  }

  lemma {:induction false} TotalUpdate(totals: seq<CategoryTotal>, k: nat, q: int)
    requires k < |totals|
    ensures Total(totals[k := totals[k].(value := totals[k].value + q)]) == Total(totals) + q
    decreases |totals|
  {
    var n := |totals| - 1;
    var t := totals[k := totals[k].(value := totals[k].value + q)];
    assert t[..n] == if k < n then totals[..n][k := totals[k].(value := totals[k].value + q)] else totals[..n];
    if k < n {
      TotalUpdate(totals[..n], k, q);
    }
  }

  /** Each category appears in the chart once. */
  lemma CategoryNamesDistinct(entries: seq<Entry>)
    ensures DistinctNames(StockByCategory(entries))
  {
    TotalsDistinct(entries, Inherited);
  }

  /** A category's total is the sum of its items' quantities; an inherited
      name has none. */
  lemma CategoryTotals(entries: seq<Entry>, name: string)
    ensures ValueOf(StockByCategory(entries), name) == if Inherited(name) then 0 else CategorySum(entries, name)
  {
    TotalsValue(entries, name, Inherited);
  }

  /** A category has a total exactly when it is not an inherited name and
      some item belongs to it. */
  lemma CategoryPresent(entries: seq<Entry>, name: string)
    ensures FindFirst(StockByCategory(entries), NameIs(name)).Some? <==>
      !Inherited(name) && exists j :: 0 <= j < |entries| && CategoryOf(entries[j]) == name
  {
    TotalsPresent(entries, name, Inherited);
  }

  /** The chart's slices add up to the whole stock, less the stock of the
      items whose category is an inherited name. */
  lemma CategoryTotalsCoverStock(entries: seq<Entry>)
    ensures Total(StockByCategory(entries)) == TotalQuantity(entries) - InheritedQuantity(entries, Inherited)
  {
    TotalsCover(entries, Inherited);
  }

  /** An item in category "constructor" gets no slice: its stock is missing
      from the chart. */
  lemma ConstructorCategoryDropped(e: Entry)
    requires e.category == "constructor"
    ensures StockByCategory([e]) == []
    ensures Total(StockByCategory([e])) == TotalQuantity([e]) - e.quantity
  {
    assert [e][..0] == [];
    assert Inherited(CategoryOf(e));
    assert AddTo([], CategoryOf(e), e.quantity, Inherited) == [];
    assert Totals([e], Inherited) == AddTo(Totals([], Inherited), CategoryOf(e), e.quantity, Inherited);
  }

  // ---- safety stock breaches ---------------------------------------------------

  /** `item.threshold || 10`: a zero threshold falls back to 10. */
  function Effective(e: Entry): int
  {
    if e.threshold == 0 then 10 else e.threshold
  }

  predicate IsBreach(e: Entry)
  {
    e.quantity < Effective(e)
  }

  /** The listed record: the item with its effective threshold. */
  function Flagged(e: Entry): Entry
  {
    e.(threshold := Effective(e))
  }

  /** The breaches' sort key: fewest units first. */
  function Quantity(e: Entry): int
  {
    e.quantity
  }

  /** `safetyStockBreaches`: the items below their effective threshold,
      fewest units first. */
  function SafetyBreaches(entries: seq<Entry>): (r: seq<Entry>)
    ensures |r| == Count(entries, IsBreach)
    ensures forall i :: 0 <= i < |r| ==> From(r[i], entries, IsBreach, Flagged)
    ensures forall j :: 0 <= j < |entries| && IsBreach(entries[j]) ==> Flagged(entries[j]) in r
    ensures SortedBy(r, Quantity)
  {
    SortedImages(entries, IsBreach, Flagged, Quantity);
    SortBy(MapFilter(entries, IsBreach, Flagged), Quantity)
  }

  /** An item of the inventory is listed exactly when it is below its
      effective threshold; with a zero threshold that means below 10. */
  lemma BreachListedIff(entries: seq<Entry>, j: nat)
    requires j < |entries|
    ensures Flagged(entries[j]) in SafetyBreaches(entries) <==> entries[j].quantity < Effective(entries[j])
    ensures entries[j].threshold == 0 ==> Effective(entries[j]) == 10
  {
    var r := SafetyBreaches(entries);
    if Flagged(entries[j]) in r {
      var i :| 0 <= i < |r| && r[i] == Flagged(entries[j]);
      assert From(r[i], entries, IsBreach, Flagged);
      var m :| 0 <= m < |entries| && IsBreach(entries[m]) && r[i] == Flagged(entries[m]);
      assert Effective(entries[j]) == Flagged(entries[j]).threshold == Effective(entries[m]);
    }
  }

  // ---- expiry timeline ------------------------------------------------------------

  datatype ExpiryPoint = ExpiryPoint(name: string, daysUntilExpiry: int, quantity: int, risk: string)

  /** `.filter((item) => item.expiryDate)`: the days are null exactly when
      the date is missing. */
  predicate HasExpiry(e: Entry)
  {
    e.daysUntilExpiry.Some?
  }

  function Point(e: Entry): ExpiryPoint
  {
    var d := if e.daysUntilExpiry.Some? then e.daysUntilExpiry.value else 0;
    ExpiryPoint(DisplayName(e), d, e.quantity, RiskColor(e.daysUntilExpiry))
  }

  /** The timeline's sort key: soonest expiry first. */
  function Soonest(p: ExpiryPoint): int
  {
    p.daysUntilExpiry
  }

  /** `expiryData`: the items with an expiry date, soonest first, at most 15;
      an item left out expires no sooner than the last one shown. */
  function ExpiryTimeline(entries: seq<Entry>): (r: seq<ExpiryPoint>)
    ensures |r| == if Count(entries, HasExpiry) < 15 then Count(entries, HasExpiry) else 15
    ensures forall i :: 0 <= i < |r| ==> From(r[i], entries, HasExpiry, Point)
    ensures SortedBy(r, Soonest)
    ensures multiset(r) <= multiset(Map(Filter(entries, HasExpiry), Point))
    ensures forall j :: 0 <= j < |entries| && HasExpiry(entries[j]) ==>
      Point(entries[j]) in r || (|r| == 15 && Soonest(r[14]) <= Soonest(Point(entries[j])))
  {
    TopN(entries, HasExpiry, Point, Soonest, 15);
    TopNOnce(entries, HasExpiry, Point, Soonest, 15);
    Take(SortBy(MapFilter(entries, HasExpiry, Point), Soonest), 15)
  }

  // ---- batch aging ---------------------------------------------------------------------

  datatype AgingBar = AgingBar(name: string, age: int, quantity: int, batchID: string)

  /** `.filter((item) => item.batchID || item.createdAt)`. */
  predicate HasBatch(e: Entry)
  {
    e.batchID != "" || e.ageDays.Some?
  }

  /** `getBatchAge`: 0 without a creation date. */
  function BatchAge(e: Entry): int
  {
    if e.ageDays.Some? then e.ageDays.value else 0
  }

  function Bar(e: Entry): AgingBar
  {
    AgingBar(DisplayName(e), BatchAge(e), e.quantity, if e.batchID != "" then e.batchID else "N/A")
  }

  /** The aging chart's sort key: the largest age first. */
  function Oldest(b: AgingBar): int
  {
    -b.age
  }

  /** `batchAging`: the items with a batch or a creation date, oldest first,
      at most 10; an item left out is no older than the last one shown. */
  function BatchAging(entries: seq<Entry>): (r: seq<AgingBar>)
    ensures |r| == if Count(entries, HasBatch) < 10 then Count(entries, HasBatch) else 10
    ensures forall i :: 0 <= i < |r| ==> From(r[i], entries, HasBatch, Bar)
    ensures SortedBy(r, Oldest)
    ensures multiset(r) <= multiset(Map(Filter(entries, HasBatch), Bar))
    ensures forall j :: 0 <= j < |entries| && HasBatch(entries[j]) ==>
      Bar(entries[j]) in r || (|r| == 10 && Oldest(r[9]) <= Oldest(Bar(entries[j])))
  {
    TopN(entries, HasBatch, Bar, Oldest, 10);
    TopNOnce(entries, HasBatch, Bar, Oldest, 10);
    Take(SortBy(MapFilter(entries, HasBatch, Bar), Oldest), 10)
  }

  // ---- insights ------------------------------------------------------------------

  datatype Insight =
    | Critical(item: string, daysLeft: int)
    | Expiry(item: string, daysUntilExpiry: int)

  /** A breach whose stock runs out within two weeks. */
  predicate RunsOutSoon(e: Entry)
  {
    e.daysLeft.Some? && e.daysLeft.value <= 14
  }

  function ToCritical(e: Entry): Insight
  {
    Critical(e.itemName, if e.daysLeft.Some? then e.daysLeft.value else 0)
  }

  /** A timeline point that has not expired and expires within a month. */
  predicate ExpiresSoon(p: ExpiryPoint)
  {
    0 < p.daysUntilExpiry <= 30
  }

  function ToExpiry(p: ExpiryPoint): Insight
  {
    Expiry(p.name, p.daysUntilExpiry)
  }

  /** The critical insights: one per breach among the first five whose stock
      runs out within two weeks, in breach order. */
  function CriticalInsights(breaches: seq<Entry>): (c: seq<Insight>)
    ensures |c| <= 5
    ensures forall i :: 0 <= i < |c| ==>
      c[i].Critical? && c[i].daysLeft <= 14 && From(c[i], Take(breaches, 5), RunsOutSoon, ToCritical)
    ensures forall k :: 0 <= k < |breaches| && k < 5 && RunsOutSoon(breaches[k]) ==> ToCritical(breaches[k]) in c
    ensures c == Map(Filter(Take(breaches, 5), RunsOutSoon), ToCritical)
  {
    var first := Take(breaches, 5);
    var c := MapFilter(first, RunsOutSoon, ToCritical);
    MapFilterCount(first, RunsOutSoon, ToCritical);
    MapFilterIsMapOfFilter(first, RunsOutSoon, ToCritical);
    forall i | 0 <= i < |c|
      ensures c[i].Critical? && c[i].daysLeft <= 14
    {
      assert From(c[i], first, RunsOutSoon, ToCritical);
    }
    forall k | 0 <= k < |breaches| && k < 5 && RunsOutSoon(breaches[k])
      ensures ToCritical(breaches[k]) in c
    {
      assert first[k] == breaches[k];
    }
    c
  }

  /** The expiry insights: the first three timeline points that expire within
      a month, in timeline order; a qualifying point is left out only when
      three are already shown. */
  function ExpiryInsights(timeline: seq<ExpiryPoint>): (x: seq<Insight>)
    ensures |x| <= 3
    ensures forall i :: 0 <= i < |x| ==>
      x[i].Expiry? && 0 < x[i].daysUntilExpiry <= 30 && From(x[i], timeline, ExpiresSoon, ToExpiry)
    ensures forall m :: 0 <= m < |timeline| && ExpiresSoon(timeline[m]) ==> ToExpiry(timeline[m]) in x || |x| == 3
    ensures x == Map(Take(Filter(timeline, ExpiresSoon), 3), ToExpiry)
  {
    var soon := Take(Filter(timeline, ExpiresSoon), 3);
    var x := Map(soon, ToExpiry);
    ExpiryFrom(timeline, soon, x);
    forall m | 0 <= m < |timeline| && ExpiresSoon(timeline[m])
      ensures ToExpiry(timeline[m]) in x || |x| == 3
    {
      TakeFilterShown(timeline, ExpiresSoon, ToExpiry, 3, m);
    }
    x
  }

  lemma ExpiryFrom(timeline: seq<ExpiryPoint>, soon: seq<ExpiryPoint>, x: seq<Insight>)
    requires forall i :: 0 <= i < |soon| ==> ExpiresSoon(soon[i]) && soon[i] in timeline
    requires |x| == |soon| && forall i :: 0 <= i < |soon| ==> x[i] == ToExpiry(soon[i])
    ensures forall i :: 0 <= i < |x| ==> From(x[i], timeline, ExpiresSoon, ToExpiry)
  {
    forall i | 0 <= i < |x|
      ensures From(x[i], timeline, ExpiresSoon, ToExpiry)
    {
      var m :| 0 <= m < |timeline| && timeline[m] == soon[i];
    }
  }

  /** `insights`: the critical insights of the first five breaches, then the
      expiry insights of the first three timeline points that expire within
      a month. */
  function Insights(breaches: seq<Entry>, timeline: seq<ExpiryPoint>): (r: seq<Insight>)
    ensures |r| <= 8
    ensures forall i, j :: 0 <= i < j < |r| && r[i].Expiry? ==> r[j].Expiry?
    ensures forall i :: 0 <= i < |r| && r[i].Critical? ==>
      r[i].daysLeft <= 14 && From(r[i], Take(breaches, 5), RunsOutSoon, ToCritical)
    ensures forall i :: 0 <= i < |r| && r[i].Expiry? ==>
      0 < r[i].daysUntilExpiry <= 30 && From(r[i], timeline, ExpiresSoon, ToExpiry)
    ensures forall k :: 0 <= k < |breaches| && k < 5 && RunsOutSoon(breaches[k]) ==> ToCritical(breaches[k]) in r
    ensures r == CriticalInsights(breaches) + Map(Take(Filter(timeline, ExpiresSoon), 3), ToExpiry)
  {
    CriticalThenExpiry(breaches, timeline);
    InsightsJustified(breaches, timeline);
    CriticalInsights(breaches) + ExpiryInsights(timeline)
  }

  lemma CriticalThenExpiry(breaches: seq<Entry>, timeline: seq<ExpiryPoint>)
    ensures var r := CriticalInsights(breaches) + ExpiryInsights(timeline);
      && |r| <= 8
      && (forall i, j :: 0 <= i < j < |r| && r[i].Expiry? ==> r[j].Expiry?)
      && (forall k :: 0 <= k < |breaches| && k < 5 && RunsOutSoon(breaches[k]) ==> ToCritical(breaches[k]) in r)
  {
    var c := CriticalInsights(breaches);
    var x := ExpiryInsights(timeline);
    ConcatIndex(c, x);
  }

  lemma InsightsJustified(breaches: seq<Entry>, timeline: seq<ExpiryPoint>)
    ensures var r := CriticalInsights(breaches) + ExpiryInsights(timeline);
      && (forall i :: 0 <= i < |r| && r[i].Critical? ==>
            r[i].daysLeft <= 14 && From(r[i], Take(breaches, 5), RunsOutSoon, ToCritical))
      && (forall i :: 0 <= i < |r| && r[i].Expiry? ==>
            0 < r[i].daysUntilExpiry <= 30 && From(r[i], timeline, ExpiresSoon, ToExpiry))
  {
    JustifiedParts(CriticalInsights(breaches), ExpiryInsights(timeline), Take(breaches, 5), timeline);
  }

  /** Justified critical insights followed by justified expiry insights. */
  lemma JustifiedParts(c: seq<Insight>, x: seq<Insight>, first: seq<Entry>, timeline: seq<ExpiryPoint>)
    requires forall i :: 0 <= i < |c| ==>
      c[i].Critical? && c[i].daysLeft <= 14 && From(c[i], first, RunsOutSoon, ToCritical)
    requires forall i :: 0 <= i < |x| ==>
      x[i].Expiry? && 0 < x[i].daysUntilExpiry <= 30 && From(x[i], timeline, ExpiresSoon, ToExpiry)
    ensures var r := c + x;
      && (forall i :: 0 <= i < |r| && r[i].Critical? ==>
            r[i].daysLeft <= 14 && From(r[i], first, RunsOutSoon, ToCritical))
      && (forall i :: 0 <= i < |r| && r[i].Expiry? ==>
            0 < r[i].daysUntilExpiry <= 30 && From(r[i], timeline, ExpiresSoon, ToExpiry))
  {
    ConcatIndex(c, x);
  }



  // ---- risk table --------------------------------------------------------------------

  datatype RiskRow = RiskRow(
    itemName: string,
    quantity: int,
    daysUntilExpiry: Option<int>,
    daysLeft: Option<int>,
    riskColor: string)

  function Row(e: Entry): RiskRow
  {
    RiskRow(e.itemName, e.quantity, e.daysUntilExpiry, e.daysLeft, RiskColor(e.daysUntilExpiry))
  }

  predicate NoExpiry(e: Entry)
  {
    e.daysUntilExpiry.None?
  }

  function RowDays(row: RiskRow): int
  {
    if row.daysUntilExpiry.Some? then row.daysUntilExpiry.value else 0
  }

  /** The table's comparator keeps rows without an expiry date after all
      others and in their inventory order (the sort is stable); the others
      go soonest first. The first 20 rows are shown. */
  function RiskTable(entries: seq<Entry>): (r: seq<RiskRow>)
    ensures |r| == if |entries| < 20 then |entries| else 20
    ensures forall i :: 0 <= i < |r| ==> RowOf(r[i], entries)
    ensures forall i, j :: 0 <= i < j < |r| && r[i].daysUntilExpiry.None? ==> r[j].daysUntilExpiry.None?
    ensures forall i, j :: 0 <= i < j < |r| && r[j].daysUntilExpiry.Some? ==>
      r[i].daysUntilExpiry.Some? && r[i].daysUntilExpiry.value <= r[j].daysUntilExpiry.value
    ensures forall j :: 0 <= j < |entries| ==> Row(entries[j]) in r || |r| == 20
    ensures forall j :: 0 <= j < |entries| && Row(entries[j]) !in r ==>
      && |r| == 20
      && (entries[j].daysUntilExpiry.Some? ==>
            r[19].daysUntilExpiry.Some? && r[19].daysUntilExpiry.value <= entries[j].daysUntilExpiry.value)
    ensures multiset(r) <= multiset(MapFilter(entries, HasExpiry, Row)) + multiset(MapFilter(entries, NoExpiry, Row))
  {
    var l := MapFilter(entries, HasExpiry, Row);
    var dated := SortBy(l, RowDays);
    var undated := MapFilter(entries, NoExpiry, Row);
    ReorderKeepsFrom(l, dated, entries, HasExpiry, Row);
    RiskTableLength(entries);
    RiskTableOrder(dated, undated, entries);
    RiskTableMembers(dated, undated, entries);
    RiskTableTop(dated, undated, entries);
    RiskTableOnce(entries);
    Take(dated + undated, 20)
  }

  /** Every item gives one row, dated or not, and 20 are shown. */
  lemma RiskTableLength(entries: seq<Entry>)
    ensures var l := MapFilter(entries, HasExpiry, Row);
      var undated := MapFilter(entries, NoExpiry, Row);
      |Take(SortBy(l, RowDays) + undated, 20)| == if |entries| < 20 then |entries| else 20
  {
    MapFilterCount(entries, HasExpiry, Row);
    MapFilterCount(entries, NoExpiry, Row);
    CountSplit(entries);
  }

  /** The shown rows hold each row at most as often as the items give it. */
  lemma RiskTableOnce(entries: seq<Entry>)
    ensures var l := MapFilter(entries, HasExpiry, Row);
      var undated := MapFilter(entries, NoExpiry, Row);
      multiset(Take(SortBy(l, RowDays) + undated, 20)) <= multiset(l) + multiset(undated)
  {
    var l := MapFilter(entries, HasExpiry, Row);
    var all := SortBy(l, RowDays) + MapFilter(entries, NoExpiry, Row);
    PrefixMultiset(Take(all, 20), all);
  }

  /** `x` is the row of some item. */
  ghost predicate RowOf(x: RiskRow, entries: seq<Entry>)
  {
    exists j :: 0 <= j < |entries| && x == Row(entries[j])
  }

  /** The shown rows are rows of items, and every item's row is shown unless
      the table is full. */
  lemma RiskTableMembers(dated: seq<RiskRow>, undated: seq<RiskRow>, entries: seq<Entry>)
    requires forall i :: 0 <= i < |dated| ==> From(dated[i], entries, HasExpiry, Row)
    requires forall i :: 0 <= i < |undated| ==> From(undated[i], entries, NoExpiry, Row)
    requires forall j :: 0 <= j < |entries| && HasExpiry(entries[j]) ==> Row(entries[j]) in dated
    requires forall j :: 0 <= j < |entries| && NoExpiry(entries[j]) ==> Row(entries[j]) in undated
    ensures var r := Take(dated + undated, 20);
      && (forall i :: 0 <= i < |r| ==> RowOf(r[i], entries))
      && (forall j :: 0 <= j < |entries| ==> Row(entries[j]) in r || |r| == 20)
  {
    var all := dated + undated;
    var r := Take(all, 20);
    forall i | 0 <= i < |r|
      ensures RowOf(r[i], entries)
    {
      assert r[i] == all[i];
      if i < |dated| {
        assert From(dated[i], entries, HasExpiry, Row);
      } else {
        assert From(undated[i - |dated|], entries, NoExpiry, Row);
      }
    }
    forall j | 0 <= j < |entries|
      ensures Row(entries[j]) in r || |r| == 20
    {
      assert Row(entries[j]) in all;
      if |all| <= 20 {
        assert r == all;
      }
    }
  }

  /** An item left out of a full table has no expiry date, or one no sooner
      than the last shown row's. */
  lemma RiskTableTop(dated: seq<RiskRow>, undated: seq<RiskRow>, entries: seq<Entry>)
    requires SortedBy(dated, RowDays)
    requires forall i :: 0 <= i < |dated| ==> From(dated[i], entries, HasExpiry, Row)
    requires forall j :: 0 <= j < |entries| && HasExpiry(entries[j]) ==> Row(entries[j]) in dated
    requires forall j :: 0 <= j < |entries| && NoExpiry(entries[j]) ==> Row(entries[j]) in undated
    ensures var r := Take(dated + undated, 20);
      forall j :: 0 <= j < |entries| && Row(entries[j]) !in r ==>
        && |r| == 20
        && (entries[j].daysUntilExpiry.Some? ==>
              r[19].daysUntilExpiry.Some? && r[19].daysUntilExpiry.value <= entries[j].daysUntilExpiry.value)
  {
    var all := dated + undated;
    var r := Take(all, 20);
    assert |all| <= 20 ==> r == all;
    assert forall i :: 0 <= i < |r| ==> r[i] == all[i];
    forall j | 0 <= j < |entries| && Row(entries[j]) !in r
      ensures |r| == 20
      ensures entries[j].daysUntilExpiry.Some? ==>
        r[19].daysUntilExpiry.Some? && r[19].daysUntilExpiry.value <= entries[j].daysUntilExpiry.value
    {
      var row := Row(entries[j]);
      assert row in all;
      if entries[j].daysUntilExpiry.Some? {
        var m :| 0 <= m < |dated| && dated[m] == row;
        assert all[m] == row;
        assert r[19] == dated[19];
        assert From(dated[19], entries, HasExpiry, Row);
        assert RowDays(dated[19]) <= RowDays(dated[m]);
      }
    }
  }


  lemma {:induction false} CountSplit(entries: seq<Entry>)
    ensures Count(entries, HasExpiry) + Count(entries, NoExpiry) == |entries|
  {
    if |entries| > 0 {
      CountSplit(entries[1..]);
    }
  }

  /** The dated rows, sorted, ahead of the undated ones. */
  lemma RiskTableOrder(dated: seq<RiskRow>, undated: seq<RiskRow>, entries: seq<Entry>)
    requires SortedBy(dated, RowDays)
    requires forall i :: 0 <= i < |dated| ==> From(dated[i], entries, HasExpiry, Row)
    requires forall i :: 0 <= i < |undated| ==> From(undated[i], entries, NoExpiry, Row)
    ensures var r := Take(dated + undated, 20);
      && (forall i, j :: 0 <= i < j < |r| && r[i].daysUntilExpiry.None? ==> r[j].daysUntilExpiry.None?)
      && (forall i, j :: 0 <= i < j < |r| && r[j].daysUntilExpiry.Some? ==>
            r[i].daysUntilExpiry.Some? && r[i].daysUntilExpiry.value <= r[j].daysUntilExpiry.value)
  {
    var all := dated + undated;
    assert forall i :: 0 <= i < |Take(all, 20)| ==> Take(all, 20)[i] == all[i];
    forall i | 0 <= i < |dated|
      ensures all[i].daysUntilExpiry.Some?
    {
      assert From(dated[i], entries, HasExpiry, Row);
    }
    forall i | |dated| <= i < |all|
      ensures all[i].daysUntilExpiry.None?
    {
      assert From(undated[i - |dated|], entries, NoExpiry, Row);
    }
    forall i, j | 0 <= i < j < |dated|
      ensures all[i].daysUntilExpiry.value <= all[j].daysUntilExpiry.value
    {
      assert RowDays(dated[i]) <= RowDays(dated[j]);
    }
  }

  // ---- the processed data ------------------------------------------------------------

  datatype Processed = Processed(
    stockByCategory: seq<CategoryTotal>,
    batchAging: seq<AgingBar>,
    expiryData: seq<ExpiryPoint>,
    safetyStockBreaches: seq<Entry>,
    insights: seq<Insight>)

  /** `processedData`: nothing for an empty inventory; otherwise the lists
      above, the insights drawn from the breaches and the timeline. */
  function ProcessedData(entries: seq<Entry>): (r: Option<Processed>)
    ensures r.None? <==> |entries| == 0
    ensures r.Some? ==> r.value.insights == Insights(r.value.safetyStockBreaches, r.value.expiryData)
    ensures r.Some? ==>
      && r.value.stockByCategory == StockByCategory(entries)
      && r.value.batchAging == BatchAging(entries)
      && r.value.expiryData == ExpiryTimeline(entries)
      && r.value.safetyStockBreaches == SafetyBreaches(entries)
  {
    if |entries| == 0 then None
    else
      var breaches := SafetyBreaches(entries);
      var timeline := ExpiryTimeline(entries);
      Some(Processed(StockByCategory(entries), BatchAging(entries), timeline, breaches, Insights(breaches, timeline)))
  }
}
