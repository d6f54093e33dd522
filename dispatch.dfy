/** The inventory pass of sales dispatch (backend/controllers/salesDispatchController.js,
    lines 64-90) as a specification on values: each line looks up the first
    item with the line's name (the category plays no part), refuses a missing
    item or short stock, and otherwise deducts and saves at once; the first
    refusal ends the pass and earlier deductions stay. The class method
    `InventoryStore.Store.DispatchGoods` runs this pass in place and is proved
    equal to it. */
module Dispatch {
  import opened Common
  import opened Responses
  import opened InventoryModel
  import opened DispatchModel

  /** The filter `{ itemName }`. */
  function NameIs(name: string): InventoryItem -> bool
  {
    (it: InventoryItem) => it.itemName == name
  }

  /** `Inventory.findOne({ itemName })`. */
  function FindByName(items: seq<InventoryItem>, name: string): Option<nat>
  {
    FindFirst(items, NameIs(name))
  }

  /** The stock a dispatch sees for a name: the quantity of the first item
      with that name, 0 when there is none. */
  function NameStock(items: seq<InventoryItem>, name: string): int
  {
    match FindByName(items, name)
    case Some(k) => items[k].quantity
    case None => 0
  }

  ghost predicate AllValid(items: seq<InventoryItem>)
  {
    forall i :: 0 <= i < |items| ==> ItemValid(items[i])
  }

  datatype Step = Deducted(items: seq<InventoryItem>) | Refused(error: Error)

  /** Lines 65-86 for one line. */
  function DeductLine(items: seq<InventoryItem>, line: DispatchLine): Step
  {
    match FindByName(items, line.itemName)
    case None => Refused(ItemNotFound(line.itemName))
    case Some(k) =>
      if items[k].quantity < line.quantity then Refused(InsufficientStock(line.itemName, items[k].quantity))
      else
        var inv := items[k].(quantity := items[k].quantity - line.quantity);
        if ItemViolation(inv).Some? then Refused(SaveFailed(400, ItemViolation(inv).value))
        else Deducted(items[k := inv])
  }

  /** The outcome of a pass: the items left behind, how many lines were
      deducted, and the error of the line that was refused, if any. */
  datatype Pass = Pass(items: seq<InventoryItem>, applied: nat, failure: Option<Error>)

  function DeductLines(items: seq<InventoryItem>, lines: seq<DispatchLine>): (p: Pass)
    ensures p.applied <= |lines|
    ensures p.failure.None? ==> p.applied == |lines|
    decreases |lines|
  {
    if |lines| == 0 then Pass(items, 0, None)
    else
      var prev := DeductLines(items, lines[..|lines| - 1]);
      if prev.failure.Some? then prev
      else match DeductLine(prev.items, lines[|lines| - 1])
        case Refused(e) => Pass(prev.items, prev.applied, Some(e))
        case Deducted(next) => Pass(next, prev.applied + 1, None)
  }

  /** One more line extends a pass that has not failed by that line's step. */
  lemma DeductLinesSnoc(items: seq<InventoryItem>, lines: seq<DispatchLine>, i: nat)
    requires i < |lines| && DeductLines(items, lines[..i]).failure.None?
    ensures var prev := DeductLines(items, lines[..i]);
      DeductLines(items, lines[..i + 1]) ==
        match DeductLine(prev.items, lines[i])
        case Refused(e) => Pass(prev.items, prev.applied, Some(e))
        case Deducted(next) => Pass(next, prev.applied + 1, None)
  {
    PrefixOfPrefix(lines, i + 1, i);
  }

  /** Once a prefix of the lines has been refused, the later lines change nothing. */
  lemma {:induction false} DeductStopsAtFailure(items: seq<InventoryItem>, lines: seq<DispatchLine>, n: nat)
    requires n <= |lines| && DeductLines(items, lines[..n]).failure.Some?
    ensures DeductLines(items, lines) == DeductLines(items, lines[..n])
    decreases |lines|
  {
    if n == |lines| {
      assert lines[..n] == lines;
    } else {
      var init := lines[..|lines| - 1];
      assert init[..n] == lines[..n];
      DeductStopsAtFailure(items, init, n);
    }
  }

  /** No compensation: when line `k` is refused, the items are exactly those
      the first `k` deductions produced, and it is line `k` that was refused. */
  lemma {:induction false} DeductPartial(items: seq<InventoryItem>, lines: seq<DispatchLine>)
    requires DeductLines(items, lines).failure.Some?
    ensures var p := DeductLines(items, lines);
      && p.applied < |lines|
      && DeductLines(items, lines[..p.applied]) == Pass(p.items, p.applied, None)
      && DeductLine(p.items, lines[p.applied]) == Refused(p.failure.value)
    decreases |lines|
  {
    var init := lines[..|lines| - 1];
    var prev := DeductLines(items, init);
    if prev.failure.Some? {
      assert DeductLines(items, lines) == prev;
      DeductPartial(items, init);
      var a, b := lines[..prev.applied], init[..prev.applied];
      PrefixOfPrefix(lines, |lines| - 1, prev.applied);
      assert a == b;
      assert DeductLines(items, a) == DeductLines(items, b);
      assert init[prev.applied] == lines[prev.applied];
    } else {
      DeductFailsAtLast(items, lines);
    }
  }

  /** The case of `DeductPartial` where the last line is the one refused. */
  lemma DeductFailsAtLast(items: seq<InventoryItem>, lines: seq<DispatchLine>)
    requires |lines| > 0
    requires DeductLines(items, lines).failure.Some?
    requires DeductLines(items, lines[..|lines| - 1]).failure.None?
    ensures var p := DeductLines(items, lines);
      && p.applied < |lines|
      && DeductLines(items, lines[..p.applied]) == Pass(p.items, p.applied, None)
      && DeductLine(p.items, lines[p.applied]) == Refused(p.failure.value)
  {
    var prev := DeductLines(items, lines[..|lines| - 1]);
    var step := DeductLine(prev.items, lines[|lines| - 1]);
    assert step.Refused?;
    assert DeductLines(items, lines) == Pass(prev.items, prev.applied, Some(step.error));
  }

  /** A pass only ever changes quantities, and only those of items that are
      the first with their name; every other item, in particular one that
      shares a name with an earlier item in another category, is untouched. */
  lemma {:induction false} DeductShape(items: seq<InventoryItem>, lines: seq<DispatchLine>)
    ensures var p := DeductLines(items, lines);
      && |p.items| == |items|
      && (forall j :: 0 <= j < |items| ==> p.items[j] == items[j].(quantity := p.items[j].quantity))
      && (forall j :: 0 <= j < |items| && FindByName(items, items[j].itemName) != Some(j) ==> p.items[j] == items[j])
    decreases |lines|
  {
    if |lines| > 0 {
      var init := lines[..|lines| - 1];
      DeductShape(items, init);
      var prev := DeductLines(items, init);
      if prev.failure.None? {
        var line := lines[|lines| - 1];
        match FindByName(prev.items, line.itemName)
        case None =>
        case Some(k) =>
          forall j | 0 <= j < |items| && FindByName(items, items[j].itemName) != Some(j)
            ensures k != j
          {
            if k == j {
              var name := items[j].itemName;
              assert forall i :: 0 <= i < |items| ==> NameIs(name)(prev.items[i]) == NameIs(name)(items[i]);
              FindFirstIs(items, NameIs(name), Some(j));
            }
          }
      }
    }
  }

  /** Valid items stay valid: a deduction only changes the quantity. */
  lemma {:induction false} DeductKeepsValid(items: seq<InventoryItem>, lines: seq<DispatchLine>, nextId: nat)
    requires InventoryValid(items, nextId)
    ensures InventoryValid(DeductLines(items, lines).items, nextId)
  {
    DeductShape(items, lines);
  }

  predicate NonNegative(items: seq<InventoryItem>)
  {
    forall i :: 0 <= i < |items| ==> items[i].quantity >= 0
  }

  /** No negative stock: a deduction happens only when the stock covers it, so
      a pass never takes a quantity below zero, complete or cut short. */
  lemma {:induction false} DeductNeverNegative(items: seq<InventoryItem>, lines: seq<DispatchLine>)
    requires NonNegative(items)
    ensures NonNegative(DeductLines(items, lines).items)
    decreases |lines|
  {
    if |lines| > 0 {
      var init := lines[..|lines| - 1];
      DeductNeverNegative(items, init);
      var prev := DeductLines(items, init);
      if prev.failure.None? {
        var line := lines[|lines| - 1];
        match DeductLine(prev.items, line)
        case Refused(_) =>
        case Deducted(next) =>
          var k := FindByName(prev.items, line.itemName).value;
          assert next == prev.items[k := prev.items[k].(quantity := prev.items[k].quantity - line.quantity)];
      }
    }
  }

  /** The total quantity the lines request under one name. */
  function SumRequested(lines: seq<DispatchLine>, name: string): int
  {
    if |lines| == 0 then 0
    else
      var last := lines[|lines| - 1];
      SumRequested(lines[..|lines| - 1], name) + (if last.itemName == name then last.quantity else 0)
  }

  /** What one deduction does to the stock seen for any name. */
  lemma DeductLineStock(items: seq<InventoryItem>, line: DispatchLine, name: string)
    requires DeductLine(items, line).Deducted?
    ensures FindByName(DeductLine(items, line).items, name) == FindByName(items, name)
    ensures NameStock(DeductLine(items, line).items, name) ==
      NameStock(items, name) - (if line.itemName == name then line.quantity else 0)
  {
    var k := FindByName(items, line.itemName).value;
    var inv := items[k].(quantity := items[k].quantity - line.quantity);
    FindFirstUpdate(items, NameIs(name), k, inv);
  }

  /** Quantity reconciliation: after a complete pass the stock under every
      name has dropped by exactly the total requested for that name, and the
      same item is still the one found for it. */
  lemma {:induction false} DeductStock(items: seq<InventoryItem>, lines: seq<DispatchLine>, name: string)
    requires DeductLines(items, lines).failure.None?
    ensures FindByName(DeductLines(items, lines).items, name) == FindByName(items, name)
    ensures NameStock(DeductLines(items, lines).items, name) == NameStock(items, name) - SumRequested(lines, name)
    decreases |lines|
  {
    if |lines| > 0 {
      var init := lines[..|lines| - 1];
      DeductStock(items, init, name);
      DeductLineStock(DeductLines(items, init).items, lines[|lines| - 1], name);
    }
  }

  predicate Requested(lines: seq<DispatchLine>)
  {
    forall i :: 0 <= i < |lines| ==> lines[i].quantity > 0
  }

  /** Every line names an item that exists and whose stock covers everything
      the dispatch requests under that name. */
  ghost predicate Covered(items: seq<InventoryItem>, lines: seq<DispatchLine>)
  {
    forall i :: 0 <= i < |lines| ==>
      FindByName(items, lines[i].itemName).Some?
      && NameStock(items, lines[i].itemName) >= SumRequested(lines, lines[i].itemName)
  }

  lemma {:induction false} SumRequestedGrows(lines: seq<DispatchLine>, name: string)
    requires Requested(lines)
    ensures SumRequested(lines, name) >= 0
    decreases |lines|
  {
    if |lines| > 0 {
      SumRequestedGrows(lines[..|lines| - 1], name);
    }
  }

  /** Coverage of all lines is coverage of the earlier lines plus the last
      line's name covering the whole total requested under it. */
  lemma CoveredSplit(items: seq<InventoryItem>, lines: seq<DispatchLine>)
    requires |lines| > 0 && Requested(lines)
    ensures var init, last := lines[..|lines| - 1], lines[|lines| - 1];
      Covered(items, lines) <==>
        Covered(items, init) && FindByName(items, last.itemName).Some?
        && NameStock(items, last.itemName) >= SumRequested(lines, last.itemName)
  {
    var init, last := lines[..|lines| - 1], lines[|lines| - 1];
    assert forall i :: 0 <= i < |init| ==> init[i] == lines[i];
    if Covered(items, lines) {
      forall i | 0 <= i < |init|
        ensures NameStock(items, init[i].itemName) >= SumRequested(init, init[i].itemName)
      {
        assert NameStock(items, lines[i].itemName) >= SumRequested(lines, lines[i].itemName);
      }
    }
  }

  /** A dispatch of positive quantities against valid items completes exactly
      when every line is covered; otherwise it stops at the first line whose
      item is missing or whose remaining stock is short. */
  lemma {:induction false} DeductSucceedsIff(items: seq<InventoryItem>, lines: seq<DispatchLine>)
    requires AllValid(items) && Requested(lines)
    ensures DeductLines(items, lines).failure.None? <==> Covered(items, lines)
    decreases |lines|
  {
    if |lines| > 0 {
      var init, last := lines[..|lines| - 1], lines[|lines| - 1];
      assert Requested(init);
      DeductSucceedsIff(items, init);
      CoveredSplit(items, lines);
      var prev := DeductLines(items, init);
      if prev.failure.None? {
        DeductStock(items, init, last.itemName);
        DeductShape(items, init);
        match FindByName(prev.items, last.itemName)
        case None =>
        case Some(k) =>
          assert ItemValid(items[k]);
      }
    }
  }

  /** The refusal names the offending line's item and, for short stock, the
      quantity left after the earlier lines' deductions. */
  lemma DeductFailureReport(items: seq<InventoryItem>, lines: seq<DispatchLine>)
    requires AllValid(items) && DeductLines(items, lines).failure.Some?
    ensures var p := DeductLines(items, lines);
      var name := lines[p.applied].itemName;
      var left := NameStock(items, name) - SumRequested(lines[..p.applied], name);
      || (p.failure.value == ItemNotFound(name) && FindByName(items, name).None?)
      || (p.failure.value == InsufficientStock(name, left) && left < lines[p.applied].quantity)
  {
    var p := DeductLines(items, lines);
    DeductPartial(items, lines);
    var name := lines[p.applied].itemName;
    DeductStock(items, lines[..p.applied], name);
    DeductShape(items, lines[..p.applied]);
    match FindByName(p.items, name)
    case None =>
    case Some(k) =>
      assert ItemValid(items[k]);
  }
}
