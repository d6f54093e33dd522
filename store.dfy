/** The document store as the controllers change it: the inventory, GRN and
    dispatch collections, and the handlers of backend/controllers/grnController.js,
    backend/controllers/salesDispatchController.js and
    backend/controllers/inventoryController.js that read and write them.
    Document ids come from one counter; the clock, the generated GRN number
    and the generated item codes are parameters. */
module InventoryStore {
  import opened Common
  import opened Js
  import opened Responses
  import opened InventoryModel
  import opened GrnModel
  import opened DispatchModel
  import opened Requests
  import Receipt
  import Dispatch

  function ItemIdIs(id: nat): InventoryItem -> bool
  {
    (it: InventoryItem) => it.id == id
  }

  function GrnIdIs(id: nat): GrnRecord -> bool
  {
    (g: GrnRecord) => g.id == id
  }

  function DispatchIdIs(id: nat): DispatchRecord -> bool
  {
    (d: DispatchRecord) => d.id == id
  }

  /** Lines 29-35 of inventoryController.js: the threshold a request sets, or
      the 400 it is refused with. The guards compare the raw value, so an
      empty string passes them and sets the threshold to 0. */
  function ThresholdValue(t: RawNumber): (r: Result<int>)
    ensures r.Ok? <==> !t.Undefined? && !t.Null? && ToNumber(t).Finite? && ToNumber(t).v >= 0
    ensures r.Ok? ==> r.value == ToNumber(t).v && r.value >= 0
    ensures (t.Undefined? || t.Null?) ==> r == Err(BadRequest("Threshold value is required"))
    ensures r.Err? && !t.Undefined? && !t.Null? ==> r == Err(BadRequest("Threshold must be a non-negative number"))
  {
    if t.Undefined? || t.Null? then Err(BadRequest("Threshold value is required"))
    else if IsNaN(t) || ToNumber(t).v < 0 then Err(BadRequest("Threshold must be a non-negative number"))
    else Ok(ToNumber(t).v)
  }

  /** What every handler keeps: a valid inventory collection, unique GRN
      numbers, and unique document ids below the counter. */
  ghost predicate StoreValid(items: seq<InventoryItem>, grns: seq<GrnRecord>,
                             dispatches: seq<DispatchRecord>, nextId: nat)
  {
    && InventoryValid(items, nextId)
    && (forall i :: 0 <= i < |grns| ==> grns[i].id < nextId)
    && (forall i, j :: 0 <= i < j < |grns| ==> grns[i].id != grns[j].id && grns[i].grnNumber != grns[j].grnNumber)
    && (forall i :: 0 <= i < |dispatches| ==> dispatches[i].id < nextId)
    && (forall i, j :: 0 <= i < j < |dispatches| ==> dispatches[i].id != dispatches[j].id)
  }

  class Store {
    var items: seq<InventoryItem>
    var grns: seq<GrnRecord>
    var dispatches: seq<DispatchRecord>
    var nextId: nat

    ghost predicate Valid()
      reads this
    {
      StoreValid(items, grns, dispatches, nextId)
    }

    constructor ()
      ensures Valid()
      ensures items == [] && grns == [] && dispatches == [] && nextId == 0
    {
      items := [];
      grns := [];
      dispatches := [];
      nextId := 0;
    }

    /** Lines 40-63 of grnController.js for one line: look the item up by
        (itemName, category), restock it or build a new one with `code`, and
        save it, which either stores the document or throws. */
    static method ReceiveOne(stock: seq<InventoryItem>, id: nat, line: GrnLine, qc: Option<string>, code: string, now: int)
      returns (failure: Option<Violation>, stock': seq<InventoryItem>, id': nat)
      ensures Receipt.ReceiveLine(Receipt.Ledger(stock, id), line, qc, code, now) ==
        if failure.Some? then Receipt.Failed(failure.value) else Receipt.Applied(Receipt.Ledger(stock', id'))
      ensures failure.Some? ==> stock' == stock && id' == id
    {
      stock', id' := stock, id;
      var found := Receipt.FindByKey(stock, line.itemName, line.category);
      if found.Some? {
        var inv := Receipt.Restock(stock[found.value], line, qc);
        failure := ItemViolation(inv);
        if failure.None? {
          stock' := stock[found.value := inv];
        }
      } else {
        var inv := Receipt.Received(id, code, line, qc, now);
        failure := InsertViolation(stock, inv);
        if failure.None? {
          stock', id' := stock + [inv], id + 1;
        }
      }
    }

    /** Lines 39-64 of grnController.js: the lines in order, each awaiting
        its save; line `i` is given the code `newCode(i)` should it create an
        item, and the first save that throws ends the walk. */
    static method ReceiveAll(l0: Receipt.Ledger, lines: seq<GrnLine>, qc: Option<string>, newCode: nat -> string, now: int)
      returns (failure: Option<Violation>, l: Receipt.Ledger)
      ensures Receipt.ReceiveLines(l0, lines, qc, newCode, now).ledger == l
      ensures Receipt.ReceiveLines(l0, lines, qc, newCode, now).failure == failure
    {
      var stock, id := l0.items, l0.nextId;
      var i := 0;
      failure := None;
      while i < |lines| && failure.None?
        invariant 0 <= i <= |lines| && (failure.Some? ==> i > 0)
        invariant Receipt.ReceiveLines(l0, lines[..i], qc, newCode, now) ==
          Receipt.Pass(Receipt.Ledger(stock, id), if failure.Some? then i - 1 else i, failure)
      {
        var stock', id';
        failure, stock', id' := ReceiveOne(stock, id, lines[i], qc, newCode(i), now);
        Receipt.ReceiveLinesStep(l0, lines, qc, newCode, now, i, Receipt.Ledger(stock, id), failure, Receipt.Ledger(stock', id'));
        stock, id, i := stock', id', i + 1;
      }
      if failure.Some? {
        Receipt.ReceiveStopsAtFailure(l0, lines, qc, newCode, now, i);
      } else {
        var all := lines[..i];
        assert all == lines;
      }
      l := Receipt.Ledger(stock, id);
    }

    /** `createGRN` on the collections as values: guard the request, store
        the GRN, then apply its lines. A failed inventory save answers 400
        and leaves the GRN and the earlier lines in place. */
    static method CreateGrn(items: seq<InventoryItem>, grns: seq<GrnRecord>, dispatches: seq<DispatchRecord>,
                            nextId: nat, req: GrnRequest, generated: string, newCode: nat -> string, now: int)
      returns (r: Result<GrnRecord>, items': seq<InventoryItem>, grns': seq<GrnRecord>, nextId': nat)
      requires StoreValid(items, grns, dispatches, nextId)
      ensures StoreValid(items', grns', dispatches, nextId')
      ensures GrnRequestError(req).Some? ==>
        r == Err(GrnRequestError(req).value) && items' == items && grns' == grns && nextId' == nextId
      ensures GrnRequestError(req).None? ==>
        var g := PreSave(NewGrn(nextId, req.poID, GrnLines(req.items), req.qc, now), generated);
        var p := Receipt.ReceiveLines(Receipt.Ledger(items, nextId + 1), GrnLines(req.items), req.qc, newCode, now);
        if GrnViolation(g, grns).Some? then
          r == Err(SaveFailed(400, GrnViolation(g, grns).value))
          && items' == items && grns' == grns && nextId' == nextId
        else
          && grns' == grns + [g]
          && items' == p.ledger.items && nextId' == p.ledger.nextId
          && r == (if p.failure.None? then Ok(g) else Err(SaveFailed(400, p.failure.value)))
    {
      items', grns', nextId' := items, grns, nextId;
      if req.poID == "" {
        return Err(BadRequest("Purchase Order ID is required")), items', grns', nextId';
      }
      if |req.items| == 0 {
        return Err(BadRequest("At least one item is required")), items', grns', nextId';
      }
      var e := ScanLines(req.items, GrnLineError);
      if e.Some? {
        return Err(e.value), items', grns', nextId';
      }

      var lines := GrnLines(req.items);
      var g := PreSave(NewGrn(nextId, req.poID, lines, req.qc, now), generated);
      r, items', grns', nextId' := StoreAndReceive(items, grns, dispatches, nextId, g, req.qc, newCode, now);
    }

    /** Lines 34-70 of grnController.js, once the request has passed its
        guards: save the GRN `g`, then apply its lines. */
    static method StoreAndReceive(items: seq<InventoryItem>, grns: seq<GrnRecord>, dispatches: seq<DispatchRecord>,
                                  nextId: nat, g: GrnRecord, qc: Option<string>, newCode: nat -> string, now: int)
      returns (r: Result<GrnRecord>, items': seq<InventoryItem>, grns': seq<GrnRecord>, nextId': nat)
      requires StoreValid(items, grns, dispatches, nextId) && g.id == nextId
      ensures StoreValid(items', grns', dispatches, nextId')
      ensures var p := Receipt.ReceiveLines(Receipt.Ledger(items, nextId + 1), g.items, qc, newCode, now);
        if GrnViolation(g, grns).Some? then
          r == Err(SaveFailed(400, GrnViolation(g, grns).value))
          && items' == items && grns' == grns && nextId' == nextId
        else
          && grns' == grns + [g]
          && items' == p.ledger.items && nextId' == p.ledger.nextId
          && r == (if p.failure.None? then Ok(g) else Err(SaveFailed(400, p.failure.value)))
    {
      items', grns', nextId' := items, grns, nextId;
      var v := GrnViolation(g, grns);
      if v.Some? {
        return Err(SaveFailed(400, v.value)), items', grns', nextId';
      }
      grns' := grns + [g];

      var lines := g.items;
      var l0 := Receipt.Ledger(items, nextId + 1);
      var failure, l := ReceiveAll(l0, lines, qc, newCode, now);
      Receipt.ReceiveKeepsValid(l0, lines, qc, newCode, now);
      Receipt.ReceiveNextIdGrows(l0, lines, qc, newCode, now);
      items', nextId' := l.items, l.nextId;
      if failure.Some? {
        r := Err(SaveFailed(400, failure.value));
      } else {
        r := Ok(g);
      }
    }

    /** `createGRN` on the store. */
    method ReceiveGoods(req: GrnRequest, generated: string, newCode: nat -> string, now: int)
      returns (r: Result<GrnRecord>)
      requires Valid()
      modifies this
      ensures Valid()
      ensures dispatches == old(dispatches)
      ensures GrnRequestError(req).Some? ==>
        r == Err(GrnRequestError(req).value) && items == old(items) && grns == old(grns) && nextId == old(nextId)
      ensures GrnRequestError(req).None? ==>
        var g := PreSave(NewGrn(old(nextId), req.poID, GrnLines(req.items), req.qc, now), generated);
        var p := Receipt.ReceiveLines(Receipt.Ledger(old(items), old(nextId) + 1), GrnLines(req.items), req.qc, newCode, now);
        if GrnViolation(g, old(grns)).Some? then
          r == Err(SaveFailed(400, GrnViolation(g, old(grns)).value))
          && items == old(items) && grns == old(grns) && nextId == old(nextId)
        else
          && grns == old(grns) + [g]
          && items == p.ledger.items && nextId == p.ledger.nextId
          && r == (if p.failure.None? then Ok(g) else Err(SaveFailed(400, p.failure.value)))
    {
      var items', grns', nextId';
      r, items', grns', nextId' := CreateGrn(items, grns, dispatches, nextId, req, generated, newCode, now);
      items, grns, nextId := items', grns', nextId';
    }

    /** Lines 65-86 of salesDispatchController.js for one line: look the
        item up by name alone, refuse a missing item or short stock, and
        otherwise deduct and save. */
    static method DeductOne(stock: seq<InventoryItem>, line: DispatchLine)
      returns (failure: Option<Error>, stock': seq<InventoryItem>)
      ensures Dispatch.DeductLine(stock, line) ==
        if failure.Some? then Dispatch.Refused(failure.value) else Dispatch.Deducted(stock')
      ensures failure.Some? ==> stock' == stock
    {
      stock' := stock;
      var found := Dispatch.FindByName(stock, line.itemName);
      if found.None? {
        return Some(ItemNotFound(line.itemName)), stock;
      }
      var k := found.value;
      if stock[k].quantity < line.quantity {
        return Some(InsufficientStock(line.itemName, stock[k].quantity)), stock;
      }
      var inv := stock[k].(quantity := stock[k].quantity - line.quantity);
      var v := ItemViolation(inv);
      if v.Some? {
        return Some(SaveFailed(400, v.value)), stock;
      }
      return None, stock[k := inv];
    }

    /** Lines 64-87 of salesDispatchController.js: the lines in order, each
        deducted and saved at once; the first refused line ends the walk. */
    static method DeductAll(items: seq<InventoryItem>, lines: seq<DispatchLine>)
      returns (failure: Option<Error>, stock: seq<InventoryItem>)
      ensures Dispatch.DeductLines(items, lines) == Dispatch.Pass(stock, Dispatch.DeductLines(items, lines).applied, failure)
    {
      stock := items;
      var i := 0;
      failure := None;
      while i < |lines| && failure.None?
        invariant 0 <= i <= |lines| && (failure.Some? ==> i > 0)
        invariant Dispatch.DeductLines(items, lines[..i]) ==
          Dispatch.Pass(stock, if failure.Some? then i - 1 else i, failure)
      {
        Dispatch.DeductLinesSnoc(items, lines, i);
        failure, stock := DeductOne(stock, lines[i]);
        i := i + 1;
      }
      if failure.Some? {
        Dispatch.DeductStopsAtFailure(items, lines, i);
      } else {
        var all := lines[..i];
        assert all == lines;
      }
    }

    /** `createDispatch` on the collections as values: guard the request,
        build the dispatch in memory, apply its lines, and store the
        dispatch last. A refused line keeps the earlier deductions and
        stores no dispatch; the dispatch's own save can still throw after
        every deduction has been made. */
    static method CreateDispatch(items: seq<InventoryItem>, grns: seq<GrnRecord>, dispatches: seq<DispatchRecord>,
                                 nextId: nat, req: DispatchRequest, now: int)
      returns (r: Result<DispatchRecord>, items': seq<InventoryItem>, dispatches': seq<DispatchRecord>, nextId': nat)
      requires StoreValid(items, grns, dispatches, nextId)
      ensures StoreValid(items', grns, dispatches', nextId')
      ensures DispatchRequestError(req).Some? ==>
        r == Err(DispatchRequestError(req).value)
        && items' == items && dispatches' == dispatches && nextId' == nextId
      ensures DispatchRequestError(req).None? ==>
        var lines := MapLines(req.items);
        var p := Dispatch.DeductLines(items, lines);
        var d := NewDispatch(nextId, req.customerID, req.invoiceNumber, lines, req.dispatchDate, req.status, now);
        && items' == p.items
        && if p.failure.Some? then
             r == Err(p.failure.value) && dispatches' == dispatches && nextId' == nextId
           else if DispatchViolation(d).Some? then
             r == Err(SaveFailed(400, DispatchViolation(d).value)) && dispatches' == dispatches && nextId' == nextId
           else
             r == Ok(d) && dispatches' == dispatches + [d] && nextId' == nextId + 1
    {
      items', dispatches', nextId' := items, dispatches, nextId;
      if req.customerID == "" {
        return Err(BadRequest("Customer ID is required")), items', dispatches', nextId';
      }
      if req.invoiceNumber == "" {
        return Err(BadRequest("Invoice number is required")), items', dispatches', nextId';
      }
      if |req.items| == 0 {
        return Err(BadRequest("At least one item is required")), items', dispatches', nextId';
      }
      var lines := MapLines(req.items);
      var e := ScanLines(lines, DispatchLineError);
      if e.Some? {
        return Err(e.value), items', dispatches', nextId';
      }

      var d := NewDispatch(nextId, req.customerID, req.invoiceNumber, lines, req.dispatchDate, req.status, now);
      r, items', dispatches', nextId' := DeductAndStore(items, grns, dispatches, nextId, lines, d);
    }

    /** Lines 64-101 of salesDispatchController.js, once the request has
        passed its guards: deduct the lines, then save the dispatch `d`. */
    static method DeductAndStore(items: seq<InventoryItem>, grns: seq<GrnRecord>, dispatches: seq<DispatchRecord>,
                                 nextId: nat, lines: seq<DispatchLine>, d: DispatchRecord)
      returns (r: Result<DispatchRecord>, items': seq<InventoryItem>, dispatches': seq<DispatchRecord>, nextId': nat)
      requires StoreValid(items, grns, dispatches, nextId) && d.id == nextId
      ensures StoreValid(items', grns, dispatches', nextId')
      ensures var p := Dispatch.DeductLines(items, lines);
        && items' == p.items
        && if p.failure.Some? then
             r == Err(p.failure.value) && dispatches' == dispatches && nextId' == nextId
           else if DispatchViolation(d).Some? then
             r == Err(SaveFailed(400, DispatchViolation(d).value)) && dispatches' == dispatches && nextId' == nextId
           else
             r == Ok(d) && dispatches' == dispatches + [d] && nextId' == nextId + 1
    {
      dispatches', nextId' := dispatches, nextId;
      var failure;
      failure, items' := DeductAll(items, lines);
      Dispatch.DeductKeepsValid(items, lines, nextId);
      if failure.Some? {
        return Err(failure.value), items', dispatches', nextId';
      }
      var v := DispatchViolation(d);
      if v.Some? {
        return Err(SaveFailed(400, v.value)), items', dispatches', nextId';
      }
      dispatches', nextId' := dispatches + [d], nextId + 1;
      r := Ok(d);
    }

    /** `createDispatch` on the store. */
    method DispatchGoods(req: DispatchRequest, now: int) returns (r: Result<DispatchRecord>)
      requires Valid()
      modifies this
      ensures Valid()
      ensures grns == old(grns)
      ensures DispatchRequestError(req).Some? ==>
        r == Err(DispatchRequestError(req).value)
        && items == old(items) && dispatches == old(dispatches) && nextId == old(nextId)
      ensures DispatchRequestError(req).None? ==>
        var lines := MapLines(req.items);
        var p := Dispatch.DeductLines(old(items), lines);
        var d := NewDispatch(old(nextId), req.customerID, req.invoiceNumber, lines, req.dispatchDate, req.status, now);
        && items == p.items
        && if p.failure.Some? then
             r == Err(p.failure.value) && dispatches == old(dispatches) && nextId == old(nextId)
           else if DispatchViolation(d).Some? then
             r == Err(SaveFailed(400, DispatchViolation(d).value)) && dispatches == old(dispatches) && nextId == old(nextId)
           else
             r == Ok(d) && dispatches == old(dispatches) + [d] && nextId == old(nextId) + 1
    {
      r, items, dispatches, nextId := CreateDispatch(items, grns, dispatches, nextId, req, now);
    }

    /** `updateThreshold`: both guards run before the lookup, so a refused
        request changes nothing; an accepted one writes the threshold and
        `updatedAt` of the item with that id and nothing else. */
    method UpdateThreshold(id: nat, threshold: RawNumber, now: int) returns (r: Result<InventoryItem>)
      requires Valid()
      modifies this
      ensures Valid()
      ensures grns == old(grns) && dispatches == old(dispatches) && nextId == old(nextId)
      ensures ThresholdValue(threshold).Err? ==> r == Err(ThresholdValue(threshold).error) && items == old(items)
      ensures ThresholdValue(threshold).Ok? ==>
        match FindFirst(old(items), ItemIdIs(id))
        case None => r == Err(NotFound("Item not found")) && items == old(items)
        case Some(k) =>
          var it := old(items)[k].(threshold := ThresholdValue(threshold).value, updatedAt := now);
          items == old(items)[k := it] && r == Ok(it)
    {
      var t := ThresholdValue(threshold);
      if t.Err? {
        return Err(t.error);
      }
      var found := FindFirst(items, ItemIdIs(id));
      if found.None? {
        return Err(NotFound("Item not found"));
      }
      var k := found.value;
      var it := items[k].(threshold := t.value, updatedAt := now);
      UpdateKeepsValid(items, nextId, k, it);
      items := items[k := it];
      return Ok(it);
    }

    /** `getInventoryById`: the item with that id, unchanged, or 404. */
    method GetInventoryById(id: nat) returns (r: Result<InventoryItem>)
      ensures r.Ok? <==> exists k :: 0 <= k < |items| && items[k].id == id
      ensures r.Ok? ==> r.value in items && r.value.id == id
      ensures r.Err? ==> r.error == NotFound("Item not found")
    {
      var found := FindFirst(items, ItemIdIs(id));
      if found.None? {
        return Err(NotFound("Item not found"));
      }
      return Ok(items[found.value]);
    }

    /** `updateDispatchStatus`: 404 for an unknown id; otherwise only the
        status changes (an absent status unsets it), `updatedAt` moves when
        the status does, and no inventory is touched. A status outside the
        enum makes the save throw, answered with 500. */
    method UpdateDispatchStatus(id: nat, status: Option<string>, now: int) returns (r: Result<DispatchRecord>)
      requires Valid()
      modifies this
      ensures Valid()
      ensures items == old(items) && grns == old(grns) && nextId == old(nextId)
      ensures match FindFirst(old(dispatches), DispatchIdIs(id))
        case None => r == Err(NotFound("Dispatch not found")) && dispatches == old(dispatches)
        case Some(k) =>
          var d := old(dispatches)[k];
          var changed := d.(status := status, updatedAt := if status != d.status then now else d.updatedAt);
          if DispatchViolation(changed).Some? then
            r == Err(SaveFailed(500, DispatchViolation(changed).value)) && dispatches == old(dispatches)
          else
            r == Ok(changed) && dispatches == old(dispatches)[k := changed]
    {
      var found := FindFirst(dispatches, DispatchIdIs(id));
      if found.None? {
        return Err(NotFound("Dispatch not found"));
      }
      var k := found.value;
      var d := dispatches[k];
      var changed := d.(status := status, updatedAt := if status != d.status then now else d.updatedAt);
      var v := DispatchViolation(changed);
      if v.Some? {
        return Err(SaveFailed(500, v.value));
      }
      dispatches := dispatches[k := changed];
      return Ok(changed);
    }

    /** `updateGRNStatus`: 404 for an unknown id. The GRN schema has no
        `status` path, so the update drops the requested status and only
        `updatedAt` changes. */
    method UpdateGrnStatus(id: nat, status: Option<string>, now: int) returns (r: Result<GrnRecord>)
      requires Valid()
      modifies this
      ensures Valid()
      ensures items == old(items) && dispatches == old(dispatches) && nextId == old(nextId)
      ensures match FindFirst(old(grns), GrnIdIs(id))
        case None => r == Err(NotFound("GRN not found")) && grns == old(grns)
        case Some(k) => r == Ok(old(grns)[k].(updatedAt := now)) && grns == old(grns)[k := old(grns)[k].(updatedAt := now)]
    {
      var found := FindFirst(grns, GrnIdIs(id));
      if found.None? {
        return Err(NotFound("GRN not found"));
      }
      var k := found.value;
      var g := grns[k].(updatedAt := now);
      grns := grns[k := g];
      return Ok(g);
    }
  }
}
