/** Worked cases of the two inventory workflows on concrete documents: a
    receipt that creates a new item, a dispatch that deducts, and a dispatch
    refused for insufficient stock. */
module Scenarios {
  import opened Common
  import opened Responses
  import opened InventoryModel
  import opened GrnModel
  import opened DispatchModel
  import Receipt
  import Dispatch

  function Bottle(quantity: int): InventoryItem
  {
    InventoryItem(1, "ITEM-1", "Bottle500ml", "Packaging", "", "", quantity, 10, None, false, "Pass", 0, 0)
  }

  /** An empty inventory receives 50 cap liners with QC "Pass": one new item
      with quantity 50, the fresh code and QC status "Pass". */
  lemma CapLinerReceipt(newCode: nat -> string, now: int)
    requires newCode(0) != ""
    ensures var line := GrnLine("CapLiner", "Packaging", 50, "", None);
      var p := Receipt.ReceiveLines(Receipt.Ledger([], 1), [line], Some("Pass"), newCode, now);
      && p.failure.None?
      && |p.ledger.items| == 1 && p.ledger.nextId == 2
      && p.ledger.items[0].itemCode == newCode(0)
      && p.ledger.items[0].quantity == 50 && p.ledger.items[0].qcStatus == "Pass"
  {
    var line := GrnLine("CapLiner", "Packaging", 50, "", None);
    var lines := [line];
    assert lines[..0] == [];
    var it := Receipt.Received(1, newCode(0), line, Some("Pass"), now);
    assert ItemValid(it);
    assert Receipt.ReceiveLine(Receipt.Ledger([], 1), line, Some("Pass"), newCode(0), now)
        == Receipt.Applied(Receipt.Ledger([it], 2));
  }

  /** 100 bottles in stock, 30 dispatched: 70 remain and the dispatch, with
      no status given, is stored as "Draft". */
  lemma BottleDispatched(now: int)
    ensures var lines := [DispatchLine("Bottle500ml", 30, 3)];
      var p := Dispatch.DeductLines([Bottle(100)], lines);
      var d := NewDispatch(5, "CUST-1", "INV-1", lines, None, None, now);
      && p.failure.None? && p.items == [Bottle(70)]
      && DispatchViolation(d).None? && d.status == Some("Draft")
  {
    var lines := [DispatchLine("Bottle500ml", 30, 3)];
    assert lines[..0] == [];
    assert Dispatch.FindByName([Bottle(100)], "Bottle500ml") == Some(0);
    assert ItemValid(Bottle(70));
  }

  /** 10 bottles in stock, 20 requested: refused naming the item and the 10
      available, with the stock untouched. */
  lemma BottleShort()
    ensures var p := Dispatch.DeductLines([Bottle(10)], [DispatchLine("Bottle500ml", 20, 3)]);
      p.failure == Some(InsufficientStock("Bottle500ml", 10)) && p.items == [Bottle(10)] && p.applied == 0
  {
    var lines := [DispatchLine("Bottle500ml", 20, 3)];
    assert lines[..0] == [];
    assert Dispatch.FindByName([Bottle(10)], "Bottle500ml") == Some(0);
  }
}
