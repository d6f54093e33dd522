/** The inventory pass of goods receipt (backend/controllers/grnController.js,
    lines 38-64) as a specification on values: each line looks up the first
    item with the same (itemName, category), restocks it or creates a new item,
    and saves; the first save that throws ends the pass and keeps every earlier
    line's effect. The class method `InventoryStore.Store.ReceiveGoods` runs
    this pass in place and is proved equal to it. */
module Receipt {
  import opened Common
  import opened Responses
  import opened InventoryModel
  import opened GrnModel

  /** The inventory collection and the next document id to issue. */
  datatype Ledger = Ledger(items: seq<InventoryItem>, nextId: nat)

  ghost predicate LedgerValid(l: Ledger)
  {
    InventoryValid(l.items, l.nextId)
  }

  /** The filter `{ itemName, category }`. */
  function KeyIs(name: string, category: string): InventoryItem -> bool
  {
    (it: InventoryItem) => it.itemName == name && it.category == category
  }

  /** `Inventory.findOne({ itemName, category })`. */
  function FindByKey(items: seq<InventoryItem>, name: string, category: string): Option<nat>
  {
    FindFirst(items, KeyIs(name, category))
  }

  /** The document `findOne({ itemName, category })` returns, if any. */
  function AtKey(items: seq<InventoryItem>, name: string, category: string): Option<InventoryItem>
  {
    match FindByKey(items, name, category)
    case Some(k) => Some(items[k])
    case None => None
  }

  /** The quantity a key stands for: that of the first matching item, 0 when
      there is none. */
  function Stock(items: seq<InventoryItem>, name: string, category: string): int
  {
    match AtKey(items, name, category)
    case Some(it) => it.quantity
    case None => 0
  }

  /** `if (QC)`: a QC value counts only when it is a non-empty string. */
  predicate QcGiven(qc: Option<string>)
  {
    qc.Some? && qc.value != ""
  }

  /** Lines 42-48: a matched item gains the received quantity; lot number and
      expiry date are replaced only by a supplied value; a given QC value
      overwrites the QC status. */
  function Restock(inv: InventoryItem, line: GrnLine, qc: Option<string>): InventoryItem
  {
    inv.(quantity := inv.quantity + line.quantityReceived,
         lotNumber := if line.lotNumber != "" then line.lotNumber else inv.lotNumber,
         expiryDate := if line.expiryDate.Some? then line.expiryDate else inv.expiryDate,
         qcStatus := if QcGiven(qc) then qc.value else inv.qcStatus)
  }

  /** Lines 52-61: the item created for an unmatched line; every field the
      line does not give keeps its schema default, and the QC status is the
      GRN's QC value or "Pass". */
  function Received(id: nat, code: string, line: GrnLine, qc: Option<string>, now: int): InventoryItem
  {
    NewItem(id, code, line.itemName, line.category, now).(
      quantity := line.quantityReceived,
      lotNumber := line.lotNumber,
      expiryDate := line.expiryDate,
      qcStatus := if QcGiven(qc) then qc.value else DefaultQcStatus)
  }

  /** The created item holds the line's name, category, quantity, lot and
      expiry, the fresh code, the default threshold and the QC value or "Pass". */
  lemma ReceivedFields(id: nat, code: string, line: GrnLine, qc: Option<string>, now: int)
    ensures var it := Received(id, code, line, qc, now);
      && it.id == id && it.itemCode == code
      && it.itemName == line.itemName && it.category == line.category
      && it.quantity == line.quantityReceived && it.threshold == 10
      && it.lotNumber == line.lotNumber && it.expiryDate == line.expiryDate
      && it.qcStatus == (if QcGiven(qc) then qc.value else "Pass")
      && !it.alcoholFlag && it.createdAt == now && it.updatedAt == now
  {
  }

  /** Restocking changes exactly the four fields the controller writes. */
  lemma RestockFields(inv: InventoryItem, line: GrnLine, qc: Option<string>)
    ensures var r := Restock(inv, line, qc);
      && r.quantity == inv.quantity + line.quantityReceived
      && (line.lotNumber == "" ==> r.lotNumber == inv.lotNumber)
      && (line.expiryDate.None? ==> r.expiryDate == inv.expiryDate)
      && (!QcGiven(qc) ==> r.qcStatus == inv.qcStatus)
      && (QcGiven(qc) ==> r.qcStatus == qc.value)
      && r.(quantity := inv.quantity, lotNumber := inv.lotNumber,
            expiryDate := inv.expiryDate, qcStatus := inv.qcStatus) == inv
  {
  }

  datatype Step = Applied(ledger: Ledger) | Failed(violation: Violation)

  /** One line: look up, change in memory, then `save`, which either stores
      the document or throws. */
  function ReceiveLine(l: Ledger, line: GrnLine, qc: Option<string>, code: string, now: int): Step
  {
    match FindByKey(l.items, line.itemName, line.category)
    case Some(k) =>
      var inv := Restock(l.items[k], line, qc);
      if ItemViolation(inv).Some? then Failed(ItemViolation(inv).value)
      else Applied(Ledger(l.items[k := inv], l.nextId))
    case None =>
      var inv := Received(l.nextId, code, line, qc, now);
      if InsertViolation(l.items, inv).Some? then Failed(InsertViolation(l.items, inv).value)
      else Applied(Ledger(l.items + [inv], l.nextId + 1))
  }

  /** The outcome of a pass: the ledger left behind, how many lines were
      applied, and the violation of the line that threw, if one did. */
  datatype Pass = Pass(ledger: Ledger, applied: nat, failure: Option<Violation>)

  /** The lines in order, each awaiting its save; line `i` draws `newCode(i)`
      if it creates an item. */
  function ReceiveLines(l: Ledger, lines: seq<GrnLine>, qc: Option<string>, newCode: nat -> string, now: int): (p: Pass)
    ensures p.applied <= |lines|
    ensures p.failure.None? ==> p.applied == |lines|
    decreases |lines|
  {
    if |lines| == 0 then Pass(l, 0, None)
    else
      var prev := ReceiveLines(l, lines[..|lines| - 1], qc, newCode, now);
      if prev.failure.Some? then prev
      else match ReceiveLine(prev.ledger, lines[|lines| - 1], qc, newCode(|lines| - 1), now)
        case Failed(v) => Pass(prev.ledger, prev.applied, Some(v))
        case Applied(next) => Pass(next, prev.applied + 1, None)
  }

  /** Once a prefix of the lines has thrown, the later lines change nothing. */
  lemma {:induction false} ReceiveStopsAtFailure(l: Ledger, lines: seq<GrnLine>, qc: Option<string>,
                                                 newCode: nat -> string, now: int, n: nat)
    requires n <= |lines| && ReceiveLines(l, lines[..n], qc, newCode, now).failure.Some?
    ensures ReceiveLines(l, lines, qc, newCode, now) == ReceiveLines(l, lines[..n], qc, newCode, now)
    decreases |lines|
  {
    if n == |lines| {
      assert lines[..n] == lines;
    } else {
      var init := lines[..|lines| - 1];
      assert init[..n] == lines[..n];
      ReceiveStopsAtFailure(l, init, qc, newCode, now, n);
    }
  }

  /** One more line extends a pass that has not failed by that line's step. */
  lemma ReceiveLinesSnoc(l: Ledger, lines: seq<GrnLine>, qc: Option<string>, newCode: nat -> string, now: int, i: nat)
    requires i < |lines| && ReceiveLines(l, lines[..i], qc, newCode, now).failure.None?
    ensures var prev := ReceiveLines(l, lines[..i], qc, newCode, now);
      ReceiveLines(l, lines[..i + 1], qc, newCode, now) ==
        match ReceiveLine(prev.ledger, lines[i], qc, newCode(i), now)
        case Failed(v) => Pass(prev.ledger, prev.applied, Some(v))
        case Applied(next) => Pass(next, prev.applied + 1, None)
  {
    PrefixOfPrefix(lines, i + 1, i);
  }

  /** The loop step of a pass: after `i` lines applied without failure, the
      outcome of line `i` gives the pass over the first `i + 1` lines. */
  lemma ReceiveLinesStep(l: Ledger, lines: seq<GrnLine>, qc: Option<string>, newCode: nat -> string, now: int,
                         i: nat, before: Ledger, failure: Option<Violation>, after: Ledger)
    requires i < |lines| && ReceiveLines(l, lines[..i], qc, newCode, now) == Pass(before, i, None)
    requires ReceiveLine(before, lines[i], qc, newCode(i), now) ==
      if failure.Some? then Failed(failure.value) else Applied(after)
    requires failure.Some? ==> after == before
    ensures ReceiveLines(l, lines[..i + 1], qc, newCode, now) ==
      Pass(after, if failure.Some? then i else i + 1, failure)
  {
    ReceiveLinesSnoc(l, lines, qc, newCode, now, i);
  }

  /** The id counter never goes back. */
  lemma {:induction false} ReceiveNextIdGrows(l: Ledger, lines: seq<GrnLine>, qc: Option<string>,
                                              newCode: nat -> string, now: int)
    ensures ReceiveLines(l, lines, qc, newCode, now).ledger.nextId >= l.nextId
    decreases |lines|
  {
    if |lines| > 0 {
      ReceiveNextIdGrows(l, lines[..|lines| - 1], qc, newCode, now);
    }
  }

  /** No rollback: when line `k` throws, the ledger is exactly the one the
      first `k` lines produced, and it is line `k`'s own save that threw. */
  lemma {:induction false} ReceivePartial(l: Ledger, lines: seq<GrnLine>, qc: Option<string>,
                                          newCode: nat -> string, now: int)
    requires ReceiveLines(l, lines, qc, newCode, now).failure.Some?
    ensures var p := ReceiveLines(l, lines, qc, newCode, now);
      && p.applied < |lines|
      && ReceiveLines(l, lines[..p.applied], qc, newCode, now) == Pass(p.ledger, p.applied, None)
      && ReceiveLine(p.ledger, lines[p.applied], qc, newCode(p.applied), now) == Failed(p.failure.value)
    decreases |lines|
  {
    var init := lines[..|lines| - 1];
    var prev := ReceiveLines(l, init, qc, newCode, now);
    if prev.failure.Some? {
      assert ReceiveLines(l, lines, qc, newCode, now) == prev;
      ReceivePartial(l, init, qc, newCode, now);
      PrefixOfPrefix(lines, |lines| - 1, prev.applied);
      var a, b := lines[..prev.applied], init[..prev.applied];
      assert a == b;
      assert ReceiveLines(l, a, qc, newCode, now) == ReceiveLines(l, b, qc, newCode, now);
      assert init[prev.applied] == lines[prev.applied];
    } else {
      ReceiveFailsAtLast(l, lines, qc, newCode, now);
    }
  }

  /** The case of `ReceivePartial` where the last line is the one that throws. */
  lemma ReceiveFailsAtLast(l: Ledger, lines: seq<GrnLine>, qc: Option<string>, newCode: nat -> string, now: int)
    requires |lines| > 0
    requires ReceiveLines(l, lines, qc, newCode, now).failure.Some?
    requires ReceiveLines(l, lines[..|lines| - 1], qc, newCode, now).failure.None?
    ensures var p := ReceiveLines(l, lines, qc, newCode, now);
      && p.applied < |lines|
      && ReceiveLines(l, lines[..p.applied], qc, newCode, now) == Pass(p.ledger, p.applied, None)
      && ReceiveLine(p.ledger, lines[p.applied], qc, newCode(p.applied), now) == Failed(p.failure.value)
  {
    var prev := ReceiveLines(l, lines[..|lines| - 1], qc, newCode, now);
    var step := ReceiveLine(prev.ledger, lines[|lines| - 1], qc, newCode(|lines| - 1), now);
    assert step.Failed?;
    assert ReceiveLines(l, lines, qc, newCode, now) == Pass(prev.ledger, prev.applied, Some(step.violation));
  }

  lemma CodesOfUpdate(items: seq<InventoryItem>, k: nat, it: InventoryItem)
    requires k < |items| && it.itemCode == items[k].itemCode
    ensures CodesOf(items[k := it]) == CodesOf(items)
  {
    var t := items[k := it];
    forall c | c in CodesOf(items) ensures c in CodesOf(t) {
      var i :| 0 <= i < |items| && items[i].itemCode == c;
      assert t[i].itemCode == c;
    }
  }

  lemma CodesOfAppend(items: seq<InventoryItem>, it: InventoryItem)
    ensures CodesOf(items + [it]) == CodesOf(items) + {it.itemCode}
  {
    var t := items + [it];
    forall c | c in CodesOf(items) ensures c in CodesOf(t) {
      var i :| 0 <= i < |items| && items[i].itemCode == c;
      assert t[i].itemCode == c;
    }
    assert t[|items|].itemCode == it.itemCode;
  }

  /** A line that is applied keeps the collection valid, and adds at most one
      code: the one it was given. */
  lemma ReceiveLineKeepsValid(l: Ledger, line: GrnLine, qc: Option<string>, code: string, now: int)
    requires LedgerValid(l) && ReceiveLine(l, line, qc, code, now).Applied?
    ensures LedgerValid(ReceiveLine(l, line, qc, code, now).ledger)
    ensures CodesOf(ReceiveLine(l, line, qc, code, now).ledger.items) <= CodesOf(l.items) + {code}
  {
    match FindByKey(l.items, line.itemName, line.category)
    case Some(k) =>
      UpdateKeepsValid(l.items, l.nextId, k, Restock(l.items[k], line, qc));
      CodesOfUpdate(l.items, k, Restock(l.items[k], line, qc));
    case None =>
      InsertKeepsValid(l.items, l.nextId, Received(l.nextId, code, line, qc, now));
      CodesOfAppend(l.items, Received(l.nextId, code, line, qc, now));
  }

  /** Every pass, complete or cut short, leaves a valid collection. */
  lemma {:induction false} ReceiveKeepsValid(l: Ledger, lines: seq<GrnLine>, qc: Option<string>,
                                             newCode: nat -> string, now: int)
    requires LedgerValid(l)
    ensures LedgerValid(ReceiveLines(l, lines, qc, newCode, now).ledger)
    decreases |lines|
  {
    if |lines| > 0 {
      var prev := ReceiveLines(l, lines[..|lines| - 1], qc, newCode, now);
      ReceiveKeepsValid(l, lines[..|lines| - 1], qc, newCode, now);
      if prev.failure.None? {
        var step := ReceiveLine(prev.ledger, lines[|lines| - 1], qc, newCode(|lines| - 1), now);
        if step.Applied? {
          ReceiveLineKeepsValid(prev.ledger, lines[|lines| - 1], qc, newCode(|lines| - 1), now);
        }
      }
    }
  }

  /** What one applied line does to the document `findOne` returns for a key:
      for the line's own key, the restocked match or the newly created item;
      for any other key, nothing. */
  lemma ReceiveLineAtKey(l: Ledger, line: GrnLine, qc: Option<string>, code: string, now: int,
                         name: string, category: string)
    requires ReceiveLine(l, line, qc, code, now).Applied?
    ensures AtKey(ReceiveLine(l, line, qc, code, now).ledger.items, name, category) ==
      if line.itemName == name && line.category == category then
        Some(match AtKey(l.items, name, category)
             case Some(it) => Restock(it, line, qc)
             case None => Received(l.nextId, code, line, qc, now))
      else AtKey(l.items, name, category)
  {
    var p := KeyIs(name, category);
    match FindByKey(l.items, line.itemName, line.category)
    case Some(k) =>
      var inv := Restock(l.items[k], line, qc);
      FindFirstUpdate(l.items, p, k, inv);
      if line.itemName == name && line.category == category {
        assert FindByKey(l.items, name, category) == Some(k);
      }
    case None =>
      var inv := Received(l.nextId, code, line, qc, now);
      FindFirstAppend(l.items, p, inv);
  }

  /** The total quantity the lines carry for one (itemName, category) key. */
  function SumReceived(lines: seq<GrnLine>, name: string, category: string): int
  {
    if |lines| == 0 then 0
    else
      var last := lines[|lines| - 1];
      SumReceived(lines[..|lines| - 1], name, category)
        + (if last.itemName == name && last.category == category then last.quantityReceived else 0)
  }

  /** Quantity reconciliation: after a complete pass the quantity behind every
      key has grown by exactly the quantities received for that key, whether
      the item existed or was created, and however many lines name it. */
  lemma {:induction false} ReceiveStock(l: Ledger, lines: seq<GrnLine>, qc: Option<string>,
                                        newCode: nat -> string, now: int, name: string, category: string)
    requires ReceiveLines(l, lines, qc, newCode, now).failure.None?
    ensures Stock(ReceiveLines(l, lines, qc, newCode, now).ledger.items, name, category)
            == Stock(l.items, name, category) + SumReceived(lines, name, category)
    decreases |lines|
  {
    if |lines| > 0 {
      var init, last := lines[..|lines| - 1], lines[|lines| - 1];
      var prev := ReceiveLines(l, init, qc, newCode, now);
      ReceiveStock(l, init, qc, newCode, now, name, category);
      ReceiveLineAtKey(prev.ledger, last, qc, newCode(|lines| - 1), now, name, category);
    }
  }

  /** Number of lines naming a key. */
  function LineIs(name: string, category: string): GrnLine -> bool
  {
    (line: GrnLine) => line.itemName == name && line.category == category
  }

  function LinesFor(lines: seq<GrnLine>, name: string, category: string): nat
  {
    Count(lines, LineIs(name, category))
  }

  function ItemsFor(items: seq<InventoryItem>, name: string, category: string): nat
  {
    Count(items, KeyIs(name, category))
  }

  /** One applied line adds an item for its key only when the key had none. */
  lemma ReceiveLineCount(l: Ledger, line: GrnLine, qc: Option<string>, code: string, now: int,
                         name: string, category: string)
    requires ReceiveLine(l, line, qc, code, now).Applied?
    ensures ItemsFor(ReceiveLine(l, line, qc, code, now).ledger.items, name, category) ==
      if ItemsFor(l.items, name, category) == 0 && line.itemName == name && line.category == category then 1
      else ItemsFor(l.items, name, category)
  {
    var p := KeyIs(name, category);
    match FindByKey(l.items, line.itemName, line.category)
    case Some(k) =>
      CountUpdate(l.items, p, k, Restock(l.items[k], line, qc));
      if line.itemName == name && line.category == category {
        assert p(l.items[k]);
      }
    case None =>
      CountAppend(l.items, p, Received(l.nextId, code, line, qc, now));
  }

  /** Upsert: a complete pass creates one item for a key that had none and is
      named by some line, and never a second one for any key. */
  lemma {:induction false} ReceiveCreatesOnce(l: Ledger, lines: seq<GrnLine>, qc: Option<string>,
                                              newCode: nat -> string, now: int, name: string, category: string)
    requires ReceiveLines(l, lines, qc, newCode, now).failure.None?
    ensures ItemsFor(ReceiveLines(l, lines, qc, newCode, now).ledger.items, name, category) ==
      if ItemsFor(l.items, name, category) == 0 && LinesFor(lines, name, category) > 0 then 1
      else ItemsFor(l.items, name, category)
    decreases |lines|
  {
    if |lines| > 0 {
      var init, last := lines[..|lines| - 1], lines[|lines| - 1];
      var prev := ReceiveLines(l, init, qc, newCode, now);
      ReceiveCreatesOnce(l, init, qc, newCode, now, name, category);
      CountLast(lines, LineIs(name, category));
      ReceiveLineCount(prev.ledger, last, qc, newCode(|lines| - 1), now, name, category);
    }
  }

  /** A key that no line names keeps the document `findOne` returns for it,
      even when the pass is cut short. */
  lemma {:induction false} ReceiveUntouchedKey(l: Ledger, lines: seq<GrnLine>, qc: Option<string>,
                                               newCode: nat -> string, now: int, name: string, category: string)
    requires LinesFor(lines, name, category) == 0
    ensures AtKey(ReceiveLines(l, lines, qc, newCode, now).ledger.items, name, category) == AtKey(l.items, name, category)
    decreases |lines|
  {
    if |lines| > 0 {
      var init, last := lines[..|lines| - 1], lines[|lines| - 1];
      CountLast(lines, LineIs(name, category));
      ReceiveUntouchedKey(l, init, qc, newCode, now, name, category);
      var prev := ReceiveLines(l, init, qc, newCode, now);
      if prev.failure.None? && ReceiveLine(prev.ledger, last, qc, newCode(|lines| - 1), now).Applied? {
        ReceiveLineAtKey(prev.ledger, last, qc, newCode(|lines| - 1), now, name, category);
      }
    }
  }

  /** The last receipt wins: after a complete pass, the item behind every key
      a line names carries the GRN's QC value if one was given; otherwise an
      existing item keeps its QC status and a new one has "Pass". */
  lemma {:induction false} ReceiveQcStatus(l: Ledger, lines: seq<GrnLine>, qc: Option<string>,
                                           newCode: nat -> string, now: int, name: string, category: string)
    requires ReceiveLines(l, lines, qc, newCode, now).failure.None?
    requires LinesFor(lines, name, category) > 0
    ensures AtKey(ReceiveLines(l, lines, qc, newCode, now).ledger.items, name, category).Some?
    ensures AtKey(ReceiveLines(l, lines, qc, newCode, now).ledger.items, name, category).value.qcStatus ==
      if QcGiven(qc) then qc.value
      else if AtKey(l.items, name, category).Some? then AtKey(l.items, name, category).value.qcStatus
      else "Pass"
    decreases |lines|
  {
    var init, last := lines[..|lines| - 1], lines[|lines| - 1];
    CountLast(lines, LineIs(name, category));
    var prev := ReceiveLines(l, init, qc, newCode, now);
    if LinesFor(init, name, category) > 0 {
      ReceiveQcStatus(l, init, qc, newCode, now, name, category);
    } else {
      ReceiveUntouchedKey(l, init, qc, newCode, now, name, category);
    }
    ReceiveLineAtKey(prev.ledger, last, qc, newCode(|lines| - 1), now, name, category);
  }

  /** Codes handed out by the generator for the first `n` lines. */
  function Issued(newCode: nat -> string, n: nat): set<string>
  {
    set j | 0 <= j < n :: newCode(j)
  }

  /** The generator's promise: non-empty codes, none already in the
      collection, none repeated. */
  ghost predicate FreshCodes(newCode: nat -> string, taken: set<string>, n: nat)
  {
    forall i :: 0 <= i < n ==>
      newCode(i) != "" && newCode(i) !in taken && forall j :: 0 <= j < i ==> newCode(j) != newCode(i)
  }

  /** A QC value the inventory enum accepts, or none at all. */
  predicate QcStorable(qc: Option<string>)
  {
    !QcGiven(qc) || IsQcStatus(qc.value)
  }

  /** One complete line, with a QC value the inventory accepts and a fresh
      code, saves without throwing. */
  lemma ReceiveLineSucceeds(l: Ledger, line: GrnLine, qc: Option<string>, code: string, now: int)
    requires LedgerValid(l) && !LineIncomplete(line) && QcStorable(qc)
    requires code != "" && code !in CodesOf(l.items)
    ensures ReceiveLine(l, line, qc, code, now).Applied?
  {
    match FindByKey(l.items, line.itemName, line.category)
    case Some(k) =>
      assert ItemValid(l.items[k]);
    case None =>
  }

  /** With validated lines, a QC value the inventory accepts and fresh codes,
      no save throws: the pass is complete. */
  lemma {:induction false} ReceiveSucceeds(l: Ledger, lines: seq<GrnLine>, qc: Option<string>,
                                           newCode: nat -> string, now: int)
    requires LedgerValid(l) && LinesValid(lines) && QcStorable(qc)
    requires FreshCodes(newCode, CodesOf(l.items), |lines|)
    ensures ReceiveLines(l, lines, qc, newCode, now).failure.None?
    ensures CodesOf(ReceiveLines(l, lines, qc, newCode, now).ledger.items) <= CodesOf(l.items) + Issued(newCode, |lines|)
    decreases |lines|
  {
    if |lines| > 0 {
      var n := |lines| - 1;
      var init, last := lines[..n], lines[n];
      assert LinesValid(init);
      assert FreshCodes(newCode, CodesOf(l.items), n);
      ReceiveSucceeds(l, init, qc, newCode, now);
      ReceiveKeepsValid(l, init, qc, newCode, now);
      var prev := ReceiveLines(l, init, qc, newCode, now).ledger;
      assert newCode(n) !in Issued(newCode, n);
      ReceiveLineSucceeds(prev, last, qc, newCode(n), now);
      ReceiveLineKeepsValid(prev, last, qc, newCode(n), now);
      IssuedSnoc(newCode, n);
    }
  }

  lemma IssuedSnoc(newCode: nat -> string, n: nat)
    ensures Issued(newCode, n + 1) == Issued(newCode, n) + {newCode(n)}
  {
  }

  /** A request that gives no QC value receives every validated line: each
      new item is stored with the inventory default "Pass". */
  lemma OmittedQcSucceeds(l: Ledger, lines: seq<GrnLine>, newCode: nat -> string, now: int)
    requires LedgerValid(l) && LinesValid(lines)
    requires FreshCodes(newCode, CodesOf(l.items), |lines|)
    ensures ReceiveLines(l, lines, None, newCode, now).failure.None?
  {
    ReceiveSucceeds(l, lines, None, newCode, now);
  }

  /** A request that gives a QC value outside the inventory enum (such as
      "Check") makes the very first line's save throw: no line is applied and the collection
      is left as it was. */
  lemma RejectedQcStopsAtFirstLine(l: Ledger, lines: seq<GrnLine>, qc: Option<string>,
                                   newCode: nat -> string, now: int)
    requires LedgerValid(l) && LinesValid(lines) && |lines| > 0 && newCode(0) != ""
    requires QcGiven(qc) && !IsQcStatus(qc.value)
    ensures ReceiveLines(l, lines, qc, newCode, now) == Pass(l, 0, Some(NotInEnum("QCstatus", qc.value)))
  {
    var first := lines[..1];
    assert first[..0] == [];
    assert !LineIncomplete(lines[0]);
    match FindByKey(l.items, lines[0].itemName, lines[0].category)
    case Some(k) =>
      assert ItemValid(l.items[k]);
    case None =>
    ReceiveStopsAtFailure(l, lines, qc, newCode, now, 1);
  }
}
