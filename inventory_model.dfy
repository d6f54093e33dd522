/** The inventory document and its schema constraints (backend/models/inventory.js):
    required fields, defaults, the QC-status enum and the unique item code. */
module InventoryModel {
  import opened Common
  import opened Responses

  /** Dates are millisecond timestamps. `lotNumber` and `batchID` use "" for an
      absent value. */
  datatype InventoryItem = InventoryItem(
    id: nat,
    itemCode: string,
    itemName: string,
    category: string,
    lotNumber: string,
    batchID: string,
    quantity: int,
    threshold: int,
    expiryDate: Option<int>,
    alcoholFlag: bool,
    qcStatus: string,
    createdAt: int,
    updatedAt: int)

  const DefaultQuantity: int := 0
  const DefaultThreshold: int := 10
  const DefaultQcStatus: string := "Pass"

  /** The only values the `QCstatus` enum accepts. */
  predicate IsQcStatus(s: string)
  {
    s == "Pass" || s == "Fail"
  }

  /** A document built from the schema alone: every default applied. */
  function NewItem(id: nat, itemCode: string, itemName: string, category: string, now: int): InventoryItem
  {
    InventoryItem(id, itemCode, itemName, category, "", "", DefaultQuantity, DefaultThreshold,
                  None, false, DefaultQcStatus, now, now)
  }

  /** The per-document validators: a required string must be non-empty, and
      the QC status must be in its enum. */
  predicate ItemValid(it: InventoryItem)
  {
    it.itemCode != "" && it.itemName != "" && it.category != "" && IsQcStatus(it.qcStatus)
  }

  /** The first validator `save` reports for a document, in schema order. */
  function ItemViolation(it: InventoryItem): (v: Option<Violation>)
    ensures v.None? <==> ItemValid(it)
    ensures v == Some(NotInEnum("QCstatus", it.qcStatus)) <==>
              it.itemCode != "" && it.itemName != "" && it.category != "" && !IsQcStatus(it.qcStatus)
  {
    if it.itemCode == "" then Some(Required("itemCode"))
    else if it.itemName == "" then Some(Required("itemName"))
    else if it.category == "" then Some(Required("category"))
    else if !IsQcStatus(it.qcStatus) then Some(NotInEnum("QCstatus", it.qcStatus))
    else None
  }

  /** A document with its defaults applied passes validation as soon as its
      three required strings are given. */
  lemma NewItemValid(id: nat, itemCode: string, itemName: string, category: string, now: int)
    ensures ItemValid(NewItem(id, itemCode, itemName, category, now))
            <==> itemCode != "" && itemName != "" && category != ""
    ensures NewItem(id, itemCode, itemName, category, now).quantity == 0
    ensures NewItem(id, itemCode, itemName, category, now).threshold == 10
    ensures var it := NewItem(id, itemCode, itemName, category, now);
      it.qcStatus == "Pass" && !it.alcoholFlag && it.createdAt == now && it.updatedAt == now
  {
  }

  function CodesOf(items: seq<InventoryItem>): set<string>
  {
    set i | 0 <= i < |items| :: items[i].itemCode
  }

  /** The first error inserting a new document raises: a validator, or the
      unique index on `itemCode`. */
  function InsertViolation(items: seq<InventoryItem>, it: InventoryItem): (v: Option<Violation>)
    ensures v.None? <==> ItemValid(it) && it.itemCode !in CodesOf(items)
  {
    if ItemViolation(it).Some? then ItemViolation(it)
    else if it.itemCode in CodesOf(items) then Some(DuplicateKey("itemCode", it.itemCode))
    else None
  }

  /** The state of the inventory collection that every save maintains: each
      document passes its validators, item codes are unique (the unique index)
      and document ids are unique and below the next id to issue. */
  ghost predicate InventoryValid(items: seq<InventoryItem>, nextId: nat)
  {
    && (forall i :: 0 <= i < |items| ==> ItemValid(items[i]))
    && (forall i, j :: 0 <= i < j < |items| ==> items[i].itemCode != items[j].itemCode)
    && (forall i :: 0 <= i < |items| ==> items[i].id < nextId)
    && (forall i, j :: 0 <= i < j < |items| ==> items[i].id != items[j].id)
  }

  /** Inserting a document that passes validation and the unique index, under
      a fresh id, keeps the collection valid. */
  lemma {:induction false} InsertKeepsValid(items: seq<InventoryItem>, nextId: nat, it: InventoryItem)
    requires InventoryValid(items, nextId)
    requires InsertViolation(items, it).None? && it.id == nextId
    ensures InventoryValid(items + [it], nextId + 1)
  {
    var t := items + [it];
    forall i, j | 0 <= i < j < |t| ensures t[i].itemCode != t[j].itemCode {
      if j == |items| {
        assert t[i].itemCode in CodesOf(items);
      }
    }
  }

  /** Saving a changed document that keeps its id and code and still passes
      validation keeps the collection valid. */
  lemma UpdateKeepsValid(items: seq<InventoryItem>, nextId: nat, k: nat, it: InventoryItem)
    requires InventoryValid(items, nextId) && k < |items|
    requires ItemValid(it) && it.id == items[k].id && it.itemCode == items[k].itemCode
    ensures InventoryValid(items[k := it], nextId)
  {
  }
}
