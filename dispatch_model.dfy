/** The sales-dispatch document (backend/models/salesDispatch.js): required
    header and line fields, and the status enum with its default. */
module DispatchModel {
  import opened Common
  import opened Responses

  datatype DispatchLine = DispatchLine(itemName: string, quantity: int, unitPrice: int)

  /** A dispatch document; `status` is `None` once a status update has unset
      it, and "" stands for an absent customer or invoice number. */
  datatype DispatchRecord = DispatchRecord(
    id: nat,
    customerID: string,
    invoiceNumber: string,
    items: seq<DispatchLine>,
    dispatchDate: int,
    status: Option<string>,
    createdAt: int,
    updatedAt: int)

  const DefaultStatus: string := "Draft"

  /** The values the `status` enum accepts. */
  predicate IsStatus(s: string)
  {
    s == "Draft" || s == "Dispatched" || s == "Delivered"
  }

  /** `new SalesDispatch({ ... })` as the controller builds it: the status is
      the request's unless that is missing or empty, and the dispatch date is
      the request's or the current time. */
  function NewDispatch(id: nat, customerID: string, invoiceNumber: string, items: seq<DispatchLine>,
                       dispatchDate: Option<int>, status: Option<string>, now: int): (d: DispatchRecord)
    ensures d.status.Some?
    ensures status.None? || status.value == "" ==> d.status.value == "Draft"
    ensures status.Some? && status.value != "" ==> d.status.value == status.value
    ensures d.dispatchDate == (if dispatchDate.Some? then dispatchDate.value else now)
    ensures d.items == items && d.createdAt == now
  {
    DispatchRecord(id, customerID, invoiceNumber, items,
                   if dispatchDate.Some? then dispatchDate.value else now,
                   Some(if status.Some? && status.value != "" then status.value else DefaultStatus),
                   now, now)
  }

  /** The first error saving a dispatch document raises: the header fields and
      each line's item name are required, and a status that is set must be in
      its enum. */
  function DispatchViolation(d: DispatchRecord): (v: Option<Violation>)
    ensures v.None? <==>
      && d.customerID != "" && d.invoiceNumber != "" && (d.status.Some? ==> IsStatus(d.status.value))
      && forall i :: 0 <= i < |d.items| ==> d.items[i].itemName != ""
  {
    if d.customerID == "" then Some(Required("customerID"))
    else if d.invoiceNumber == "" then Some(Required("invoiceNumber"))
    else if exists i :: 0 <= i < |d.items| && d.items[i].itemName == "" then Some(Required("items.itemName"))
    else if d.status.Some? && !IsStatus(d.status.value) then Some(NotInEnum("status", d.status.value))
    else None
  }
}
