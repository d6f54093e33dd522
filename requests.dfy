/** The request bodies of goods receipt and sales dispatch and the guards the
    controllers run on them before touching the store
    (backend/controllers/grnController.js, lines 10-32;
    backend/controllers/salesDispatchController.js, lines 16-47). A missing
    string field is "", a missing list is empty. */
module Requests {
  import opened Common
  import opened Js
  import opened Responses
  import opened GrnModel
  import opened DispatchModel

  /** The first error a sequence of per-element checks reports, scanning from
      the front: the shape of a `for ... of` loop that returns on the first
      bad element. */
  function FirstError<T>(s: seq<T>, check: T -> Option<Error>): (e: Option<Error>)
    ensures e.None? <==> forall i :: 0 <= i < |s| ==> check(s[i]).None?
    ensures e.Some? ==> exists k :: 0 <= k < |s| && e == check(s[k])
                          && forall j :: 0 <= j < k ==> check(s[j]).None?
  {
    if |s| == 0 then None
    else if check(s[0]).Some? then check(s[0])
    else
      var rest := FirstError(s[1..], check);
      assert forall i :: 1 <= i < |s| ==> s[i] == s[1..][i - 1];
      if rest.Some? then
        var k :| 0 <= k < |s| - 1 && rest == check(s[1..][k]) && forall j :: 0 <= j < k ==> check(s[1..][j]).None?;
        assert rest == check(s[k + 1]);
        rest
      else rest
  }

  /** `Number(x)` with NaN written as 0: the guards treat both alike (both
      are falsy), and a line carrying either never passes them; for a line
      that passes, this is the number the schema stores. */
  function Coerced(x: RawNumber): (n: int)
    ensures n > 0 <==> ToNumber(x).Finite? && ToNumber(x).v > 0
  {
    match ToNumber(x)
    case Finite(v) => v
    case NaN => 0
  }

  /** The guard loop itself: check the elements in order and stop at the
      first one that is refused. */
  method ScanLines<T>(s: seq<T>, check: T -> Option<Error>) returns (e: Option<Error>)
    ensures e == FirstError(s, check)
  {
    var i := 0;
    while i < |s|
      invariant 0 <= i <= |s|
      invariant FirstError(s, check) == FirstError(s[i..], check)
    {
      assert s[i..][1..] == s[i + 1..];
      var c := check(s[i]);
      if c.Some? {
        return c;
      }
      i := i + 1;
    }
    return None;
  }

  // ---- goods receipt ------------------------------------------------------

  datatype GrnRequestLine = GrnRequestLine(
    itemName: string,
    category: string,
    quantityReceived: RawNumber,
    lotNumber: string,
    expiryDate: Option<int>)

  datatype GrnRequest = GrnRequest(poID: string, items: seq<GrnRequestLine>, qc: Option<string>)

  /** The guards of lines 20-31 for one line, in their order. */
  function GrnLineError(line: GrnRequestLine): (e: Option<Error>)
    ensures e.None? <==>
      line.itemName != "" && line.category != "" && line.quantityReceived.Numeric? && line.quantityReceived.n > 0
    ensures e.Some? ==> e.value.BadRequest?
  {
    var q := line.quantityReceived;
    if line.itemName == "" then Some(BadRequest("Item name is required for all items"))
    else if line.category == "" then Some(BadRequest("Category is required for all items"))
    else if q.Undefined? || q.Null? || q.EmptyString? then Some(BadRequest("Quantity received is required for all items"))
    else if IsNaN(q) || ToNumber(q).v <= 0 then Some(BadRequest("Quantity must be a positive number"))
    else None
  }

  /** Lines 10-32: the answer `createGRN` gives before anything is stored, if
      it refuses the request. */
  function GrnRequestError(req: GrnRequest): (e: Option<Error>)
    ensures e.None? <==>
      && req.poID != "" && |req.items| > 0
      && forall i :: 0 <= i < |req.items| ==> GrnLineError(req.items[i]).None?
    ensures e.Some? ==> Status(e.value) == 400
  {
    if req.poID == "" then Some(BadRequest("Purchase Order ID is required"))
    else if |req.items| == 0 then Some(BadRequest("At least one item is required"))
    else FirstError(req.items, GrnLineError)
  }

  /** The GRN lines the document stores for the request lines. */
  function GrnLines(items: seq<GrnRequestLine>): (r: seq<GrnLine>)
    ensures |r| == |items|
    ensures forall i :: 0 <= i < |items| ==>
      r[i] == GrnLine(items[i].itemName, items[i].category, Coerced(items[i].quantityReceived),
                      items[i].lotNumber, items[i].expiryDate)
  {
    if |items| == 0 then []
    else
      var l := items[0];
      [GrnLine(l.itemName, l.category, Coerced(l.quantityReceived), l.lotNumber, l.expiryDate)] + GrnLines(items[1..])
  }

  /** A request that passes the guards yields lines that satisfy the GRN
      schema's line requirements, each with a positive quantity. */
  lemma AcceptedGrnLines(req: GrnRequest)
    requires GrnRequestError(req).None?
    ensures LinesValid(GrnLines(req.items))
    ensures forall i :: 0 <= i < |req.items| ==> GrnLines(req.items)[i].quantityReceived > 0
  {
    var lines := GrnLines(req.items);
    forall i | 0 <= i < |req.items|
      ensures !LineIncomplete(lines[i]) && lines[i].quantityReceived > 0
    {
      assert GrnLineError(req.items[i]).None?;
    }
  }

  // ---- sales dispatch -----------------------------------------------------

  datatype DispatchRequestLine = DispatchRequestLine(itemName: string, quantity: RawNumber, unitPrice: RawNumber)

  datatype DispatchRequest = DispatchRequest(
    customerID: string,
    invoiceNumber: string,
    items: seq<DispatchRequestLine>,
    dispatchDate: Option<int>,
    status: Option<string>)

  /** Lines 31-35 for one line: the item name trimmed, the numbers coerced. */
  function MapLine(l: DispatchRequestLine): DispatchLine
  {
    DispatchLine(Trim(l.itemName), Coerced(l.quantity), Coerced(l.unitPrice))
  }

  function MapLines(items: seq<DispatchRequestLine>): (r: seq<DispatchLine>)
    ensures |r| == |items|
    ensures forall i :: 0 <= i < |items| ==> r[i] == MapLine(items[i])
  {
    if |items| == 0 then [] else [MapLine(items[0])] + MapLines(items[1..])
  }

  /** The guards of lines 38-46 for one mapped line, in their order. */
  function DispatchLineError(line: DispatchLine): (e: Option<Error>)
    ensures e.None? <==> line.itemName != "" && line.quantity > 0 && line.unitPrice > 0
    ensures e.Some? ==> e.value.BadRequest?
  {
    if line.itemName == "" then Some(BadRequest("Item name is required"))
    else if line.quantity <= 0 then Some(BadRequest("Quantity must be greater than 0"))
    else if line.unitPrice <= 0 then Some(BadRequest("Unit price must be greater than 0"))
    else None
  }

  /** Lines 16-26: the header guards. */
  function DispatchHeaderError(req: DispatchRequest): (e: Option<Error>)
    ensures e.None? <==> req.customerID != "" && req.invoiceNumber != "" && |req.items| > 0
  {
    if req.customerID == "" then Some(BadRequest("Customer ID is required"))
    else if req.invoiceNumber == "" then Some(BadRequest("Invoice number is required"))
    else if |req.items| == 0 then Some(BadRequest("At least one item is required"))
    else None
  }

  /** Lines 16-47: the answer `createDispatch` gives before any inventory read,
      if it refuses the request. A line passes when its trimmed name is not
      empty and both numbers coerce to positive values. */
  function DispatchRequestError(req: DispatchRequest): (e: Option<Error>)
    ensures e.None? <==>
      && req.customerID != "" && req.invoiceNumber != "" && |req.items| > 0
      && forall i :: 0 <= i < |req.items| ==>
           && Trim(req.items[i].itemName) != ""
           && ToNumber(req.items[i].quantity).Finite? && ToNumber(req.items[i].quantity).v > 0
           && ToNumber(req.items[i].unitPrice).Finite? && ToNumber(req.items[i].unitPrice).v > 0
    ensures e.Some? ==> Status(e.value) == 400
  {
    if DispatchHeaderError(req).Some? then DispatchHeaderError(req)
    else
      var lines := MapLines(req.items);
      FirstError(lines, DispatchLineError)
  }
}
