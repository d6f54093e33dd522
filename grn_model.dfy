/** The goods-receipt document (backend/models/grn.js): its lines, the QC enum
    with its default, the unique GRN number and the pre-save hook that
    generates a GRN number when none is set. */
module GrnModel {
  import opened Common
  import opened Responses

  /** One received line; "" stands for an absent lot number. */
  datatype GrnLine = GrnLine(
    itemName: string,
    category: string,
    quantityReceived: int,
    lotNumber: string,
    expiryDate: Option<int>)

  /** A GRN document; "" stands for an absent GRN number. */
  datatype GrnRecord = GrnRecord(
    id: nat,
    poID: string,
    grnNumber: string,
    items: seq<GrnLine>,
    qc: string,
    createdAt: int,
    updatedAt: int)

  const DefaultQc: string := "Check"

  /** The values the GRN `QC` enum accepts. */
  predicate IsQcOutcome(s: string)
  {
    s == "Check" || s == "Pass" || s == "Fail"
  }

  /** `new GRN({ poID, items, QC })`: QC takes its default only when the
      request leaves it undefined; the GRN number is not set yet. */
  function NewGrn(id: nat, poID: string, items: seq<GrnLine>, qc: Option<string>, now: int): (g: GrnRecord)
    ensures g.qc == (if qc.None? then "Check" else qc.value)
    ensures g.grnNumber == "" && g.items == items && g.poID == poID
  {
    GrnRecord(id, poID, "", items, if qc.Some? then qc.value else DefaultQc, now, now)
  }

  /** The `pre("save")` hook: a missing GRN number is replaced by the
      generated one; a GRN number already set is kept. */
  function PreSave(g: GrnRecord, generated: string): GrnRecord
  {
    if g.grnNumber == "" then g.(grnNumber := generated) else g
  }

  /** The hook changes nothing but the GRN number, keeps a supplied one, and
      running it again has no further effect. */
  lemma PreSaveProperties(g: GrnRecord, generated: string, again: string)
    ensures PreSave(g, generated).(grnNumber := g.grnNumber) == g
    ensures g.grnNumber != "" ==> PreSave(g, generated) == g
    ensures g.grnNumber == "" ==> PreSave(g, generated).grnNumber == generated
    ensures generated != "" ==> PreSave(PreSave(g, generated), again) == PreSave(g, generated)
  {
  }

  predicate LineIncomplete(line: GrnLine)
  {
    line.itemName == "" || line.category == ""
  }

  predicate LinesValid(lines: seq<GrnLine>)
  {
    forall i :: 0 <= i < |lines| ==> !LineIncomplete(lines[i])
  }

  /** The first error saving a new GRN raises: `poID` and the line fields are
      required, `QC` must be in its enum, and `grnNumber` is a unique index. */
  function GrnViolation(g: GrnRecord, stored: seq<GrnRecord>): (v: Option<Violation>)
    ensures v.None? <==>
      && g.poID != "" && LinesValid(g.items) && IsQcOutcome(g.qc)
      && forall i :: 0 <= i < |stored| ==> stored[i].grnNumber != g.grnNumber
  {
    if g.poID == "" then Some(Required("poID"))
    else if FindFirst(g.items, LineIncomplete).Some? then
      var k := FindFirst(g.items, LineIncomplete).value;
      if g.items[k].itemName == "" then Some(Required("items.itemName")) else Some(Required("items.category"))
    else if !IsQcOutcome(g.qc) then Some(NotInEnum("QC", g.qc))
    else if exists i :: 0 <= i < |stored| && stored[i].grnNumber == g.grnNumber then
      Some(DuplicateKey("grnNumber", g.grnNumber))
    else None
  }
}
