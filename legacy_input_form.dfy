/**
 * The earlier receipt form (Componets/InputForm.tsx). It differs from the
 * current one in its shorter unit lists, in a free-text unit that can replace
 * the listed one, in its full reset after a submit, and above all in its
 * rule that changing the brand of an existing reagent records the receipt
 * against a new reagent.
 */
module LegacyInputForm {
  import opened Types
  import Text
  import Ledger
  import InputForm

  /** `unitsForPresentation` of this version. */
  function Units(p: Presentation): (us: seq<string>)
    ensures |us| > 0 && us[0] == InputForm.DefaultUnit(p)
    ensures forall u :: u in us ==> u in InputForm.Units(p)
  {
    match p
    case Liquid => ["mL", "L"]
    case Solid => ["g", "kg"]
    case Package => ["unidades"]
  }

  /** The state on first display and after every submit. */
  const Blank: InputForm.FormData :=
    InputForm.FormData("", "", Liquid, InputForm.DefaultContainer, 0, 1.0, "mL", "",
                       Physicochemical, "", 0.0)

  /** `brandChanged`: the originally selected reagent exists and its brand
      differs, ignoring case, from the one in the form. A selection that is
      no longer listed counts as unchanged. */
  predicate BrandChanged(rs: seq<Reagent>, isExisting: bool, selectedId: string, brand: string)
  {
    var original := if isExisting then FindById(rs, selectedId) else None;
    original.Some? && !Text.SameFolded(original.value.brand, brand)
  }

  /** `handleSubmit`'s payload in this version. */
  function ReceiptOf(rs: seq<Reagent>, f: InputForm.FormData, isExisting: bool, selectedId: string,
                     showNewUnitInput: bool, customUnit: string): (r: Option<InputForm.Receipt>)
    ensures r.None? <==> f.analystName == ""
    ensures r.Some? ==>
              var d, m := r.value.draft, r.value.movement;
              && m.reagentId == (if isExisting && !BrandChanged(rs, isExisting, selectedId, f.brand)
                                 then Some(selectedId) else None)
              && d.id == m.reagentId
              && d.baseUnit == Some(if showNewUnitInput then customUnit else f.baseUnit)
              && m.kind == In
              && m.quantity == f.quantityEntered as real * f.quantityPerContainer
              && m.displayQuantity == f.quantityEntered as real
              && m.displayUnit == f.containerType
              && m.analyst == f.analystName
              && d.name == Some(f.name) && d.brand == Some(f.brand)
              && d.presentation == Some(f.presentation) && d.department == Some(f.department)
              && d.expiryDate == Some(if f.expiryDate == "" then NoExpiry else f.expiryDate)
              && d.minStock == Some(f.minStock) && d.containerType == Some(f.containerType)
              && d.quantityPerContainer == Some(f.quantityPerContainer)
  {
    if f.analystName == "" then None
    else
      var unit := if showNewUnitInput then customUnit else f.baseUnit;
      var id := if isExisting && !BrandChanged(rs, isExisting, selectedId, f.brand) then Some(selectedId) else None;
      Some(InputForm.Receipt(
        Ledger.Draft(id, Some(f.name), Some(f.brand), Some(f.presentation), Some(f.department),
                     Some(f.minStock), Some(unit), Some(f.containerType),
                     Some(f.quantityPerContainer),
                     Some(if f.expiryDate == "" then NoExpiry else f.expiryDate)),
        Ledger.Movement(id, In, InputForm.TotalBaseQuantity(f), f.quantityEntered as real,
                        f.containerType, f.analystName)))
  }

  /** A brand change turns the receipt into the creation of a new reagent,
      under the fresh id, with the new brand; the original keeps its stock. */
  lemma BrandChangeCreatesReagent(rs: seq<Reagent>, f: InputForm.FormData, selectedId: string,
                                  showNewUnitInput: bool, customUnit: string, freshId: string, now: string)
    requires f.analystName != ""
    requires BrandChanged(rs, true, selectedId, f.brand)
    ensures var r := ReceiptOf(rs, f, true, selectedId, showNewUnitInput, customUnit).value;
            var st := Ledger.Receive(rs, r.draft, r.movement, freshId, now);
            && r.movement.reagentId.None?
            && st.reagents == rs + [st.final]
            && st.final.id == freshId
            && st.final.brand == f.brand
            && st.final.currentStock == InputForm.TotalBaseQuantity(f)
  {
    var r := ReceiptOf(rs, f, true, selectedId, showNewUnitInput, customUnit).value;
    Ledger.ReceiveNew(rs, r.draft, r.movement, freshId, now);
  }

  /** With the brand unchanged, the receipt adds to the selected reagent. */
  lemma SameBrandAddsStock(rs: seq<Reagent>, f: InputForm.FormData, selectedId: string,
                           showNewUnitInput: bool, customUnit: string, freshId: string, now: string)
    requires f.analystName != ""
    requires FindById(rs, selectedId).Some?
    requires Text.SameFolded(FindById(rs, selectedId).value.brand, f.brand)
    ensures var r := ReceiptOf(rs, f, true, selectedId, showNewUnitInput, customUnit).value;
            var i := Ledger.IndexOf(rs, Some(selectedId));
            var st := Ledger.Receive(rs, r.draft, r.movement, freshId, now);
            && r.movement.reagentId == Some(selectedId)
            && i >= 0
            && |st.reagents| == |rs|
            && st.final.id == selectedId
            && st.final.currentStock == rs[i].currentStock + InputForm.TotalBaseQuantity(f)
  {
    var r := ReceiptOf(rs, f, true, selectedId, showNewUnitInput, customUnit).value;
    var k :| 0 <= k < |rs| && rs[k] == FindById(rs, selectedId).value && rs[k].id == selectedId
             && forall j :: 0 <= j < k ==> rs[j].id != selectedId;
    assert Some(rs[k].id) == Some(selectedId);
    Ledger.ReceiveExisting(rs, r.draft, r.movement, freshId, now);
  }

  /** The form's state in this version. */
  class LegacyReceiptForm {
    var formData: InputForm.FormData
    var isExisting: bool
    var selectedReagentId: string
    var showNewUnitInput: bool
    var customUnit: string

    predicate Cleared()
      reads this
    {
      formData == Blank && !isExisting && selectedReagentId == "" && !showNewUnitInput && customUnit == ""
    }

    constructor ()
      ensures Cleared()
    {
      formData := Blank;
      isExisting := false;
      selectedReagentId := "";
      showNewUnitInput := false;
      customUnit := "";
    }

    /** `handleSubmit`: send the receipt and clear everything, analyst and
        department included; without an analyst, change nothing. */
    method HandleSubmit(rs: seq<Reagent>) returns (sent: Option<InputForm.Receipt>)
      modifies this
      ensures sent == ReceiptOf(rs, old(formData), old(isExisting), old(selectedReagentId),
                                old(showNewUnitInput), old(customUnit))
      ensures sent.Some? ==> Cleared()
      ensures sent.None? ==> formData == old(formData) && isExisting == old(isExisting)
                             && selectedReagentId == old(selectedReagentId)
                             && showNewUnitInput == old(showNewUnitInput) && customUnit == old(customUnit)
    {
      if formData.analystName == "" {
        return None;
      }
      var finalBaseUnit := if showNewUnitInput then customUnit else formData.baseUnit;
      var originalReagent := if isExisting then FindById(rs, selectedReagentId) else None;
      var brandChanged := originalReagent.Some?
                          && Text.Lower(originalReagent.value.brand) != Text.Lower(formData.brand);
      var finalReagentId := if isExisting && !brandChanged then Some(selectedReagentId) else None;
      var d := Ledger.Draft(finalReagentId, Some(formData.name), Some(formData.brand),
                            Some(formData.presentation), Some(formData.department),
                            Some(formData.minStock), Some(finalBaseUnit),
                            Some(formData.containerType), Some(formData.quantityPerContainer),
                            Some(if formData.expiryDate == "" then NoExpiry else formData.expiryDate));
      var m := Ledger.Movement(finalReagentId, In, InputForm.TotalBaseQuantity(formData),
                               formData.quantityEntered as real, formData.containerType,
                               formData.analystName);
      sent := Some(InputForm.Receipt(d, m));
      formData := Blank;
      isExisting := false;
      selectedReagentId := "";
      showNewUnitInput := false;
      customUnit := "";
    }
  }
}
