/**
 * The withdrawal form (components/OutputForm.tsx): the analyst picks a
 * reagent (from the list or by scanning its label), enters either a number
 * of containers or a quantity in the base unit, and submits an OUT movement
 * that the recorder of the ledger applies.
 */
module OutputForm {
  import opened Types
  import Text
  import Ledger

  /** 'CONTAINER' | 'QUANTITY' */
  datatype OutputMode = ByContainer | ByQuantity

  /** `totalAmountToWithdraw`: the quantity in base units the entry stands for;
      0 when no reagent is selected. */
  function TotalAmount(selected: Option<Reagent>, mode: OutputMode, containers: int, amount: real): real
  {
    match selected
    case None => 0.0
    case Some(r) => if mode == ByContainer then containers as real * r.quantityPerContainer else amount
  }

  /** The amber warning: the stock left would be at or below the minimum. */
  predicate CriticalWarning(r: Reagent, total: real)
  {
    r.currentStock - total <= r.minStock
  }

  /** The label scan's test: either lower-cased name contains the other. */
  predicate ScanMatches(r: Reagent, scanned: string)
  {
    Text.Includes(Text.Lower(r.name), Text.Lower(scanned))
    || Text.Includes(Text.Lower(scanned), Text.Lower(r.name))
  }

  /** `reagents.find(...)` with the scan's test: the first matching reagent. */
  function ScanMatch(rs: seq<Reagent>, scanned: string): (found: Option<Reagent>)
    ensures found.None? <==> forall k :: 0 <= k < |rs| ==> !ScanMatches(rs[k], scanned)
    ensures found.Some? ==> exists k :: 0 <= k < |rs| && rs[k] == found.value && ScanMatches(rs[k], scanned)
                                       && forall j :: 0 <= j < k ==> !ScanMatches(rs[j], scanned)
  {
    if |rs| == 0 then None
    else if ScanMatches(rs[0], scanned) then Some(rs[0])
    else
      var found := ScanMatch(rs[1..], scanned);
      assert forall k :: 1 <= k < |rs| ==> rs[k] == rs[1..][k - 1];
      if found.Some? then
        var k :| 0 <= k < |rs[1..]| && rs[1..][k] == found.value && ScanMatches(rs[1..][k], scanned)
                 && forall j :: 0 <= j < k ==> !ScanMatches(rs[1..][j], scanned);
        assert rs[k + 1] == found.value && forall j :: 0 <= j < k + 1 ==> !ScanMatches(rs[j], scanned);
        found
      else found
  }

  /** A label read as the empty name matches whatever reagent comes first. */
  lemma EmptyScanTakesFirst(rs: seq<Reagent>)
    requires |rs| > 0
    ensures ScanMatch(rs, "") == Some(rs[0])
  {
    Text.IncludesEmpty(Text.Lower(rs[0].name));
  }

  /** Why a submit sends nothing. `NoSelection` is silent; the others alert. */
  datatype Rejection = NoSelection | NoAnalyst | InsufficientStock

  datatype Submission = Sent(movement: Ledger.Movement) | Refused(reason: Rejection)

  /** `handleSubmit`'s decision: the three guards in the source's order, then
      the OUT payload for the selected reagent. */
  function Submit(rs: seq<Reagent>, selectedId: string, mode: OutputMode, containers: int,
                  amount: real, analyst: string): (s: Submission)
    ensures s.Refused? && s.reason == NoSelection <==> FindById(rs, selectedId).None?
    ensures s.Refused? && s.reason == NoAnalyst <==> FindById(rs, selectedId).Some? && analyst == ""
    ensures s.Refused? && s.reason == InsufficientStock <==>
              FindById(rs, selectedId).Some? && analyst != ""
              && TotalAmount(FindById(rs, selectedId), mode, containers, amount) > FindById(rs, selectedId).value.currentStock
    ensures s.Sent? ==>
              var r := FindById(rs, selectedId).value;
              var q := TotalAmount(Some(r), mode, containers, amount);
              && s.movement.reagentId == Some(selectedId)
              && s.movement.kind == Out
              && s.movement.quantity == q && q <= r.currentStock
              && q == (if mode == ByContainer then containers as real * r.quantityPerContainer else amount)
              && s.movement.displayQuantity == (if mode == ByContainer then containers as real else amount)
              && s.movement.displayUnit == (if mode == ByContainer then r.containerType else r.baseUnit)
              && s.movement.analyst == analyst && analyst != ""
  {
    var selected := FindById(rs, selectedId);
    if selected.None? then Refused(NoSelection)
    else if analyst == "" then Refused(NoAnalyst)
    else
      var r := selected.value;
      var q := TotalAmount(selected, mode, containers, amount);
      if q > r.currentStock then Refused(InsufficientStock)
      else Sent(Ledger.Movement(
        Some(selectedId), Out, q,
        if mode == ByContainer then containers as real else amount,
        if mode == ByContainer then r.containerType else r.baseUnit,
        analyst))
  }

  /** `find` and `findIndex` by id agree: the reagent found is the one at the
      first index with that id. */
  lemma FindByIdIsIndexOf(rs: seq<Reagent>, id: string)
    requires FindById(rs, id).Some?
    ensures 0 <= Ledger.IndexOf(rs, Some(id)) && rs[Ledger.IndexOf(rs, Some(id))] == FindById(rs, id).value
  {
    var k :| 0 <= k < |rs| && rs[k] == FindById(rs, id).value && rs[k].id == id
             && forall j :: 0 <= j < k ==> rs[j].id != id;
    assert Some(rs[k].id) == Some(id);
  }

  /** A movement the form sends is one the recorder accepts, and its clamp at
      zero never fires: the stock drops by exactly the quantity. */
  lemma SentNeverClamps(rs: seq<Reagent>, selectedId: string, mode: OutputMode, containers: int,
                        amount: real, analyst: string, now: string)
    requires Submit(rs, selectedId, mode, containers, amount, analyst).Sent?
    ensures var m := Submit(rs, selectedId, mode, containers, amount, analyst).movement;
            var i := Ledger.IndexOf(rs, m.reagentId);
            && Ledger.Admissible(rs, Ledger.EmptyDraft, m)
            && i >= 0
            && Ledger.Withdraw(rs, m, now).final.currentStock == rs[i].currentStock - m.quantity
  {
    FindByIdIsIndexOf(rs, selectedId);
    Ledger.WithdrawClamps(rs, Submit(rs, selectedId, mode, containers, amount, analyst).movement, now);
  }

  /** The warning shown before submitting foretells the outcome: it is on
      exactly when the stock after the withdrawal is at or below the minimum. */
  lemma WarningForetellsCritical(rs: seq<Reagent>, selectedId: string, mode: OutputMode, containers: int,
                                 amount: real, analyst: string, now: string)
    requires Submit(rs, selectedId, mode, containers, amount, analyst).Sent?
    ensures var r := FindById(rs, selectedId).value;
            var m := Submit(rs, selectedId, mode, containers, amount, analyst).movement;
            CriticalWarning(r, TotalAmount(Some(r), mode, containers, amount))
            <==> Ledger.Withdraw(rs, m, now).final.currentStock <= Ledger.Withdraw(rs, m, now).final.minStock
  {
    SentNeverClamps(rs, selectedId, mode, containers, amount, analyst, now);
    FindByIdIsIndexOf(rs, selectedId);
  }

  /** Within the limits the browser enforces on the two inputs (at least one
      container, at least 0.01 in the base unit), a sent movement never adds
      stock: its quantity is at least 0.01, or, by container, not negative
      when the stored content is not, and the stock after it is at most the
      stock before. */
  lemma WithinInputLimitsNeverAdds(rs: seq<Reagent>, selectedId: string, mode: OutputMode, containers: int,
                                   amount: real, analyst: string, now: string)
    requires Submit(rs, selectedId, mode, containers, amount, analyst).Sent?
    requires mode == ByContainer ==> containers >= 1
    requires mode == ByQuantity ==> amount >= 0.01
    ensures var r := FindById(rs, selectedId).value;
            var m := Submit(rs, selectedId, mode, containers, amount, analyst).movement;
            var i := Ledger.IndexOf(rs, m.reagentId);
            && (mode == ByQuantity ==> m.quantity >= 0.01)
            && (mode == ByContainer && r.quantityPerContainer >= 0.0 ==> m.quantity >= 0.0)
            && (m.quantity >= 0.0 ==> Ledger.Withdraw(rs, m, now).final.currentStock <= rs[i].currentStock)
  {
    var r := FindById(rs, selectedId).value;
    if mode == ByContainer && r.quantityPerContainer >= 0.0 {
      assert containers as real * r.quantityPerContainer >= 1.0 * r.quantityPerContainer;
    }
    SentNeverClamps(rs, selectedId, mode, containers, amount, analyst, now);
  }

  /** Outside those limits nothing in the form stops a negative amount: the
      movement it sends then raises the stock. */
  lemma NegativeAmountAdds(rs: seq<Reagent>, selectedId: string, amount: real, analyst: string, now: string)
    requires Submit(rs, selectedId, ByQuantity, 0, amount, analyst).Sent?
    requires amount < 0.0
    ensures var m := Submit(rs, selectedId, ByQuantity, 0, amount, analyst).movement;
            var i := Ledger.IndexOf(rs, m.reagentId);
            Ledger.Withdraw(rs, m, now).final.currentStock > rs[i].currentStock
  {
    SentNeverClamps(rs, selectedId, ByQuantity, 0, amount, analyst, now);
  }

  /** The form's state: selection, mode and the three inputs. */
  class WithdrawalForm {
    var selectedReagentId: string
    var outputMode: OutputMode
    var containers: int
    var amount: real
    var analystName: string

    /** The state right after a reset, or on first display. */
    predicate Cleared()
      reads this
    {
      selectedReagentId == "" && containers == 0 && amount == 0.0 && analystName == ""
    }

    constructor ()
      ensures Cleared() && outputMode == ByContainer
    {
      selectedReagentId := "";
      outputMode := ByContainer;
      containers := 0;
      amount := 0.0;
      analystName := "";
    }

    /** The scan's effect after the label was read as `scanned`: select the
        first match, or change nothing (and alert). */
    method SelectScanned(rs: seq<Reagent>, scanned: string) returns (found: bool)
      modifies this
      ensures found <==> ScanMatch(rs, scanned).Some?
      ensures found ==> selectedReagentId == ScanMatch(rs, scanned).value.id
      ensures !found ==> selectedReagentId == old(selectedReagentId)
      ensures outputMode == old(outputMode) && containers == old(containers)
      ensures amount == old(amount) && analystName == old(analystName)
    {
      var hit := ScanMatch(rs, scanned);
      found := hit.Some?;
      if found {
        selectedReagentId := hit.value.id;
      }
    }

    /** `handleSubmit`: decide, and on success clear the selection and the
        inputs (the mode stays). A refusal changes nothing. */
    method HandleSubmit(rs: seq<Reagent>) returns (s: Submission)
      modifies this
      ensures s == Submit(rs, old(selectedReagentId), old(outputMode), old(containers), old(amount), old(analystName))
      ensures s.Sent? ==> Cleared()
      ensures s.Refused? ==> selectedReagentId == old(selectedReagentId) && containers == old(containers)
                             && amount == old(amount) && analystName == old(analystName)
      ensures outputMode == old(outputMode)
    {
      var selected := FindById(rs, selectedReagentId);
      if selected.None? {
        return Refused(NoSelection);
      }
      if analystName == "" {
        return Refused(NoAnalyst);
      }
      var r := selected.value;
      var total := TotalAmount(selected, outputMode, containers, amount);
      if total > r.currentStock {
        return Refused(InsufficientStock);
      }
      var m := Ledger.Movement(
        Some(selectedReagentId), Out, total,
        if outputMode == ByContainer then containers as real else amount,
        if outputMode == ByContainer then r.containerType else r.baseUnit,
        analystName);
      s := Sent(m);
      selectedReagentId := "";
      containers := 0;
      amount := 0.0;
      analystName := "";
    }
  }
}
