/**
 * The receipt form (components/InputForm.tsx): the unit list offered for
 * each presentation and the effect that keeps the chosen unit and container
 * consistent with it, the reagent dropdown ordered by how often each reagent
 * appears in the ledger, the label scan that recognises an existing reagent,
 * and the submit that turns the form into an IN movement for the recorder.
 */
module InputForm {
  import opened Types
  import Text
  import Ledger

  /** The signed-in analyst the form expects as `currentUser`. The form
      imports this type from types.ts, which does not declare it; its use
      shows the two fields it needs. */
  datatype AnalystUser = AnalystUser(name: string, department: Department)

  // ---------------------------------------------------------------------
  // Units

  const LiquidUnits: seq<string> := ["mL", "L", "uL"]
  const SolidUnits: seq<string> := ["g", "kg", "mg"]
  const PackageUnits: seq<string> := ["unidades", "Rx"]

  /** `unitsForPresentation` */
  function Units(p: Presentation): seq<string>
  {
    match p
    case Liquid => LiquidUnits
    case Solid => SolidUnits
    case Package => PackageUnits
  }

  /** The unit the effect and the label scan fall back to. */
  function DefaultUnit(p: Presentation): (u: string)
    ensures |Units(p)| > 0 && u == Units(p)[0]
  {
    match p
    case Liquid => "mL"
    case Solid => "g"
    case Package => "unidades"
  }

  // ---------------------------------------------------------------------
  // Form state

  /** `formData` */
  datatype FormData = FormData(
    name: string,
    brand: string,
    presentation: Presentation,
    containerType: string,
    quantityEntered: int,        // parseInt(...) || 0
    quantityPerContainer: real,
    baseUnit: string,
    expiryDate: string,          // '' when not entered
    department: Department,
    analystName: string,
    minStock: real)

  const PackageContainer: string := "Paquete"
  const DefaultContainer: string := "Frascos"

  /** The state on first display, taken from the signed-in analyst if any. */
  function InitialData(user: Option<AnalystUser>): (f: FormData)
    ensures user.None? ==> f.analystName == "" && f.department == Physicochemical
    ensures user.Some? ==> f.analystName == user.value.name && f.department == user.value.department
    ensures f.presentation == Liquid && f.baseUnit in Units(f.presentation)
  {
    FormData("", "", Liquid, DefaultContainer, 0, 1.0, "mL", "",
             if user.Some? then user.value.department else Physicochemical,
             if user.Some? then user.value.name else "",
             0.0)
  }

  /** `totalBaseQuantity` */
  function TotalBaseQuantity(f: FormData): real
  {
    f.quantityEntered as real * f.quantityPerContainer
  }

  /** The presentation-change effect. Outside custom-unit mode a unit that
      the presentation does not list is replaced by its default; a package
      is always in a 'Paquete' container, and leaving the package
      presentation gives back 'Frascos'. Nothing else changes. */
  function PresentationEffect(prev: FormData, custom: bool): (next: FormData)
    ensures !custom ==> next.baseUnit in Units(prev.presentation)
    ensures !custom && prev.baseUnit in Units(prev.presentation) ==> next.baseUnit == prev.baseUnit
    ensures !custom && prev.baseUnit !in Units(prev.presentation) ==> next.baseUnit == DefaultUnit(prev.presentation)
    ensures custom ==> next.baseUnit == prev.baseUnit
    ensures prev.presentation == Package ==> next.containerType == PackageContainer
    ensures prev.presentation != Package ==>
              next.containerType == (if prev.containerType == PackageContainer then DefaultContainer else prev.containerType)
    ensures next == prev.(baseUnit := next.baseUnit, containerType := next.containerType)
  {
    var p := prev.presentation;
    var unit := if !custom && prev.baseUnit !in Units(p) then DefaultUnit(p) else prev.baseUnit;
    var container :=
      if p == Package then PackageContainer
      else if prev.containerType == PackageContainer then DefaultContainer
      else prev.containerType;
    prev.(baseUnit := unit, containerType := container)
  }

  /** Running the effect again changes nothing more: its result is a state
      with nothing to update. */
  lemma PresentationEffectSettles(f: FormData, custom: bool)
    ensures PresentationEffect(PresentationEffect(f, custom), custom) == PresentationEffect(f, custom)
  {
    var g := PresentationEffect(f, custom);
    assert g.presentation == f.presentation;
    if f.presentation != Package && f.containerType == PackageContainer {
      assert g.containerType == DefaultContainer;
    }
  }

  // ---------------------------------------------------------------------
  // The dropdown: filtered by department, ordered by use

  /** How many ledger entries name the reagent `id`. */
  function Occurrences(ts: seq<Transaction>, id: string): nat
  {
    if |ts| == 0 then 0
    else Occurrences(ts[..|ts| - 1], id) + (if ts[|ts| - 1].reagentId == id then 1 else 0)
  }

  /** `usageCount[id] || 0` */
  function CountOf(counts: map<string, nat>, id: string): nat
  {
    if id in counts then counts[id] else 0
  }

  /** The `usageCount` loop. */
  method UsageCounts(ts: seq<Transaction>) returns (counts: map<string, nat>)
    ensures forall id :: CountOf(counts, id) == Occurrences(ts, id)
  {
    counts := map[];
    var i := 0;
    while i < |ts|
      invariant 0 <= i <= |ts|
      invariant forall id :: CountOf(counts, id) == Occurrences(ts[..i], id)
    {
      var id := ts[i].reagentId;
      assert ts[..i + 1][..i] == ts[..i];
      counts := counts[id := CountOf(counts, id) + 1];
      i := i + 1;
    }
    assert ts[..|ts|] == ts;
  }

  /** The comparator's verdict "a may stay before b": more uses first, then
      by name (`localeCompare`). */
  predicate Precedes(a: Reagent, b: Reagent, ts: seq<Transaction>)
  {
    var ca, cb := Occurrences(ts, a.id), Occurrences(ts, b.id);
    ca > cb || (ca == cb && Text.LessEq(a.name, b.name))
  }

  lemma PrecedesTotal(a: Reagent, b: Reagent, ts: seq<Transaction>)
    ensures Precedes(a, b, ts) || Precedes(b, a, ts)
  {
    Text.LessEqTotal(a.name, b.name);
  }

  lemma PrecedesTransitive(a: Reagent, b: Reagent, c: Reagent, ts: seq<Transaction>)
    requires Precedes(a, b, ts) && Precedes(b, c, ts)
    ensures Precedes(a, c, ts)
  {
    if Occurrences(ts, a.id) == Occurrences(ts, b.id) == Occurrences(ts, c.id) {
      Text.LessEqTransitive(a.name, b.name, c.name);
    }
  }

  ghost predicate SortedByUse(s: seq<Reagent>, ts: seq<Transaction>)
  {
    forall i, j :: 0 <= i < j < |s| ==> Precedes(s[i], s[j], ts)
  }

  /** `filter(r => r.department === d)`, keeping every copy of a kept reagent. */
  function InDepartment(rs: seq<Reagent>, d: Department): (r: seq<Reagent>)
    ensures forall x :: multiset(r)[x] == if x.department == d then multiset(rs)[x] else 0
    ensures forall k :: 0 <= k < |r| ==> r[k].department == d
  {
    if |rs| == 0 then []
    else
      var init := rs[..|rs| - 1];
      var last := rs[|rs| - 1];
      SplitLast(rs);
      InDepartment(init, d) + (if last.department == d then [last] else [])
  }

  /** The in-place sort of `filtered.sort(...)`, by insertion. */
  method SortByUse(a: array<Reagent>, counts: map<string, nat>, ghost ts: seq<Transaction>)
    requires forall id :: CountOf(counts, id) == Occurrences(ts, id)
    modifies a
    ensures SortedByUse(a[..], ts)
    ensures multiset(a[..]) == multiset(old(a[..]))
  {
    var i := 0;
    while i < a.Length
      invariant 0 <= i <= a.Length
      invariant forall p, q :: 0 <= p < q < i ==> Precedes(a[p], a[q], ts)
      invariant multiset(a[..]) == multiset(old(a[..]))
    {
      Insert(a, i, counts, ts);
      i := i + 1;
    }
    assert a[..] == a[..a.Length];
  }

  /** One pass of the insertion sort: `a[i]` sinks into the sorted `a[..i]`. */
  method Insert(a: array<Reagent>, i: nat, counts: map<string, nat>, ghost ts: seq<Transaction>)
    requires i < a.Length
    requires forall id :: CountOf(counts, id) == Occurrences(ts, id)
    requires forall p, q :: 0 <= p < q < i ==> Precedes(a[p], a[q], ts)
    modifies a
    ensures forall p, q :: 0 <= p < q <= i ==> Precedes(a[p], a[q], ts)
    ensures multiset(a[..]) == multiset(old(a[..]))
  {
    var j := i;
    while j > 0 && !InOrder(a[j - 1], a[j], counts)
      invariant 0 <= j <= i
      invariant Sinking(a[..], j, i, ts)
      invariant multiset(a[..]) == multiset(old(a[..]))
    {
      ghost var s := a[..];
      InOrderPrecedes(s[j - 1], s[j], counts, ts);
      a[j - 1], a[j] := a[j], a[j - 1];
      assert a[..] == s[j - 1 := s[j]][j := s[j - 1]];
      SwapPermutes(s, j - 1, j);
      SinkStep(s, j, i, ts);
      j := j - 1;
    }
    if j > 0 {
      InOrderPrecedes(a[j - 1], a[j], counts, ts);
    }
    SinkDone(a[..], j, i, ts);
  }

  /** The tallied comparator agrees with the specified one. */
  lemma InOrderPrecedes(x: Reagent, y: Reagent, counts: map<string, nat>, ts: seq<Transaction>)
    requires forall id :: CountOf(counts, id) == Occurrences(ts, id)
    ensures InOrder(x, y, counts) <==> Precedes(x, y, ts)
  {
  }

  lemma SwapPermutes<T>(s: seq<T>, p: nat, q: nat)
    requires p < q < |s|
    ensures multiset(s[p := s[q]][q := s[p]]) == multiset(s)
  {
  }

  /** The state of a pass while the moving element sits at `j`: the others
      of `s[..i + 1]` are in order, and the moving one precedes all after it
      and is preceded by all before it. */
  ghost predicate Sinking(s: seq<Reagent>, j: nat, i: nat, ts: seq<Transaction>)
    requires j <= i < |s|
  {
    && (forall p, q :: 0 <= p < q <= i && p != j && q != j ==> Precedes(s[p], s[q], ts))
    && (forall q :: j < q <= i ==> Precedes(s[j], s[q], ts))
    && (forall p, q :: 0 <= p < j < q <= i ==> Precedes(s[p], s[q], ts))
  }

  /** Swapping the moving element with a predecessor it should precede. */
  lemma SinkStep(s: seq<Reagent>, j: nat, i: nat, ts: seq<Transaction>)
    requires 0 < j <= i < |s| && Sinking(s, j, i, ts) && !Precedes(s[j - 1], s[j], ts)
    ensures Sinking(s[j - 1 := s[j]][j := s[j - 1]], j - 1, i, ts)
  {
    PrecedesTotal(s[j - 1], s[j], ts);
  }

  /** The pass ends with `s[..i + 1]` in order. */
  lemma SinkDone(s: seq<Reagent>, j: nat, i: nat, ts: seq<Transaction>)
    requires j <= i < |s| && Sinking(s, j, i, ts) && (j == 0 || Precedes(s[j - 1], s[j], ts))
    ensures forall p, q :: 0 <= p < q <= i ==> Precedes(s[p], s[q], ts)
  {
    forall p, q | 0 <= p < q <= i
      ensures Precedes(s[p], s[q], ts)
    {
      if q == j && p < j - 1 {
        PrecedesTransitive(s[p], s[j - 1], s[j], ts);
      }
    }
  }

  /** The comparator evaluated with the tallied counts. */
  predicate InOrder(a: Reagent, b: Reagent, counts: map<string, nat>)
  {
    var ca, cb := CountOf(counts, a.id), CountOf(counts, b.id);
    ca > cb || (ca == cb && Text.LessEq(a.name, b.name))
  }

  /** `sortedReagents`. With a signed-in analyst it sorts a fresh array of
      that department's reagents; without one it sorts (and returns) the
      `reagents` array itself. */
  method SortedReagents(reagents: array<Reagent>, user: Option<AnalystUser>, ts: seq<Transaction>)
    returns (sorted: array<Reagent>)
    modifies reagents
    ensures SortedByUse(sorted[..], ts)
    ensures user.None? ==> sorted == reagents && multiset(sorted[..]) == multiset(old(reagents[..]))
    ensures user.Some? ==> fresh(sorted) && reagents[..] == old(reagents[..])
                           && multiset(sorted[..]) == multiset(InDepartment(old(reagents[..]), user.value.department))
  {
    var counts := UsageCounts(ts);
    if user.None? {
      sorted := reagents;
    } else {
      var filtered := InDepartment(reagents[..], user.value.department);
      sorted := new Reagent[|filtered|](k requires 0 <= k < |filtered| => filtered[k]);
      assert sorted[..] == filtered;
    }
    SortByUse(sorted, counts, ts);
  }

  // ---------------------------------------------------------------------
  // Label scan

  /** What the label reader returns: `{ name, brand, presentation }`, the
      presentation as free text. */
  datatype LabelReading = LabelReading(name: string, brand: string, presentation: string)

  /** An unrecognised presentation falls back to 'Líquido'. */
  function ReadPresentation(s: string): (p: Presentation)
    ensures p == Solid <==> s == "Sólido"
    ensures p == Package <==> s == "Paquete"
    ensures p == Liquid <==> s != "Sólido" && s != "Paquete"
  {
    if s == "Sólido" then Solid else if s == "Paquete" then Package else Liquid
  }

  predicate SameReagent(r: Reagent, reading: LabelReading)
  {
    Text.SameFolded(r.name, reading.name) && Text.SameFolded(r.brand, reading.brand)
  }

  /** The first reagent whose name and brand both equal the label's,
      ignoring case. */
  function LabelMatch(rs: seq<Reagent>, reading: LabelReading): (found: Option<Reagent>)
    ensures found.None? <==> forall k :: 0 <= k < |rs| ==> !SameReagent(rs[k], reading)
    ensures found.Some? ==> exists k :: 0 <= k < |rs| && rs[k] == found.value && SameReagent(rs[k], reading)
                                       && forall j :: 0 <= j < k ==> !SameReagent(rs[j], reading)
  {
    if |rs| == 0 then None
    else if SameReagent(rs[0], reading) then Some(rs[0])
    else
      var found := LabelMatch(rs[1..], reading);
      assert forall k :: 1 <= k < |rs| ==> rs[k] == rs[1..][k - 1];
      if found.Some? then
        var k :| 0 <= k < |rs[1..]| && rs[1..][k] == found.value && SameReagent(rs[1..][k], reading)
                 && forall j :: 0 <= j < k ==> !SameReagent(rs[1..][j], reading);
        assert rs[k + 1] == found.value && forall j :: 0 <= j < k + 1 ==> !SameReagent(rs[j], reading);
        found
      else found
  }

  /** The two `setFormData` calls of the scan: the label's fields first, then,
      for a recognised reagent, its stored unit, container, content,
      minimum, department and presentation. */
  function Scanned(f: FormData, reading: LabelReading, hit: Option<Reagent>): FormData
  {
    var p := ReadPresentation(reading.presentation);
    var first := f.(name := reading.name, brand := reading.brand, presentation := p, baseUnit := DefaultUnit(p));
    match hit
    case None => first
    case Some(e) =>
      first.(baseUnit := e.baseUnit, containerType := e.containerType,
             quantityPerContainer := e.quantityPerContainer, minStock := e.minStock,
             department := e.department, presentation := e.presentation)
  }

  /** The form once the scan's two updates are rendered together. The
      presentation effect depends on the presentation and on custom-unit
      mode, so it runs again when the scan changed the presentation or left
      custom-unit mode, and not otherwise. */
  function AfterScan(f: FormData, custom: bool, reading: LabelReading, hit: Option<Reagent>): FormData
  {
    var g := Scanned(f, reading, hit);
    if g.presentation != f.presentation || custom then PresentationEffect(g, false) else g
  }

  // ---------------------------------------------------------------------
  // Submit

  /** The two arguments of `onTransaction`. */
  datatype Receipt = Receipt(draft: Ledger.Draft, movement: Ledger.Movement)

  /** `handleSubmit`'s payload: nothing without an analyst, otherwise an IN
      movement for the selected reagent (when an existing one was chosen)
      or for a new one, with its full description. */
  function ReceiptOf(f: FormData, isExisting: bool, selectedId: string): (r: Option<Receipt>)
    ensures r.None? <==> f.analystName == ""
    ensures r.Some? ==>
              var d, m := r.value.draft, r.value.movement;
              && m.reagentId == (if isExisting then Some(selectedId) else None)
              && d.id == m.reagentId
              && m.kind == In
              && m.quantity == f.quantityEntered as real * f.quantityPerContainer
              && m.displayQuantity == f.quantityEntered as real
              && m.displayUnit == f.containerType
              && m.analyst == f.analystName
              && d.name == Some(f.name) && d.brand == Some(f.brand)
              && d.presentation == Some(f.presentation) && d.department == Some(f.department)
              && d.expiryDate == Some(if f.expiryDate == "" then NoExpiry else f.expiryDate)
              && d.minStock == Some(f.minStock) && d.containerType == Some(f.containerType)
              && d.quantityPerContainer == Some(f.quantityPerContainer) && d.baseUnit == Some(f.baseUnit)
  {
    if f.analystName == "" then None
    else
      var id := if isExisting then Some(selectedId) else None;
      Some(Receipt(
        Ledger.Draft(id, Some(f.name), Some(f.brand), Some(f.presentation), Some(f.department),
                     Some(f.minStock), Some(f.baseUnit), Some(f.containerType),
                     Some(f.quantityPerContainer),
                     Some(if f.expiryDate == "" then NoExpiry else f.expiryDate)),
        Ledger.Movement(id, In, TotalBaseQuantity(f), f.quantityEntered as real,
                        f.containerType, f.analystName)))
  }

  /** The reset after a submit: everything back to its initial value except
      the analyst and the department. */
  function AfterSubmit(f: FormData): (g: FormData)
    ensures g.analystName == f.analystName && g.department == f.department
    ensures g == InitialData(Some(AnalystUser(f.analystName, f.department)))
  {
    f.(name := "", brand := "", presentation := Liquid, containerType := DefaultContainer,
       quantityEntered := 0, quantityPerContainer := 1.0, baseUnit := "mL",
       expiryDate := "", minStock := 0.0)
  }

  /** Whatever the ledger holds, the recorder can apply a receipt: it always
      describes a reagent fully enough to create one. */
  lemma ReceiptAdmissible(f: FormData, isExisting: bool, selectedId: string, rs: seq<Reagent>)
    requires ReceiptOf(f, isExisting, selectedId).Some?
    ensures var r := ReceiptOf(f, isExisting, selectedId).value;
            Ledger.CanCreate(r.draft) && Ledger.Admissible(rs, r.draft, r.movement)
  {
  }

  /** A receipt for a new reagent appends a reagent under the fresh id that
      holds exactly the entered quantity and the form's description. */
  lemma NewReceiptAppends(f: FormData, selectedId: string, rs: seq<Reagent>, freshId: string, now: string)
    requires ReceiptOf(f, false, selectedId).Some?
    ensures var r := ReceiptOf(f, false, selectedId).value;
            var st := Ledger.Receive(rs, r.draft, r.movement, freshId, now);
            && st.reagents == rs + [st.final]
            && st.final.id == freshId
            && st.final.currentStock == TotalBaseQuantity(f)
            && st.final.name == f.name && st.final.brand == f.brand
            && st.final.department == f.department && st.final.minStock == f.minStock
            && st.final.presentation == f.presentation
            && st.final.baseUnit == (if f.baseUnit == "" then Ledger.DefaultBaseUnit else f.baseUnit)
            && st.final.containerType == (if f.containerType == "" then Ledger.DefaultContainerType else f.containerType)
            && st.final.quantityPerContainer == (if f.quantityPerContainer == 0.0 then 1.0 else f.quantityPerContainer)
            && st.final.expiryDate == (if f.expiryDate == "" then NoExpiry else f.expiryDate)
  {
    var r := ReceiptOf(f, false, selectedId).value;
    Ledger.ReceiveNew(rs, r.draft, r.movement, freshId, now);
  }

  /** A receipt for an existing reagent that is still listed adds the entered
      quantity to its stock. */
  lemma ExistingReceiptAdds(f: FormData, selectedId: string, rs: seq<Reagent>, freshId: string, now: string)
    requires ReceiptOf(f, true, selectedId).Some?
    requires Ledger.IndexOf(rs, Some(selectedId)) >= 0
    ensures var r := ReceiptOf(f, true, selectedId).value;
            var i := Ledger.IndexOf(rs, Some(selectedId));
            var st := Ledger.Receive(rs, r.draft, r.movement, freshId, now);
            && |st.reagents| == |rs|
            && st.final.id == selectedId
            && st.final.currentStock == rs[i].currentStock + TotalBaseQuantity(f)
  {
    var r := ReceiptOf(f, true, selectedId).value;
    Ledger.ReceiveExisting(rs, r.draft, r.movement, freshId, now);
  }

  /** The container the presentation effect leaves after a scan. */
  function ScanContainer(ran: bool, p: Presentation, stored: string): string
  {
    if !ran then stored
    else if p == Package then PackageContainer
    else if stored == PackageContainer then DefaultContainer
    else stored
  }

  /** The form after recognising `e`: the label's name and brand, `e`'s
      stored fields, and the unit and container as the effect (when it runs)
      leaves them; the analyst and the entered quantity are untouched. */
  lemma AfterScanRecognised(f: FormData, custom: bool, reading: LabelReading, e: Reagent)
    ensures var ran := e.presentation != f.presentation || custom;
            var g := AfterScan(f, custom, reading, Some(e));
            && g.name == reading.name && g.brand == reading.brand
            && g.presentation == e.presentation && g.department == e.department
            && g.quantityPerContainer == e.quantityPerContainer && g.minStock == e.minStock
            && g.baseUnit == (if ran && e.baseUnit !in Units(e.presentation) then DefaultUnit(e.presentation)
                              else e.baseUnit)
            && g.containerType == ScanContainer(ran, e.presentation, e.containerType)
            && g.analystName == f.analystName && g.quantityEntered == f.quantityEntered
            && g.expiryDate == f.expiryDate
  {
  }

  /** A scan that recognises reagent `e` prepares an IN movement on `e`'s id.
      The draft carries the label's name and brand and `e`'s stored content,
      minimum, department and presentation. Its unit and container are the
      stored ones as the presentation effect leaves them: when the effect
      runs, an unlisted unit becomes the default and the package rule sets
      the container. A reagent whose stored unit and container already obey
      those rules keeps both. */
  lemma ScanRecognisedReceipt(f: FormData, custom: bool, reading: LabelReading, e: Reagent)
    requires f.analystName != ""
    ensures var ran := e.presentation != f.presentation || custom;
            var container := ScanContainer(ran, e.presentation, e.containerType);
            var r := ReceiptOf(AfterScan(f, custom, reading, Some(e)), true, e.id).value;
            && r.movement.reagentId == Some(e.id)
            && r.draft.name == Some(reading.name) && r.draft.brand == Some(reading.brand)
            && r.draft.baseUnit == Some(if ran && e.baseUnit !in Units(e.presentation)
                                        then DefaultUnit(e.presentation) else e.baseUnit)
            && r.draft.containerType == Some(container) && r.movement.displayUnit == container
            && (e.baseUnit in Units(e.presentation) && (e.presentation == Package <==> e.containerType == PackageContainer)
                ==> r.draft.baseUnit == Some(e.baseUnit) && r.draft.containerType == Some(e.containerType))
            && r.draft.quantityPerContainer == Some(e.quantityPerContainer)
            && r.draft.minStock == Some(e.minStock) && r.draft.department == Some(e.department)
            && r.draft.presentation == Some(e.presentation)
            && r.movement.quantity == f.quantityEntered as real * e.quantityPerContainer
  {
    AfterScanRecognised(f, custom, reading, e);
  }

  /** The recorder adds that receipt's quantity (the entered containers
      times the stored content, by `ScanRecognisedReceipt`) to the reagent
      listed under the matched id. */
  lemma ScanRecognisedAddsStock(rs: seq<Reagent>, f: FormData, custom: bool, reading: LabelReading,
                                freshId: string, now: string)
    requires f.analystName != ""
    requires LabelMatch(rs, reading).Some?
    ensures var e := LabelMatch(rs, reading).value;
            var r := ReceiptOf(AfterScan(f, custom, reading, Some(e)), true, e.id).value;
            var i := Ledger.IndexOf(rs, Some(e.id));
            var st := Ledger.Receive(rs, r.draft, r.movement, freshId, now);
            && i >= 0 && |st.reagents| == |rs| && st.final.id == e.id
            && st.final.currentStock == rs[i].currentStock + r.movement.quantity
  {
    var e := LabelMatch(rs, reading).value;
    var k :| 0 <= k < |rs| && rs[k] == e && SameReagent(rs[k], reading)
             && forall j :: 0 <= j < k ==> !SameReagent(rs[j], reading);
    assert Some(rs[k].id) == Some(e.id);
    assert Ledger.IndexOf(rs, Some(e.id)) >= 0;
    var g := AfterScan(f, custom, reading, Some(e));
    AfterScanRecognised(f, custom, reading, e);
    ExistingReceiptAdds(g, e.id, rs, freshId, now);
  }

  /** The form after a scan that recognises nothing: the label's name and
      brand, the presentation it names and that presentation's default unit,
      which the effect keeps; the package rule when the effect runs; the
      department, analyst and quantities untouched. */
  lemma AfterScanUnrecognised(f: FormData, custom: bool, reading: LabelReading)
    ensures var p := ReadPresentation(reading.presentation);
            var g := AfterScan(f, custom, reading, None);
            && g.name == reading.name && g.brand == reading.brand
            && g.presentation == p && g.baseUnit == DefaultUnit(p)
            && (p == Package && (p != f.presentation || custom) ==> g.containerType == PackageContainer)
            && g.department == f.department && g.analystName == f.analystName
            && g.quantityEntered == f.quantityEntered && g.quantityPerContainer == f.quantityPerContainer
  { }

  /** A scan that recognises nothing prepares the creation of a reagent with
      the label's name and brand, the presentation read from the label (or
      'Líquido') and that presentation's default unit, which the
      presentation effect keeps. */
  lemma ScanUnrecognisedCreates(rs: seq<Reagent>, f: FormData, custom: bool, reading: LabelReading,
                                selectedId: string, freshId: string, now: string)
    requires f.analystName != ""
    requires LabelMatch(rs, reading).None?
    ensures var p := ReadPresentation(reading.presentation);
            var g := AfterScan(f, custom, reading, None);
            var r := ReceiptOf(g, false, selectedId).value;
            var st := Ledger.Receive(rs, r.draft, r.movement, freshId, now);
            && st.reagents == rs + [st.final] && st.final.id == freshId
            && st.final.name == reading.name && st.final.brand == reading.brand
            && st.final.presentation == p && st.final.baseUnit == DefaultUnit(p)
            && (p == Package && (p != f.presentation || custom) ==> st.final.containerType == PackageContainer)
            && st.final.department == f.department
            && st.final.currentStock == TotalBaseQuantity(f)
  {
    var g := AfterScan(f, custom, reading, None);
    AfterScanUnrecognised(f, custom, reading);
    NewReceiptAppends(g, selectedId, rs, freshId, now);
  }

  /** The form's state. */
  class ReceiptForm {
    var formData: FormData
    var isExisting: bool
    var selectedReagentId: string
    var isCustomUnitMode: bool

    constructor (user: Option<AnalystUser>)
      ensures formData == InitialData(user)
      ensures !isExisting && selectedReagentId == "" && !isCustomUnitMode
    {
      formData := InitialData(user);
      isExisting := false;
      selectedReagentId := "";
      isCustomUnitMode := false;
    }

    /** The effect, run after the presentation or the custom-unit mode changed. */
    method OnPresentationChange()
      modifies this
      ensures formData == PresentationEffect(old(formData), isCustomUnitMode)
      ensures isExisting == old(isExisting) && selectedReagentId == old(selectedReagentId)
      ensures isCustomUnitMode == old(isCustomUnitMode)
    {
      formData := PresentationEffect(formData, isCustomUnitMode);
    }

    /** `handleImageUpload` once the label has been read. */
    method ScanLabel(rs: seq<Reagent>, reading: LabelReading)
      modifies this
      ensures formData == Scanned(old(formData), reading, LabelMatch(rs, reading))
      ensures isExisting <==> LabelMatch(rs, reading).Some?
      ensures isExisting ==> selectedReagentId == LabelMatch(rs, reading).value.id
      ensures !isExisting ==> selectedReagentId == old(selectedReagentId)
      ensures !isCustomUnitMode
    {
      var p := ReadPresentation(reading.presentation);
      formData := formData.(name := reading.name, brand := reading.brand, presentation := p,
                            baseUnit := DefaultUnit(p));
      var existing := LabelMatch(rs, reading);
      if existing.Some? {
        var e := existing.value;
        isExisting := true;
        selectedReagentId := e.id;
        isCustomUnitMode := false;
        formData := formData.(baseUnit := e.baseUnit, containerType := e.containerType,
                              quantityPerContainer := e.quantityPerContainer, minStock := e.minStock,
                              department := e.department, presentation := e.presentation);
      } else {
        isExisting := false;
        isCustomUnitMode := false;
      }
    }

    /** `handleSubmit`: send the receipt and reset, or (without an analyst)
        change nothing. */
    method HandleSubmit() returns (sent: Option<Receipt>)
      modifies this
      ensures sent == ReceiptOf(old(formData), old(isExisting), old(selectedReagentId))
      ensures sent.Some? ==> formData == AfterSubmit(old(formData)) && !isExisting
                             && selectedReagentId == "" && !isCustomUnitMode
      ensures sent.None? ==> formData == old(formData) && isExisting == old(isExisting)
                             && selectedReagentId == old(selectedReagentId)
                             && isCustomUnitMode == old(isCustomUnitMode)
    {
      if formData.analystName == "" {
        return None;
      }
      var finalReagentId := if isExisting then Some(selectedReagentId) else None;
      var d := Ledger.Draft(finalReagentId, Some(formData.name), Some(formData.brand),
                            Some(formData.presentation), Some(formData.department),
                            Some(formData.minStock), Some(formData.baseUnit),
                            Some(formData.containerType), Some(formData.quantityPerContainer),
                            Some(if formData.expiryDate == "" then NoExpiry else formData.expiryDate));
      var m := Ledger.Movement(finalReagentId, In, TotalBaseQuantity(formData),
                               formData.quantityEntered as real, formData.containerType,
                               formData.analystName);
      sent := Some(Receipt(d, m));
      formData := AfterSubmit(formData);
      isExisting := false;
      selectedReagentId := "";
      isCustomUnitMode := false;
    }
  }

  /** None of the form's own operations sets the analyst: a form opened
      without a signed-in analyst (as App.tsx opens it) keeps an empty
      analyst name, and its submit never sends anything. */
  lemma WithoutUserNeverSends(f: FormData, isExisting: bool, selectedId: string, reading: LabelReading,
                              rs: seq<Reagent>, custom: bool)
    requires f.analystName == InitialData(None).analystName
    ensures ReceiptOf(f, isExisting, selectedId).None?
    ensures Scanned(f, reading, LabelMatch(rs, reading)).analystName == ""
    ensures PresentationEffect(f, custom).analystName == ""
    ensures AfterSubmit(f).analystName == ""
  {
  }

  /** With a signed-in analyst, as the form's initial state expects, the
      analyst's name survives scans, effects and resets, and every submit
      sends a receipt under that name. */
  lemma SignedInAlwaysSends(u: AnalystUser, f: FormData, isExisting: bool, selectedId: string,
                            reading: LabelReading, rs: seq<Reagent>, custom: bool)
    requires u.name != ""
    requires f.analystName == InitialData(Some(u)).analystName
    ensures ReceiptOf(f, isExisting, selectedId).Some?
    ensures ReceiptOf(f, isExisting, selectedId).value.movement.analyst == u.name
    ensures Scanned(f, reading, LabelMatch(rs, reading)).analystName == u.name
    ensures PresentationEffect(f, custom).analystName == u.name
    ensures AfterSubmit(f).analystName == u.name
  {
  }
}
