/**
 * The stock-movement recorder of App.tsx (`handleTransaction`, local-state
 * part): an IN movement adds to an existing reagent or appends a new one, an
 * OUT movement subtracts with a clamp at zero, and every movement prepends one
 * ledger entry.
 *
 * The pure functions `Receive`, `Withdraw` and `Recorded` say what one
 * movement does; the class `Inventory` holds the two lists and its methods
 * perform the movement step by step and are proved to agree with them.
 */
module Ledger {
  import opened Types

  /** `Partial<Reagent>`: the descriptor a form sends along with a movement.
      The recorder only reads it when an IN movement creates a reagent. */
  datatype Draft = Draft(
    id: Option<string>,
    name: Option<string>,
    brand: Option<string>,
    presentation: Option<Presentation>,
    department: Option<Department>,
    minStock: Option<real>,
    baseUnit: Option<string>,
    containerType: Option<string>,
    quantityPerContainer: Option<real>,
    expiryDate: Option<string>)

  /** The `{}` descriptor that the withdrawal form sends. */
  const EmptyDraft: Draft := Draft(None, None, None, None, None, None, None, None, None, None)

  /** `Omit<Transaction, 'id' | 'timestamp' | 'reagentName'>`. `reagentId`
      is undefined when an IN movement asks for a new reagent. */
  datatype Movement = Movement(
    reagentId: Option<string>,
    kind: TransactionType,
    quantity: real,
    displayQuantity: real,
    displayUnit: string,
    analyst: string)

  const DefaultBaseUnit: string := "ud"
  const DefaultContainerType: string := "Frasco"

  /** JavaScript `x || d` on a possibly missing string: '' is falsy too. */
  function OrString(x: Option<string>, d: string): string
  {
    if x.None? || x.value == "" then d else x.value
  }

  /** JavaScript `x || d` on a possibly missing number: 0 is falsy too. */
  function OrNumber(x: Option<real>, d: real): real
  {
    if x.None? || x.value == 0.0 then d else x.value
  }

  /** `rs.findIndex(r => r.id === id)`: the first index whose id is `id`, or
      -1. An undefined `id` matches nothing. */
  function IndexOf(rs: seq<Reagent>, id: Option<string>): (i: int)
    ensures -1 <= i < |rs|
    ensures i == -1 <==> forall k :: 0 <= k < |rs| ==> id != Some(rs[k].id)
    ensures i >= 0 ==> id == Some(rs[i].id) && forall k :: 0 <= k < i ==> id != Some(rs[k].id)
  {
    if |rs| == 0 then -1
    else if id == Some(rs[0].id) then 0
    else
      var j := IndexOf(rs[1..], id);
      if j == -1 then -1 else j + 1
  }

  /** The loop that `findIndex` runs, proved to find what `IndexOf` names. */
  method FindIndex(rs: seq<Reagent>, id: Option<string>) returns (i: int)
    ensures i == IndexOf(rs, id)
  {
    var k := 0;
    while k < |rs|
      invariant 0 <= k <= |rs|
      invariant forall j :: 0 <= j < k ==> id != Some(rs[j].id)
    {
      if id == Some(rs[k].id) {
        return k;
      }
      k := k + 1;
    }
    return -1;
  }

  /** The fields an IN movement needs to create a reagent (`reagent.name!`,
      `reagent.brand!`, `reagent.presentation!`, `reagent.department!`). */
  predicate CanCreate(d: Draft)
  {
    d.name.Some? && d.brand.Some? && d.presentation.Some? && d.department.Some?
  }

  /** The reagent record an IN movement creates, with the source's defaults. */
  function NewReagent(d: Draft, id: string, quantity: real, now: string): Reagent
    requires CanCreate(d)
  {
    Reagent(
      id := id,
      name := d.name.value,
      brand := d.brand.value,
      presentation := d.presentation.value,
      currentStock := quantity,
      minStock := OrNumber(d.minStock, 0.0),
      department := d.department.value,
      baseUnit := OrString(d.baseUnit, DefaultBaseUnit),
      containerType := OrString(d.containerType, DefaultContainerType),
      quantityPerContainer := OrNumber(d.quantityPerContainer, 1.0),
      expiryDate := OrString(d.expiryDate, NoExpiry),
      isOrdered := false,
      lastUpdated := now)
  }

  /** The reagent list after a movement, and the reagent the movement touched. */
  datatype Step = Step(reagents: seq<Reagent>, final: Reagent)

  /** What a movement demands of its caller: an OUT movement (and an IN
      movement without a draft able to create a reagent) must name a reagent
      in the list; the source dereferences the lookup unchecked. */
  predicate Admissible(rs: seq<Reagent>, d: Draft, m: Movement)
  {
    IndexOf(rs, m.reagentId) >= 0 || (m.kind == In && CanCreate(d))
  }

  /** The IN branch. */
  function Receive(rs: seq<Reagent>, d: Draft, m: Movement, freshId: string, now: string): Step
    requires IndexOf(rs, m.reagentId) >= 0 || CanCreate(d)
  {
    var i := IndexOf(rs, m.reagentId);
    if i >= 0 then
      var r := rs[i].(currentStock := rs[i].currentStock + m.quantity, lastUpdated := now, isOrdered := false);
      Step(rs[i := r], r)
    else
      var r := NewReagent(d, OrString(m.reagentId, freshId), m.quantity, now);
      Step(rs + [r], r)
  }

  /** The OUT branch. */
  function Withdraw(rs: seq<Reagent>, m: Movement, now: string): Step
    requires IndexOf(rs, m.reagentId) >= 0
  {
    var i := IndexOf(rs, m.reagentId);
    var r := rs[i].(currentStock := Max(0.0, rs[i].currentStock - m.quantity), lastUpdated := now);
    Step(rs[i := r], r)
  }

  /** The ledger entry of a movement. */
  function Entry(m: Movement, txId: string, final: Reagent, now: string): Transaction
  {
    Transaction(txId, final.id, final.name, m.kind, m.quantity, m.displayQuantity,
                m.displayUnit, m.analyst, now)
  }

  /** The two lists the recorder keeps. */
  datatype Book = Book(reagents: seq<Reagent>, transactions: seq<Transaction>)

  function Apply(rs: seq<Reagent>, d: Draft, m: Movement, freshId: string, now: string): Step
    requires Admissible(rs, d, m)
  {
    if m.kind == In then Receive(rs, d, m, freshId, now) else Withdraw(rs, m, now)
  }

  /** One call of `handleTransaction` on the local state. */
  function Recorded(b: Book, d: Draft, m: Movement, freshId: string, txId: string, now: string): Book
    requires Admissible(b.reagents, d, m)
  {
    var st := Apply(b.reagents, d, m, freshId, now);
    Book(st.reagents, [Entry(m, txId, st.final, now)] + b.transactions)
  }

  // ---------------------------------------------------------------------
  // Invariants of the book

  predicate HasReagent(rs: seq<Reagent>, id: string)
  {
    exists k :: 0 <= k < |rs| && rs[k].id == id
  }

  predicate HasTransaction(ts: seq<Transaction>, id: string)
  {
    exists k :: 0 <= k < |ts| && ts[k].id == id
  }

  ghost predicate DistinctReagentIds(rs: seq<Reagent>)
  {
    forall i, j :: 0 <= i < j < |rs| ==> rs[i].id != rs[j].id
  }

  ghost predicate DistinctTransactionIds(ts: seq<Transaction>)
  {
    forall i, j :: 0 <= i < j < |ts| ==> ts[i].id != ts[j].id
  }

  /** Ids are unique and every ledger entry refers to a reagent of the list. */
  ghost predicate Consistent(b: Book)
  {
    && DistinctReagentIds(b.reagents)
    && DistinctTransactionIds(b.transactions)
    && forall k :: 0 <= k < |b.transactions| ==> HasReagent(b.reagents, b.transactions[k].reagentId)
  }

  predicate StocksNonNegative(rs: seq<Reagent>)
  {
    forall k :: 0 <= k < |rs| ==> rs[k].currentStock >= 0.0
  }

  // ---------------------------------------------------------------------
  // The class: the reagent and transaction lists of the application state

  class Inventory {
    var reagents: seq<Reagent>
    var transactions: seq<Transaction>

    ghost predicate Valid()
      reads this
    {
      Consistent(Book(reagents, transactions))
    }

    constructor ()
      ensures Valid() && reagents == [] && transactions == []
    {
      reagents := [];
      transactions := [];
    }

    /** The IN branch: overwrite the matching reagent by index or push a new one. */
    method RecordIn(d: Draft, m: Movement, freshId: string, now: string) returns (final: Reagent)
      requires m.kind == In && (IndexOf(reagents, m.reagentId) >= 0 || CanCreate(d))
      modifies this
      ensures Step(reagents, final) == Receive(old(reagents), d, m, freshId, now)
      ensures transactions == old(transactions)
    {
      var updated := reagents;
      var idx := FindIndex(updated, m.reagentId);
      if idx > -1 {
        var existing := updated[idx];
        final := existing.(currentStock := existing.currentStock + m.quantity, lastUpdated := now, isOrdered := false);
        updated := updated[idx := final];
      } else {
        var id := if m.reagentId.Some? && m.reagentId.value != "" then m.reagentId.value else freshId;
        final := NewReagent(d, id, m.quantity, now);
        updated := updated + [final];
      }
      reagents := updated;
    }

    /** The OUT branch: overwrite the matching reagent with the clamped stock. */
    method RecordOut(m: Movement, now: string) returns (final: Reagent)
      requires m.kind == Out && IndexOf(reagents, m.reagentId) >= 0
      modifies this
      ensures Step(reagents, final) == Withdraw(old(reagents), m, now)
      ensures transactions == old(transactions)
    {
      var updated := reagents;
      var idx := FindIndex(updated, m.reagentId);
      var existing := updated[idx];
      var stock := existing.currentStock - m.quantity;
      final := existing.(currentStock := if stock > 0.0 then stock else 0.0, lastUpdated := now);
      updated := updated[idx := final];
      reagents := updated;
    }

    /** `handleTransaction`: apply the movement, then prepend its ledger entry.
        `freshId` and `txId` stand for the two `generateId()` calls and `now`
        for `new Date().toISOString()`. */
    method HandleTransaction(d: Draft, m: Movement, freshId: string, txId: string, now: string)
      requires Valid() && Admissible(reagents, d, m)
      requires !HasReagent(reagents, freshId) && !HasTransaction(transactions, txId)
      modifies this
      ensures Book(reagents, transactions) == Recorded(old(Book(reagents, transactions)), d, m, freshId, txId, now)
      ensures Valid()
    {
      ghost var before := Book(reagents, transactions);
      var final: Reagent;
      if m.kind == In {
        final := RecordIn(d, m, freshId, now);
      } else {
        final := RecordOut(m, now);
      }
      var entry := Transaction(txId, final.id, final.name, m.kind, m.quantity,
                               m.displayQuantity, m.displayUnit, m.analyst, now);
      transactions := [entry] + transactions;
      RecordedKeepsConsistent(before, d, m, freshId, txId, now);
    }
  }

  // ---------------------------------------------------------------------
  // Properties of one movement

  /** `IndexOf` looks only at ids. */
  lemma {:induction false} IndexOfSameIds(rs: seq<Reagent>, rs': seq<Reagent>, id: Option<string>)
    requires |rs| == |rs'| && forall k :: 0 <= k < |rs| ==> rs[k].id == rs'[k].id
    ensures IndexOf(rs, id) == IndexOf(rs', id)
  {
    if |rs| > 0 {
      IndexOfSameIds(rs[1..], rs'[1..], id);
    }
  }

  lemma IndexOfAppended(rs: seq<Reagent>, r: Reagent)
    requires IndexOf(rs, Some(r.id)) == -1
    ensures IndexOf(rs + [r], Some(r.id)) == |rs|
  {
    var i := IndexOf(rs + [r], Some(r.id));
    assert forall k :: 0 <= k < |rs| ==> (rs + [r])[k] == rs[k];
    assert (rs + [r])[|rs|] == r;
  }

  /** IN on a listed id adds exactly `quantity` to that reagent, clears its
      ordered flag and leaves the list length and every other reagent alone. */
  lemma ReceiveExisting(rs: seq<Reagent>, d: Draft, m: Movement, freshId: string, now: string)
    requires IndexOf(rs, m.reagentId) >= 0
    ensures var i := IndexOf(rs, m.reagentId);
            var st := Receive(rs, d, m, freshId, now);
            && |st.reagents| == |rs|
            && st.reagents[i] == st.final
            && st.final.id == rs[i].id
            && st.final.currentStock == rs[i].currentStock + m.quantity
            && !st.final.isOrdered
            && st.final.lastUpdated == now
            && st.final == rs[i].(currentStock := st.final.currentStock, isOrdered := false, lastUpdated := now)
            && forall k :: 0 <= k < |rs| && k != i ==> st.reagents[k] == rs[k]
  {
  }

  /** IN on an absent or undefined id appends one reagent holding exactly
      `quantity`. Each optional field keeps the draft's value, unless that
      value is missing, '' or 0; then it takes the default, as `||` does. */
  lemma ReceiveNew(rs: seq<Reagent>, d: Draft, m: Movement, freshId: string, now: string)
    requires IndexOf(rs, m.reagentId) == -1 && CanCreate(d)
    ensures var st := Receive(rs, d, m, freshId, now);
            var r := st.final;
            && st.reagents == rs + [r]
            && r.id == (if m.reagentId.Some? && m.reagentId.value != "" then m.reagentId.value else freshId)
            && (r.id != freshId ==> !HasReagent(rs, r.id))
            && r.currentStock == m.quantity
            && r.name == d.name.value && r.brand == d.brand.value
            && r.department == d.department.value && r.presentation == d.presentation.value
            && (d.minStock.Some? && d.minStock.value != 0.0 ==> r.minStock == d.minStock.value)
            && (d.minStock.None? || d.minStock == Some(0.0) ==> r.minStock == 0.0)
            && (d.baseUnit.Some? && d.baseUnit.value != "" ==> r.baseUnit == d.baseUnit.value)
            && (d.baseUnit.None? || d.baseUnit == Some("") ==> r.baseUnit == "ud")
            && (d.containerType.Some? && d.containerType.value != "" ==> r.containerType == d.containerType.value)
            && (d.containerType.None? || d.containerType == Some("") ==> r.containerType == "Frasco")
            && (d.quantityPerContainer.Some? && d.quantityPerContainer.value != 0.0 ==>
                  r.quantityPerContainer == d.quantityPerContainer.value)
            && (d.quantityPerContainer.None? || d.quantityPerContainer == Some(0.0) ==> r.quantityPerContainer == 1.0)
            && (d.expiryDate.Some? && d.expiryDate.value != "" ==> r.expiryDate == d.expiryDate.value)
            && (d.expiryDate.None? || d.expiryDate == Some("") ==> r.expiryDate == "N/A")
            && r.baseUnit != "" && r.containerType != "" && r.expiryDate != ""
            && r.quantityPerContainer != 0.0
            && !r.isOrdered && r.lastUpdated == now
  {
  }

  /** OUT sets the stock to max(0, stock - quantity): never negative, never
      above the previous stock for a non-negative quantity; the ordered flag and
      every other reagent are unchanged. */
  lemma WithdrawClamps(rs: seq<Reagent>, m: Movement, now: string)
    requires IndexOf(rs, m.reagentId) >= 0
    ensures var i := IndexOf(rs, m.reagentId);
            var st := Withdraw(rs, m, now);
            && |st.reagents| == |rs|
            && st.reagents[i] == st.final
            && st.final.currentStock == Max(0.0, rs[i].currentStock - m.quantity)
            && st.final.currentStock >= 0.0
            && (m.quantity >= 0.0 && rs[i].currentStock >= 0.0 ==> st.final.currentStock <= rs[i].currentStock)
            && (m.quantity <= rs[i].currentStock ==> st.final.currentStock == rs[i].currentStock - m.quantity)
            && st.final == rs[i].(currentStock := st.final.currentStock, lastUpdated := now)
            && forall k :: 0 <= k < |rs| && k != i ==> st.reagents[k] == rs[k]
  {
  }

  /** Every movement prepends exactly one entry, naming the reagent it
      touched; the earlier ledger stays behind it, in order. */
  lemma RecordedPrependsEntry(b: Book, d: Draft, m: Movement, freshId: string, txId: string, now: string)
    requires Admissible(b.reagents, d, m)
    ensures var st := Apply(b.reagents, d, m, freshId, now);
            var after := Recorded(b, d, m, freshId, txId, now);
            && |after.transactions| == |b.transactions| + 1
            && after.transactions[1..] == b.transactions
            && after.transactions[0].id == txId
            && after.transactions[0].reagentId == st.final.id
            && after.transactions[0].reagentName == st.final.name
            && after.transactions[0].kind == m.kind
            && after.transactions[0].quantity == m.quantity
            && after.transactions[0].displayQuantity == m.displayQuantity
            && after.transactions[0].displayUnit == m.displayUnit
            && after.transactions[0].analyst == m.analyst
            && after.transactions[0].timestamp == now
            && HasReagent(after.reagents, after.transactions[0].reagentId)
  {
    var st := Apply(b.reagents, d, m, freshId, now);
    if m.kind == In {
      var i := IndexOf(b.reagents, m.reagentId);
      if i >= 0 {
        assert st.reagents[i] == st.final;
      } else {
        assert st.reagents[|b.reagents|] == st.final;
      }
    } else {
      assert st.reagents[IndexOf(b.reagents, m.reagentId)] == st.final;
    }
  }

  /** A movement keys the ids of the list it returns on the ids it was given:
      every old id is still there, and the only possible new one is the final
      reagent's. */
  lemma ApplyIds(rs: seq<Reagent>, d: Draft, m: Movement, freshId: string, now: string)
    requires Admissible(rs, d, m)
    ensures var st := Apply(rs, d, m, freshId, now);
            && (forall k :: 0 <= k < |rs| ==> st.reagents[k].id == rs[k].id)
            && (|st.reagents| == |rs| || (st.reagents == rs + [st.final] && (st.final.id != freshId ==> !HasReagent(rs, st.final.id))))
            && HasReagent(st.reagents, st.final.id)
            && |rs| <= |st.reagents| <= |rs| + 1
  {
    var st := Apply(rs, d, m, freshId, now);
    var i := IndexOf(rs, m.reagentId);
    if i >= 0 {
      assert st.reagents[i] == st.final;
    } else {
      assert st.reagents[|rs|] == st.final;
      if st.final.id != freshId {
        assert m.reagentId == Some(st.final.id);
      }
    }
  }

  /** With fresh identifiers, a movement keeps ids unique and keeps every
      ledger entry pointing at a listed reagent. */
  lemma RecordedKeepsConsistent(b: Book, d: Draft, m: Movement, freshId: string, txId: string, now: string)
    requires Consistent(b) && Admissible(b.reagents, d, m)
    requires !HasReagent(b.reagents, freshId) && !HasTransaction(b.transactions, txId)
    ensures Consistent(Recorded(b, d, m, freshId, txId, now))
  {
    var st := Apply(b.reagents, d, m, freshId, now);
    var after := Recorded(b, d, m, freshId, txId, now);
    ApplyIds(b.reagents, d, m, freshId, now);
    RecordedPrependsEntry(b, d, m, freshId, txId, now);
    var rs := b.reagents;
    if |st.reagents| != |rs| {
      assert !HasReagent(rs, st.final.id);
      assert forall k :: 0 <= k < |rs| ==> rs[k].id != st.final.id;
    }
    assert DistinctReagentIds(st.reagents);
    forall k | 0 <= k < |after.transactions|
      ensures HasReagent(after.reagents, after.transactions[k].reagentId)
    {
      if k > 0 {
        var t := b.transactions[k - 1];
        assert after.transactions[k] == t;
        var j :| 0 <= j < |rs| && rs[j].id == t.reagentId;
        assert after.reagents[j].id == t.reagentId;
      }
    }
    forall i, j | 0 <= i < j < |after.transactions|
      ensures after.transactions[i].id != after.transactions[j].id
    {
      if i == 0 {
        assert after.transactions[j] == b.transactions[j - 1];
      } else {
        assert after.transactions[i] == b.transactions[i - 1];
        assert after.transactions[j] == b.transactions[j - 1];
      }
    }
  }

  /** Stocks stay non-negative: OUT clamps, IN adds a non-negative quantity. */
  lemma RecordedKeepsStocksNonNegative(b: Book, d: Draft, m: Movement, freshId: string, txId: string, now: string)
    requires StocksNonNegative(b.reagents) && Admissible(b.reagents, d, m)
    requires m.kind == In ==> m.quantity >= 0.0
    ensures StocksNonNegative(Recorded(b, d, m, freshId, txId, now).reagents)
  {
    var st := Apply(b.reagents, d, m, freshId, now);
    forall k | 0 <= k < |st.reagents|
      ensures st.reagents[k].currentStock >= 0.0
    {
      if k < |b.reagents| && k != IndexOf(b.reagents, m.reagentId) {
        assert st.reagents[k] == b.reagents[k];
      }
    }
  }

  // ---------------------------------------------------------------------
  // Repeated IN movements

  function Sum(qs: seq<real>): real
  {
    if |qs| == 0 then 0.0 else qs[0] + Sum(qs[1..])
  }

  /** The stock the list holds under `id`, 0 when no reagent has it. */
  function StockOf(rs: seq<Reagent>, id: string): real
  {
    var i := IndexOf(rs, Some(id));
    if i >= 0 then rs[i].currentStock else 0.0
  }

  /** IN movements of the given quantities on one reagent id, one after another. */
  function ReceiveSeries(b: Book, d: Draft, m: Movement, qs: seq<real>, freshId: string, txId: string, now: string): Book
    requires m.kind == In && CanCreate(d)
    decreases |qs|
  {
    if |qs| == 0 then b
    else ReceiveSeries(Recorded(b, d, m.(quantity := qs[0]), freshId, txId, now), d, m, qs[1..], freshId, txId, now)
  }

  /** One IN movement on a named id raises the stock under that id by its quantity. */
  lemma ReceiveAddsToStockOf(rs: seq<Reagent>, d: Draft, m: Movement, id: string, freshId: string, now: string)
    requires m.kind == In && CanCreate(d) && m.reagentId == Some(id) && id != ""
    ensures var after := Receive(rs, d, m, freshId, now).reagents;
            IndexOf(after, Some(id)) >= 0 && StockOf(after, id) == StockOf(rs, id) + m.quantity
  {
    var st := Receive(rs, d, m, freshId, now);
    var i := IndexOf(rs, Some(id));
    if i >= 0 {
      IndexOfSameIds(rs, st.reagents, Some(id));
    } else {
      IndexOfAppended(rs, st.final);
    }
  }

  /** Repeated IN movements on one id: the final stock under that id is the
      initial stock (0 for a new id) plus the sum of the quantities, and the
      ledger grows by one entry per movement. */
  lemma {:induction false} ReceiveSeriesSums(b: Book, d: Draft, m: Movement, id: string, qs: seq<real>, freshId: string, txId: string, now: string)
    requires m.kind == In && CanCreate(d) && m.reagentId == Some(id) && id != ""
    ensures var after := ReceiveSeries(b, d, m, qs, freshId, txId, now);
            && StockOf(after.reagents, id) == StockOf(b.reagents, id) + Sum(qs)
            && |after.transactions| == |b.transactions| + |qs|
            && (|qs| > 0 ==> IndexOf(after.reagents, Some(id)) >= 0)
    decreases |qs|
  {
    if |qs| > 0 {
      var m0 := m.(quantity := qs[0]);
      var next := Recorded(b, d, m0, freshId, txId, now);
      ReceiveAddsToStockOf(b.reagents, d, m0, id, freshId, now);
      ReceiveSeriesSums(next, d, m, id, qs[1..], freshId, txId, now);
      if |qs| > 1 {
        assert IndexOf(ReceiveSeries(b, d, m, qs, freshId, txId, now).reagents, Some(id)) >= 0;
      } else {
        assert ReceiveSeries(b, d, m, qs, freshId, txId, now) == next;
      }
    }
  }

  /** For a reagent id not yet listed, repeated IN movements leave exactly the
      sum of their quantities in stock. */
  lemma ReceiveSeriesOnNewId(b: Book, d: Draft, m: Movement, id: string, qs: seq<real>, freshId: string, txId: string, now: string)
    requires m.kind == In && CanCreate(d) && m.reagentId == Some(id) && id != ""
    requires !HasReagent(b.reagents, id)
    ensures StockOf(ReceiveSeries(b, d, m, qs, freshId, txId, now).reagents, id) == Sum(qs)
  {
    ReceiveSeriesSums(b, d, m, id, qs, freshId, txId, now);
    assert IndexOf(b.reagents, Some(id)) == -1;
  }
}
