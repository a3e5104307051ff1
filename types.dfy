/**
 * The records shared by the whole inventory: reagents, ledger entries and
 * the closed vocabularies (presentation, department, movement type).
 * Stock quantities are JavaScript numbers in the source; here they are
 * `real`, always expressed in the reagent's base unit.
 */
module Types {

  datatype Option<+T> = None | Some(value: T)

  /** 'Líquido' | 'Sólido' | 'Paquete' */
  datatype Presentation = Liquid | Solid | Package

  /** 'Fisicoquímico' | 'Microbiología' | 'Molecular' */
  datatype Department = Physicochemical | Microbiology | Molecular

  /** 'IN' | 'OUT' */
  datatype TransactionType = In | Out

  /** The marker the source stores in `expiryDate` when a reagent has none. */
  const NoExpiry: string := "N/A"

  datatype Reagent = Reagent(
    id: string,
    name: string,
    brand: string,
    presentation: Presentation,
    currentStock: real,          // total, in baseUnit
    minStock: real,              // total, in baseUnit
    department: Department,
    baseUnit: string,
    containerType: string,
    quantityPerContainer: real,
    expiryDate: string,          // ISO date or "N/A"
    isOrdered: bool,
    lastUpdated: string)         // ISO timestamp

  datatype Transaction = Transaction(
    id: string,
    reagentId: string,
    reagentName: string,
    kind: TransactionType,
    quantity: real,              // in the reagent's base unit
    displayQuantity: real,       // as entered (e.g. 10 bottles)
    displayUnit: string,         // as entered (e.g. 'Frascos')
    analyst: string,
    timestamp: string)

  /** Sum of `currentStock` over a list of reagents. */
  function TotalStock(rs: seq<Reagent>): real
  {
    if |rs| == 0 then 0.0 else TotalStock(rs[..|rs| - 1]) + rs[|rs| - 1].currentStock
  }

  function Max(a: real, b: real): real
  {
    if a >= b then a else b
  }

  /** `reagents.find(r => r.id === id)`: the first reagent with that id. */
  function FindById(rs: seq<Reagent>, id: string): (r: Option<Reagent>)
    ensures r.None? <==> forall k :: 0 <= k < |rs| ==> rs[k].id != id
    ensures r.Some? ==> exists k :: 0 <= k < |rs| && rs[k] == r.value
                              && rs[k].id == id
                              && forall j :: 0 <= j < k ==> rs[j].id != id
  {
    if |rs| == 0 then None
    else if rs[0].id == id then Some(rs[0])
    else
      var r := FindById(rs[1..], id);
      assert forall k :: 1 <= k < |rs| ==> rs[k] == rs[1..][k - 1];
      if r.Some? then
        var k :| 0 <= k < |rs[1..]| && rs[1..][k] == r.value && rs[1..][k].id == id
                 && forall j :: 0 <= j < k ==> rs[1..][j].id != id;
        assert rs[k + 1] == r.value && forall j :: 0 <= j < k + 1 ==> rs[j].id != id;
        r
      else r
  }

  /** One brand line of a consolidated view: `{ brand, stock, id }`. */
  datatype BrandStock = BrandStock(brand: string, stock: real, id: string)

  function BrandOf(r: Reagent): BrandStock
  {
    BrandStock(r.brand, r.currentStock, r.id)
  }

  /** `Object.values` of a dictionary whose keys were inserted in the order
      `keys` lists them. */
  function ValuesInOrder<K, V>(m: map<K, V>, keys: seq<K>): (r: seq<V>)
    requires forall j :: 0 <= j < |keys| ==> keys[j] in m
    ensures |r| == |keys| && forall j :: 0 <= j < |keys| ==> r[j] == m[keys[j]]
  {
    seq(|keys|, j requires 0 <= j < |keys| => m[keys[j]])
  }

  /** A non-empty sequence is its front followed by its last element. */
  lemma SplitLast<T>(s: seq<T>)
    requires |s| > 0
    ensures s == s[..|s| - 1] + [s[|s| - 1]]
  {
  }

  /** Extending a prefix by one element. */
  lemma PrefixStep<T>(s: seq<T>, i: nat)
    requires i < |s|
    ensures s[..i + 1] == s[..i] + [s[i]]
    ensures s[..i + 1][..i] == s[..i]
  {
  }

  /** Appending an element keeps the old sequence as a prefix. */
  lemma AppendPrefix<T>(s: seq<T>, x: T)
    ensures (s + [x])[..|s|] == s
  {
  }
}
