/**
 * The consolidation behind the manager's alert panel (AlertsView.tsx):
 * reagents are grouped by lower-cased name, each group sums the stock of
 * its brands, takes the largest minimum and is ordered if any brand is;
 * the panel lists the groups at or below their minimum that are not ordered.
 */
module Alerts {
  import opened Types
  import Text

  datatype AlertGroup = AlertGroup(
    name: string,
    totalStock: real,
    minStock: real,
    baseUnit: string,
    isOrdered: bool,
    brands: seq<BrandStock>)

  /** The dictionary key of a reagent, `r.name.toLowerCase()`. */
  function Key(r: Reagent): string
  {
    Text.Lower(r.name)
  }

  /** The reagents that share a key, in list order. */
  function Members(rs: seq<Reagent>, key: string): seq<Reagent>
  {
    if |rs| == 0 then []
    else Members(rs[..|rs| - 1], key) + (if Key(rs[|rs| - 1]) == key then [rs[|rs| - 1]] else [])
  }

  /** The entry the loop creates for the first reagent of a key. */
  function Open(r: Reagent): AlertGroup
  {
    AlertGroup(r.name, r.currentStock, r.minStock, r.baseUnit, r.isOrdered, [BrandOf(r)])
  }

  /** The update the loop makes for a later reagent of the same key. */
  function Absorb(g: AlertGroup, r: Reagent): AlertGroup
  {
    g.(totalStock := g.totalStock + r.currentStock,
       brands := g.brands + [BrandOf(r)],
       minStock := Max(g.minStock, r.minStock),
       isOrdered := g.isOrdered || r.isOrdered)
  }

  /** The group the loop builds from the members of one key, in order. */
  function Consolidate(ms: seq<Reagent>): AlertGroup
    requires |ms| > 0
  {
    if |ms| == 1 then Open(ms[0]) else Absorb(Consolidate(ms[..|ms| - 1]), ms[|ms| - 1])
  }

  function BrandTotal(bs: seq<BrandStock>): real
  {
    if |bs| == 0 then 0.0 else BrandTotal(bs[..|bs| - 1]) + bs[|bs| - 1].stock
  }

  /** The alert predicate of the panel. */
  predicate IsLow(g: AlertGroup)
  {
    g.totalStock <= g.minStock && !g.isOrdered
  }

  // ---------------------------------------------------------------------
  // What a group is

  /** A group lists its members' brands in order, and its total is the sum
      of their stock and of its brand entries. */
  lemma {:induction false} ConsolidateTotals(ms: seq<Reagent>)
    requires |ms| > 0
    ensures var g := Consolidate(ms);
            && |g.brands| == |ms|
            && (forall k :: 0 <= k < |ms| ==> g.brands[k] == BrandOf(ms[k]))
            && g.totalStock == TotalStock(ms)
            && g.totalStock == BrandTotal(g.brands)
  {
    var n := |ms|;
    if n == 1 {
      assert TotalStock(ms) == TotalStock(ms[..0]) + ms[0].currentStock;
      assert BrandTotal(Consolidate(ms).brands) == BrandTotal([]) + ms[0].currentStock;
    } else {
      var init := ms[..n - 1];
      ConsolidateTotals(init);
      var g := Consolidate(ms);
      assert g.brands == Consolidate(init).brands + [BrandOf(ms[n - 1])];
      assert g.brands[..n - 1] == Consolidate(init).brands;
    }
  }

  /** A group's minimum is the largest of its members' minimums. */
  lemma {:induction false} ConsolidateMinimum(ms: seq<Reagent>)
    requires |ms| > 0
    ensures forall k :: 0 <= k < |ms| ==> ms[k].minStock <= Consolidate(ms).minStock
    ensures exists k :: 0 <= k < |ms| && Consolidate(ms).minStock == ms[k].minStock
  {
    var n := |ms|;
    if n == 1 {
      assert Consolidate(ms).minStock == ms[0].minStock;
    } else {
      var init := ms[..n - 1];
      ConsolidateMinimum(init);
      var h := Consolidate(init);
      assert Consolidate(ms).minStock == Max(h.minStock, ms[n - 1].minStock);
      assert forall k :: 0 <= k < n - 1 ==> ms[k] == init[k];
      if h.minStock >= ms[n - 1].minStock {
        var k :| 0 <= k < n - 1 && h.minStock == init[k].minStock;
        assert Consolidate(ms).minStock == ms[k].minStock;
      }
    }
  }

  /** A group is ordered iff one of its members is. */
  lemma {:induction false} ConsolidateOrdered(ms: seq<Reagent>)
    requires |ms| > 0
    ensures Consolidate(ms).isOrdered <==> exists k :: 0 <= k < |ms| && ms[k].isOrdered
  {
    var n := |ms|;
    if n > 1 {
      var init := ms[..n - 1];
      ConsolidateOrdered(init);
      assert Consolidate(ms).isOrdered == (Consolidate(init).isOrdered || ms[n - 1].isOrdered);
      assert forall k :: 0 <= k < n - 1 ==> ms[k] == init[k];
    }
  }

  /** A group's display name and base unit are those of its first member. */
  lemma {:induction false} ConsolidateFirst(ms: seq<Reagent>)
    requires |ms| > 0
    ensures Consolidate(ms).name == ms[0].name && Consolidate(ms).baseUnit == ms[0].baseUnit
  {
    if |ms| > 1 {
      ConsolidateFirst(ms[..|ms| - 1]);
    }
  }

  /** Each reagent of the list is a member of exactly the group of its own key. */
  lemma {:induction false} MembersExactly(rs: seq<Reagent>, key: string)
    ensures forall r :: r in Members(rs, key) <==> r in rs && Key(r) == key
    ensures |Members(rs, key)| > 0 <==> exists k :: 0 <= k < |rs| && Key(rs[k]) == key
  {
    if |rs| > 0 {
      var init := rs[..|rs| - 1];
      MembersExactly(init, key);
      SplitLast(rs);
      assert forall k :: 0 <= k < |init| ==> init[k] == rs[k];
    }
  }

  /** Appending a reagent adds it to the members of its own key only. */
  lemma {:induction false} MembersStep(rs: seq<Reagent>, r: Reagent, key: string)
    ensures Members(rs + [r], key) == Members(rs, key) + (if Key(r) == key then [r] else [])
  {
    AppendPrefix(rs, r);
  }

  lemma ConsolidateStep(ms: seq<Reagent>, r: Reagent)
    requires |ms| > 0
    ensures Consolidate(ms + [r]) == Absorb(Consolidate(ms), r)
  {
    AppendPrefix(ms, r);
  }

  /** The group of a key, for a key some reagent has. */
  function Group(rs: seq<Reagent>, key: string): AlertGroup
    requires |Members(rs, key)| > 0
  {
    Consolidate(Members(rs, key))
  }

  /** The alert predicate in terms of the members: their stock adds up to no
      more than the largest of their minimums, and none of them is ordered. */
  lemma LowIffUnderLargestMinimum(ms: seq<Reagent>)
    requires |ms| > 0
    ensures IsLow(Consolidate(ms)) <==>
              (exists k :: 0 <= k < |ms| && TotalStock(ms) <= ms[k].minStock)
              && forall k :: 0 <= k < |ms| ==> !ms[k].isOrdered
  {
    ConsolidateTotals(ms);
    ConsolidateMinimum(ms);
    ConsolidateOrdered(ms);
  }

  /** `Object.values(consolidated).filter(c => c.totalStock <= c.minStock && !c.isOrdered)` */
  function LowOnly(gs: seq<AlertGroup>): (r: seq<AlertGroup>)
    ensures forall g :: g in r <==> g in gs && IsLow(g)
    ensures |r| <= |gs|
  {
    if |gs| == 0 then []
    else (if IsLow(gs[0]) then [gs[0]] else []) + LowOnly(gs[1..])
  }

  ghost predicate DistinctNames(gs: seq<AlertGroup>)
  {
    forall i, j :: 0 <= i < j < |gs| ==> Text.Lower(gs[i].name) != Text.Lower(gs[j].name)
  }

  lemma {:induction false} LowOnlyDistinct(gs: seq<AlertGroup>)
    requires DistinctNames(gs)
    ensures DistinctNames(LowOnly(gs))
  {
    if |gs| > 0 {
      var tail := gs[1..];
      forall i, j | 0 <= i < j < |tail|
        ensures Text.Lower(tail[i].name) != Text.Lower(tail[j].name)
      {
        assert tail[i] == gs[i + 1] && tail[j] == gs[j + 1];
      }
      LowOnlyDistinct(tail);
      var rest := LowOnly(tail);
      var r := LowOnly(gs);
      if IsLow(gs[0]) {
        assert r == [gs[0]] + rest;
        forall i, j | 0 <= i < j < |r|
          ensures Text.Lower(r[i].name) != Text.Lower(r[j].name)
        {
          assert r[j] == rest[j - 1];
          if i == 0 {
            assert r[j] in tail;
            var t :| 0 <= t < |tail| && tail[t] == r[j];
            assert r[j] == gs[t + 1];
          } else {
            assert r[i] == rest[i - 1];
          }
        }
      } else {
        assert r == rest;
      }
    }
  }

  /** The dictionary `m` holds, for every key of `rs`, the group of that key. */
  ghost predicate Summarises(rs: seq<Reagent>, m: map<string, AlertGroup>)
  {
    && (forall key :: key in m ==> |Members(rs, key)| > 0 && m[key] == Group(rs, key))
    && (forall key :: |Members(rs, key)| > 0 ==> key in m)
  }

  /** One turn of the `forEach`: open a new entry or absorb into the existing one. */
  function Fold(m: map<string, AlertGroup>, r: Reagent): (m': map<string, AlertGroup>)
    ensures Key(r) in m' && m'.Keys == m.Keys + {Key(r)}
  {
    var key := Key(r);
    if key in m then m[key := Absorb(m[key], r)] else m[key := Open(r)]
  }

  lemma FoldSummarises(rs: seq<Reagent>, r: Reagent, m: map<string, AlertGroup>)
    requires Summarises(rs, m)
    ensures Summarises(rs + [r], Fold(m, r))
  {
    var m' := Fold(m, r);
    forall key
      ensures key in m' ==> |Members(rs + [r], key)| > 0 && m'[key] == Group(rs + [r], key)
      ensures |Members(rs + [r], key)| > 0 ==> key in m'
    {
      MembersStep(rs, r, key);
      if key == Key(r) {
        if key in m {
          ConsolidateStep(Members(rs, key), r);
        } else {
          assert Members(rs, key) == [];
          assert Members(rs + [r], key) == [r];
        }
      } else if key in m {
        assert m'[key] == m[key];
        assert Members(rs + [r], key) == Members(rs, key);
      }
    }
  }

  /** The `forEach` of `alertsData`: one pass over the reagents filling the
      `consolidated` dictionary; `order` lists its keys as they were added. */
  method ConsolidateAll(rs: seq<Reagent>) returns (consolidated: map<string, AlertGroup>, order: seq<string>)
    ensures Summarises(rs, consolidated)
    ensures forall j :: 0 <= j < |order| ==> order[j] in consolidated
    ensures forall key :: key in consolidated ==> key in order
    ensures forall j, j' :: 0 <= j < j' < |order| ==> order[j] != order[j']
  {
    consolidated := map[];
    order := [];
    var i := 0;
    while i < |rs|
      invariant 0 <= i <= |rs|
      invariant Summarises(rs[..i], consolidated)
      invariant forall j :: 0 <= j < |order| ==> order[j] in consolidated
      invariant forall key :: key in consolidated ==> key in order
      invariant forall j, j' :: 0 <= j < j' < |order| ==> order[j] != order[j']
    {
      var r := rs[i];
      var key := Text.Lower(r.name);
      PrefixStep(rs, i);
      FoldSummarises(rs[..i], r, consolidated);
      if key !in consolidated {
        order := order + [key];
      }
      consolidated := Fold(consolidated, r);
      i := i + 1;
    }
    assert rs[..|rs|] == rs;
  }

  /** `alertsData`: consolidate, then keep the low groups. The result holds
      exactly the low groups, one per lower-cased name. */
  method LowStock(rs: seq<Reagent>) returns (lowStock: seq<AlertGroup>)
    ensures forall g :: g in lowStock ==>
              IsLow(g) && exists k :: 0 <= k < |rs| && |Members(rs, Key(rs[k]))| > 0 && g == Group(rs, Key(rs[k]))
    ensures forall k :: 0 <= k < |rs| ==>
              |Members(rs, Key(rs[k]))| > 0 && (IsLow(Group(rs, Key(rs[k]))) ==> Group(rs, Key(rs[k])) in lowStock)
    ensures DistinctNames(lowStock)
  {
    var consolidated, order := ConsolidateAll(rs);
    var values := ValuesInOrder(consolidated, order);
    ValuesAreGroups(rs, consolidated, order);
    LowOnlyDistinct(values);
    lowStock := LowOnly(values);
    forall k | 0 <= k < |rs|
      ensures |Members(rs, Key(rs[k]))| > 0 && (IsLow(Group(rs, Key(rs[k]))) ==> Group(rs, Key(rs[k])) in lowStock)
    {
      GroupListed(rs, consolidated, order, k);
    }
  }

  /** Read out in key order, the dictionary gives the group of each key,
      under that key's name. */
  lemma ValuesAreGroups(rs: seq<Reagent>, consolidated: map<string, AlertGroup>, order: seq<string>)
    requires Summarises(rs, consolidated)
    requires forall j :: 0 <= j < |order| ==> order[j] in consolidated
    requires forall j, j' :: 0 <= j < j' < |order| ==> order[j] != order[j']
    ensures DistinctNames(ValuesInOrder(consolidated, order))
    ensures forall g :: g in ValuesInOrder(consolidated, order) ==>
              exists k :: 0 <= k < |rs| && |Members(rs, Key(rs[k]))| > 0 && g == Group(rs, Key(rs[k]))
  {
    var values := ValuesInOrder(consolidated, order);
    forall j | 0 <= j < |values|
      ensures Text.Lower(values[j].name) == order[j]
    {
      var ms := Members(rs, order[j]);
      ConsolidateFirst(ms);
      MembersExactly(rs, order[j]);
      assert ms[0] in ms;
    }
    forall g | g in values
      ensures exists k :: 0 <= k < |rs| && |Members(rs, Key(rs[k]))| > 0 && g == Group(rs, Key(rs[k]))
    {
      var j :| 0 <= j < |values| && values[j] == g;
      MembersExactly(rs, order[j]);
      var k :| 0 <= k < |rs| && Key(rs[k]) == order[j];
      assert g == Group(rs, Key(rs[k]));
    }
    forall i, j | 0 <= i < j < |values|
      ensures Text.Lower(values[i].name) != Text.Lower(values[j].name)
    {
    }
  }

  /** The group of any reagent's key is in the read-out, hence listed when low. */
  lemma GroupListed(rs: seq<Reagent>, consolidated: map<string, AlertGroup>, order: seq<string>, k: nat)
    requires k < |rs|
    requires Summarises(rs, consolidated)
    requires forall j :: 0 <= j < |order| ==> order[j] in consolidated
    requires forall key :: key in consolidated ==> key in order
    ensures |Members(rs, Key(rs[k]))| > 0
    ensures IsLow(Group(rs, Key(rs[k]))) ==> Group(rs, Key(rs[k])) in LowOnly(ValuesInOrder(consolidated, order))
  {
    var key := Key(rs[k]);
    MembersExactly(rs, key);
    assert key in consolidated;
    var j :| 0 <= j < |order| && order[j] == key;
    assert ValuesInOrder(consolidated, order)[j] == Group(rs, key);
  }

  // ---------------------------------------------------------------------
  // The dictionary as written: a plain object literal

  /** The lower-case names a plain `{}` already answers through its
      prototype: `consolidated[key]` is then truthy but is not an entry. */
  const InheritedKeys: set<string> := {"constructor", "__proto__"}

  /** Either the `forEach` threw, or it filled the dictionary. */
  datatype Outcome = Threw | Filled(m: map<string, AlertGroup>)

  /** The `forEach` on a plain object: a key that the prototype answers takes
      the update branch, where `brands` is undefined and `push` throws. */
  function FillAsWritten(rs: seq<Reagent>): (o: Outcome)
    ensures o.Filled? ==> forall key :: key in o.m ==> key !in InheritedKeys
  {
    if |rs| == 0 then Filled(map[])
    else
      match FillAsWritten(rs[..|rs| - 1])
      case Threw => Threw
      case Filled(m) =>
        var r := rs[|rs| - 1];
        var key := Key(r);
        if key in m then Filled(m[key := Absorb(m[key], r)])
        else if key in InheritedKeys then Threw
        else Filled(m[key := Open(r)])
  }

  /** One reagent whose name folds to an inherited key makes the whole view
      throw. */
  lemma {:induction false} FillAsWrittenThrows(rs: seq<Reagent>, k: nat)
    requires k < |rs| && Key(rs[k]) in InheritedKeys
    ensures FillAsWritten(rs) == Threw
  {
    var init := rs[..|rs| - 1];
    if k < |rs| - 1 {
      assert init[k] == rs[k];
      FillAsWrittenThrows(init, k);
    } else {
      assert Key(rs[|rs| - 1]) in InheritedKeys;
    }
  }

  /** Without such names the plain object behaves as the dictionary of
      `ConsolidateAll`. */
  lemma {:induction false} FillAsWrittenAgrees(rs: seq<Reagent>)
    requires forall k :: 0 <= k < |rs| ==> Key(rs[k]) !in InheritedKeys
    ensures FillAsWritten(rs).Filled? && Summarises(rs, FillAsWritten(rs).m)
  {
    if |rs| > 0 {
      var init := rs[..|rs| - 1];
      var r := rs[|rs| - 1];
      assert forall k :: 0 <= k < |init| ==> init[k] == rs[k];
      FillAsWrittenAgrees(init);
      SplitLast(rs);
      FoldSummarises(init, r, FillAsWritten(init).m);
      assert FillAsWritten(rs).m == Fold(FillAsWritten(init).m, r);
    }
  }

  // Three small facts about the spelling of "Constructor". They are kept as
  // separate lemmas so that each proof stays small.

  lemma ConstructorTail()
    ensures Text.Lower("onstructor") == "onstructor"
  {
    Text.LowerFixed("onstructor");
  }

  lemma ConstructorHead()
    ensures Text.Lower("Constructor") == [Text.LowerChar('C')] + Text.Lower("onstructor")
  {
    assert "Constructor"[1..] == "onstructor";
  }

  lemma ConstructorSpelling()
    ensures ['c'] + "onstructor" == "constructor"
  {
  }

  /** "Constructor" folds to the inherited key 'constructor'. */
  lemma ConstructorKey()
    ensures Text.Lower("Constructor") == "constructor"
  {
    ConstructorTail();
    ConstructorHead();
    assert Text.LowerChar('C') == 'c';
    ConstructorSpelling();
  }

  /** A reagent named "Constructor": the alert panel cannot be computed. */
  lemma ConstructorThrows(r: Reagent)
    requires r.name == "Constructor"
    ensures FillAsWritten([r]) == Threw
  {
    ConstructorKey();
    assert Key(r) in InheritedKeys;
    FillAsWrittenThrows([r], 0);
  }
}
