/**
 * The consolidated inventory table (InventoryView.tsx): reagents are
 * grouped by lower-cased name and department; a group sums the stock of its
 * brands, keeps the largest minimum, the earliest real expiry date and the
 * latest update; the table then shows the groups that match the search text
 * and the department filter.
 */
module Catalog {
  import opened Types
  import Text

  datatype InventoryGroup = InventoryGroup(
    name: string,
    department: Department,
    presentation: Presentation,
    totalStock: real,
    minStock: real,
    baseUnit: string,
    containerType: string,
    quantityPerContainer: real,
    expiryDate: string,
    lastUpdated: string,
    brands: seq<BrandStock>)

  /** The department's label as the source spells it. */
  function DeptLabel(d: Department): string
  {
    match d
    case Physicochemical => "Fisicoquímico"
    case Microbiology => "Microbiología"
    case Molecular => "Molecular"
  }

  /** The dictionary key `${r.name.toLowerCase()}-${r.department}`. */
  function GroupKey(r: Reagent): string
  {
    Text.Lower(r.name) + "-" + DeptLabel(r.department)
  }

  /** The string key identifies exactly the pair (folded name, department):
      no two departments' labels can end a key in the same way. */
  lemma GroupKeyInjective(a: Reagent, b: Reagent)
    ensures GroupKey(a) == GroupKey(b) <==>
              Text.Lower(a.name) == Text.Lower(b.name) && a.department == b.department
  {
    var ka, kb := GroupKey(a), GroupKey(b);
    if ka == kb {
      var la, lb := DeptLabel(a.department), DeptLabel(b.department);
      assert ka[|ka| - 1] == la[|la| - 1] && kb[|kb| - 1] == lb[|lb| - 1];
      assert a.department == b.department;
      var n := |Text.Lower(a.name)|;
      assert ka[..n] == Text.Lower(a.name) && kb[..n] == Text.Lower(b.name);
    }
  }

  /** The reagents of one key, in list order. */
  function Members(rs: seq<Reagent>, key: string): seq<Reagent>
  {
    if |rs| == 0 then []
    else Members(rs[..|rs| - 1], key) + (if GroupKey(rs[|rs| - 1]) == key then [rs[|rs| - 1]] else [])
  }

  /** The entry the loop creates for the first reagent of a key. */
  function Open(r: Reagent): InventoryGroup
  {
    InventoryGroup(r.name, r.department, r.presentation, r.currentStock, r.minStock,
                   r.baseUnit, r.containerType, r.quantityPerContainer,
                   r.expiryDate, r.lastUpdated, [BrandOf(r)])
  }

  /** The expiry kept when a reagent joins a group: a real date replaces
      "N/A" or a later date. */
  function EarlierExpiry(kept: string, e: string): string
  {
    if e != NoExpiry && (kept == NoExpiry || Text.Less(e, kept)) then e else kept
  }

  function LaterUpdate(kept: string, u: string): string
  {
    if Text.Less(kept, u) then u else kept
  }

  /** The update the loop makes for a later reagent of the same key. */
  function Absorb(g: InventoryGroup, r: Reagent): InventoryGroup
  {
    g.(totalStock := g.totalStock + r.currentStock,
       brands := g.brands + [BrandOf(r)],
       expiryDate := EarlierExpiry(g.expiryDate, r.expiryDate),
       lastUpdated := LaterUpdate(g.lastUpdated, r.lastUpdated),
       minStock := Max(g.minStock, r.minStock))
  }

  function Consolidate(ms: seq<Reagent>): InventoryGroup
    requires |ms| > 0
  {
    if |ms| == 1 then Open(ms[0]) else Absorb(Consolidate(ms[..|ms| - 1]), ms[|ms| - 1])
  }

  function Group(rs: seq<Reagent>, key: string): InventoryGroup
    requires |Members(rs, key)| > 0
  {
    Consolidate(Members(rs, key))
  }

  /** The row's warning, `group.totalStock <= group.minStock`. */
  predicate IsLow(g: InventoryGroup)
  {
    g.totalStock <= g.minStock
  }

  // ---------------------------------------------------------------------
  // What a group is

  lemma {:induction false} ConsolidateTotals(ms: seq<Reagent>)
    requires |ms| > 0
    ensures var g := Consolidate(ms);
            && |g.brands| == |ms|
            && (forall k :: 0 <= k < |ms| ==> g.brands[k] == BrandOf(ms[k]))
            && g.totalStock == TotalStock(ms)
  {
    var n := |ms|;
    if n == 1 {
      assert TotalStock(ms) == TotalStock(ms[..0]) + ms[0].currentStock;
    } else {
      var init := ms[..n - 1];
      ConsolidateTotals(init);
      var g := Consolidate(ms);
      assert g.brands == Consolidate(init).brands + [BrandOf(ms[n - 1])];
      assert g.brands[..n - 1] == Consolidate(init).brands;
    }
  }

  lemma {:induction false} ConsolidateMinimum(ms: seq<Reagent>)
    requires |ms| > 0
    ensures forall k :: 0 <= k < |ms| ==> ms[k].minStock <= Consolidate(ms).minStock
    ensures exists k :: 0 <= k < |ms| && Consolidate(ms).minStock == ms[k].minStock
  {
    var n := |ms|;
    if n == 1 {
      assert Consolidate(ms).minStock == ms[0].minStock;
    } else {
      var init := ms[..n - 1];
      ConsolidateMinimum(init);
      var h := Consolidate(init);
      assert Consolidate(ms).minStock == Max(h.minStock, ms[n - 1].minStock);
      assert forall k :: 0 <= k < n - 1 ==> ms[k] == init[k];
      if h.minStock >= ms[n - 1].minStock {
        var k :| 0 <= k < n - 1 && h.minStock == init[k].minStock;
        assert Consolidate(ms).minStock == ms[k].minStock;
      }
    }
  }

  /** The row's low flag, in terms of the members: their stock adds up to no
      more than the largest of their minimums. */
  lemma LowIffUnderLargestMinimum(ms: seq<Reagent>)
    requires |ms| > 0
    ensures IsLow(Consolidate(ms)) <==> exists k :: 0 <= k < |ms| && TotalStock(ms) <= ms[k].minStock
  {
    ConsolidateTotals(ms);
    ConsolidateMinimum(ms);
  }

  /** The shown expiry is one of the members' dates; it is "N/A" only when
      every member has none, and otherwise no member expires earlier. */
  lemma {:induction false} ExpiryIsMembers(ms: seq<Reagent>)
    requires |ms| > 0
    ensures exists k :: 0 <= k < |ms| && ms[k].expiryDate == Consolidate(ms).expiryDate
  {
    var n := |ms|;
    if n == 1 {
      assert Consolidate(ms).expiryDate == ms[0].expiryDate;
    } else {
      var init := ms[..n - 1];
      ExpiryIsMembers(init);
      var e0 := Consolidate(init).expiryDate;
      EarlierExpiryStep(e0, ms[n - 1].expiryDate);
      if Consolidate(ms).expiryDate == e0 {
        var w :| 0 <= w < n - 1 && init[w].expiryDate == e0;
        assert ms[w].expiryDate == init[w].expiryDate;
      }
    }
  }

  /** The shown expiry is "N/A" exactly when no member has a date. */
  lemma {:induction false} ExpiryNoneIff(ms: seq<Reagent>)
    requires |ms| > 0
    ensures Consolidate(ms).expiryDate == NoExpiry <==> forall k :: 0 <= k < |ms| ==> ms[k].expiryDate == NoExpiry
  {
    var n := |ms|;
    if n == 1 {
      assert Consolidate(ms).expiryDate == ms[0].expiryDate;
    } else {
      var init := ms[..n - 1];
      ExpiryNoneIff(init);
      EarlierExpiryStep(Consolidate(init).expiryDate, ms[n - 1].expiryDate);
      forall k | 0 <= k < n - 1
        ensures ms[k].expiryDate == init[k].expiryDate
      {
      }
    }
  }

  /** No member expires before the shown date. */
  lemma {:induction false} ExpiryEarliest(ms: seq<Reagent>)
    requires |ms| > 0
    ensures forall k :: 0 <= k < |ms| && ms[k].expiryDate != NoExpiry ==>
              Text.LessEq(Consolidate(ms).expiryDate, ms[k].expiryDate)
  {
    var n := |ms|;
    if n == 1 {
      assert Consolidate(ms).expiryDate == ms[0].expiryDate;
    } else {
      var init := ms[..n - 1];
      ExpiryEarliest(init);
      ExpiryNoneIff(init);
      var e0 := Consolidate(init).expiryDate;
      var d := ms[n - 1].expiryDate;
      EarlierExpiryStep(e0, d);
      forall k | 0 <= k < n && ms[k].expiryDate != NoExpiry
        ensures Text.LessEq(Consolidate(ms).expiryDate, ms[k].expiryDate)
      {
        if k < n - 1 {
          assert ms[k].expiryDate == init[k].expiryDate;
          EarlierExpiryBelow(e0, d, ms[k].expiryDate);
        }
      }
    }
  }

  /** One step of the expiry fold: the kept date is one of the two, "N/A"
      only when both are, and never later than a real new date. */
  lemma EarlierExpiryStep(kept: string, e: string)
    ensures EarlierExpiry(kept, e) == kept || EarlierExpiry(kept, e) == e
    ensures EarlierExpiry(kept, e) == NoExpiry <==> kept == NoExpiry && e == NoExpiry
    ensures e != NoExpiry ==> Text.LessEq(EarlierExpiry(kept, e), e)
  {
    if e != NoExpiry && !(kept == NoExpiry || Text.Less(e, kept)) {
      Text.NotLessIsLessEq(kept, e);
    }
  }

  /** A real date no earlier than the kept one is no earlier than the new
      kept one. */
  lemma EarlierExpiryBelow(kept: string, e: string, x: string)
    requires kept != NoExpiry && Text.LessEq(kept, x)
    ensures Text.LessEq(EarlierExpiry(kept, e), x)
  {
    if e != NoExpiry && (kept == NoExpiry || Text.Less(e, kept)) {
      Text.LessEqTransitive(e, kept, x);
    }
  }

  /** The shown update is one of the members' and none is later. */
  lemma {:induction false} ConsolidateUpdated(ms: seq<Reagent>)
    requires |ms| > 0
    ensures var u := Consolidate(ms).lastUpdated;
            && (exists k :: 0 <= k < |ms| && ms[k].lastUpdated == u)
            && (forall k :: 0 <= k < |ms| ==> Text.LessEq(ms[k].lastUpdated, u))
  {
    var n := |ms|;
    if n == 1 {
      assert Consolidate(ms).lastUpdated == ms[0].lastUpdated;
    } else {
      var init := ms[..n - 1];
      ConsolidateUpdated(init);
      assert forall k :: 0 <= k < n - 1 ==> ms[k] == init[k];
      var u0 := Consolidate(init).lastUpdated;
      var t := ms[n - 1].lastUpdated;
      var u := Consolidate(ms).lastUpdated;
      assert u == LaterUpdate(u0, t);
      if Text.Less(u0, t) {
        forall k | 0 <= k < n - 1
          ensures Text.LessEq(ms[k].lastUpdated, u)
        {
          Text.LessEqTransitive(ms[k].lastUpdated, u0, t);
        }
      } else {
        Text.NotLessIsLessEq(t, u0);
      }
    }
  }

  /** Name, department, presentation, unit and container come from the
      first member. */
  lemma {:induction false} ConsolidateFirst(ms: seq<Reagent>)
    requires |ms| > 0
    ensures var g := Consolidate(ms);
            && g.name == ms[0].name && g.department == ms[0].department
            && g.presentation == ms[0].presentation && g.baseUnit == ms[0].baseUnit
            && g.containerType == ms[0].containerType
            && g.quantityPerContainer == ms[0].quantityPerContainer
  {
    if |ms| > 1 {
      ConsolidateFirst(ms[..|ms| - 1]);
    }
  }

  lemma {:induction false} MembersExactly(rs: seq<Reagent>, key: string)
    ensures forall r :: r in Members(rs, key) <==> r in rs && GroupKey(r) == key
    ensures |Members(rs, key)| > 0 <==> exists k :: 0 <= k < |rs| && GroupKey(rs[k]) == key
  {
    if |rs| > 0 {
      var init := rs[..|rs| - 1];
      MembersExactly(init, key);
      SplitLast(rs);
      assert forall k :: 0 <= k < |init| ==> init[k] == rs[k];
    }
  }

  lemma MembersStep(rs: seq<Reagent>, r: Reagent, key: string)
    ensures Members(rs + [r], key) == Members(rs, key) + (if GroupKey(r) == key then [r] else [])
  {
    AppendPrefix(rs, r);
  }

  lemma ConsolidateStep(ms: seq<Reagent>, r: Reagent)
    requires |ms| > 0
    ensures Consolidate(ms + [r]) == Absorb(Consolidate(ms), r)
  {
    AppendPrefix(ms, r);
  }

  // ---------------------------------------------------------------------
  // The table: one group per key, in order of first appearance

  /** The keys in the order the `forEach` first meets them; since every key
      ends in a department label it is never an integer-like property name,
      so this is also the order of `Object.values`. */
  function Keys(rs: seq<Reagent>): seq<string>
  {
    if |rs| == 0 then []
    else
      var ks := Keys(rs[..|rs| - 1]);
      var key := GroupKey(rs[|rs| - 1]);
      if key in ks then ks else ks + [key]
  }

  lemma {:induction false} KeysExactly(rs: seq<Reagent>)
    ensures forall key :: key in Keys(rs) <==> |Members(rs, key)| > 0
    ensures forall j, j' :: 0 <= j < j' < |Keys(rs)| ==> Keys(rs)[j] != Keys(rs)[j']
  {
    if |rs| > 0 {
      var init := rs[..|rs| - 1];
      var r := rs[|rs| - 1];
      KeysExactly(init);
      SplitLast(rs);
      forall key ensures key in Keys(rs) <==> |Members(rs, key)| > 0 {
        MembersStep(init, r, key);
      }
    }
  }

  /** The consolidated table before filtering. */
  function Grouped(rs: seq<Reagent>): (gs: seq<InventoryGroup>)
    ensures |gs| == |Keys(rs)|
    ensures forall j :: 0 <= j < |gs| ==>
              |Members(rs, Keys(rs)[j])| > 0 && gs[j] == Group(rs, Keys(rs)[j])
  {
    KeysExactly(rs);
    var ks := Keys(rs);
    seq(|ks|, j requires 0 <= j < |ks| => Group(rs, ks[j]))
  }

  /** Every reagent is listed, as a brand line, in the group of its key. */
  lemma EveryReagentListed(rs: seq<Reagent>, k: nat)
    requires k < |rs|
    ensures exists j :: 0 <= j < |Grouped(rs)| && BrandOf(rs[k]) in Grouped(rs)[j].brands
                        && GroupKey(rs[k]) == Keys(rs)[j]
  {
    var key := GroupKey(rs[k]);
    MembersExactly(rs, key);
    KeysExactly(rs);
    var j :| 0 <= j < |Keys(rs)| && Keys(rs)[j] == key;
    var ms := Members(rs, key);
    assert rs[k] in ms;
    var i :| 0 <= i < |ms| && ms[i] == rs[k];
    ConsolidateTotals(ms);
    assert Grouped(rs)[j].brands[i] == BrandOf(rs[k]);
  }

  function GroupTotal(gs: seq<InventoryGroup>): real
  {
    if |gs| == 0 then 0.0 else GroupTotal(gs[..|gs| - 1]) + gs[|gs| - 1].totalStock
  }

  lemma {:induction false} GroupTotalUpdate(gs: seq<InventoryGroup>, j: nat, g: InventoryGroup)
    requires j < |gs|
    ensures GroupTotal(gs[j := g]) == GroupTotal(gs) - gs[j].totalStock + g.totalStock
  {
    var n := |gs|;
    var hs := gs[j := g];
    if j < n - 1 {
      assert hs[..n - 1] == gs[..n - 1][j := g];
      GroupTotalUpdate(gs[..n - 1], j, g);
    } else {
      assert hs[..n - 1] == gs[..n - 1];
    }
  }

  /** A reagent of a key already listed is absorbed by that key's group. */
  lemma GroupedAbsorbs(rs: seq<Reagent>, r: Reagent, j: nat)
    requires j < |Keys(rs)| && Keys(rs)[j] == GroupKey(r)
    ensures Grouped(rs + [r]) == Grouped(rs)[j := Absorb(Grouped(rs)[j], r)]
  {
    var rs' := rs + [r];
    assert rs'[..|rs|] == rs;
    assert Keys(rs') == Keys(rs);
    KeysExactly(rs);
    var a, b := Grouped(rs'), Grouped(rs)[j := Absorb(Grouped(rs)[j], r)];
    forall i | 0 <= i < |a|
      ensures a[i] == b[i]
    {
      var k := Keys(rs)[i];
      MembersStep(rs, r, k);
      if i == j {
        ConsolidateStep(Members(rs, k), r);
        assert a[i] == Consolidate(Members(rs, k) + [r]);
      } else {
        assert k != GroupKey(r);
        assert Members(rs', k) == Members(rs, k);
        assert a[i] == Group(rs, k);
      }
    }
    assert |a| == |b|;
  }

  /** A reagent of a new key opens a group at the end. */
  lemma GroupedOpens(rs: seq<Reagent>, r: Reagent)
    requires GroupKey(r) !in Keys(rs)
    ensures Grouped(rs + [r]) == Grouped(rs) + [Open(r)]
  {
    var rs' := rs + [r];
    var key := GroupKey(r);
    assert rs'[..|rs|] == rs;
    assert Keys(rs') == Keys(rs) + [key];
    KeysExactly(rs);
    var a, b := Grouped(rs'), Grouped(rs) + [Open(r)];
    forall i | 0 <= i < |a|
      ensures a[i] == b[i]
    {
      var k := Keys(rs')[i];
      MembersStep(rs, r, k);
      if i == |Keys(rs)| {
        assert k == key;
        assert Members(rs, key) == [];
        assert Members(rs', key) == [r];
      } else {
        assert k == Keys(rs)[i] && k != key;
        assert Members(rs', k) == Members(rs, k);
        assert a[i] == Group(rs, k);
      }
    }
    assert |a| == |b|;
  }

  /** Consolidation loses no stock: the groups' totals add up to the stock
      of all reagents. */
  lemma {:induction false} GroupedConservesStock(rs: seq<Reagent>)
    ensures GroupTotal(Grouped(rs)) == TotalStock(rs)
  {
    if |rs| > 0 {
      var init := rs[..|rs| - 1];
      var r := rs[|rs| - 1];
      SplitLast(rs);
      GroupedConservesStock(init);
      if GroupKey(r) in Keys(init) {
        var j :| 0 <= j < |Keys(init)| && Keys(init)[j] == GroupKey(r);
        GroupedAbsorbs(init, r, j);
        GroupTotalUpdate(Grouped(init), j, Absorb(Grouped(init)[j], r));
      } else {
        GroupedOpens(init, r);
        assert Grouped(rs)[..|Grouped(rs)| - 1] == Grouped(init);
      }
    }
  }

  // ---------------------------------------------------------------------
  // Search and department filter

  /** The department selector: 'all' or one department. */
  datatype DeptFilter = AllDepartments | Only(department: Department)

  /** The search text occurs, case-insensitively, in the name or in a brand. */
  predicate MatchesSearch(g: InventoryGroup, search: string)
  {
    var q := Text.Lower(search);
    Text.Includes(Text.Lower(g.name), q)
    || exists b :: 0 <= b < |g.brands| && Text.Includes(Text.Lower(g.brands[b].brand), q)
  }

  predicate MatchesDept(g: InventoryGroup, filter: DeptFilter)
  {
    filter.AllDepartments? || g.department == filter.department
  }

  predicate Shown(g: InventoryGroup, search: string, filter: DeptFilter)
  {
    MatchesSearch(g, search) && MatchesDept(g, filter)
  }

  /** `.filter(g => matchesSearch && matchesDept)`: the matching groups,
      in order. */
  function Visible(gs: seq<InventoryGroup>, search: string, filter: DeptFilter): (r: seq<InventoryGroup>)
    ensures forall g :: g in r <==> g in gs && Shown(g, search, filter)
    ensures |r| <= |gs|
  {
    if |gs| == 0 then []
    else Visible(gs[..|gs| - 1], search, filter)
         + (if Shown(gs[|gs| - 1], search, filter) then [gs[|gs| - 1]] else [])
  }

  /** The empty search matches every group. */
  lemma ShownUnfiltered(g: InventoryGroup)
    ensures Shown(g, "", AllDepartments)
  {
    assert Text.Lower("") == "";
    Text.IncludesEmpty(Text.Lower(g.name));
  }

  /** The filter drops nothing when every group is shown. */
  lemma {:induction false} VisibleAll(gs: seq<InventoryGroup>, search: string, filter: DeptFilter)
    requires forall k :: 0 <= k < |gs| ==> Shown(gs[k], search, filter)
    ensures Visible(gs, search, filter) == gs
  {
    if |gs| > 0 {
      var init, last := gs[..|gs| - 1], gs[|gs| - 1];
      assert forall k :: 0 <= k < |init| ==> init[k] == gs[k];
      VisibleAll(init, search, filter);
      assert Shown(last, search, filter);
      assert Visible(gs, search, filter) == Visible(init, search, filter) + [last];
      SplitLast(gs);
    }
  }

  /** With an empty search and every department the table shows every group. */
  lemma VisibleUnfiltered(gs: seq<InventoryGroup>)
    ensures Visible(gs, "", AllDepartments) == gs
  {
    forall k | 0 <= k < |gs|
      ensures Shown(gs[k], "", AllDepartments)
    {
      ShownUnfiltered(gs[k]);
    }
    VisibleAll(gs, "", AllDepartments);
  }

  /** Searching for (part of) a reagent's brand shows the group that lists it,
      when its department passes the filter. */
  lemma SearchFindsBrand(rs: seq<Reagent>, k: nat, search: string, filter: DeptFilter)
    requires k < |rs|
    requires Text.Includes(Text.Lower(rs[k].brand), Text.Lower(search))
    requires filter.AllDepartments? || rs[k].department == filter.department
    ensures exists g :: g in Visible(Grouped(rs), search, filter) && BrandOf(rs[k]) in g.brands
  {
    EveryReagentListed(rs, k);
    var gs := Grouped(rs);
    var j :| 0 <= j < |gs| && BrandOf(rs[k]) in gs[j].brands && GroupKey(rs[k]) == Keys(rs)[j];
    var g := gs[j];
    var ms := Members(rs, Keys(rs)[j]);
    MembersExactly(rs, Keys(rs)[j]);
    assert rs[k] in ms;
    ConsolidateFirst(ms);
    GroupKeyInjective(rs[k], ms[0]);
    var b :| 0 <= b < |g.brands| && g.brands[b] == BrandOf(rs[k]);
    assert Shown(g, search, filter);
  }

  // ---------------------------------------------------------------------
  // The memoised computation

  ghost predicate Summarises(rs: seq<Reagent>, m: map<string, InventoryGroup>)
  {
    && (forall key :: key in m ==> |Members(rs, key)| > 0 && m[key] == Group(rs, key))
    && (forall key :: |Members(rs, key)| > 0 ==> key in m)
  }

  function Fold(m: map<string, InventoryGroup>, r: Reagent): (m': map<string, InventoryGroup>)
    ensures GroupKey(r) in m' && m'.Keys == m.Keys + {GroupKey(r)}
  {
    var key := GroupKey(r);
    if key in m then m[key := Absorb(m[key], r)] else m[key := Open(r)]
  }

  lemma FoldSummarises(rs: seq<Reagent>, r: Reagent, m: map<string, InventoryGroup>)
    requires Summarises(rs, m)
    ensures Summarises(rs + [r], Fold(m, r))
  {
    var m' := Fold(m, r);
    forall key
      ensures key in m' ==> |Members(rs + [r], key)| > 0 && m'[key] == Group(rs + [r], key)
      ensures |Members(rs + [r], key)| > 0 ==> key in m'
    {
      MembersStep(rs, r, key);
      if key == GroupKey(r) {
        if key in m {
          ConsolidateStep(Members(rs, key), r);
        } else {
          assert Members(rs, key) == [];
          assert Members(rs + [r], key) == [r];
        }
      } else if key in m {
        assert m'[key] == m[key];
        assert Members(rs + [r], key) == Members(rs, key);
      }
    }
  }

  /** `groupedReagents`: consolidate in one pass, then filter. */
  method GroupedReagents(rs: seq<Reagent>, search: string, filter: DeptFilter)
    returns (shown: seq<InventoryGroup>)
    ensures shown == Visible(Grouped(rs), search, filter)
  {
    var groups: map<string, InventoryGroup> := map[];
    var order: seq<string> := [];
    var i := 0;
    while i < |rs|
      invariant 0 <= i <= |rs|
      invariant Summarises(rs[..i], groups)
      invariant order == Keys(rs[..i])
      invariant forall key :: key in groups <==> key in order
    {
      var r := rs[i];
      var key := Text.Lower(r.name) + "-" + DeptLabel(r.department);
      PrefixStep(rs, i);
      FoldSummarises(rs[..i], r, groups);
      if key !in groups {
        order := order + [key];
      }
      groups := Fold(groups, r);
      i := i + 1;
    }
    assert rs[..|rs|] == rs;
    var values := ValuesInOrder(groups, order);
    assert values == Grouped(rs);
    shown := Visible(values, search, filter);
  }
}
