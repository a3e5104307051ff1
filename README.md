# ReagentFlow core, modelled in Dafny

ReagentFlow keeps the reagent inventory of a laboratory with three
departments (Fisicoquímico, Microbiología, Molecular). Analysts record
receipts (IN movements) and withdrawals (OUT movements). The app keeps one
record per reagent and a newest-first ledger of movements. An alerts
screen lists the low-stock reagents, grouped by name. An inventory table
groups reagents by name and department.

This project models the parts of the app that decide things:

- `types.dfy` (`Types`): the records of `types.ts` and the `find`-by-id
  lookup.
- `text.dfy` (`Text`): lower-casing, `includes`, the UTF-16 `length`, and
  the order on date strings and names.
- `ledger.dfy` (`Ledger`): `handleTransaction` of `App.tsx`.
  - The class `Inventory` holds the two lists and has one method per
    branch.
  - Pure functions specify the methods: `Receive`, `Withdraw` and
    `Recorded`.
  - Lemmas prove what a movement does to stocks and identifiers.
- `staff.dfy` (`Staff`): the analyst roster (`addAnalyst`,
  `removeAnalyst`) and the manager login form of `App.tsx`.
- `alerts.dfy` (`Alerts`): the consolidation and low-stock filter of
  `components/AlertsView.tsx`.
  - A loop method builds the dictionary.
  - A function states what each entry must be.
- `catalog.dfy` (`Catalog`): the grouping, search and department filter of
  `components/InventoryView.tsx`. A loop method is proved equal to the
  function that specifies it.
- `output_form.dfy` (`OutputForm`): the withdrawal form, as the class
  `WithdrawalForm`.
- `input_form.dfy` (`InputForm`): the receipt form `components/InputForm.tsx`, as the class `ReceiptForm`. It covers:
  - the unit lists;
  - the presentation effect;
  - the dropdown sort, an in-place insertion sort on an `array`;
  - the label scan and the submit.
- `legacy_input_form.dfy` (`LegacyInputForm`): the older receipt form
  `Componets/InputForm.tsx`. Here a changed brand turns a receipt into a
  new reagent.

How values are modelled:

- Stock quantities are `real`.
- Counts typed into number inputs are `int`.
- Dates are ISO strings, compared in code-point order.
- The clock, the id generator and the label reader are parameters.

## Model

| member | source | states |
|---|---|---|
| Types.FindById | components/OutputForm.tsx:31 | `find` by id: the result is the first reagent with that id, and it is absent iff no reagent has it |
| Ledger.IndexOf | App.tsx:206 | `findIndex` by id: -1 iff no reagent has the id; otherwise the first index whose id matches; an undefined id matches nothing |
| Ledger.FindIndex | App.tsx:206 | the search loop returns exactly the index `IndexOf` names |
| Ledger.Inventory.constructor | App.tsx:60-61 | both lists start empty and the book invariant holds |
| Ledger.Inventory.RecordIn | App.tsx:205-221 | the list and the touched reagent are those of `Receive`; the ledger is untouched |
| Ledger.Inventory.RecordOut | App.tsx:222-227 | the list and the touched reagent are those of `Withdraw`; the ledger is untouched |
| Ledger.Inventory.HandleTransaction | App.tsx:199-233 | the new book is `Recorded` of the old one, and ids stay unique and every entry names a listed reagent |
| Ledger.IndexOfSameIds | App.tsx:206 | the lookup depends only on the ids, so updating a reagent in place keeps every lookup |
| Ledger.IndexOfAppended | App.tsx:218-220 | a pushed reagent with a new id is found at the end |
| Ledger.ReceiveExisting | App.tsx:207-210 | IN on a listed id adds exactly the quantity to that reagent, clears its ordered flag, stamps the time, keeps the length and changes no other reagent |
| Ledger.ReceiveNew | App.tsx:211-220 | IN on an absent or undefined id appends one reagent holding exactly the quantity, under the given id or else the fresh one; unit, container, content, minimum and expiry keep the draft's value unless it is missing, '' or 0, and then take 'ud', 'Frasco', 1, 0 and 'N/A' |
| Ledger.WithdrawClamps | App.tsx:222-226 | OUT sets the stock to max(0, stock - quantity): never negative, never above the old stock for a non-negative quantity, exactly stock - quantity when the quantity fits; the other fields stamp only the time, and other reagents are unchanged |
| Ledger.RecordedPrependsEntry | App.tsx:228-233 | each movement puts one entry at the head of the ledger with the touched reagent's id and name, the movement's kind, quantity, displayed quantity, displayed unit and analyst, and the time; older entries follow unchanged |
| Ledger.ApplyIds | App.tsx:203-227 | a movement keeps the ids of all listed reagents and at most appends the touched one |
| Ledger.RecordedKeepsConsistent | App.tsx:199-233 | given fresh ids, reagent ids and entry ids stay unique and every entry names a listed reagent |
| Ledger.RecordedKeepsStocksNonNegative | App.tsx:207-226 | stocks stay non-negative when IN quantities are non-negative |
| Ledger.ReceiveAddsToStockOf | App.tsx:205-221 | one IN on a named id raises the stock held under that id by its quantity |
| Ledger.ReceiveSeriesSums | App.tsx:199-233 | repeated INs on one id leave its stock at the starting stock plus the sum of the quantities |
| Ledger.ReceiveSeriesOnNewId | App.tsx:211-220 | for an id not yet listed, repeated INs leave exactly the sum of the quantities |
| Staff.AddAnalyst | App.tsx:186-191 | an empty or listed name changes nothing; a new one is appended; no duplicates are introduced; membership is exactly old plus the name |
| Staff.RemoveAnalyst | App.tsx:193-197 | the name is gone, every other name keeps its count, and the length drops by the removed copies |
| Staff.OccurrencesPositive | App.tsx:187 | a name is in the roster iff it occurs in it at least once |
| Staff.OccurrencesSplit | App.tsx:194 | counts of a name add over concatenation |
| Staff.RemoveAnalystKeepsOrder | App.tsx:194 | removal distributes over concatenation, so the others keep their order |
| Staff.AddThenRemove | App.tsx:186-197 | adding and then removing a new name gives the roster back |
| Staff.RemoveAbsent | App.tsx:193-197 | removing an unlisted name changes nothing |
| Staff.ManagerLogin | App.tsx:319-325 | with no password stored, access is granted iff the input is at least 4 UTF-16 code units long, and that input becomes the password; otherwise access is granted iff the input equals the stored password; each refusal states its reason |
| Text.Utf16Length | App.tsx:321 | `length` counts one or two code units per character, and equals the number of characters iff none is above U+FFFF |
| Staff.LengthCountsCodeUnits | App.tsx:321 | two characters above U+FFFF pass the length test and become the password; three ordinary characters are refused as too short |
| Staff.FirstLoginSetsPassword | App.tsx:320-324 | after the first login sets the password, a later login succeeds iff it repeats that password |
| Alerts.ConsolidateTotals | components/AlertsView.tsx:37-45 | a group's total stock is the sum of its members' stocks, and its brand list is one entry per member, in order |
| Alerts.ConsolidateMinimum | components/AlertsView.tsx:38-46 | a group's minimum is the largest member minimum and is one of them |
| Alerts.ConsolidateOrdered | components/AlertsView.tsx:40-47 | a group is flagged as ordered iff some member is |
| Alerts.ConsolidateFirst | components/AlertsView.tsx:35-39 | the name and base unit are those of the first member |
| Alerts.MembersExactly | components/AlertsView.tsx:32-34 | a group holds exactly the reagents whose lower-cased names equal its key, and it is non-empty iff such a reagent exists |
| Alerts.MembersStep | components/AlertsView.tsx:32-48 | appending a reagent adds it only to the members of its own key |
| Alerts.ConsolidateStep | components/AlertsView.tsx:43-48 | folding in one more member is the `else` branch |
| Alerts.LowIffUnderLargestMinimum | components/AlertsView.tsx:51 | a group is low iff its total is at or below some member's minimum and no member is ordered |
| Alerts.LowOnly | components/AlertsView.tsx:51 | the filter keeps exactly the low groups |
| Alerts.LowOnlyDistinct | components/AlertsView.tsx:51 | filtering keeps group names distinct |
| Alerts.Fold | components/AlertsView.tsx:32-48 | one step of the loop adds the reagent's key and no other key |
| Alerts.FoldSummarises | components/AlertsView.tsx:32-48 | one loop step keeps the dictionary equal to the specified groups of the reagents seen so far |
| Alerts.ConsolidateAll | components/AlertsView.tsx:23-49 | the dictionary holds exactly one entry per key that some reagent has, each the consolidation of that key's members; the key order is duplicate-free |
| Alerts.ValuesAreGroups | components/AlertsView.tsx:51 | the read-out values have distinct names, and each is the group of some reagent's key |
| Alerts.GroupListed | components/AlertsView.tsx:49-51 | every reagent's key has a group, and the filter keeps that group when it is low |
| Alerts.LowStock | components/AlertsView.tsx:22-53 | every listed group is the low group of some reagent; every low group is listed; names are distinct |
| Alerts.FillAsWritten | components/AlertsView.tsx:23-49 | the loop on a plain object never yields an entry under an inherited key |
| Alerts.FillAsWrittenThrows | components/AlertsView.tsx:33-45 | a reagent whose lower-cased name is an inherited member of a plain object ('constructor', '__proto__') makes the loop throw |
| Alerts.FillAsWrittenAgrees | components/AlertsView.tsx:23-49 | without such names, the loop as written gives the specified groups |
| Alerts.ConstructorThrows | components/AlertsView.tsx:33-45 | a single reagent named "Constructor" makes the computation throw |
| Catalog.GroupKeyInjective | components/InventoryView.tsx:32 | two reagents share a row key iff their lower-cased names and their departments agree |
| Catalog.ConsolidateTotals | components/InventoryView.tsx:38-49 | a row's total is the sum of its members' stocks; its brand list is one entry per member, in order |
| Catalog.ConsolidateMinimum | components/InventoryView.tsx:39-56 | a row's minimum is the largest member minimum and is one of them |
| Catalog.LowIffUnderLargestMinimum | components/InventoryView.tsx:117 | a row shows as low iff its total is at or below some member's minimum |
| Catalog.ExpiryIsMembers | components/InventoryView.tsx:43-52 | the shown expiry is the expiry of one of the members |
| Catalog.ExpiryNoneIff | components/InventoryView.tsx:43-52 | the shown expiry is 'N/A' iff no member has a date |
| Catalog.ExpiryEarliest | components/InventoryView.tsx:43-52 | no member's date is earlier than the shown expiry |
| Catalog.EarlierExpiryStep | components/InventoryView.tsx:50-52 | one replacement step keeps one of the two dates; it gives 'N/A' only when both are 'N/A'; the result is never later than a new real date |
| Catalog.ConsolidateUpdated | components/InventoryView.tsx:44-55 | the shown update time is a member's and no earlier than any member's |
| Catalog.ConsolidateFirst | components/InventoryView.tsx:35-42 | name, department, presentation, unit, container and content come from the first member |
| Catalog.MembersExactly | components/InventoryView.tsx:31-33 | a row holds exactly the reagents with its key, and it exists iff such a reagent exists |
| Catalog.MembersStep | components/InventoryView.tsx:31-58 | appending a reagent adds it only to the members of its own key |
| Catalog.ConsolidateStep | components/InventoryView.tsx:47-57 | folding in one more member is the `else` branch |
| Catalog.KeysExactly | components/InventoryView.tsx:33-34 | the keys in first-appearance order are exactly the keys present, without repeats |
| Catalog.Grouped | components/InventoryView.tsx:17-60 | one row per key, in insertion order, each the consolidation of that key's members |
| Catalog.EveryReagentListed | components/InventoryView.tsx:45-49 | every reagent is a brand line of some row |
| Catalog.GroupTotalUpdate | components/InventoryView.tsx:48 | changing one row changes the sum of totals by that row's difference |
| Catalog.GroupedAbsorbs | components/InventoryView.tsx:47-57 | a reagent with a known key changes only its own row |
| Catalog.GroupedOpens | components/InventoryView.tsx:33-46 | a reagent with a new key appends one new row |
| Catalog.GroupedConservesStock | components/InventoryView.tsx:31-58 | the rows' totals add up to the total stock of all reagents |
| Catalog.Visible | components/InventoryView.tsx:60-65 | a row is shown iff it matches the search (name or a brand, ignoring case) and the department filter |
| Catalog.VisibleAll | components/InventoryView.tsx:60-65 | when every row matches, the filter returns all of them in order |
| Catalog.VisibleUnfiltered | components/InventoryView.tsx:60-65 | an empty search with 'all' shows every row in order |
| Catalog.SearchFindsBrand | components/InventoryView.tsx:61-63 | a search contained in a reagent's brand shows the row that lists that brand |
| Catalog.Fold | components/InventoryView.tsx:31-58 | one step of the loop adds the reagent's key and no other key |
| Catalog.FoldSummarises | components/InventoryView.tsx:31-58 | one loop step keeps the dictionary equal to the specified rows |
| Catalog.GroupedReagents | components/InventoryView.tsx:16-66 | the loop, the `Object.values` read-out and the filter give exactly the specified visible rows |
| OutputForm.ScanMatch | components/OutputForm.tsx:47 | the first reagent whose lower-cased name contains the scanned name or is contained in it; absent iff none does |
| OutputForm.EmptyScanTakesFirst | components/OutputForm.tsx:47 | a label read as the empty name selects the first reagent |
| OutputForm.Submit | components/OutputForm.tsx:33-72 | each refusal happens iff its guard, in order: no selection, no analyst, more than the stock; otherwise an OUT movement for the selected id whose quantity is containers times the reagent's content in container mode and the typed amount in quantity mode, never above the stock, with the display unit of the mode |
| OutputForm.FindByIdIsIndexOf | components/OutputForm.tsx:31 | the form's `find` and the recorder's `findIndex` pick the same reagent |
| OutputForm.SentNeverClamps | components/OutputForm.tsx:60-65 | a sent withdrawal is admissible and lowers the stock by exactly its quantity |
| OutputForm.WarningForetellsCritical | components/OutputForm.tsx:159 | the warning is on iff the stock after the withdrawal is at or below the minimum |
| OutputForm.WithinInputLimitsNeverAdds | components/OutputForm.tsx:134-136 | within the inputs' limits (at least one container, at least 0.01 of the base unit) a sent withdrawal has a quantity of at least 0.01, or one that is not negative by container when the stored content is not negative, and the stock never grows |
| OutputForm.NegativeAmountAdds | components/OutputForm.tsx:53-65 | without those limits a negative amount passes every guard of the submit, and the withdrawal raises the stock |
| OutputForm.WithdrawalForm.constructor | components/OutputForm.tsx:21-27 | no selection, zero inputs, no analyst, container mode |
| OutputForm.WithdrawalForm.SelectScanned | components/OutputForm.tsx:47-49 | selects the first match if any, else changes nothing; other fields unchanged |
| OutputForm.WithdrawalForm.HandleSubmit | components/OutputForm.tsx:53-76 | the result is `Submit` of the old state; a send resets selection and inputs, a refusal changes nothing, the mode stays |
| InputForm.DefaultUnit | components/InputForm.tsx:23-25 | each presentation's unit list (lines 23-25) is non-empty, and the default unit used at lines 51-58 and 128-130 is its first entry |
| InputForm.InitialData | components/InputForm.tsx:34-46 | the initial form, with the department and analyst of the signed-in user or 'Fisicoquímico' and none |
| InputForm.PresentationEffect | components/InputForm.tsx:61-85 | outside custom-unit mode, a unit not listed for the presentation is reset to its default; a package forces 'Paquete'; leaving a package restores 'Frascos'; nothing else changes |
| InputForm.PresentationEffectSettles | components/InputForm.tsx:61-85 | running the effect on its own result changes nothing |
| InputForm.UsageCounts | components/InputForm.tsx:96-99 | the count under every id is the number of ledger entries naming it |
| InputForm.PrecedesTotal | components/InputForm.tsx:102-107 | the comparator orders any two reagents one way or the other |
| InputForm.PrecedesTransitive | components/InputForm.tsx:102-107 | the comparator is transitive |
| InputForm.InDepartment | components/InputForm.tsx:91-93 | exactly the user's department's reagents, with their multiplicities |
| InputForm.Insert | components/InputForm.tsx:102-107 | inserting one more element into a sorted prefix leaves a longer sorted prefix and a permutation of the array |
| InputForm.SortByUse | components/InputForm.tsx:102-107 | the array ends sorted by use, most used first and ties by name, and is a permutation of its old contents |
| InputForm.SortedReagents | components/InputForm.tsx:88-108 | without a user the reagents array itself is sorted and returned; with one a new sorted array of that department's reagents |
| InputForm.ReadPresentation | components/InputForm.tsx:124-126 | 'Sólido' and 'Paquete' are recognised; anything else is 'Líquido' |
| InputForm.LabelMatch | components/InputForm.tsx:140-143 | the first reagent whose name and brand both equal the label's, ignoring case; absent iff none |
| InputForm.ReceiptOf | components/InputForm.tsx:111-200 | nothing without an analyst; otherwise an IN for the selected id or for a new reagent, of containers times content (`totalBaseQuantity`, lines 111-113), with the form's description and 'N/A' for an empty expiry |
| InputForm.AfterSubmit | components/InputForm.tsx:203-208 | every field back to its initial value except the analyst and the department |
| InputForm.ReceiptAdmissible | components/InputForm.tsx:179-200 | the recorder can always apply a receipt |
| InputForm.NewReceiptAppends | components/InputForm.tsx:177-200 | a receipt for a new reagent appends one reagent under the fresh id with the entered quantity, the form's name, brand, presentation, department and minimum, its unit, container and content unless blank or 0 (then the recorder's defaults), and its expiry or 'N/A' |
| InputForm.AfterScanRecognised | components/InputForm.tsx:61-85 | the form after a recognising scan and the presentation effect it triggers (when the presentation changed or custom-unit mode was on): the label's name and brand, the stored presentation, department, content and minimum, the stored unit unless the effect replaces an unlisted one by the default, the container the package rule leaves, and the analyst, count and expiry untouched |
| InputForm.ScanRecognisedReceipt | components/InputForm.tsx:124-160 | after a recognising scan and its effect, the receipt is an IN on the reagent's id with the label's name and brand, the stored content, minimum, department and presentation, the unit and container the effect leaves (the stored ones for a reagent that already obeys the unit list and the package rule), and the entered containers times the stored content |
| InputForm.ScanRecognisedAddsStock | components/InputForm.tsx:124-160 | the recorder adds that receipt's quantity to the stock of the reagent listed under the matched id, and the list keeps its length |
| InputForm.AfterScanUnrecognised | components/InputForm.tsx:61-85 | the form after a scan that recognises nothing and its effect: the label's name and brand, the presentation it names and that presentation's default unit, a 'Paquete' container for a package when the effect runs, and the department, analyst and quantities untouched |
| InputForm.ScanUnrecognisedCreates | components/InputForm.tsx:124-142 | after a scan that recognises nothing and its effect, the receipt creates a reagent appended to the list with the fresh id, the label's name and brand, the presentation read from the label or 'Líquido', that presentation's default unit, a 'Paquete' container for a package when the effect runs, the form's department, and the entered quantity as its stock |
| InputForm.ExistingReceiptAdds | components/InputForm.tsx:177-200 | a receipt for a listed reagent adds the entered quantity to its stock |
| InputForm.ReceiptForm.constructor | components/InputForm.tsx:29-46 | the initial form for the given user, no selection, not in custom-unit mode |
| InputForm.ReceiptForm.OnPresentationChange | components/InputForm.tsx:61-85 | the form becomes `PresentationEffect` of the old one; the other fields stay |
| InputForm.ReceiptForm.ScanLabel | components/InputForm.tsx:124-160 | the form takes the label's name and brand, and either the matched reagent's stored unit, container, content, minimum, department and presentation or the label's presentation and its default unit (`Scanned`); existing iff a reagent matched, and then that reagent is selected; not in custom-unit mode |
| InputForm.ReceiptForm.HandleSubmit | components/InputForm.tsx:170-212 | the result is `ReceiptOf` of the old state; a send resets as `AfterSubmit`, a refusal changes nothing |
| InputForm.SignedInAlwaysSends | components/InputForm.tsx:44 | a form opened for a signed-in analyst keeps that analyst's name through scans, effects and resets, and every submit sends under that name |
| InputForm.WithoutUserNeverSends | App.tsx:381 | a form opened without a signed-in analyst keeps an empty analyst through scans, effects and resets, and never sends |
| LegacyInputForm.Units | Componets/InputForm.tsx:20-22 | the shorter lists; each starts with the default unit and is part of the current list |
| LegacyInputForm.ReceiptOf | Componets/InputForm.tsx:102-135 | nothing without an analyst; otherwise an IN whose id is the selection unless the brand changed, using the custom unit when one was typed |
| LegacyInputForm.BrandChangeCreatesReagent | Componets/InputForm.tsx:110-112 | a changed brand on an existing reagent creates a new reagent under the fresh id with the new brand; the original reagent is left unchanged |
| LegacyInputForm.SameBrandAddsStock | Componets/InputForm.tsx:110-112 | with the brand unchanged, ignoring case, the receipt adds to the selected reagent |
| LegacyInputForm.LegacyReceiptForm.constructor | Componets/InputForm.tsx:26-44 | the blank form |
| LegacyInputForm.LegacyReceiptForm.HandleSubmit | Componets/InputForm.tsx:102-146 | the result is `ReceiptOf` of the old state; a send clears everything, analyst and department included; a refusal changes nothing |

## Left out

- Persistence and I/O are not modelled: Supabase, `fetch`, emailjs, `localStorage`, toasts, alerts and React rendering. An alert is a `Rejection` value.
- The label reader is a `LabelReading` input, not a call to the model service.
- The file picker and base64 step of both label scans are not modelled.
- `generateId` and `new Date().toISOString()` are parameters (`freshId`, `txId`, `now`).
- `async` ordering and React's batching and effect scheduling are not modelled. `OnPresentationChange` is the effect run once, after a change.
- Numbers are `real`, so there is no floating-point rounding. `parseInt`/`parseFloat` and NaN inputs are not modelled.
- Invalid dates are not modelled. `new Date(a) < new Date(b)` becomes code-point order on ISO date strings.
- `toLowerCase` folds ASCII and Latin-1 letters only. Other Unicode case mappings are not modelled.
- `localeCompare` is code-point order.
- Alerts.LowStock: the order of the list is not claimed. `Object.values` puts integer-like keys first, so the order can differ from insertion order. The inventory's keys end in a department label, so its order is claimed.
- InputForm.SortByUse: the source uses `Array.prototype.sort`, whose algorithm is unspecified. The model uses an insertion sort and proves only the result: sorted and a permutation. Stability is not claimed.
- InputForm.UsageCounts: the count is a `map`, not a plain object. A reagent id equal to a name inherited from objects is not modelled.
- The reagent dropdown's `onChange` and the field setters of both receipt forms are not modelled. They are plain assignments.
- The label scan of the older form (Componets/InputForm.tsx:58-100) is not modelled. It keeps any non-empty presentation text the reader returns (line 73), which the model's `Presentation` type cannot hold; it defaults the unit to 'unidades' for anything but 'Líquido' and 'Sólido' (line 67); and for a recognised reagent it copies only the unit, container, content and minimum, not the department or the presentation (lines 85-91).
- OutputForm.Submit: the browser's constraint validation is not modelled, so the model sends inputs the browser would block: `required min="1"` on the containers and `min="0.01"` with `step="0.01"` on the amount (components/OutputForm.tsx:134, 136). `WithinInputLimitsNeverAdds` states what those limits give, and `NegativeAmountAdds` what happens without them.
- InputForm.ReceiptOf: likewise, `required` on the text fields, `min="1"` on the number of containers and `min="0"` on the minimum (components/InputForm.tsx:277-354) are not modelled. The same holds for LegacyInputForm.ReceiptOf (Componets/InputForm.tsx:204-247).
- Ledger.Inventory.HandleTransaction: an OUT movement on an id that is not listed, or an IN without a name, brand, presentation or department, is a precondition. The source would throw or store undefined fields. The forms never send such movements (`ReceiptAdmissible`, `SentNeverClamps`).
- Ledger.Inventory.HandleTransaction: fresh ids are assumed unused as a precondition. `generateId` is random.
- The recorder's default container is 'Frasco', while the forms use 'Frascos'. Both constants are kept as written.
- In the older form, when the selected reagent is no longer listed, the brand counts as unchanged and the old id is kept.
- Other files are not part of this model: HistoryView, ConfigView, CloudSyncView, utils and the rest of App.tsx.

## Findings

| source | as written | input that shows it | evidently intended | confidence | as-written member | corrected member |
|---|---|---|---|---|---|---|
| App.tsx:381 | the receipt form is mounted without `currentUser`, and its analyst field is display-only (components/InputForm.tsx:44, 366-371) | any receipt: the analyst name stays '' and every submit stops at components/InputForm.tsx:172 | the signed-in analyst is passed in, so that the form submits under that name | not executed; follows from the props passed at App.tsx:381 | InputForm.WithoutUserNeverSends | InputForm.SignedInAlwaysSends |
| components/AlertsView.tsx:23-45 | the groups live in a plain object literal `{}`, and `!consolidated[key]` also sees inherited members | a reagent named "Constructor" (key 'constructor'): `consolidated.constructor` is `Object`, so the `else` branch runs `brands.push` on `undefined` and the alerts view throws | a dictionary with no inherited keys, so that every name opens its own group | not executed; follows from JavaScript's object semantics | Alerts.FillAsWritten | Alerts.LowStock |
