# ARC-C cryptoperiod calculator: a verified model of its core

ARC-C recommends a cryptoperiod for a key used in an industrial control
system. The period is a number of hours between two bounds the user gives.
Three things move it between those bounds:

- the probability that a device is compromised, computed from the CVEs
  imported per device;
- the probability of compromise through weak procedural policy;
- the impact of a compromise, made of the functional importance and the
  information rate.

The higher the final risk, the closer the period is to the lower bound.

The model covers five source files, one module each. Two more modules hold
shared helpers.

- `ImportDevices` (import_devices_ui.py) covers the device panel.
  - `calculate_resilience` is a product over the enabled CVEs of
    `1 - weight(impact) * (exploit / 3.9)^c_w`, followed by
    `b_d + (1 - b_d) * (1 - product)`.
  - `get_import_values` folds the devices into one probability, or returns
    `(0, False)` when there are none.
  - The module-level device list is a class `ImportSession`, with the list
    widget's labels and `results_to_device_map` as fields. Its methods are
    search import (normalising impacts), group-file loading (counting
    repeated terms), manual save (rejecting a blank name or a repeated CVE
    id), CVE toggling, device removal and clearing.
  - Every method keeps the labels and the index map in step with the
    devices.
- `ParametersLogic` (parameters_logic.py) covers the severity-button panels.
  - It normalises the category list and builds the initial `activeItems`.
  - `create_layout`/`cat_layout` fill the per-panel dicts from item name to
    button group. A Qt button group is abstracted as the choice it reports.
  - `toggle_subcat` and `reorder_active_items` edit `activeItems` in place.
    They are methods of a class holding that list.
  - `display_results` collects the checked choices.
- `ParametersUi` (parameters_ui.py) holds the three scorers.
  - Impact extent multiplies the scores per category, averages the
    products and clamps the result at 1.
  - The information rate is a 3×3 chart.
  - The policy is the first row's value.
  - The `Values` object stores the three factors.
  - A class for the two time-range globals keeps their absolute difference
    up to date. It uses `convert_to_hours`.
- `Cryptoperiod` (main.py) covers `show_results`.
  - Its steps are the range guard, the empty-import dialog, the worst-case
    substitution, `1 - (1 - p)(1 - policy)`,
    `impact * information^(1 - impact^(1/3))`, the risk and
    `t1 * (t2 / t1)^(1 - risk)`.
  - `display_time_difference` renders hours as months, days, hours and
    minutes.
- `SharedFunctions` (shared_functions.py) covers `interpolate_colour` and
  the colour bands and clamp of `update_result_button`.
- `Seqs`, `Text` and `Wrappers` are helpers:
  - `Seqs` has counts, first-seen de-duplication (the key order of a Python
    dict), and sums and products of reals;
  - `Text` has `str.strip`, `", ".join` and decimal rendering;
  - `Wrappers` has `Option`.

How the model relates to the code:

- Loops in the source are methods with loop invariants, proved against
  recursive specification functions.
- The properties of those functions are lemmas.
- Reals are exact.
- Python's power with a real exponent becomes a parameter `rpow`. The
  lemmas about the formula assume the laws `PowLaws` states of it (a base
  in [0, 1] stays in [0, 1]; a base of at least 1 to an exponent in [0, 1]
  stays between 1 and the base; exponents 1 and 0). `PowLawsSatisfiable`
  shows the laws can be met.
- The result of the CVE lookup (nvd.py, which is not part of this model)
  is a parameter of `HandleSearch`.
- The lines of the group file are passed in as a parameter.
- Dialog answers are boolean parameters.

Where code and design differ, the model follows the code:

- `show_results` aborts only when the lower bound exceeds the upper bound.
  Equal bounds give exactly that bound.
- `update_impact_layout` picks the button colour from the unclamped
  extent. So an extent above 1 shows the top colour, and the value shown
  is clamped.
- An information-rate error string is not stored: the two-name unpacking
  raises before `values.information` is assigned.
- The design says a higher exploitability score makes the compromise
  strictly higher. In the code it is only never lower. It is strictly
  higher when the CVE is enabled, `b_d < 1`, `c_w > 0` and every other
  enabled CVE leaves a positive survival factor. `CertainCompromise` shows
  the exception: one HIGH CVE of score 3.9 already gives compromise 1 and
  nothing can raise it. `ResilienceStrictlyMonotone` and
  `AggregateMonotone` state the conditions.

## Model

| member | source | states |
|---|---|---|
| ImportDevices.Weight | import_devices_ui.py:127-132 | the impact weight is positive and at most 1 (0.1 for NONE, 0.3 for LOW, 1.0 for HIGH) |
| ImportDevices.QuantizedExploitInUnit | import_devices_ui.py:127-132 | for an exploitability in [0, 3.9] the quantized exploit lies in [0, 1] |
| ImportDevices.Factors | import_devices_ui.py:122-134 | one survival factor per CVE, in order: 1 for a disabled CVE, `1 - quantizedExploit` for an enabled one |
| ImportDevices.FactorsAppend | import_devices_ui.py:122-134 | the factors of a concatenation are the concatenation of the factors |
| ImportDevices.SurvivalSnoc | import_devices_ui.py:134 | adding a CVE at the end multiplies the running product by its factor |
| ImportDevices.CalculateResilience | import_devices_ui.py:111-136 | the loop computes exactly `b_d + (1 - b_d) * (1 - Π factors)` |
| ImportDevices.FactorsInsert | import_devices_ui.py:122-134 | a CVE inserted anywhere contributes its factor at that position |
| ImportDevices.InsertCve | import_devices_ui.py:122-134 | the order of the CVEs does not matter: inserting one anywhere multiplies the survival product by its factor |
| ImportDevices.NoEnabledCveGivesBaseRate | import_devices_ui.py:121-136 | with no enabled CVE the product is 1 and the device compromise is exactly `b_d` |
| ImportDevices.SurvivalProductInUnit | import_devices_ui.py:121-134 | with valid exploitabilities the survival product stays in [0, 1] |
| ImportDevices.ResilienceBounds | import_devices_ui.py:136 | device compromise lies in [b_d, 1] |
| ImportDevices.CertainCompromise | import_devices_ui.py:132-136 | one enabled HIGH CVE of exploitability 3.9 makes the product 0 and the compromise 1 |
| ImportDevices.RaisedAt | import_devices_ui.py:127-132 | the CVE at the index gets the new exploitability and keeps its id, impact and status; every other CVE is unchanged |
| ImportDevices.FactorMonotone | import_devices_ui.py:127-132 | a higher exploitability never raises a CVE's survival factor, and lowers it when the CVE is enabled and `c_w > 0` |
| ImportDevices.ResilienceMonotone | import_devices_ui.py:121-136 | raising one CVE's exploitability within [0, 3.9] never lowers the device compromise |
| ImportDevices.ResilienceStrictlyMonotone | import_devices_ui.py:121-136 | it raises the compromise strictly when the CVE is enabled, `b_d < 1`, `c_w > 0` and every other factor is positive |
| ImportDevices.SurvivalOrder | import_devices_ui.py:122-134 | raising one exploitability never raises the survival product, and lowers it under the same conditions |
| ImportDevices.ResilienceCompare | import_devices_ui.py:136 | a lower survival product gives a compromise at least as high, strictly higher when `b_d < 1` |
| ImportDevices.ResilienceOrder | import_devices_ui.py:121-136 | both orders at once: the compromise never falls, and rises under the conditions above |
| ImportDevices.ActiveCves | import_devices_ui.py:611 | the filter keeps only enabled CVEs and never adds any |
| ImportDevices.ActiveCvesKeepProduct | import_devices_ui.py:609-612 | dropping disabled CVEs leaves the survival product unchanged |
| ImportDevices.ActiveCvesKeepResilience | import_devices_ui.py:609-616 | so the pre-filter in `get_import_values` does not change any device's compromise |
| ImportDevices.DeviceFactors | import_devices_ui.py:614-617 | one factor `1 - deviceCompromise` per device, in order |
| ImportDevices.ImportValues | import_devices_ui.py:598-622 | `isNotEmpty` holds exactly when there are devices; no devices give probability 0 |
| ImportDevices.SurvivalPrefix | import_devices_ui.py:615-617 | each step of the device fold multiplies by that device's factor |
| ImportDevices.SystemSurvivalSnoc | import_devices_ui.py:615-617 | appending a device multiplies the system survival by its factor |
| ImportDevices.AllDisabledSurvival | import_devices_ui.py:614-619 | when every CVE is disabled the system survival is `(1 - b_d)^n` |
| ImportDevices.AllDisabledTotal | import_devices_ui.py:614-622 | then the total is `1 - 0.97^n`, which is positive |
| ImportDevices.SystemSurvivalBounds | import_devices_ui.py:614-619 | the system survival is in [0, 1], and at most `1 - b_d` when there is a device |
| ImportDevices.NonEmptyTotalAtLeastBaseRate | import_devices_ui.py:605-622 | with devices of valid scores the total lies in [0.03, 1] and so is never 0 |
| ImportDevices.DeviceFactorBounds | import_devices_ui.py:614-617 | each device's factor `1 - compromise` lies in [0, 1 - b_d] |
| ImportDevices.AggregateMonotone | import_devices_ui.py:605-622 | replacing a device by one with a compromise at least as high never lowers the total, and raises it strictly when the compromise rises and every other device's compromise is below 1 |
| ImportDevices.TotalMonotoneInExploitability | import_devices_ui.py:598-622 | raising any one CVE's exploitability never lowers the total probability |
| ImportDevices.FirstCveWithId | import_devices_ui.py:149-152 | the index found is the first CVE with that id, or there is none |
| ImportDevices.SetStatus | import_devices_ui.py:149-152 | only the status of the first CVE with the id changes, to `checked`; every CVE keeps its info; no match changes nothing |
| ImportDevices.RemoveAt | import_devices_ui.py:170 | `del list[idx]`: one element fewer, those before kept, those after shifted down by one |
| ImportDevices.Labels | import_devices_ui.py:69-71 | one list label per device, its CPE name |
| ImportDevices.IndexMap | import_devices_ui.py:72 | the map indexes exactly positions 0 .. n-1, each to its item |
| ImportDevices.LabelsSnoc | import_devices_ui.py:406-407 | appending a device appends its label |
| ImportDevices.IndexMapSnoc | import_devices_ui.py:408 | appending an item adds exactly the key `n` |
| ImportDevices.ManualSnoc | import_devices_ui.py:389-402 | a blank id row adds nothing; a non-blank row adds its stripped id and one enabled CVE |
| ImportDevices.ManualIdsSnoc | import_devices_ui.py:390-398 | the ids collected grow by the stripped id of a non-blank row only |
| ImportDevices.ManualIdsAppend | import_devices_ui.py:389-398 | the ids of two runs of rows are the ids of each, concatenated |
| ImportDevices.ManualCvesMatchIds | import_devices_ui.py:394-402 | the saved CVEs correspond one to one with the ids: the same id, the row's severity and impact, status True |
| ImportDevices.SavedDeviceShape | import_devices_ui.py:380-404 | a blank name is rejected; otherwise a repeated id is rejected; otherwise the device saved has the stripped name and the CVEs of the non-blank rows |
| ImportDevices.ValidatedBlank | import_devices_ui.py:394 | a row with a blank id keeps the loop state |
| ImportDevices.ValidatedNew | import_devices_ui.py:394-402 | a row with a new id extends the id set and the CVE list |
| ImportDevices.ValidatedRepeat | import_devices_ui.py:395-397 | a row whose id is already in the set means the ids are not distinct |
| ImportDevices.ValidateManualDevice | import_devices_ui.py:380-404 | the early-returning loop decides exactly as the specification function |
| ImportDevices.NormaliseImpact | import_devices_ui.py:55-57 | "LOW" and "HIGH" are kept; every other string becomes NONE |
| ImportDevices.NormaliseDevice | import_devices_ui.py:52-61 | the CPE is kept and the CVEs are kept one for one and in order, each with its id, score and status, and its impact normalised |
| ImportDevices.NormaliseDevices | import_devices_ui.py:51-61 | one normalised device per device found, in order |
| ImportDevices.SearchTermLines | import_devices_ui.py:98-100 | the terms are at most the lines |
| ImportDevices.SearchTermLinesSnoc | import_devices_ui.py:99-100 | a comment line contributes nothing; any other line its stripped text |
| ImportDevices.SearchTermLinesAppend | import_devices_ui.py:98-100 | the terms of two blocks of lines are the terms of each, concatenated |
| ImportDevices.LineContribution | import_devices_ui.py:98-100 | one line anywhere in the file contributes only its own term |
| ImportDevices.TalliedSnoc | import_devices_ui.py:101-104 | a seen term increments its count; a new term gets count 1 and joins the key order |
| ImportDevices.TalliedComment | import_devices_ui.py:99 | a comment line keeps the tally |
| ImportDevices.TalliedTerm | import_devices_ui.py:100-104 | a term line updates the tally as the dict does |
| ImportDevices.TallySearchTerms | import_devices_ui.py:94-104 | the dict holds each term once, in first-seen order, with its number of occurrences |
| ImportDevices.CountSearchTerms | import_devices_ui.py:94-106 | the pairs are the distinct terms in first-seen order, each with its count |
| ImportDevices.GroupCountsCoverLines | import_devices_ui.py:101-106 | the counts add up to the number of non-comment lines |
| ImportDevices.ImportSession.constructor | import_devices_ui.py:16-19 | the session starts with no terms, devices, labels or index entries |
| ImportDevices.ImportSession.GetImportValues | import_devices_ui.py:598-622 | the two loops return exactly `ImportValues(devices)` |
| ImportDevices.ImportSession.HandleSearch | import_devices_ui.py:28-79 | a blank individual name changes nothing; otherwise the terms become `[(name, 1)]` (individual) or stay (group), the normalised devices are appended and the list is rebuilt |
| ImportDevices.ImportSession.LoadGroupFile | import_devices_ui.py:93-106 | the search terms become the distinct terms with their counts |
| ImportDevices.ImportSession.ToggleCve | import_devices_ui.py:148-152 | only device `idx` changes, by `SetStatus` |
| ImportDevices.ImportSession.RemoveDevice | import_devices_ui.py:161-174 | once confirmed, device `idx` is removed and the labels and map are rebuilt; otherwise nothing changes |
| ImportDevices.ImportSession.SaveDevice | import_devices_ui.py:380-408 | a valid entry appends one device at the end, with its label and index; an invalid one changes nothing |
| ImportDevices.ImportSession.ClearDevices | import_devices_ui.py:435-449 | once confirmed, devices, labels and map are empty; otherwise nothing changes |
| ParametersLogic.Normalise | parameters_logic.py:41-44 | a string becomes one category without subs; a bare item gets no subs; a pair is kept |
| ParametersLogic.AsPairs | parameters_logic.py:44 | the list of pairs matches the normalised categories one to one |
| ParametersLogic.NormalisePairsUnchanged | parameters_logic.py:44 | normalising is idempotent on a list of pairs |
| ParametersLogic.PlainIsNestedWithoutSubs | parameters_logic.py:44 | a bare name and a pair with no subs normalise alike |
| ParametersLogic.Names | parameters_logic.py:49-51 | the category names, in order |
| ParametersLogic.InitialActiveItems | parameters_logic.py:45-51 | `activeItems` is None exactly when no category has subcategories, and the category names otherwise |
| ParametersLogic.SubItemDiffers | parameters_logic.py:130 | a subitem key never equals its category's name |
| ParametersLogic.SubItems | parameters_logic.py:130 | the subitem keys of a category, one per sub, in order |
| ParametersLogic.FlattenSnoc | parameters_logic.py:194-200 | the canonical order of a list extended by a category ends with that category's items |
| ParametersLogic.FlattenContains | parameters_logic.py:194-200 | every item of a category is in the canonical order |
| ParametersLogic.KeepInSnoc | parameters_logic.py:195-200 | an item is kept exactly when it is active |
| ParametersLogic.KeepInAppend | parameters_logic.py:194-200 | filtering distributes over concatenation |
| ParametersLogic.KeepInMembers | parameters_logic.py:195-200 | the filter keeps exactly the items that are in both lists |
| ParametersLogic.KeepInDistinct | parameters_logic.py:195-200 | filtering a list without duplicates gives a list without duplicates |
| ParametersLogic.ReorderedContents | parameters_logic.py:189-201 | reordering keeps exactly the active items that some category names, without duplicates when the canonical order has none |
| ParametersLogic.ReorderedByCategory | parameters_logic.py:194-200 | reordering proceeds category by category: the category first, then its subitems |
| ParametersLogic.ReorderIdempotent | parameters_logic.py:189-201 | reordering twice is reordering once |
| ParametersLogic.KeepInSame | parameters_logic.py:195-200 | filters by two lists with the same members agree |
| ParametersLogic.FirstIndex | parameters_logic.py:129 | the first position of `x`, or none when absent |
| ParametersLogic.RemoveFirst | parameters_logic.py:129 | `list.remove` removes one occurrence of `x` when present, and nothing else |
| ParametersLogic.ExtendMissing | parameters_logic.py:130 | afterwards the list holds its old items and every added item; each added item that was missing occurs once; other counts do not change |
| ParametersLogic.RemoveEach | parameters_logic.py:138-141 | items not listed keep their counts; a listed item that occurred at most once is gone; no count grows |
| ParametersLogic.NotASubItem | parameters_logic.py:130 | a category's name is none of its subitem keys |
| ParametersLogic.ExpandRemovesCategory | parameters_logic.py:127-130 | when the category's name is active at most once, after expanding it is inactive and all its subitems are active |
| ParametersLogic.CollapseRestoresCategory | parameters_logic.py:136-141 | when each subitem is active at most once, after collapsing the category is active and none of its subitems is |
| ParametersLogic.ToggleKeepsOthers | parameters_logic.py:121-147 | any other item stays active exactly when it was active and is known to the category list |
| ParametersLogic.ToggledDistinct | parameters_logic.py:121-147 | when the panel's item names are distinct, a toggle gives an active list without repeats |
| ParametersLogic.FlattenDistinctNames | parameters_logic.py:49-51 | distinct item names mean distinct category names |
| ParametersLogic.InitialActiveItemsDistinct | parameters_logic.py:45-51 | with distinct item names the initial active list has no repeats |
| ParametersLogic.ToggleOnDistinctItems | parameters_logic.py:121-147 | on an active list without repeats, expanding deactivates the category and activates all its subitems, and collapsing does the reverse |
| ParametersLogic.ExtendMissingPrefix | parameters_logic.py:130 | the extend loop's step appends a subitem exactly when it is missing |
| ParametersLogic.RemoveEachPrefix | parameters_logic.py:138-141 | the remove loop's step removes one subitem |
| ParametersLogic.ReorderedPrefix | parameters_logic.py:194-200 | the outer reorder loop's step appends one category's active items |
| ParametersLogic.KeepInPrefix | parameters_logic.py:197-200 | the inner reorder loop's step appends one subitem when active |
| ParametersLogic.ActiveItems.constructor | parameters_logic.py:45-51 | the list starts as the given items |
| ParametersLogic.ActiveItems.ReorderActiveItems | parameters_logic.py:189-201 | the list becomes its active items in canonical order (`activeItems[:] = ...`) |
| ParametersLogic.ActiveItems.ToggleSubcat | parameters_logic.py:121-147 | the list becomes the expanded or collapsed list, reordered |
| ParametersLogic.Put | parameters_logic.py:96 | `d[k] = v`: a new key goes to the end, an existing key keeps its place, the value is replaced |
| ParametersLogic.PutAll | parameters_logic.py:93-96 | a run of assignments keeps the dict well formed |
| ParametersLogic.PutAllSnoc | parameters_logic.py:93-96 | one more assignment is one more `Put` |
| ParametersLogic.PutAllFromEmpty | parameters_logic.py:230 | assigning keys into an empty dict gives its keys in first-seen order, all with the same choice |
| ParametersLogic.CategoryKeys | parameters_logic.py:96 | a category contributes its stripped name, then one key per sub |
| ParametersLogic.DefaultChoice | parameters_logic.py:24-26 | a fresh group reports its first button; an empty severity list reports nothing |
| ParametersLogic.LayoutGroupShape | parameters_logic.py:225-232 | every panel's dict holds the layout keys once each, in first-seen order, all reporting the first button |
| ParametersLogic.PutEach | parameters_logic.py:93-96 | the same key is assigned in every panel |
| ParametersLogic.PutAllAppend | parameters_logic.py:93-96 | assigning two runs of keys is assigning one then the other |
| ParametersLogic.LayoutCategory | parameters_logic.py:93-112 | one category assigns its keys in every panel |
| ParametersLogic.LayoutCategories | parameters_logic.py:49-119 | the category loop assigns all layout keys in every panel and collects the names when `activeItems` is kept |
| ParametersLogic.CatLayout | parameters_logic.py:34-119 | every panel gets the layout group of the normalised list, and `activeItems` is the initial list |
| ParametersLogic.CreateLayout | parameters_logic.py:225-232 | `numButtonGroups` panels, each filled from empty, with the initial `activeItems` |
| ParametersLogic.PanelRows | parameters_logic.py:212-219 | every row comes from a listed item whose group reports that choice |
| ParametersLogic.Results | parameters_logic.py:211-219 | every row carries a 1-based panel number |
| ParametersLogic.PanelRowsSnoc | parameters_logic.py:213-219 | an item adds a row exactly when its group exists and a button is checked |
| ParametersLogic.PanelRowsComplete | parameters_logic.py:213-219 | every listed item whose group reports a choice gives a row |
| ParametersLogic.ResultsRows | parameters_logic.py:211-219 | every item read in every panel with a checked button appears in the result |
| ParametersLogic.ResultsPrefix | parameters_logic.py:211 | the outer loop's step appends one panel's rows |
| ParametersLogic.PanelRowsPrefix | parameters_logic.py:212 | the inner loop's step appends one item's row |
| ParametersLogic.PanelSelections | parameters_logic.py:212-221 | the inner loop returns exactly the panel's rows |
| ParametersLogic.DisplayResults | parameters_logic.py:203-223 | the nested loops return exactly the rows of all panels, in order |
| ParametersUi.SeverityRanges | parameters_ui.py:103-135 | impact scores are in [0, 2], policy scores in [0.1, 1], information scores in [1, 3] |
| ParametersUi.SeverityValues | parameters_ui.py:103-135 | the values a severity list offers, one per entry and in order |
| ParametersUi.RowsWithin | parameters_ui.py:103-135 | rows whose scores come from a list with values in `[lo, hi]` have scores in `[lo, hi]` |
| ParametersUi.ItemsOf | parameters_ui.py:150 | the category column of the rows |
| ParametersUi.ScoresOf | parameters_ui.py:149-151 | a category's score list has at most one entry per row |
| ParametersUi.Clamped | parameters_ui.py:174-179 | `min(x, 1)`: at most 1 and at most `x`, and one of the two |
| ParametersUi.ItemsOfSnoc | parameters_ui.py:150 | a row adds its category to the column |
| ParametersUi.ScoresOfSnoc | parameters_ui.py:150-151 | a row adds its score to its own category's list only |
| ParametersUi.ScoresOfLength | parameters_ui.py:149-151 | a category's list is as long as the category is frequent |
| ParametersUi.ScoresOfMembers | parameters_ui.py:149-151 | every score listed comes from a row of that category |
| ParametersUi.GroupSizesAreCounts | parameters_ui.py:149-151 | the group sizes are the occurrence counts |
| ParametersUi.GroupingCoversRows | parameters_ui.py:149-155 | the groups together hold every row exactly once |
| ParametersUi.CategoryProducts | parameters_ui.py:154-159 | one product per category |
| ParametersUi.CategoryProductNonNegative | parameters_ui.py:154-159 | non-negative scores give non-negative products |
| ParametersUi.AverageNonNegative | parameters_ui.py:162 | the average of non-negative numbers is non-negative, and that of none is 0 |
| ParametersUi.ImpactExtentNonNegative | parameters_ui.py:149-162 | the impact extent is non-negative |
| ParametersUi.StoredImpactInUnit | parameters_ui.py:174-180 | the clamped extent stored lies in [0, 1] |
| ParametersUi.NoRowsNoImpact | parameters_ui.py:162 | no rows give extent 0 |
| ParametersUi.TwoByTwoGroups | parameters_ui.py:149-151 | with two panels over two categories, the categories keep first-seen order and each category gets one score from each panel |
| ParametersUi.ScoresOfFour | parameters_ui.py:150-151 | the grouping of four rows, row by row |
| ParametersUi.TwoByTwoExtent | parameters_ui.py:149-162 | the extent of two panels over two categories is the average of the per-category products |
| ParametersUi.ImpactExample | parameters_ui.py:149-162 | Medium/High on Operational and High/Low on Safety give extent 0.45 |
| ParametersUi.GroupedSnoc | parameters_ui.py:150-151 | the `defaultdict` step keeps the grouping invariant |
| ParametersUi.GroupedLookup | parameters_ui.py:155-159 | the k-th dict value multiplies to the k-th category product |
| ParametersUi.GroupScores | parameters_ui.py:149-151 | the grouping loop builds the dict the invariant describes |
| ParametersUi.MultiplyScores | parameters_ui.py:156-158 | the inner loop computes the product of the scores |
| ParametersUi.ProductsSnoc | parameters_ui.py:159 | appending the next product keeps the running list correct |
| ParametersUi.ProductsAreCategoryProducts | parameters_ui.py:154-159 | the list built is the per-category products |
| ParametersUi.ComputeImpactExtent | parameters_ui.py:148-162 | the loops compute exactly the average of the per-category products, 0 for no rows |
| ParametersUi.SeverityIndex | parameters_ui.py:199-209 | only Low, Medium and High have an index, and it is below 3 |
| ParametersUi.MapInformationRate | parameters_ui.py:194-222 | fewer than two rows give the incomplete-data error; an unknown level in either row the invalid-level error; otherwise a chart entry |
| ParametersUi.ChartShape | parameters_ui.py:214-218 | the chart is symmetric and its score depends only on the sum of the two indices |
| ParametersUi.InformationRateSymmetric | parameters_ui.py:205-220 | swapping the two levels gives the same result |
| ParametersUi.InformationRateBySum | parameters_ui.py:205-220 | with two known levels the score is the reference scale at the sum of the indices |
| ParametersUi.InformationRateOnScale | parameters_ui.py:205-220 | every rating the chart gives has one of the five scores 0.1, 0.3, 0.75, 0.9, 1 |
| ParametersUi.InformationRateMonotone | parameters_ui.py:205-220 | raising either level never lowers the score |
| ParametersUi.InformationRateExample | parameters_ui.py:205-220 | Medium data rate with High publishers gives ("High", 0.9) |
| ParametersUi.Values.constructor | parameters_ui.py:20-29 | impact 0, information 0.1, policy 1, which meets `Valid()`: impact in [0, 1], information on the chart's scale, policy in [0.1, 1] |
| ParametersUi.Values.UpdateImpact | parameters_ui.py:142-180 | the clamped extent is stored, the colour comes from the unclamped extent, the other factors are kept; rows from the impact buttons keep `Valid()` |
| ParametersUi.Values.UpdateInformationRate | parameters_ui.py:182-191 | a chart entry's score is stored; an error stores nothing; the other factors are kept; `Valid()` is kept |
| ParametersUi.Values.UpdatePolicy | parameters_ui.py:224-229 | the first row's value is stored; the other factors are kept; rows from the policy buttons keep `Valid()` |
| ParametersUi.ConvertToHours | parameters_ui.py:408-414 | a result exists exactly for hours, days and months |
| ParametersUi.ConversionFactors | parameters_ui.py:408-414 | a day is 24 hours and a month 720 hours, i.e. 30 days |
| ParametersUi.TimeWindow.constructor | parameters_ui.py:383-388 | both ends are 1 hour and the difference is 0 |
| ParametersUi.TimeWindow.UpdateTimeDifference | parameters_ui.py:402-406 | the difference becomes `abs(t2 - t1)` and both ends are returned |
| ParametersUi.TimeWindow.UpdateTimeRange1 | parameters_ui.py:390-394 | the lower end becomes the converted value, the upper end is kept, the difference is refreshed |
| ParametersUi.TimeWindow.UpdateTimeRange2 | parameters_ui.py:396-400 | the upper end becomes the converted value, the lower end is kept, the difference is refreshed |
| Cryptoperiod.DecomposeRanges | main.py:75-85 | months are `⌊h / 720⌋`; days, hours and minutes stay below their next unit |
| Cryptoperiod.DecomposeReconstructs | main.py:75-85 | the parts add up to the input, less a remainder under one minute |
| Cryptoperiod.UnitText | main.py:89-95 | a part is never empty |
| Cryptoperiod.PluralExactlyWhenNotOne | main.py:89-95 | a unit takes the plural `s` exactly when its count is not 1 |
| Cryptoperiod.Parts | main.py:87-95 | no part is empty |
| Cryptoperiod.DisplayShape | main.py:87-97 | the text is empty exactly when every unit is 0, and any non-empty text ends with the minutes |
| Cryptoperiod.DisplayEmptyUnderAMinute | main.py:70-97 | a non-negative period gives empty text exactly when it is under a minute |
| Cryptoperiod.OneMonthExample | main.py:70-97 | 720 hours read "1 month, 0 minutes" |
| Cryptoperiod.DayAndAHalfHourExample | main.py:70-97 | 25.5 hours read "1 day, 1 hour, 30 minutes" |
| Cryptoperiod.DayAndAHalfHourDecomposes | main.py:75-85 | 25.5 hours are 1 day, 1 hour and 30 minutes |
| Cryptoperiod.DayHourMinutesParts | main.py:87-95 | those units give the parts "1 day", "1 hour", "30 minutes" |
| Cryptoperiod.DisplayTimeDifference | main.py:70-97 | the statements compute exactly the joined parts of the decomposition |
| Cryptoperiod.EmptyImport | main.py:21-49 | the calculation goes on unless there are no devices, the dialog is enabled and the answer is No |
| Cryptoperiod.WorstCaseProbability | main.py:115-116 | a probability of 0 becomes certain compromise; any other is kept |
| Cryptoperiod.CombinedProbabilityBounds | main.py:119 | the combined probability is at least each input and at most 1, and is 1 when either input is 1 |
| Cryptoperiod.PowLawsSatisfiable | main.py:122-131 | the laws assumed of `**` can be met, so the lemmas that assume them can be applied |
| Cryptoperiod.TotalImpactInUnit | main.py:122-123 | under the laws of `**`, impact and information in [0, 1] give a total impact between 0 and the stored impact |
| Cryptoperiod.FinalRiskInUnit | main.py:127 | the risk is at most each of probability and impact, and non-negative |
| Cryptoperiod.CryptoperiodEndpoints | main.py:131 | under the laws of `**`, no risk gives the upper bound and full risk the lower bound |
| Cryptoperiod.CryptoperiodWithinRange | main.py:131 | under the laws of `**`, a risk in [0, 1] and bounds `0 < t1 <= t2` give a period between the two bounds |
| Cryptoperiod.ShowResults | main.py:99-137 | the range error comes exactly when the lower bound exceeds the upper; a decline exactly when the range is fine and the dialog says No; otherwise the formula |
| Cryptoperiod.DeviceProbabilityUsed | main.py:105-119 | with no devices the combined probability is 1; with valid devices their probability is used as it is |
| Cryptoperiod.ComputedOutcomeBounds | main.py:105-131 | on valid inputs the outcome is computed, with its probability in [policy, 1], its impact at most the stored impact, its risk at most its probability, and its period between the two bounds |
| Cryptoperiod.ShowResultsOf | main.py:99-137 | on the session, values and window it returns the `ShowResults` of what it reads; the ends are kept and the difference is refreshed; when the values meet `Valid()`, a computed outcome has those bounds |
| SharedFunctions.HexDigitValue | shared_functions.py:17-18 | a hex digit is worth less than 16 |
| SharedFunctions.HexChar | shared_functions.py:24 | `{:x}` of a digit is a lower-case hex digit of that value |
| SharedFunctions.ToLower | shared_functions.py:24 | lower-casing acts character by character |
| SharedFunctions.HexPairValue | shared_functions.py:17-18 | `int(s[i:i+2], 16)` is a byte |
| SharedFunctions.ParseColour | shared_functions.py:15-18 | the components of a colour are bytes |
| SharedFunctions.HexByte | shared_functions.py:24 | `{:02x}` gives two lower-case digits that parse back to the byte |
| SharedFunctions.FormatColour | shared_functions.py:24 | the output is a lower-case `#rrggbb` colour |
| SharedFunctions.LerpBetween | shared_functions.py:20-22 | for a factor in [0, 1] each component lies between its endpoints, and is the start at 0 and the end at 1 |
| SharedFunctions.InterpolateColour | shared_functions.py:11-24 | the output is a lower-case colour whose components lie between the endpoints; factor 0 and 1 give the endpoints, lower-cased |
| SharedFunctions.ParseFormat | shared_functions.py:15-24 | formatting then parsing a colour gives it back |
| SharedFunctions.HexCharOfDigit | shared_functions.py:17-24 | formatting the value of a digit gives the digit, lower-cased |
| SharedFunctions.HexBytePair | shared_functions.py:17-24 | formatting the value of two digits gives the two digits, lower-cased |
| SharedFunctions.HexPairLower | shared_functions.py:17-24 | the same, for a pair inside a string |
| SharedFunctions.FormatParse | shared_functions.py:15-24 | parsing then formatting a colour gives it back, lower-cased |
| SharedFunctions.ToLowerUnchanged | shared_functions.py:44-49 | lower-casing leaves a string without upper-case letters unchanged |
| SharedFunctions.BreakpointColoursWellFormed | shared_functions.py:44 | every colour of the scale is a `#rrggbb` colour |
| SharedFunctions.FindSegment | shared_functions.py:46-52 | the segment found is the first one whose closed interval holds the value, or none holds it |
| SharedFunctions.SegmentFactor | shared_functions.py:48 | the factor within a segment lies in [0, 1] |
| SharedFunctions.BandColour | shared_functions.py:44-52 | the colour is a `#rrggbb` colour, and the top colour when no segment holds the value |
| SharedFunctions.DisplayedValue | shared_functions.py:54 | `min(value, 1)` |
| SharedFunctions.UpdateResultButton | shared_functions.py:40-56 | the button gets a valid colour and a value of at most 1 |
| SharedFunctions.UnitValueHasSegment | shared_functions.py:46-52 | every value in [0, 1] lies in some segment |
| SharedFunctions.OutOfRangeTopColour | shared_functions.py:51-52 | a value outside [0, 1] gets the top colour |
| SharedFunctions.SharedBreakpointsPickLowerSegment | shared_functions.py:46-50 | a value at a shared breakpoint falls in the lower segment |
| SharedFunctions.ScaleBottom | shared_functions.py:44-50 | 0 is grey |
| SharedFunctions.ScaleTop | shared_functions.py:44-50 | 1 is the top colour |
| Text.Strip | import_devices_ui.py:39 | the result has no leading or trailing whitespace, and is empty exactly when the input is all whitespace |
| Text.StripIsSlice | import_devices_ui.py:39 | the result is a slice of the input with only whitespace cut off either end |
| Text.StripLeadingSpace | parameters_logic.py:88-96 | stripping ignores the leading space a label gets |
| Text.Join | main.py:97 | joining non-empty parts gives empty text exactly when there are no parts |
| Text.NatToDecimal | main.py:89 | decimal digits without a leading zero |
| Text.DecimalRoundTrip | main.py:89 | the decimal text reads back as the number |
| Seqs.Count | import_devices_ui.py:101-104 | a count is positive exactly for members |
| Seqs.DedupFacts | import_devices_ui.py:106 | a dict's keys are the elements seen, each once |
| Seqs.CountsOfDedupSum | import_devices_ui.py:101-106 | the counts of the distinct elements add up to the length |
| Seqs.ProductInsert | import_devices_ui.py:134 | inserting a factor anywhere multiplies the product by it |
| Seqs.ProductInUnit | import_devices_ui.py:134 | a product of factors in [0, 1] is in [0, 1] |
| Seqs.ProductReplace | import_devices_ui.py:134 | lowering one factor in [0, 1] never raises the product |
| Seqs.ProductReplaceStrict | import_devices_ui.py:134 | it lowers the product strictly when every other factor is positive |

## Left out

- Qt widgets, layouts, style sheets, tooltips, dialogs and signal wiring are
  not modelled. Dialog answers and widget texts are parameters, and a button
  group is the choice it reports.
- nvd.py is not part of this model. `HandleSearch` takes the devices the
  lookup returns as a parameter. The exception handler around the search
  (an error popup) is not modelled.
- `handle_group_file_load` only from the chosen file on: the file dialog and
  the file read are left out, and the lines are a parameter.
- `HandleSearch`: the automatic `get_import_values()` calls after each edit
  are not modelled. They only refresh a button, and `GetImportValues`
  models the computation itself.
- `print`, the `:.2f` text of the result buttons, the information-rate
  colour map and the button text are left out. They are display only.
- Floating point: reals are exact.
- Python's `**` with a real exponent becomes the parameter `rpow`.
- `ParametersUi.Values.UpdateImpact` stores the clamped extent without
  `round(.., 2)`. Rounding to two decimals has no exact counterpart over
  the reals.
- `ParametersUi.Values.UpdateInformationRate` on an error string stores
  nothing. The source raises at the unpacking, so the exception itself is
  not modelled.
- `ParametersUi.Values.UpdatePolicy` requires a non-empty list. The policy
  panel has one category with a checked button, so the source never
  reads an empty list.
- `ParametersUi.TimeWindow.UpdateTimeRange1` and `UpdateTimeRange2`
  require a unit from the combo box. For any other unit `convert_to_hours`
  returns None, which the model does not store.
- `Cryptoperiod.ShowResults` and `Cryptoperiod.ShowResultsOf` require a
  non-zero lower bound. The spin boxes start at 1, so the division by zero
  the source would raise cannot happen.
- The "do not show again" checkbox in `empty_import` is left out.
  `EmptyImport` takes the current setting as the parameter `showMessageBox`.
- `ImportDevices.QuantizedExploitInUnit`: exploitability scores lie in
  [0, 3.9] by assumption. This is a precondition of the bound lemmas, not a
  check the source makes.
- `calculate_resilience` with an impact outside NONE/LOW/HIGH (an
  UnboundLocalError in the source) cannot occur. Impacts are normalised on
  import, and the manual dialog offers only those three.
- The running `totalSeverityValue` and `numCategories` of `display_results`
  are left out. They are never returned.
- `Text.Strip`: only ASCII whitespace counts as whitespace.
- The dicts that `cat_layout` fills in place are returned as new values.
  The model does not capture sharing between the caller's dicts.
- `update_device_compromise_button`, the help window, the detailed-search
  toggle, `switch_view` and the view-setup functions are left out. They
  are UI display or layout.
