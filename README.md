# Rhizome dashboard transforms, in Dafny

This project models the small pieces of logic inside the Rhizome dashboard
front end that have something stateable in them.

- **`treeify`** turns a flat list of location records into a forest. It indexes the records by an id key and scans them back to front. Each record goes onto its parent's `children` list, with a `parentNode` back-link, or onto `roots`.
- **The indicator dropdown's tree search.** `findMatches` walks the tree in pre-order and returns flagged copies of the matching nodes. `filterMenu` adds the three-character gate and concatenates the results over the top-level items.
- **The editable table's `updateStats`.** It keeps completion counters: one for the whole table, one per row and one per column.
- **The sortable data table.** `sortColumns` has a three-state click cycle, and `render` decides among nothing, the table and the empty-content node.
- **The dashboard bullet-chart section.** `_targetRanges` turns an indicator's bounds into range names and inner boundaries. `_valueText` is the threshold classifier.
- **The older bullet chart component.** It covers the `value`, `marker`, `max`, `indicator` and `title` selectors and the `fill` colour rule.
- **The choropleth map helpers.** These are the bounding box of the polygon points, its centre, the exclusion of border features, and each location's class and fill.
- **The chart wizard store.**
  - the campaign and time-range filters;
  - `applyChartDef`;
  - adding a campaign, and adding and removing selected indicators;
  - the guards of `previewChart` and the indicator ids it queries;
  - `onSaveChart`;
  - the location list pipeline, which maps, sorts by title, reverses and then calls `treeify`.

JavaScript values are modelled by `Js.Value`: undefined, null, booleans, numbers, NaN, the infinities and strings. Numbers are exact reals. `Js.Option` stands for a value that may be null or undefined.

Two modules are shared:
- `Sorting` models lodash's stable `_.sortBy` as an insertion sort. It proves that the sort orders its input, permutes it and is stable.
- `Js` holds JavaScript truthiness, `_.isFinite`, `||` used as a default, and the ordering of strings.

The form follows the source:
- `treeify` is a method that updates an array of records in place.
- `updateStats` is a method with nested loops, inside a `Table` class whose `stats` field it reassigns.
- `marker`'s loop and `fill`'s backward scan are methods with loops.
- The chart wizard store is a class whose handlers update its fields.
- Everything else is functions and lemmas.

The methods with loops are proved against a specification function: `Treeify.Roots` and `Treeify.Linked`, `TableEditable.SpecStats`, `Bullet.Mean` and `Bullet.FillOf`. The location list is proved against `ChartWizardStore.Arranged`. The source's promises are then proved about those functions. The store handlers `ApplyChartDef`, `PreviewChart`, `OnAddCampaign`, `OnAddIndicator`, `OnRemoveIndicator` and `OnSaveChart` state their new fields and results directly in their contracts.

## Model

| member | source | states |
|---|---|---|
| Treeify.Treeify | webapp/src/data/transform/treeify.js:3-26 | The returned roots are the positions of the root records, and every record ends up exactly as `Linked` describes it: same fields, its children appended to any `children` list it already had, and `parentNode` set to the indexed parent or to null |
| Treeify.Attach | webapp/src/data/transform/treeify.js:10-18 | Linking record k to its indexed parent keeps the loop invariant: every record is linked as the scan from k onward would leave it |
| Treeify.MakeRoot | webapp/src/data/transform/treeify.js:19-22 | Making record k a root (null `parentNode`) keeps the same loop invariant |
| Treeify.IndexPrefix | webapp/src/data/transform/treeify.js:4 | `_.indexBy`: a key is in the index iff some record has that id, and it maps to the last such record |
| Treeify.LastWithIdSpec | webapp/src/data/transform/treeify.js:4 | The indexed record has the id, and no later record has it; when records share an id, the last one wins |
| Treeify.ParentOfSpec | webapp/src/data/transform/treeify.js:10-11 | A record has a parent iff its `parent` field is truthy and is an indexed id; the parent is the last record with that id |
| Treeify.RootsFromSpec | webapp/src/data/transform/treeify.js:7-21 | The roots are exactly the records without a resolvable parent, in strictly decreasing position order (reverse input order) |
| Treeify.ChildrenFromSpec | webapp/src/data/transform/treeify.js:7-18 | A record's children are exactly the records whose parent resolves to it, in reverse input order |
| Treeify.LinkedSpec | webapp/src/data/transform/treeify.js:13-20 | A linked record keeps its fields. It gains a `children` list iff it had one or receives a child, and that list is extended by its children. Its `parentNode` is null for a root and the parent record otherwise |
| Treeify.Placement | webapp/src/data/transform/treeify.js:7-22 | Every record lands in exactly one place: in `roots` iff it is a root, otherwise in the `children` of exactly its parent. Both lists are in reverse input order |
| Treeify.LoopUnreachable | webapp/src/data/transform/treeify.js:10-18 | No cycle check: records on a parent loop are never roots, and none is reachable from a root by following children |
| Treeify.SelfParentUnreachable | webapp/src/data/transform/treeify.js:10-18 | A record whose parent id is its own id is unreachable from the roots |
| IndicatorDropdownMenu.Flagged | ui/js/component/IndicatorDropdownMenu.jsx:14 | The copy of a matched node has `filtered` set and otherwise the node's own title, properties and children |
| IndicatorDropdownMenu.FindMatches | ui/js/component/IndicatorDropdownMenu.jsx:10-24 | Every entry returned is a flagged node whose title matches the pattern |
| IndicatorDropdownMenu.FindMatchesIsPreorder | ui/js/component/IndicatorDropdownMenu.jsx:10-24 | `findMatches` equals the flagged matching nodes of the subtree in pre-order: a node before its descendants, children in order, non-matching nodes skipped but their subtrees still searched |
| IndicatorDropdownMenu.FindMatchesInIsPreorder | ui/js/component/IndicatorDropdownMenu.jsx:17-21 | The search over a list of children equals the flagged matches of their pre-order walks, concatenated in order |
| IndicatorDropdownMenu.MarkMatchesAppend | ui/js/component/IndicatorDropdownMenu.jsx:19 | Flagging the matches distributes over concatenation, as `matches.concat` needs |
| IndicatorDropdownMenu.MarkMatchesCount | ui/js/component/IndicatorDropdownMenu.jsx:13-14 | One entry per matching node |
| IndicatorDropdownMenu.FindMatchesCount | ui/js/component/IndicatorDropdownMenu.jsx:10-24 | The number of entries equals the number of nodes in the subtree whose title matches |
| IndicatorDropdownMenu.FilterMenu | ui/js/component/IndicatorDropdownMenu.jsx:26-34 | A pattern shorter than three characters returns the items unchanged; otherwise every entry is a flagged match |
| IndicatorDropdownMenu.FilterMenuIsPreorder | ui/js/component/IndicatorDropdownMenu.jsx:31-33 | With a pattern of three or more characters, the result is the concatenation in item order of each top-level item's matches, and its length is the number of matching nodes |
| TableEditable.ComputeStats | ui/js/component/table-editable/index.js:32-84 | The nested loops compute exactly `SpecStats`: total, per-row and per-column counters of editable and complete cells; with no rows, zero totals and empty lists |
| TableEditable.CountRow | ui/js/component/table-editable/index.js:50-78 | One pass of the row loop turns the statistics of the rows so far into those of one more row |
| TableEditable.OpenRow | ui/js/component/table-editable/index.js:52-54 | Opening a row adds one fresh counter for it |
| TableEditable.OpenAndCountCell | ui/js/component/table-editable/index.js:56-74 | One pass of the cell loop opens the column counter if it is new and counts the cell |
| TableEditable.CountCell | ui/js/component/table-editable/index.js:62-72 | An editable cell increments total, its row and its column; a non-null editable cell also increments complete; nothing else changes |
| TableEditable.Table.UpdateStats | ui/js/component/table-editable/index.js:32-84 | `stats` is replaced by the statistics of the current rows; the rows are unchanged |
| TableEditable.StatsConsistent | ui/js/component/table-editable/index.js:64-71 | For the total and for every row and column counter, 0 ≤ complete ≤ total |
| TableEditable.StatsShape | ui/js/component/table-editable/index.js:42-60 | One row counter per row, including rows with no editable cell; one column counter per column index up to the longest row; no rows give zero totals and empty lists |
| TableEditable.RowsSumToTotal | ui/js/component/table-editable/index.js:64-71 | Summing the row counters gives the total counter, for both `total` and `complete` |
| TableEditable.ColumnsSumToTotal | ui/js/component/table-editable/index.js:64-71 | Summing the column counters gives the total counter, for both `total` and `complete` |
| TableEditable.CountBounds | ui/js/component/table-editable/index.js:62-71 | Counting cells gives 0 ≤ complete ≤ total ≤ number of cells |
| TableEditable.WidthIsLongest | ui/js/component/table-editable/index.js:56-60 | The number of columns is the length of the longest row |
| SimpleDataTable.Lower | webapp/src/03-organisms/SimpleDataTable.jsx:67 | `toLowerCase` keeps the length, maps each upper-case ASCII letter to its lower-case letter and keeps every other character |
| SimpleDataTable.IsSortAscending | webapp/src/03-organisms/SimpleDataTable.jsx:67 | The order counts as ascending iff it is present and its first three characters are 'a', 's', 'c' in either case |
| SimpleDataTable.SortColumns | webapp/src/03-organisms/SimpleDataTable.jsx:65-74 | Another column asks for (column, descending); the current column not ascending asks for (column, ascending); the current column ascending clears the sort |
| SimpleDataTable.KeyUndefinedIffOrderUndefined | webapp/src/03-organisms/SimpleDataTable.jsx:71-72 | The requested key is undefined exactly when the requested order is; otherwise it is the clicked column |
| SimpleDataTable.ClickCycle | webapp/src/03-organisms/SimpleDataTable.jsx:68-72 | Repeated clicks on one column cycle descending, ascending, unsorted, descending |
| SimpleDataTable.MissingOrderNotAscending | webapp/src/03-organisms/SimpleDataTable.jsx:67 | A missing or empty sort order is not ascending |
| SimpleDataTable.OrderWordsDetected | webapp/src/03-organisms/SimpleDataTable.jsx:67-72 | 'ascending' is detected as ascending and 'descending' is not |
| SimpleDataTable.AscendingIgnoresCase | webapp/src/03-organisms/SimpleDataTable.jsx:67 | The 'asc' prefix is detected whatever its case: 'ASC' and 'Ascending' are ascending |
| SimpleDataTable.Render | webapp/src/03-organisms/SimpleDataTable.jsx:102-141 | Nothing iff there is no data and the empty content is null. The table of rows iff there is data. Otherwise the empty content inside the table iff `isEmptyContentInTable`, and alone if not |
| BulletChartSection.KeptSpec | webapp/src/components/organisms/dashboard/BulletChartSection.jsx:53-65 | A target is kept iff it comes from a bound whose `mn_val` and `mx_val` are both finite |
| BulletChartSection.TargetsOrdered | webapp/src/components/organisms/dashboard/BulletChartSection.jsx:66 | The targets are a permutation of the kept bounds, in ascending `mn_val` order, with bounds sharing an `mn_val` in input order |
| BulletChartSection.TargetRanges | webapp/src/components/organisms/dashboard/BulletChartSection.jsx:51-79 | One name per sorted target |
| BulletChartSection.NamesAt | webapp/src/components/organisms/dashboard/BulletChartSection.jsx:78 | The i-th name is the i-th sorted target's `bound_name` |
| BulletChartSection.UniqSpec | webapp/src/components/organisms/dashboard/BulletChartSection.jsx:74 | `_.uniq` keeps exactly the values of its input, each once |
| BulletChartSection.UniqFirstOccurrenceOrder | webapp/src/components/organisms/dashboard/BulletChartSection.jsx:74 | `_.uniq` lists values in the order of their first occurrence |
| BulletChartSection.BoundariesSpec | webapp/src/components/organisms/dashboard/BulletChartSection.jsx:69-76 | The boundaries are distinct endpoints of the kept targets. They are the distinct endpoints without the first and the last, and empty when fewer than two are distinct |
| BulletChartSection.AdjoiningRanges | webapp/src/components/organisms/dashboard/BulletChartSection.jsx:51-79 | Ranges [lo, mid] and [mid, hi], given in either order, give the names in ascending order and the single boundary mid, e.g. [10, 20] and [20, 30] give [20] |
| BulletChartSection.Rank | webapp/src/components/organisms/dashboard/BulletChartSection.jsx:97-102 | The name index is at most 2. It is 2 without thresholds. With one threshold it is 0 below it and 2 otherwise. With ordered thresholds it is the number of thresholds at or below the value |
| BulletChartSection.ValueText | webapp/src/components/organisms/dashboard/BulletChartSection.jsx:93-106 | A null or non-finite value gets '' |
| BulletChartSection.ValueTextRanges | webapp/src/components/organisms/dashboard/BulletChartSection.jsx:97-102 | Below the first threshold gets the first name; from the first up to the second gets the second name; anything else the third |
| BulletChartSection.RankMonotone | webapp/src/components/organisms/dashboard/BulletChartSection.jsx:97-102 | With ordered thresholds, a larger value never gets an earlier label than a smaller one |
| BulletChartSection.NoThresholds | webapp/src/components/organisms/dashboard/BulletChartSection.jsx:97-102 | Without thresholds, every finite value falls through to the third name |
| Bullet.LastValue | ui/js/component/chart/bullet.js:31-39 | `value` is null iff there are no datapoints, otherwise the last datapoint's value |
| Bullet.Marker | ui/js/component/chart/bullet.js:41-65 | `marker` is null iff there are fewer than two datapoints, otherwise the mean of all but the last |
| Bullet.SumBackward | ui/js/component/chart/bullet.js:51-55 | The backward loop adds up exactly the first n values |
| Bullet.MeanBounds | ui/js/component/chart/bullet.js:59 | The average lies between the smallest and largest datapoint averaged |
| Bullet.Max | ui/js/component/chart/bullet.js:67-76 | `max` is 0 without datapoints or without an indicator |
| Bullet.MaxBoundsAll | ui/js/component/chart/bullet.js:72-75 | Otherwise `max` is at least every datapoint value and every range end, and is one of them |
| Bullet.MaxDefaultRange | ui/js/component/chart/bullet.js:72 | With falsy ranges, the default range ending at 0 keeps `max` at least 0 |
| Bullet.MaxEmptyRanges | ui/js/component/chart/bullet.js:74-75 | An empty list of ranges makes `max` NaN |
| Bullet.FirstIndicator | ui/js/component/chart/bullet.js:78-82 | `indicator` is the first of `indicators`, or null when the list is missing or empty |
| Bullet.Title | ui/js/component/chart/bullet.js:84-90 | `title` is '' without an indicator, the truthy `short_name` otherwise, and '' when that is falsy |
| Bullet.FillOf | ui/js/component/chart/bullet.js:97-121 | Good when value − marker > 0.25; bad when it is negative; otherwise bad iff some range named 'bad' has start ≤ value < end, and neutral if not |
| Bullet.Fill | ui/js/component/chart/bullet.js:97-121 | The backward scan computes `FillOf`, with a null value or marker read as 0 as JavaScript's subtraction and comparison read it |
| Bullet.SingleDatapointFill | ui/js/component/chart/bullet.js:172 | With one datapoint the marker is null, read as 0, so a value above 0.25 is always good |
| Bullet.DrawRangesAsWritten | ui/js/component/chart/bullet.js:131 | The ranges `draw` passes to `fill`, as written, are always empty: a list of indicators has no `ranges` property |
| Bullet.BadRangeNeverSeen | ui/js/component/chart/bullet.js:131-172 | As written, a value within 0.25 above the marker is always neutral, whatever bad range the indicator has |
| Bullet.BadRangeExample | ui/js/component/chart/bullet.js:131-172 | One indicator with a bad range [0, 10) and value = marker = 5: neutral as written, bad with the indicator's own ranges |
| Bullet.DrawRanges | ui/js/component/chart/bullet.js:131 | The intended ranges: none without an indicator, otherwise the first indicator's ranges when truthy and none otherwise |
| Bullet.DrawRangesReachFill | ui/js/component/chart/bullet.js:131-172 | With the intended ranges, a value within 0.25 above the marker is bad iff one of the indicator's bad ranges holds it |
| Choropleth.CalculateBounds | webapp/src/chart/choropleth.js:29-51 | No features give bounds [[0, 0], [0, 0]] |
| Choropleth.MinSpec | webapp/src/chart/choropleth.js:45-48 | `d3.min` is undefined iff the list is empty, otherwise a lower bound that is attained |
| Choropleth.MaxSpec | webapp/src/chart/choropleth.js:45-48 | `d3.max` is undefined iff the list is empty, otherwise an upper bound that is attained |
| Choropleth.FlattenRingsSpec | webapp/src/chart/choropleth.js:39 | A point of the flattened rings is a point of one of the rings, and every ring point is kept |
| Choropleth.PointsSpec | webapp/src/chart/choropleth.js:37-43 | A point is counted iff it lies on a ring of some feature that is not a MultiPolygon |
| Choropleth.MultiPolygonIgnored | webapp/src/chart/choropleth.js:38-40 | A MultiPolygon feature contributes no points |
| Choropleth.BoundsContainPoints | webapp/src/chart/choropleth.js:37-50 | Every counted point satisfies left ≤ lng ≤ right and bottom ≤ lat ≤ top |
| Choropleth.BoundsAttained | webapp/src/chart/choropleth.js:45-50 | Each of left, right, bottom and top is attained by some counted point |
| Choropleth.CalculateCenter | webapp/src/chart/choropleth.js:53-58 | Each coordinate of the centre is undefined iff one of its two bounds is, and otherwise lies equally far from both |
| Choropleth.CenterInside | webapp/src/chart/choropleth.js:53-58 | The centre is the midpoint of left and right and of bottom and top, and lies inside the bounds |
| Choropleth.CenterOfFeatures | webapp/src/chart/choropleth.js:29-58 | For a non-empty list of features, the centre is undefined (NaN) exactly when no point is counted, and otherwise lies inside the bounds |
| Choropleth.WithoutBorders | webapp/src/chart/choropleth.js:157 | Every kept feature is a feature of the input whose `isBorder` is falsy, and no more features are kept than given |
| Choropleth.WithoutBordersSpec | webapp/src/chart/choropleth.js:157 | The kept features are exactly those whose `isBorder` flag is falsy |
| Choropleth.BorderIgnored | webapp/src/chart/choropleth.js:157-159 | A border feature changes neither the kept features nor the bounds |
| Choropleth.ClassName | webapp/src/chart/choropleth.js:203-212 | The class is 'location clickable' iff the value is finite, and 'location' otherwise |
| Choropleth.FillColour | webapp/src/chart/choropleth.js:214-217 | Non-finite values are filled '#fff'; finite values take the colour scale's colour |
| Choropleth.ClickableIffScaled | webapp/src/chart/choropleth.js:203-217 | A location is clickable iff its fill comes from the colour scale (for scales that never give '#fff') |
| ChartWizardStore.Store.constructor | webapp/src/stores/ChartWizardStore.js:15-27 | The initial data: empty lists, zero indices, no chart displayable, an empty chart definition |
| ChartWizardStore.FilterCampaignByLocation | webapp/src/stores/ChartWizardStore.js:29-33 | A campaign is kept iff it is in the input and its office name equals the location's name |
| ChartWizardStore.CampaignsOfLocation | webapp/src/stores/ChartWizardStore.js:29-33 | Exactly the campaigns whose office name equals the location's name are kept, in their original order |
| ChartWizardStore.FindChart | webapp/src/stores/ChartWizardStore.js:36 | `_.find` gives nothing iff no chart type has the name, otherwise the first that has it |
| ChartWizardStore.FilterTimeRangeByChartType | webapp/src/stores/ChartWizardStore.js:35-40 | The filter fails iff the chart type is unknown |
| ChartWizardStore.TimeRangesOfChart | webapp/src/stores/ChartWizardStore.js:35-40 | For a known chart type, exactly the time ranges whose value is among its `timeRadios` are kept, in their original order |
| ChartWizardStore.FindIndex | webapp/src/stores/ChartWizardStore.js:43-45 | `_.findIndex` is -1 iff nothing matches, otherwise the first match |
| ChartWizardStore.Store.ApplyChartDef | webapp/src/stores/ChartWizardStore.js:42-46 | Group and format indices are the `_.findIndex` of the saved values. `timeValue` is the index of the saved time range, or 0 when it is missing, so it is never negative. Nothing else changes |
| ChartWizardStore.QueryIds | webapp/src/stores/ChartWizardStore.js:185 | One id per selected entry, in selection order, undefined for an undefined entry |
| ChartWizardStore.Store.PreviewChart | webapp/src/stores/ChartWizardStore.js:171-185 | An empty selection turns `canDisplayChart` off and builds no query. Otherwise it throws iff the group index is out of range, no campaign is set or the time index is out of range, and else the query lists the selected ids in order. No field but `canDisplayChart` changes |
| ChartWizardStore.Store.OnAddCampaign | webapp/src/stores/ChartWizardStore.js:131-134 | The campaign becomes the indexed one, or undefined for an unknown index, nothing else changes, then the preview runs |
| ChartWizardStore.Store.OnAddIndicator | webapp/src/stores/ChartWizardStore.js:121-124 | Exactly one entry, the indexed indicator or undefined, is appended; earlier entries are unchanged; then the preview runs and its outcome is returned |
| ChartWizardStore.Store.OnRemoveIndicator | webapp/src/stores/ChartWizardStore.js:126-129 | Every selected entry with that id is removed and returned, the rest keep their order, then the preview runs and its outcome is returned |
| ChartWizardStore.RemovalSpec | webapp/src/stores/ChartWizardStore.js:127 | The kept entries are exactly the entries without the id and the removed ones all have it. Together they are the old selection, and removing twice is removing once |
| ChartWizardStore.AddThenRemove | webapp/src/stores/ChartWizardStore.js:121-127 | Adding an indicator that was not selected and then removing its id restores the selection |
| ChartWizardStore.FilterPartition | webapp/src/stores/ChartWizardStore.js:127 | The kept and removed entries together are a permutation of the input |
| ChartWizardStore.SelectedIds | webapp/src/stores/ChartWizardStore.js:160-162 | The ids of the selection in selection order; it fails iff some entry is undefined |
| ChartWizardStore.MergeField | webapp/src/stores/ChartWizardStore.js:166-168 | The merge takes the incoming value unless it is undefined |
| ChartWizardStore.Store.OnSaveChart | webapp/src/stores/ChartWizardStore.js:158-169 | Fails iff an entry is undefined or an index is out of range. Otherwise it writes the selected ids, in order, and merges group, time range and format into the chart definition |
| ChartWizardStore.LocationList | webapp/src/stores/ChartWizardStore.js:73-83 | The location records, sorted by title and reversed, are linked in place by `treeify` on `value`; the roots are those of the arranged list |
| ChartWizardStore.Arranged | webapp/src/stores/ChartWizardStore.js:74-82 | Mapping, sorting and reversing keep one record per location, and the arranged records are a permutation of the mapped ones |
| ChartWizardStore.ReversePermutes | webapp/src/stores/ChartWizardStore.js:82 | `reverse` loses, adds and duplicates nothing |
| ChartWizardStore.LocationOrder | webapp/src/stores/ChartWizardStore.js:73-83 | After sort, reverse and `treeify`, the roots and every children list are in ascending title order |
| ChartWizardStore.StrLtOrder | webapp/src/stores/ChartWizardStore.js:81 | Comparison of titles is a strict total order, as `_.sortBy` on strings needs |
| Sorting.SortBySorted | webapp/src/stores/ChartWizardStore.js:81 | `_.sortBy` returns its input in ascending key order |
| Sorting.SortByPermutes | webapp/src/stores/ChartWizardStore.js:81 | `_.sortBy` loses, adds and duplicates nothing |
| Sorting.SortByStable | webapp/src/stores/ChartWizardStore.js:81 | `_.sortBy` keeps elements sharing a key in input order |

## Left out

- Rendering is not modelled: d3, SVG and the DOM, including `draw` except `fill`, `initialize`/`update` except the class and fill rule, tooltips and legends. These are foreign library calls.
- Map projection, scale fitting and the d3 colour scales are not modelled. They are floating-point numerics inside d3. The colour scale is a parameter of `Choropleth.FillColour`.
- All numbers are exact reals, not IEEE doubles: rounding in `marker`'s division and the centre's midpoint is not modelled.
- Only polygon coordinates are modelled, as rings of points. Any other non-MultiPolygon geometry type is read the same way.
- The regular expression of the dropdown search is an abstract matcher, a parameter. Its stateful `lastIndex` under the 'g' flag is not modelled.
- `_.indexBy` keys are `Js.Value`s compared by equality. JavaScript's coercion of property keys to strings (1 and "1" naming the same key) is not modelled. This affects `treeify` and the store's indicator index.
- Loose `==` on office and location names is string equality. lodash's `isMatch` in `_.find`, `_.findIndex` and `_.remove` is equality of the one property matched.
- `Treeify.Treeify`: the records are values in an array, and the `parentNode` and `children` links are positions in that array, not object references. Record identity and aliasing are not modelled.
- `SimpleDataTable.Lower` lowers only ASCII letters.
- `SimpleDataTable.SortColumns`: a column key is a string. A numeric `sortKey`, which the prop types also allow, is not modelled.
- `SimpleDataTable.Render`: `emptyContent` is either null or a node. An undefined `emptyContent` is not told apart from a node, and the column and header rendering is left out.
- `Bullet.Max`: datapoint values and range ends are numbers. `d3.max` skipping undefined or NaN entries is not modelled.
- `length` in bullet.js comes from a component mixin that is not part of this model. The model takes the number of datapoints.
- The means in `_marker`, `_domain`, `_fill` and `_matchCampaign` of the bullet-chart section are not modelled. They use float division, lodash min/max of possibly empty lists, d3 scales and dates.
- `ChartWizardStore.Store.OnRemoveIndicator`: `_.remove`'s in-place splice is modelled as reassigning the filtered selection.
- `ChartWizardStore.FilterCampaignByLocation`: a campaign without an office, which makes the source throw, is not modelled.
- `chartDefinitions` (chart types, groups, formats, times) is a module the store imports. It is not part of this model; its lists are parameters.
- `ChartWizardStore.Store.PreviewChart` stops at the guards and the list of indicator ids. It returns the ids the query would request, or that reading `groups`, `campaign` or `times` throws. The lists of groups and times are parameters. Everything after that, including turning `canDisplayChart` on, is out of the model: the dates, the query and the API call, `processChartData` and `trigger`.
- The store's other handlers are not modelled: `onInitialize`, `onChangeChart`, the radio setters, `onEditTitle` and the location handlers. They are API and promise plumbing or single assignments.
- `ancestryString`, which runs after `treeify` in the location list pipeline, is not part of this model.
- `ChartWizardStore.LocationOrder` states ascending title order. Ties keep their original order through `Sorting.SortByStable` and the positional order `treeify` produces. It is not restated as one lemma about titles.
- Number formatting through `d3.format` is not modelled.
- `Js.StrLt` compares strings by Unicode code point. JavaScript compares UTF-16 code units, which orders characters above U+FFFF differently from those in U+E000 to U+FFFF. This affects `_.sortBy('title')` and `ChartWizardStore.LocationOrder` only for titles with such characters.

## Findings

| source | as written | input that shows it | evidently intended | confidence | as-written member | corrected member |
|---|---|---|---|---|---|---|
| ui/js/component/chart/bullet.js:131 | `(this.indicator && this.indicators.ranges) \|\| []` reads `ranges` off the list of indicators, which is undefined, so `fill` always gets no ranges | one indicator with a 'bad' range [0, 10), value = marker = 5: neutral instead of bad | `this.indicator.ranges`, the first indicator's ranges | not executed | Bullet.BadRangeNeverSeen | Bullet.DrawRangesReachFill |
