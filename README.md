# data-washer-web engine, modelled in Dafny

This project models the engine of the data-washer-web prototype. The engine turns
rectangular regions of a spreadsheet into one unified schema, and that schema into SQL:

- the cell helpers: bijective base-26 column labels, merge-aware cell reads, merge lookup and
  selection tests in the grid;
- header derivation (`getRegionFields`): one header per column (vertical regions) or per row
  (horizontal regions), with a last-row fallback, cascade names that skip repeated merge ranges,
  and attribute entries that follow their item;
- region materialisation (`processRegionToTable`): header and data rows are sliced, horizontal
  regions are transposed, and attribute columns are interleaved, with the blank-parent gating;
- schema reconciliation in both strategies:
  - vertical by position;
  - vertical by name, with first-fit grouping;
  - horizontal join-key group merging;
  - alias and physical-alias de-duplication;
- SQL synthesis:
  - the vertical `UNION ALL` query;
  - the horizontal JOIN chain with its `1=1` fallback;
  - the left fold of SQL rule wrappers;
  - the dispatch in `buildExecutionSql`;
  - the DROP/CREATE/INSERT statements of `createTableFromData`;
- the two rule registries: JavaScript transforms that fail closed, and validation dispatch;
- the editing logic of the panels:
  - the field-configuration migration on refresh, reordering and rule toggling;
  - region and attribute list edits and the attribute-range check;
  - the join dialog's slave and join-key lists and the strategy defaults;
  - the validation expression builder and its rule list;
- the shallow-merge `Store`, with its listener list.

Each source file is one Dafny module. Six shared modules sit beside them:
- `Values`: cell values and matrix reads;
- `Model`: regions, field configurations and merge strategies;
- `Naming`: the counter-suffix de-duplication that the strategies and the table creation all use;
- `Text`: string helpers;
- `Lists`: list edits;
- `Wrappers`: `Option`.

Code that changes state step by step is written as methods with loop invariants. Each such method
is proved equal to a specification function, and the properties are proved about that function.
The objects the source updates in place are classes:
- `Store`;
- the region panel;
- the join dialog;
- the validation panel;
- the two registries.

Spreadsheet address parsing (SheetJS `decode_cell`/`decode_range`) is an abstract partial
function, the parameter `dec: Decoder`. A failure to decode stands for the library throwing.
Other values from outside the engine are also parameters:
- the clock;
- user script code;
- the floating-point validators;
- the browser's `isNaN`.

## Model

| member | source | states |
|---|---|---|
| ExcelUtils.Letter | prototype/js/utils/excel-utils.js:13 | every digit 0..25 becomes one of the letters A..Z |
| ExcelUtils.BijLetters | prototype/js/utils/excel-utils.js:11-15 | the label of k is empty exactly when k = 0, and consists only of letters A..Z |
| ExcelUtils.EncodeCol | prototype/js/utils/excel-utils.js:10-16 | the `for` loop that prepends letters returns the bijective base-26 label of col+1 |
| ExcelUtils.UnbijBij | prototype/js/utils/excel-utils.js:10-16 | reading the letters of a label back as base-26 digits gives the number that was encoded |
| ExcelUtils.BijUnbij | prototype/js/utils/excel-utils.js:10-16 | every string of letters is the label of the number it spells |
| ExcelUtils.ColLabelIsLabel | prototype/js/utils/excel-utils.js:11-15 | `encodeCol(col)` is non-empty and made only of A..Z |
| ExcelUtils.ColLabelRoundTrip | prototype/js/utils/excel-utils.js:10-16 | decoding `encodeCol(col)` gives col back |
| ExcelUtils.LabelRoundTrip | prototype/js/utils/excel-utils.js:10-16 | every non-empty letter string is `encodeCol` of its decoded index |
| ExcelUtils.ColLabelInjective | prototype/js/utils/excel-utils.js:10-16 | distinct columns get distinct labels |
| ExcelUtils.ColLabelExamples | prototype/js/utils/excel-utils.js:6-16 | 0 ↦ A, 1 ↦ B, 25 ↦ Z, 26 ↦ AA, 701 ↦ ZZ, 702 ↦ AAA |
| ExcelUtils.FirstCoverSpec | prototype/js/utils/excel-utils.js:33-36 | the `find` picks the first merge range covering the cell, or none when no range covers it |
| ExcelUtils.NoMergesReadsCell | prototype/js/utils/excel-utils.js:28-30 | with no merges the read is `matrix[r][c]`, or null when row r is missing |
| ExcelUtils.CoveredReadsTopLeft | prototype/js/utils/excel-utils.js:33-41 | a cell whose first covering range is k reads the top-left cell of range k |
| ExcelUtils.UncoveredReadsCell | prototype/js/utils/excel-utils.js:43 | a cell outside every range reads its own value |
| ExcelUtils.SameMergeSameValue | prototype/js/utils/excel-utils.js:33-41 | two cells with the same first covering range read the same value |
| Grid.FindMerge | prototype/js/components/grid.js:146-157 | null iff no range covers the cell; the first covering range wins; at its top-left the result is `isMain` with spans `e-s+1` (at least 1); other covered cells are not main |
| Grid.IsInRange | prototype/js/components/grid.js:184-191 | true iff the row and the column lie between the two corners, inclusive, whichever corner comes first |
| Grid.IsInRangeSymmetric | prototype/js/components/grid.js:184-191 | swapping the start and end corners does not change the answer |
| Model.FindRegion | prototype/js/core/strategies/horizontal-strategy.js:15 | `regions.find(r => r.id === id)`: a found region is in the list with that id; none iff no region has that id |
| BaseStrategy.DecodeSpan | prototype/js/core/strategies/base-strategy.js:29-48 | the start row and column come from the decoded range. The end column comes from `end` when given, else from the sheet range, else from the matrix width. A range that fails to decode leaves the defaults (0, 0, last column) |
| BaseStrategy.DisplayName | prototype/js/core/strategies/base-strategy.js:107 | a header's display name is never empty (it falls back to the item id) |
| BaseStrategy.AttrEntries | prototype/js/core/strategies/base-strategy.js:111-137 | every entry produced for the attributes of an item is flagged `isAttribute` |
| BaseStrategy.RegionFields | prototype/js/core/strategies/base-strategy.js:22-25 | no workbook, no sheet of that name or no matrix gives `[]` |
| BaseStrategy.CascadeCell | prototype/js/core/strategies/base-strategy.js:149-161 | one step of the cascade loop (skip a cell in the previous cell's merge, else push its trimmed non-blank value) keeps the collected names plus the remaining parts equal to the specified parts |
| BaseStrategy.CascadeName | prototype/js/core/strategies/base-strategy.js:146-162 | the cascade loop returns the `_`-join of the specified cascade parts of the header cells |
| BaseStrategy.ItemDisplayName | prototype/js/core/strategies/base-strategy.js:146-168 | the computed display name equals the specified one (cascade or last header cell, then item-id fallback) |
| BaseStrategy.DisplayNameOfRaw | prototype/js/core/strategies/base-strategy.js:168 | `if (!displayName) displayName = colId`: an empty raw name is replaced by the item id, anything else is kept |
| BaseStrategy.PushAttributes | prototype/js/core/strategies/base-strategy.js:172-193 | the `forEach` over attributes appends exactly the specified attribute entries, in attribute order |
| BaseStrategy.ItemLoop | prototype/js/core/strategies/base-strategy.js:142-193 | one item's entries are its header followed by its in-range attribute entries |
| BaseStrategy.ItemsLoop | prototype/js/core/strategies/base-strategy.js:142-194 | the item loop returns the concatenation of every item's entries, items in order |
| BaseStrategy.GetRegionFields | prototype/js/core/strategies/base-strategy.js:21-198 | the method returns the specified header list of the region |
| BaseStrategy.ItemIds | prototype/js/core/strategies/base-strategy.js:142-169 | the non-attribute entries are exactly one per item from first to last, in order, with the item's id |
| BaseStrategy.VerticalCtx | prototype/js/core/strategies/base-strategy.js:29-56 | in vertical mode the items are the columns startCol..endCol and the header rows start at startRow, `headerRows \|\| 1` of them |
| BaseStrategy.HorizontalCtx | prototype/js/core/strategies/base-strategy.js:67-83 | in horizontal mode the items are rows startRow+skipRows..endRowEff and the header columns start at startCol |
| BaseStrategy.ColumnIds | prototype/js/core/strategies/base-strategy.js:142-169 | vertical item ids are `encodeCol(c)` for c = startCol..endCol |
| BaseStrategy.RowIds | prototype/js/core/strategies/base-strategy.js:70-80 | horizontal item ids are `Row_<r+1>` for r = startRow+skipRows..endRowEff |
| BaseStrategy.ZeroHeaderRowsIsOne | prototype/js/core/strategies/base-strategy.js:51 | `headerRows` 0 gives the same headers as 1 |
| BaseStrategy.AttrIdInjective | prototype/js/core/strategies/base-strategy.js:186 | `<id>_attr_<k+1>` ids of different attributes differ |
| BaseStrategy.AttrEntriesMember | prototype/js/core/strategies/base-strategy.js:172-192 | every attribute entry comes from an active, in-range attribute at or after the starting index |
| BaseStrategy.ActiveAttrListed | prototype/js/core/strategies/base-strategy.js:172-192 | every active, in-range attribute produces its entry |
| BaseStrategy.AttributeFollowsItem | prototype/js/core/strategies/base-strategy.js:172-192 | an item's entries start with its own header; the entry of attribute k (id `<itemId>_attr_<k+1>`, flagged attribute) follows it iff both endpoints are set, decode, and the item lies between them |
| BaseStrategy.PlainDisplayName | prototype/js/core/strategies/base-strategy.js:163-168 | without cascade, the name is the trimmed merge-aware value of the last header cell, or the item id when that cell is blank |
| BaseStrategy.CascadeWithoutMerges | prototype/js/core/strategies/base-strategy.js:146-162 | with no merges the cascade keeps every non-blank trimmed header value, in order |
| BaseStrategy.CascadePartsTrimmed | prototype/js/core/strategies/base-strategy.js:157-158 | every cascade part is non-empty and already trimmed |
| BaseStrategy.CascadeInsideOneMerge | prototype/js/core/strategies/base-strategy.js:150-155 | cells that all lie in the previous cell's merge contribute nothing |
| BaseStrategy.CascadeOneMergeOnePart | prototype/js/core/strategies/base-strategy.js:150-155 | header cells that all lie in one merge range contribute at most one part |
| BaseStrategy.ApplyStrategiesToExpr | prototype/js/core/strategies/base-strategy.js:221-227 | `NULL` stays `NULL`; an absent or empty rule list returns the expression unchanged |
| BaseStrategy.SqlFoldAppend | prototype/js/core/strategies/base-strategy.js:233-248 | the `reduce` is a left fold: applying a+b is applying b to the result of a |
| BaseStrategy.SingleIdIsList | prototype/js/core/strategies/base-strategy.js:226 | a single rule id acts as a one-element list |
| BaseStrategy.TrimThenUpper | prototype/js/core/strategies/base-strategy.js:229-248 | `[trim, upper]` gives `UPPER(TRIM(x))` |
| BaseStrategy.TextRuleWraps | prototype/js/core/strategies/base-strategy.js:237-240 | a built-in text rule wraps the expression in its SQL function |
| BaseStrategy.SqlWrapStep | prototype/js/core/strategies/base-strategy.js:237-240 | any non-js rule with a SQL wrapper wraps the expression once |
| BaseStrategy.CustomRuleNotInSql | prototype/js/core/strategies/base-strategy.js:234-246 | a custom rule (forced to js) is a no-op in SQL unless its id is a legacy one |
| TransformRegistry.AllRulesDomain | prototype/js/core/transform-registry.js:85-92 | the rule table holds exactly the built-in ids and the custom ids |
| TransformRegistry.BuiltinServed | prototype/js/core/transform-registry.js:85-92 | an id no custom rule uses is served by its built-in, if any |
| TransformRegistry.LastCustomWins | prototype/js/core/transform-registry.js:85-92 | the last custom rule with an id wins, over the built-in too, as a custom js rule |
| TransformRegistry.RuleOrigin | prototype/js/core/transform-registry.js:85-92 | a custom entry comes from the custom list, a non-custom one is the built-in |
| TransformRegistry.TextRuleServed | prototype/js/core/transform-registry.js:7-77 | `upper`, `lower`, `trim` are `both`-engine rules with the SQL wrappers UPPER, LOWER, TRIM |
| TransformRegistry.CustomIsJs | prototype/js/core/transform-registry.js:86-90 | every custom rule is served with engine `js` and no validator |
| TransformRegistry.ApplyJs | prototype/js/core/transform-registry.js:105-128 | at most one warning; no warning iff the whole chain ran; when it ran, the value is the chain's result threaded through the rules; when a rule threw, the original value and the one warning naming that rule and its message |
| TransformRegistry.ApplyJsTransforms | prototype/js/core/transform-registry.js:105-128 | the loop with its early return on a throw computes the specified chain result |
| TransformRegistry.ChainAppend | prototype/js/core/transform-registry.js:109-125 | the chain threads the value left to right and stops at the first failure |
| TransformRegistry.SkippedIdsIrrelevant | prototype/js/core/transform-registry.js:111 | unknown ids and `sql`-engine rules can be dropped from the chain without effect |
| TransformRegistry.TextRulesKeepNonStrings | prototype/js/core/transform-registry.js:7-77 | the upper/lower/trim transforms leave a non-string value unchanged |
| TransformRegistry.ValidateValue | prototype/js/core/transform-registry.js:135-150 | at most one warning; none for an unknown rule; a warning iff the rule has a built-in check that rejects the value, and then exactly one naming the rule |
| TransformRegistry.CustomNeverWarns | prototype/js/core/transform-registry.js:140-147 | custom rules never produce a validation warning |
| TransformRegistry.Registry.constructor | prototype/js/core/transform-registry.js:78 | a new registry has no custom rules |
| TransformRegistry.Registry.SetCustomRules | prototype/js/core/transform-registry.js:81-83 | `rules \|\| []` becomes the custom list |
| ValidationRegistry.AllRulesDomain | prototype/js/core/validation-registry.js:54-57 | the rule table holds exactly the built-in ids and the custom ids |
| ValidationRegistry.LastCustomWins | prototype/js/core/validation-registry.js:54-61 | the last custom rule with an id is the one served |
| ValidationRegistry.BuiltinServed | prototype/js/core/validation-registry.js:54-61 | an id no custom rule uses gives its built-in, or nothing |
| ValidationRegistry.UnknownRulePasses | prototype/js/core/validation-registry.js:71-72 | an unknown rule id gives null |
| ValidationRegistry.ScriptOutcomes | prototype/js/core/validation-registry.js:75-81 | a script rule returning false gives `校验失败: <name>`, a string is returned verbatim, anything else gives null, a throw gives the error message |
| ValidationRegistry.ThrowBecomesMessage | prototype/js/core/validation-registry.js:92-93 | any throw becomes `校验执行出错 [<name>]: <msg>` |
| ValidationRegistry.ConfigDelegates | prototype/js/core/validation-registry.js:85-90 | a stored config rule delegates to `sum_equals`/`avg_equals` by operator; another operator gives null |
| ValidationRegistry.AvgWithoutFieldsPasses | prototype/js/core/validation-registry.js:31-32 | `avg_equals` with no source fields gives null |
| ValidationRegistry.CustomOverridesBuiltin | prototype/js/core/validation-registry.js:54-57 | a custom rule appended last overrides any rule with its id |
| ValidationRegistry.Registry.constructor | prototype/js/core/validation-registry.js:47 | a new registry has no custom rules |
| ValidationRegistry.Registry.SetCustomRules | prototype/js/core/validation-registry.js:50-52 | `rules \|\| []` becomes the custom list |
| Naming.CandidateInjective | prototype/js/core/strategies/vertical-strategy.js:91-94 | different counters give different candidates `base`, `base_1`, `base_2`, … |
| Naming.FreshIndex | prototype/js/core/strategies/vertical-strategy.js:91-94 | the counter loop stops at a free candidate, and every earlier candidate is in use |
| Naming.FreshName | prototype/js/core/strategies/vertical-strategy.js:89-94 | the chosen name is not in use; an unused base is kept |
| Naming.FreshNameShape | prototype/js/core/strategies/vertical-strategy.js:91-94 | the chosen name is the base or `base_n` with n ≥ 1 (the suffix starts at `_1`) |
| Naming.PickFresh | prototype/js/core/strategies/vertical-strategy.js:89-94 | the `while (used.has(...))` loop returns the specified fresh name |
| Naming.FreshIndexUnique | prototype/js/core/strategies/vertical-strategy.js:91-94 | the loop's stopping counter is the first free one |
| Naming.DedupFrom | prototype/js/core/strategies/vertical-strategy.js:87-96 | one name per base, in order |
| Naming.DedupFromFresh | prototype/js/core/strategies/vertical-strategy.js:87-96 | the names avoid the already-used set and are pairwise distinct |
| Naming.DedupLoop | prototype/js/core/strategies/vertical-strategy.js:84-96 | the `forEach` with a growing used-name set computes the specified name list |
| Naming.DedupFromCandidate | prototype/js/core/strategies/vertical-strategy.js:91-94 | every name is a candidate of its own base |
| Naming.DedupNamesDistinct | prototype/js/core/strategies/vertical-strategy.js:87-96 | de-duplicated names are pairwise distinct and as many as the bases |
| Naming.FreshKeepsBase | prototype/js/core/strategies/vertical-strategy.js:90-92 | the base is kept iff it is not yet used |
| Naming.DedupFromKeeps | prototype/js/core/strategies/vertical-strategy.js:89-96 | a name keeps its base iff the base is neither pre-used nor taken by an earlier name |
| Naming.DedupNamesKeeps | prototype/js/core/strategies/vertical-strategy.js:89-96 | the first occurrence of a base keeps it; later ones are renamed |
| Naming.FreshAfterTaken | prototype/js/core/strategies/vertical-strategy.js:91-94 | when base.._{m-1} are taken the next name is the m-th candidate |
| Naming.DedupRepeated | prototype/js/core/strategies/vertical-strategy.js:91-94 | a run of equal bases after m taken candidates gets the candidates m, m+1, … |
| Naming.DedupNamesRepeated | prototype/js/core/strategies/vertical-strategy.js:91-94 | equal bases become `b`, `b_1`, `b_2`, … |
| VerticalStrategy.Mode | prototype/js/core/strategies/vertical-strategy.js:9 | the mode is `matchMode`, or `byName` when unset |
| VerticalStrategy.MaxLenIsMax | prototype/js/core/strategies/vertical-strategy.js:17-19 | `maxCols` is the largest header count (0 for no regions) |
| VerticalStrategy.HoldersSpec | prototype/js/core/strategies/vertical-strategy.js:24-30 | the regions contributing to position i are exactly those with an i-th header, in region order |
| VerticalStrategy.HoldersBound | prototype/js/core/strategies/vertical-strategy.js:24-30 | every contributing region has an i-th header |
| VerticalStrategy.HoldersSorted | prototype/js/core/strategies/vertical-strategy.js:24-30 | contributing regions are listed in region order |
| VerticalStrategy.HoldersComplete | prototype/js/core/strategies/vertical-strategy.js:24-30 | every region with an i-th header contributes |
| VerticalStrategy.PositionSourcesSpec | prototype/js/core/strategies/vertical-strategy.js:22-30 | field i has one source per contributing region, built from that region's i-th header |
| VerticalStrategy.FirstNameSpec | prototype/js/core/strategies/vertical-strategy.js:28 | the primary name is the first non-empty display name, or empty when there is none |
| VerticalStrategy.ByPositionShape | prototype/js/core/strategies/vertical-strategy.js:16-39 | as many fields as `maxCols`; field i has its sources, name = alias, and name is a source's display name or `Column_<i+1>` |
| VerticalStrategy.ColumnHasSource | prototype/js/core/strategies/vertical-strategy.js:17-30 | every position below `maxCols` has at least one source |
| VerticalStrategy.PositionFieldName | prototype/js/core/strategies/vertical-strategy.js:34-35 | a field's name is a source's display name or `Column_<i+1>` |
| VerticalStrategy.PositionColumn | prototype/js/core/strategies/vertical-strategy.js:22-38 | the inner `forEach` builds the specified field for position i |
| VerticalStrategy.ByPositionLoop | prototype/js/core/strategies/vertical-strategy.js:16-39 | the position loop returns the specified by-position fields |
| VerticalStrategy.FindGroupSpec | prototype/js/core/strategies/vertical-strategy.js:50 | a header goes to the first group with its name that lacks its region |
| VerticalStrategy.AppendOk | prototype/js/core/strategies/vertical-strategy.js:50-67 | joining such a group keeps one name per group and one source per region |
| VerticalStrategy.AddHeaderOk | prototype/js/core/strategies/vertical-strategy.js:50-67 | adding a header keeps every group free of two sources from one region |
| VerticalStrategy.AddHeaderSources | prototype/js/core/strategies/vertical-strategy.js:50-67 | adding a header adds exactly its source to the groups' sources |
| VerticalStrategy.AddHeadersSpec | prototype/js/core/strategies/vertical-strategy.js:48-68 | adding a region's headers keeps the groups well formed and adds exactly their sources |
| VerticalStrategy.GroupedSpec | prototype/js/core/strategies/vertical-strategy.js:46-69 | every header of every region lands in exactly one group; no group has two sources from one region |
| VerticalStrategy.GroupedCount | prototype/js/core/strategies/vertical-strategy.js:46-69 | total sources equal total headers |
| VerticalStrategy.ByNameSpec | prototype/js/core/strategies/vertical-strategy.js:71-80 | one field per group, name = alias = the group's name, its sources, `isAttribute` iff some source is |
| VerticalStrategy.AddRegion | prototype/js/core/strategies/vertical-strategy.js:46-69 | the per-region `forEach` that finds or creates groups computes the specified grouping |
| VerticalStrategy.ByNameLoop | prototype/js/core/strategies/vertical-strategy.js:44-80 | the by-name loops return the specified fields |
| VerticalStrategy.DedupSpec | prototype/js/core/strategies/vertical-strategy.js:84-112 | de-duplication changes only `alias` and `physAlias`, and makes each pairwise distinct |
| VerticalStrategy.DedupCandidates | prototype/js/core/strategies/vertical-strategy.js:89-108 | each alias is a candidate of `alias \|\| name`; each physical alias is a candidate of `<tableName[0..30) or t>#<first fieldName or Col>` |
| VerticalStrategy.DedupKeepsFirst | prototype/js/core/strategies/vertical-strategy.js:89-96 | a field keeps its alias iff no earlier field took it |
| VerticalStrategy.DedupConfigs | prototype/js/core/strategies/vertical-strategy.js:84-112 | the in-place renaming loop computes the specified de-duplication |
| VerticalStrategy.ComputeFieldsLoop | prototype/js/core/strategies/vertical-strategy.js:12-116 | `computeFields` returns the specified field list for the configured mode |
| VerticalStrategy.DefaultIsByName | prototype/js/core/strategies/vertical-strategy.js:9-16 | any mode other than `byPosition` groups by name |
| VerticalStrategy.VisibleSpec | prototype/js/core/strategies/vertical-strategy.js:119 | the visible fields are exactly the non-hidden ones |
| VerticalStrategy.VisibleSkipsHidden | prototype/js/core/strategies/vertical-strategy.js:119 | a hidden field can be removed without changing the visible list |
| VerticalStrategy.FindSource | prototype/js/core/strategies/vertical-strategy.js:124 | a found source belongs to the region; none iff no source does |
| VerticalStrategy.VisibleEmptyIff | prototype/js/core/strategies/vertical-strategy.js:119-120 | no visible field iff every field is hidden |
| VerticalStrategy.NoVisibleIff | prototype/js/core/strategies/vertical-strategy.js:119-120 | the result is `SELECT 'No visible fields' AS error` iff every field is hidden |
| VerticalStrategy.ProjectionStartsQuoted | prototype/js/core/strategies/vertical-strategy.js:134-135 | with a visible field the query starts `SELECT "` |
| VerticalStrategy.ProjectionIsNotError | prototype/js/core/strategies/vertical-strategy.js:119-135 | with a visible field the query is not the error text |
| VerticalStrategy.HiddenNeverProjected | prototype/js/core/strategies/vertical-strategy.js:119-135 | a hidden field does not affect the query |
| VerticalStrategy.NullWhereNoSource | prototype/js/core/strategies/vertical-strategy.js:124-128 | a region without a source for the field selects `NULL AS "<physAlias>"` |
| VerticalStrategy.ColumnWhereSource | prototype/js/core/strategies/vertical-strategy.js:124-128 | otherwise it selects the first such source's quoted field name |
| VerticalStrategy.FindSourceFirst | prototype/js/core/strategies/vertical-strategy.js:124 | the `find` returns the first source of the region |
| VerticalStrategy.UnionShape | prototype/js/core/strategies/vertical-strategy.js:122-135 | one SELECT per region, joined by ` UNION ALL `, wrapped as `... AS t_union ORDER BY _reg_idx, "_row_idx"` |
| HorizontalStrategy.SlaveRegionsSpec | prototype/js/core/strategies/horizontal-strategy.js:18-21 | the slave regions are exactly the declared slaves whose region exists |
| HorizontalStrategy.OrderedSpec | prototype/js/core/strategies/horizontal-strategy.js:13-21 | the master (`masterRegionId` or the first region) comes first if found, then the found slaves in order |
| HorizontalStrategy.InitialGroupsSpec | prototype/js/core/strategies/horizontal-strategy.js:26-31 | before merging there is one singleton group per header, holding all headers in order |
| HorizontalStrategy.FindFieldSpec | prototype/js/core/strategies/horizontal-strategy.js:49-50 | `findIndex` gives the first group holding the region's field with that display name |
| HorizontalStrategy.FindFieldAt | prototype/js/core/strategies/horizontal-strategy.js:49-50 | the first holding group is the one found |
| HorizontalStrategy.RefindTarget | prototype/js/core/strategies/horizontal-strategy.js:53-54 | after removing the slave group the target index shifts down by one iff it was after it |
| HorizontalStrategy.MergeShape | prototype/js/core/strategies/horizontal-strategy.js:49-56 | when both groups exist and differ, one group fewer and the target holds its sources followed by the slave's; otherwise nothing changes |
| HorizontalStrategy.MergeNonEmpty | prototype/js/core/strategies/horizontal-strategy.js:52-56 | a merge keeps every group non-empty |
| HorizontalStrategy.MergeKeeps | prototype/js/core/strategies/horizontal-strategy.js:52-56 | a merge keeps the multiset of all sources |
| HorizontalStrategy.IncompleteKeyIgnored | prototype/js/core/strategies/horizontal-strategy.js:38 | a join key with an empty slave field or target field leaves the groups unchanged |
| HorizontalStrategy.ApplyKeysAppend | prototype/js/core/strategies/horizontal-strategy.js:37-58 | the keys' `forEach` composes: processing `a + b` is processing `a`, then `b` |
| HorizontalStrategy.IncompleteKeysIgnored | prototype/js/core/strategies/horizontal-strategy.js:37-38 | a key with an empty field can be dropped from anywhere in a slave's key list without changing the groups |
| HorizontalStrategy.ApplyKeysKeeps | prototype/js/core/strategies/horizontal-strategy.js:37-58 | processing a slave's keys keeps groups non-empty and the sources unchanged as a multiset |
| HorizontalStrategy.ApplySlavesKeeps | prototype/js/core/strategies/horizontal-strategy.js:34-59 | the same over all slaves |
| HorizontalStrategy.MergedSpec | prototype/js/core/strategies/horizontal-strategy.js:26-59 | after merging, groups are non-empty and hold exactly all headers' sources |
| HorizontalStrategy.BestIndexSpec | prototype/js/core/strategies/horizontal-strategy.js:62-70 | the best source has the smallest region order, and it is the first such |
| HorizontalStrategy.GroupFieldSpec | prototype/js/core/strategies/horizontal-strategy.js:61-79 | a field's sources are its group; name = alias = the best source's display name; `isAttribute` iff some source is |
| HorizontalStrategy.FieldsSpec | prototype/js/core/strategies/horizontal-strategy.js:12-113 | one field per merged group holding all sources; aliases and physical aliases pairwise distinct |
| HorizontalStrategy.BestSource | prototype/js/core/strategies/horizontal-strategy.js:62-70 | the `minOrder` loop returns the specified best source |
| HorizontalStrategy.MergeKey | prototype/js/core/strategies/horizontal-strategy.js:37-57 | one join key's splice-and-push computes the specified merge |
| HorizontalStrategy.OrderRegions | prototype/js/core/strategies/horizontal-strategy.js:13-21 | the pushes build the specified ordered region list |
| HorizontalStrategy.SingletonGroups | prototype/js/core/strategies/horizontal-strategy.js:24-31 | the nested `forEach` builds the specified singleton groups |
| HorizontalStrategy.MergeGroups | prototype/js/core/strategies/horizontal-strategy.js:34-59 | the slave and key loops compute the specified merged groups |
| HorizontalStrategy.GroupConfigs | prototype/js/core/strategies/horizontal-strategy.js:61-80 | one field per group, each the specified group field |
| HorizontalStrategy.ComputeFieldsLoop | prototype/js/core/strategies/horizontal-strategy.js:12-114 | `computeFields` returns the specified field list |
| HorizontalStrategy.AliasMapDomain | prototype/js/core/strategies/horizontal-strategy.js:121-131 | the alias map holds the master and every found slave region |
| HorizontalStrategy.AliasMapSlave | prototype/js/core/strategies/horizontal-strategy.js:125-130 | a region mapped to `s<k>` is the last declared slave k-1 with that region |
| HorizontalStrategy.AliasMapMaster | prototype/js/core/strategies/horizontal-strategy.js:121-130 | a region mapped to `m` is the master and is not overwritten by a found slave |
| HorizontalStrategy.ChainSlavesSpec | prototype/js/core/strategies/horizontal-strategy.js:124-131 | the joined slaves are exactly the declared slaves whose region exists, in order, each with alias `s<index+1>` |
| HorizontalStrategy.ChainSlavesSound | prototype/js/core/strategies/horizontal-strategy.js:124-131 | every joined slave is a declared slave with an existing region |
| HorizontalStrategy.ChainSlavesIncreasing | prototype/js/core/strategies/horizontal-strategy.js:124-131 | joined slaves keep the declared order |
| HorizontalStrategy.ChainSlavesComplete | prototype/js/core/strategies/horizontal-strategy.js:124-131 | every declared slave with an existing region is joined |
| HorizontalStrategy.SqlBest | prototype/js/core/strategies/horizontal-strategy.js:139-150 | a chosen source is one with a table alias |
| HorizontalStrategy.SqlBestSpec | prototype/js/core/strategies/horizontal-strategy.js:139-150 | no choice iff no source has an alias; otherwise the choice has the smallest rank (`m` = 0, `s<k>` = k) and is the first such |
| HorizontalStrategy.SqlBestSource | prototype/js/core/strategies/horizontal-strategy.js:139-150 | the loop returns the chosen source, or `sources[0]` when none has an alias |
| HorizontalStrategy.SelectNullIff | prototype/js/core/strategies/horizontal-strategy.js:136-160 | a field selects `NULL` iff none of its sources has a table alias |
| HorizontalStrategy.PhysNameFirst | prototype/js/core/strategies/horizontal-strategy.js:179-184 | a key field resolves to the physical name of the first matching source |
| HorizontalStrategy.PhysNameFallback | prototype/js/core/strategies/horizontal-strategy.js:179-184 | with no matching source the display text itself is used |
| HorizontalStrategy.FromClauseLoop | prototype/js/core/strategies/horizontal-strategy.js:169-193 | the `+=` loop builds the specified FROM clause |
| HorizontalStrategy.MasterMissingIff | prototype/js/core/strategies/horizontal-strategy.js:117-119 | the result is the master-not-found error iff the master is missing |
| HorizontalStrategy.NoVisibleIff | prototype/js/core/strategies/horizontal-strategy.js:133-167 | with a master, the result is the no-visible-fields error iff every field is hidden |
| HorizontalStrategy.ErrorTexts | prototype/js/core/strategies/horizontal-strategy.js:117-167 | the two error queries are distinct `SELECT '...` texts |
| HorizontalStrategy.JoinedStartsQuoted | prototype/js/core/strategies/horizontal-strategy.js:195-196 | with a master and a visible field the query starts `SELECT "`, so it is neither error |
| HorizontalStrategy.JoinShape | prototype/js/core/strategies/horizontal-strategy.js:169-196 | the query is `SELECT <fields> FROM (SELECT <parts>, m."_row_idx" FROM "<master>" m <joins>) AS t_union ORDER BY "_row_idx"` |
| HorizontalStrategy.OnConditionStart | prototype/js/core/strategies/horizontal-strategy.js:171-186 | every ON condition starts with the slave's own alias |
| HorizontalStrategy.OnConditionsStart | prototype/js/core/strategies/horizontal-strategy.js:171-187 | the same for every condition of a slave |
| HorizontalStrategy.OnConditionsEmpty | prototype/js/core/strategies/horizontal-strategy.js:171-187 | no condition iff no key resolves (empty field, or unknown target) |
| HorizontalStrategy.CrossJoinIff | prototype/js/core/strategies/horizontal-strategy.js:187-192 | a slave is joined `ON 1=1` iff none of its keys resolves |
| HorizontalStrategy.AnySlaveResolves | prototype/js/core/strategies/horizontal-strategy.js:173-176 | a `SLAVE_i` target resolves iff slave i exists and its region is aliased, with no check that i is an earlier slave |
| HorizontalStrategy.JoinKeywordDefaults | prototype/js/core/strategies/horizontal-strategy.js:189-190 | a missing join type is `LEFT JOIN`; `full` in any case is `FULL OUTER JOIN` |
| HorizontalStrategy.JoinKeywordInner | prototype/js/core/strategies/horizontal-strategy.js:189-190 | `inner` becomes `INNER JOIN` |
| HorizontalStrategy.JoinKeywordEndsJoin | prototype/js/core/strategies/horizontal-strategy.js:189-190 | every join keyword ends with ` JOIN` |
| RegionService.BoundsMatchFieldSpan | prototype/js/services/region-service.js:30-64 | the extraction bounds agree with the header derivation on start row, start column and end column |
| RegionService.RawRowsCells | prototype/js/services/region-service.js:75-91 | the raw rows are the header rows followed by the rows after the skip, each the cells startCol..endCol, null where the row is missing |
| RegionService.ReadRow | prototype/js/services/region-service.js:78-82 | the inner cell loop reads the specified row |
| RegionService.ReadRawRows | prototype/js/services/region-service.js:75-91 | the two row loops build the specified raw rows |
| RegionService.TransposeCells | prototype/js/services/region-service.js:196-199 | `transpose(m)[i][j] == m[j][i]` and the dimensions swap |
| RegionService.TransposeTwice | prototype/js/services/region-service.js:196-199 | transposing a non-empty rectangular matrix twice gives it back |
| RegionService.TransposeLosesEmptyRows | prototype/js/services/region-service.js:197-198 | an input whose rows are empty (including no rows at all) transposes to `[]` |
| RegionService.SliceFrom | prototype/js/services/region-service.js:131 | `slice(k)` drops the first k rows |
| RegionService.RowNameInjective | prototype/js/services/region-service.js:124 | distinct row numbers give distinct `Row_` names |
| RegionService.ColumnHeadersDistinct | prototype/js/services/region-service.js:120-129 | the physical column ids are pairwise distinct |
| RegionService.VerticalColumnHeaders | prototype/js/services/region-service.js:126-128 | in vertical mode column i is `encodeCol(startCol+i)` |
| RegionService.ColumnHeaders | prototype/js/services/region-service.js:120-129 | the loop builds one id per column: `Row_<startRow+i+1>` or `encodeCol(startCol+i)` |
| RegionService.AttrLengths | prototype/js/services/region-service.js:142-183 | an item's attribute cells match its attribute headers in number |
| RegionService.RowMatchesHeaders | prototype/js/services/region-service.js:136-183 | every data row is as long as the header list |
| RegionService.ItemBlock | prototype/js/services/region-service.js:136-139 | item i's primary column sits right after the blocks of earlier items, in both headers and rows |
| RegionService.AttrHeaderNames | prototype/js/services/region-service.js:176-177 | every attribute column is `<base>_attr_<k+1>` of an attribute with both endpoints set |
| RegionService.BlankBaseNullAttrs | prototype/js/services/region-service.js:178-181 | when the base cell is null or whitespace, all its attribute cells are null |
| RegionService.AttrCellNonNull | prototype/js/services/region-service.js:144-181 | a non-null attribute cell has a non-blank base, decodable endpoints and the item inside the endpoint span |
| RegionService.TableNameFor | prototype/js/services/region-service.js:188 | the table name is the region's, else a generated non-empty `table_<now>` |
| RegionService.MaterializeNoneIff | prototype/js/services/region-service.js:66-72 | nothing is materialised iff startRow > endRow or the data start is past the sheet end |
| RegionService.MaterializedWellFormed | prototype/js/services/region-service.js:136-189 | a materialised table has a name and rows as long as its headers |
| RegionService.VerticalDataCell | prototype/js/services/region-service.js:85-139 | in vertical mode (rows read at 85-91, sliced at 131-139) data cell (ri, i) is sheet cell (dataStart+ri, startCol+i) |
| RegionService.HorizontalDataCell | prototype/js/services/region-service.js:85-139 | in horizontal mode (rows read at 85-103, sliced at 131-139) data cell (ri, k) is the transposed raw cell; raw row k is the header row or the row after the skip |
| RegionService.PushColumn | prototype/js/services/region-service.js:139 | each row gets its own next cell appended |
| RegionService.PushItem | prototype/js/services/region-service.js:136-184 | one item appends its primary column and its gated attribute columns to headers and rows |
| RegionService.Interleave | prototype/js/services/region-service.js:133-185 | the interleaving loop builds headers and rows for all items |
| RegionService.ProcessRegionToTable | prototype/js/services/region-service.js:29-194 | the method returns the specified materialised table, or none when skipped |
| RegionService.UpdatedRegionsAt | prototype/js/services/region-service.js:13-21 | every region is updated by its own save, in order (the update itself is at lines 188-192) |
| RegionService.UpdatedNames | prototype/js/services/region-service.js:14-18 | an existing table name is kept; a saved region gets its table's name; a region whose sheet is missing is skipped unchanged |
| RegionService.SavedTablesBound | prototype/js/services/region-service.js:13-21 | at most one table per region |
| RegionService.SaveRegion | prototype/js/services/region-service.js:14-20 | one loop step computes the specified save |
| RegionService.SaveAllRegionsToDb | prototype/js/services/region-service.js:10-24 | the loop returns the specified tables and updated regions, assuming the database accepts every statement (see "## Left out") |
| Database.FallbackIff | prototype/js/core/database.js:31-35 | the result is `SELECT * FROM "<first table or t_main>" ORDER BY "_row_idx"` iff there are no field configurations |
| Database.UnknownKindIsVertical | prototype/js/core/database.js:37-47 | an unknown strategy type builds the vertical query |
| Database.HorizontalWithoutRegions | prototype/js/core/database.js:40-47 | the horizontal strategy over no regions gives the master-not-found error |
| Database.BaseHeader | prototype/js/core/database.js:104-105 | a header's base name is never empty (`Col_<i+1>` for a blank) |
| Database.FinalHeadersSpec | prototype/js/core/database.js:101-114 | as many names as headers, pairwise distinct, each a candidate of its trimmed base |
| Database.FinalHeadersNonEmpty | prototype/js/core/database.js:104-105 | every final column name is non-empty |
| Database.FinalHeadersKeep | prototype/js/core/database.js:107-111 | a header keeps its base name iff no earlier column took it |
| Database.DedupHeaders | prototype/js/core/database.js:101-114 | the loop with its used-name set computes the specified final headers |
| Database.CreateSqlAgrees | prototype/js/core/database.js:119-120 | for a non-empty header list the corrected CREATE text equals the text as written |
| Database.CreateSqlAsWrittenEmpty | prototype/js/core/database.js:119-120 | as written, an empty header list produces `(, "_row_idx" INTEGER)` |
| Database.CreateSqlOpensWithColumn | prototype/js/core/database.js:119-120 | the corrected CREATE text always opens its column list with a quoted column |
| Database.CreateSqlColumns | prototype/js/core/database.js:119-120 | the columns are the `"<name>" TEXT` definitions followed by `"_row_idx" INTEGER` |
| Database.RowParamsSpec | prototype/js/core/database.js:127-130 | row values are stringified, null kept as null, and the row index is appended last |
| Database.InsertSqlAgrees | prototype/js/core/database.js:126-133 | for a non-empty row the corrected INSERT text equals the text as written |
| Database.InsertSqlAsWrittenEmpty | prototype/js/core/database.js:126-129 | as written, an empty row produces `VALUES (, $1)` |
| Database.InsertSqlPlaceholders | prototype/js/core/database.js:126-133 | the corrected INSERT has one placeholder per parameter and opens with `$` |
| Database.TableStatementsShape | prototype/js/core/database.js:93-134 | both the statements as written and the corrected ones: DROP, CREATE, then one INSERT per row, in row order, whose last parameter is the row index |
| Database.TableStatementsIntendedOpen | prototype/js/core/database.js:119-133 | in the corrected statements the column list opens with a quoted column and every value list opens with `$` |
| Database.TableStatementsAgree | prototype/js/core/database.js:119-133 | the statements as written equal the corrected ones when there is a header and no row is empty; with no header the CREATE as written differs |
| Database.RegionTableArity | prototype/js/core/database.js:124-133 | for a materialised region every INSERT has one parameter per column plus the row index, and with at least one header the statements as written equal the corrected ones |
| Database.CreateTableFromData | prototype/js/core/database.js:93-137 | the method emits the statements as the source writes them, including `(, "_row_idx" INTEGER)` for no headers and `VALUES (, $1)` for an empty row |
| Store.Merge | prototype/js/core/store.js:22 | the given keys take their new values, every other key keeps its own |
| Store.MergeTwice | prototype/js/core/store.js:21-24 | merging the same keys twice equals merging the later values once |
| Store.MergeEmpty | prototype/js/core/store.js:21-24 | merging nothing changes nothing |
| Store.ResetKeepsData | prototype/js/core/store.js:62-70 | a reset clears the five configuration keys and keeps `workbookData`, `currentSheet`, `customRules` and `selection` |
| Store.ResetIdempotent | prototype/js/core/store.js:62-70 | resetting twice is resetting once |
| Store.SubscribeUnsubscribe | prototype/js/core/store.js:26-31 | unsubscribing right after subscribing restores the listener list |
| Store.Store.constructor | prototype/js/core/store.js:3-15 | the initial state and no listeners |
| Store.Store.Notify | prototype/js/core/store.js:33-35 | every listener is called once, in subscription order, with the current state |
| Store.Store.SetState | prototype/js/core/store.js:21-24 | shallow merge, then one notification |
| Store.Store.Subscribe | prototype/js/core/store.js:26-27 | the listener is appended |
| Store.Store.Unsubscribe | prototype/js/core/store.js:28-30 | every occurrence of the listener is removed, the rest keep their order |
| Store.Store.SetWorkbookData | prototype/js/core/store.js:38-40 | only `workbookData` changes, then listeners are notified |
| Store.Store.SetCurrentSheet | prototype/js/core/store.js:42-44 | only `currentSheet` changes |
| Store.Store.SetSelection | prototype/js/core/store.js:46-48 | only `selection` changes |
| Store.Store.SetJoinConfigs | prototype/js/core/store.js:50-52 | only `joinConfigs` changes |
| Store.Store.SetCustomRules | prototype/js/core/store.js:54-56 | only `customRules` changes |
| Store.Store.SetValidationRules | prototype/js/core/store.js:58-60 | only `validationRules` changes |
| Store.Store.ResetAllConfigs | prototype/js/core/store.js:62-70 | one merge of the cleared values, then one notification |
| Lists.Without | prototype/js/core/store.js:29 | `filter(l => l !== x)` drops every `x` and keeps every other entry |
| Lists.Splice | prototype/js/components/validation-panel.js:139 | `splice(idx, 1)` removes the entry at idx; an index past the end removes nothing |
| Lists.RemoveAt | prototype/js/components/field-panel.js:455 | removal shifts later entries down by one |
| Lists.InsertAt | prototype/js/components/field-panel.js:456 | insertion places the entry at k and shifts later entries up |
| Lists.RemoveInserted | prototype/js/components/join-panel.js:619-632 | inserting then removing at one index restores the list |
| Lists.InsertRemoved | prototype/js/components/field-panel.js:455-456 | removing then re-inserting the same entry at one index restores the list |
| FieldPanel.FindMatch | prototype/js/components/field-panel.js:80-83 | a match has the same name and the same first source region; none iff no old field does |
| FieldPanel.FindMatchFirst | prototype/js/components/field-panel.js:80-83 | `find` returns the first such old field |
| FieldPanel.CarriedStrategies | prototype/js/components/field-panel.js:86-89 | non-empty `strategies` are carried over; otherwise `[strategy]` when that is set and not `none`, else `[]` |
| FieldPanel.MigrateAll | prototype/js/components/field-panel.js:78 | the migrated list keeps the length of the computed list |
| FieldPanel.MigrateSpec | prototype/js/components/field-panel.js:78-101 | a matched field takes the old alias, hidden flag and carried strategies; an unmatched field is kept, with `[]` for absent strategies |
| FieldPanel.Refresh | prototype/js/components/field-panel.js:52-103 | no regions leaves the field list unchanged; otherwise one migrated field per computed field |
| FieldPanel.MigratedFirstMatch | prototype/js/components/field-panel.js:80-96 | after migration, each field is its own first match |
| FieldPanel.MigrateTwice | prototype/js/components/field-panel.js:78-101 | refreshing twice with the same computed fields gives what refreshing once gives |
| FieldPanel.Reorder | prototype/js/components/field-panel.js:452-458 | the moved field lands at `to` and the length is kept |
| FieldPanel.ReorderKeepsOthers | prototype/js/components/field-panel.js:452-458 | apart from the moved field, the order of the others is unchanged |
| FieldPanel.ReorderBack | prototype/js/components/field-panel.js:452-458 | moving back from `to` to `from` restores the list |
| FieldPanel.ReorderPermutes | prototype/js/components/field-panel.js:452-458 | reordering is a permutation |
| FieldPanel.IndexOf | prototype/js/components/field-panel.js:373 | `indexOf` is -1 iff absent, else the first position |
| FieldPanel.ToggleFlips | prototype/js/components/field-panel.js:373-378 | a toggle removes a present id and appends an absent one |
| FieldPanel.ToggleTwice | prototype/js/components/field-panel.js:373-378 | toggling an absent id twice restores the list |
| FieldPanel.ToggleTwiceMovesLast | prototype/js/components/field-panel.js:373-378 | toggling a present id twice moves it to the end |
| FieldPanel.ToggleStrategy | prototype/js/components/field-panel.js:371-378 | a field whose `strategies` is a non-empty string cannot be toggled; otherwise only `strategies` changes, and it becomes a list |
| FieldPanel.ToggleValidation | prototype/js/components/field-panel.js:379-386 | only `validations` changes, and it becomes a list |
| FieldPanel.ToggleStrategyTwice | prototype/js/components/field-panel.js:371-378 | toggling an absent rule twice restores the field |
| FieldPanel.ClickRule | prototype/js/components/field-panel.js:366-390 | only the clicked field's strategies change |
| RegionPanel.ValidateAttrRangeSpec | prototype/js/components/region-panel.js:515-534 | null iff an endpoint is empty or both decode on the same column (horizontal) or row (otherwise); `无效的单元格地址` iff an endpoint fails to decode |
| RegionPanel.ValidateAttrRangeSymmetric | prototype/js/components/region-panel.js:523-529 | swapping start and end gives the same verdict |
| RegionPanel.HeaderRowsOf | prototype/js/components/region-panel.js:411 | parsing to 0 or NaN gives 1; any other number is kept |
| RegionPanel.EditedSpec | prototype/js/components/region-panel.js:401-416 | start, end, skip rows and the cascade flag change only under their own input, header rows only under the header-row input; the sheet name follows the current sheet; id, name, table name, direction and attributes are kept; header rows are never 0, and at most 1 header row clears cascade |
| RegionPanel.NewTableNamesDistinct | prototype/js/components/region-panel.js:356-368 | without deletions, regions added at different counts get different `t_table<n>` names |
| RegionPanel.AddAfterDeleteRepeatsTableName | prototype/js/components/region-panel.js:356-368 | for any region list whose last region was the latest added, deleting any other region and then adding one repeats the last region's table name |
| RegionPanel.RegionPanel.constructor | prototype/js/components/region-panel.js:23-43 | one default region, `表格1` / `t_table1`, active |
| RegionPanel.RegionPanel.Select | prototype/js/components/region-panel.js:289-296 | the clicked region becomes active |
| RegionPanel.RegionPanel.AddRegion | prototype/js/components/region-panel.js:352-376 | a new region `表格<n+1>` with table `t_table<n+1>` is appended and made active |
| RegionPanel.RegionPanel.DeleteRegion | prototype/js/components/region-panel.js:336-348 | the region is removed and the active tab is clamped to `max(0, len-1)` |
| RegionPanel.RegionPanel.Rename | prototype/js/components/region-panel.js:321-329 | a non-blank trimmed name replaces the old one; a blank one changes nothing |
| RegionPanel.RegionPanel.SetDirection | prototype/js/components/region-panel.js:380-388 | only the active region's direction changes |
| RegionPanel.RegionPanel.OnInput | prototype/js/components/region-panel.js:399-420 | only the active region changes, as the input edit specifies |
| RegionPanel.RegionPanel.AddAttribute | prototype/js/components/region-panel.js:423-437 | a blank attribute `属性<n+1>` is appended to the active region |
| RegionPanel.RegionPanel.DeleteAttribute | prototype/js/components/region-panel.js:440-451 | the attribute at idx is spliced out of the active region |
| RegionPanel.RegionPanel.SetAttributeEndpoint | prototype/js/components/region-panel.js:399-476 | the generic input listener first syncs the active region's sheet name with a non-empty current sheet; then an existing attribute's start or end is set, and a missing one is left alone |
| RegionPanel.RegionPanel.Save | prototype/js/components/region-panel.js:263-285 | refused (nothing changes) when start or end is empty; otherwise all regions are saved, assuming the database accepts every statement (see "## Left out") |
| JoinPanel.NamesSpec | prototype/js/components/join-panel.js:104-113 | one name per column startCol..endCol: `Column_<c+1>` for a blank, else the trimmed text |
| JoinPanel.GetRegionFields | prototype/js/components/join-panel.js:64-116 | the method returns the specified offered header names |
| JoinPanel.HeaderRowAfterSkip | prototype/js/components/join-panel.js:98-102 | the dialog reads headers from row startRow+skipRows, while the header derivation uses startRow |
| JoinPanel.OfferedNameIsDisplayName | prototype/js/components/join-panel.js:105-113 | for one plain header row without merges the offered name equals the display name iff the cell is not blank |
| JoinPanel.EnsureDefaultStrategy | prototype/js/components/join-panel.js:50-62 | vertical byName is installed only when no strategy exists |
| JoinPanel.EnsureDefaultIdempotent | prototype/js/components/join-panel.js:53-60 | installing the default twice is installing it once |
| JoinPanel.SelectStrategy | prototype/js/components/join-panel.js:217-231 | ignored with fewer than 2 regions; otherwise the type is set and a missing config of that type gets its default |
| JoinPanel.SelectStrategyKeepsSettings | prototype/js/components/join-panel.js:222-231 | existing vertical and horizontal configs are kept |
| JoinPanel.ChangeMatchMode | prototype/js/components/join-panel.js:247-258 | only the match mode changes (a missing strategy becomes vertical) |
| JoinPanel.SaveJoin | prototype/js/components/join-panel.js:308-328 | refused without a master; otherwise the horizontal config is replaced and the rest kept |
| JoinPanel.AutoSlaves | prototype/js/components/join-panel.js:363-369 | every auto-loaded slave is a `left` join with one blank `MASTER` key |
| JoinPanel.AutoSlavesIds | prototype/js/components/join-panel.js:364-369 | the auto-loaded slaves are all the other regions, in order |
| JoinPanel.Targets | prototype/js/components/join-panel.js:563-571 | the offered targets are `MASTER` then `SLAVE_i` for every i below the slave's index |
| JoinPanel.OfferedTargetsResolve | prototype/js/components/join-panel.js:563-571 | every offered target resolves, in the SQL builder, to the master or to an earlier slave's region |
| JoinPanel.JoinDialog.constructor | prototype/js/components/join-panel.js:8-14 | no master and no slaves |
| JoinPanel.JoinDialog.Open | prototype/js/components/join-panel.js:277-295 | refused with fewer than 2 regions; otherwise the stored master and slaves are loaded |
| JoinPanel.JoinDialog.ChangeMaster | prototype/js/components/join-panel.js:357-376 | a new master auto-loads all other regions as slaves; clearing it empties the slaves; the same master changes nothing |
| JoinPanel.JoinDialog.AddSlave | prototype/js/components/join-panel.js:647-660 | refused without a master; otherwise a slave on the first non-master region is appended |
| JoinPanel.JoinDialog.RemoveSlave | prototype/js/components/join-panel.js:440-443 | the slave is spliced out |
| JoinPanel.JoinDialog.SetSlave | prototype/js/components/join-panel.js:428-431 | only that slave's region and join type change |
| JoinPanel.JoinDialog.AddKey | prototype/js/components/join-panel.js:631-634 | a blank `MASTER` key is inserted at keyIndex+1 |
| JoinPanel.JoinDialog.RemoveKey | prototype/js/components/join-panel.js:618-624 | the key is removed, and a blank one is re-added when none is left, so the list is never empty |
| JoinPanel.JoinDialog.SetKeyTarget | prototype/js/components/join-panel.js:581-585 | the key's target changes and its target field is cleared |
| JoinPanel.JoinDialog.SetKeyFields | prototype/js/components/join-panel.js:606 | only the key's two field names change (the slave field is set the same way at line 551) |
| JoinPanel.AddThenRemoveKey | prototype/js/components/join-panel.js:618-634 | adding a key after k and removing it again restores the keys |
| ValidationPanel.Quote | prototype/js/components/validation-panel.js:295 | a quoted constant is the text between single quotes |
| ValidationPanel.Codes | prototype/js/components/validation-panel.js:287-303 | one code fragment per token, in order |
| ValidationPanel.GenerateShape | prototype/js/components/validation-panel.js:284-314 | no tokens give `return true;`; otherwise the code is the `_p` prelude, the space-joined fragments, and the closing text |
| ValidationPanel.SingleTokenExpression | prototype/js/components/validation-panel.js:303 | one token's expression is its fragment |
| ValidationPanel.CodePartConcat | prototype/js/components/validation-panel.js:303 | fragments are joined by single spaces |
| ValidationPanel.AddTokenExtendsExpression | prototype/js/components/validation-panel.js:234-236 | adding a token appends a space and its fragment to the expression built at line 303 |
| ValidationPanel.FieldCodeNamesColumn | prototype/js/components/validation-panel.js:289-290 | a field token becomes `_p(row['<value>'])` |
| ValidationPanel.CurrentCode | prototype/js/components/validation-panel.js:291-292 | a current-value token becomes `_p(value)` |
| ValidationPanel.LogicTranslation | prototype/js/components/validation-panel.js:296-301 | `=` becomes `===`, `!=` becomes `!==`, other logic and operator tokens pass through |
| ValidationPanel.ConstantCode | prototype/js/components/validation-panel.js:293-295 | a numeric constant loses its commas; any other is single-quoted |
| ValidationPanel.FindIndex | prototype/js/components/validation-panel.js:218 | `findIndex` gives the first rule with the id, or -1 iff there is none |
| ValidationPanel.NewIdsDiffer | prototype/js/components/validation-panel.js:204 | ids from different clock readings differ |
| ValidationPanel.RuleData | prototype/js/components/validation-panel.js:203-214 | id, name and mode; a script keeps its trimmed code, a config rule stores its tokens and generated code |
| ValidationPanel.SaveEditReplacesFirst | prototype/js/components/validation-panel.js:217-219 | editing replaces the first rule with the id, in place |
| ValidationPanel.SaveEditOfMissingRule | prototype/js/components/validation-panel.js:217-219 | editing a rule that is no longer listed leaves the list unchanged |
| ValidationPanel.SaveEditTwice | prototype/js/components/validation-panel.js:217-219 | saving an edit twice keeps only the second |
| ValidationPanel.DeleteRule | prototype/js/components/validation-panel.js:230 | the rules left are exactly those with another id |
| ValidationPanel.DeleteAbsent | prototype/js/components/validation-panel.js:230 | deleting an absent id changes nothing |
| ValidationPanel.DeleteAppend | prototype/js/components/validation-panel.js:230 | deletion distributes over concatenation |
| ValidationPanel.DeleteUndoesNewSave | prototype/js/components/validation-panel.js:220-230 | deleting a newly appended rule restores the list |
| ValidationPanel.AddThenRemoveToken | prototype/js/components/validation-panel.js:134-140 | removing the token just added (line 235) restores the tokens |
| ValidationPanel.ValidationPanel.constructor | prototype/js/components/validation-panel.js:5-14 | not editing, mode `config`, no tokens |
| ValidationPanel.ValidationPanel.AddToken | prototype/js/components/validation-panel.js:234-237 | one token is appended; nothing else changes |
| ValidationPanel.ValidationPanel.InsertCurrentValue | prototype/js/components/validation-panel.js:121-123 | a current-value token is appended |
| ValidationPanel.ValidationPanel.InsertConstant | prototype/js/components/validation-panel.js:124-129 | a non-blank answer is appended trimmed; a cancelled or blank one changes nothing |
| ValidationPanel.ValidationPanel.ClearTokens | prototype/js/components/validation-panel.js:130-133 | the tokens are emptied |
| ValidationPanel.ValidationPanel.RemoveToken | prototype/js/components/validation-panel.js:134-141 | exactly the token at the index is removed; later tokens shift down |
| ValidationPanel.ValidationPanel.SetMode | prototype/js/components/validation-panel.js:104-106 | only the mode changes |
| ValidationPanel.ValidationPanel.OpenModal | prototype/js/components/validation-panel.js:152-189 | a new rule starts empty with `return true;`; an existing rule loads its name, mode, tokens and script code; an unknown id fails |
| ValidationPanel.ValidationPanel.CloseModal | prototype/js/components/validation-panel.js:191-194 | editing ends |
| ValidationPanel.ValidationPanel.SaveRule | prototype/js/components/validation-panel.js:196-226 | refused iff the trimmed name is empty; otherwise the rule replaces the edited one or is appended, and the modal closes |

## Left out

- Spreadsheet address parsing (SheetJS `decode_cell`, `decode_range`, the sheet's `!ref` range) is an abstract partial function. Range strings in `region.range` are not modelled: the panels never write that field, so only `start`/`end` are used.
- PGlite, `await` and the DROP/CREATE/INSERT execution are database I/O: only the SQL text and parameters are modelled. `init`, `execute` and `getTableColumns` are not modelled.
- `buildSingleTableSql` (prototype/js/core/database.js:50-67) is not modelled: it is dead code and calls a method that does not exist.
- User script code (`new Function`) is a parameter that returns a value or throws. The floating-point and date built-ins (`precision`, `thousands`, `date_format`, `sum_equals`, `avg_equals` arithmetic) are parameters too. The one exception: `avg_equals` with no source fields returning null is modelled. The `tolerance` stored with a config rule is carried in `RuleConfig` and passed to the comparison; its `tolerance || 0.001` default is applied inside that parameter.
- Model.TargetRef: the parsing of a join key's `targetInstanceId` string is not modelled; the id is taken already parsed as `MASTER`, `SLAVE_<i>` or unparsed. The source parses it twice and differently: `computeFields` requires the `SLAVE_` prefix (prototype/js/core/strategies/horizontal-strategy.js:42), while `buildSql` takes `split('_')[1]` of any id other than `MASTER`, and `parseInt` accepts trailing text (line 173). The join dialog only ever writes `MASTER` or `SLAVE_<i>`, on which both parsers agree.
- `Math.random` ids are dropped from field configurations. `Date.now` is a parameter: `now`, or a `clock` giving one reading per saved region.
- RegionService.ProcessRegionToTable: an empty matrix (`sheetData[0]` undefined, a TypeError in the source) is modelled as a sheet with no columns, and a missing matrix as an empty one.
- BaseStrategy.GetRegionFields: an empty matrix, where the source throws a TypeError, is modelled as a sheet with no columns.
- JoinPanel.GetRegionFields: an empty matrix passes the guard at prototype/js/components/join-panel.js:75 and `sheetData[0].length` at line 78 throws a TypeError; the model returns `[]`.
- Values.Value, Values.ToStr: numeric cells are integers only. Fractions and JavaScript's exponent form of `String(n)` (`1e+21`) are not modelled. This affects header names, blank tests and INSERT parameters for non-integer or very large numbers.
- Text.Upper, Text.Lower: case mapping covers ASCII letters only. JavaScript's Unicode mapping (`é` to `É`, full-width letters, `ß` to `SS` with a length change) is not modelled, so the `upper`/`lower` transforms are exact only on ASCII text.
- RegionService.SaveAllRegionsToDb, RegionPanel.RegionPanel.Save: the model assumes the database accepts every statement. In the source, `execute` re-throws any SQL error (prototype/js/core/database.js:81-83) and the regions are saved one after another with `await`, so a rejected statement (such as the CREATE with no columns under "## Findings") stops the save: that region and every later one get no table and keep their old table names, and the panel reports the failure from its `catch` branch (prototype/js/components/region-panel.js:280-284) instead of returning `saved == true`.
- `RegionService.SaveAllRegionsToDb`: the `store.setState` that re-publishes the regions is not modelled. The updated regions are returned instead.
- `FieldPanel.ToggleStrategy`: when `strategies` is a non-empty string, the source calls array methods on a string and throws. The model returns no result there.
- The `isNaN` test on constants in `generateJSFromTokens` is a parameter. JavaScript number parsing is not modelled.
- `ValidationPanel.ValidationPanel.OpenModal` fails (returns false) when the rule id is not found, where the source throws a TypeError.
- `ValidationPanel.SaveEditOfMissingRule`: the source writes `rules[-1] = ruleData`, which adds a property that no list operation sees. It is modelled as leaving the list unchanged.
- `Store.Store.Notify`: listener calls are recorded in a log rather than run. The listener side effects (re-rendering) are not modelled.
- Aliasing between the panels' arrays and the store's state (`config.strategies` mutated in place, then saved) is not modelled, and neither is the validation modal's `tokens`, which is the stored rule's own array (prototype/js/components/validation-panel.js:166), so adding or removing a token edits the stored rule even when the modal is cancelled. Each edit returns or stores the new value.
- `FieldPanel.Refresh`: the validations carried on a field configuration are not copied from the old field, matching the source's spread of the new field.
- Rendering, DOM events, dropdown placement, drag-and-drop, dialogs (`alert`, `confirm`, `prompt`), colours, `isDirty` flags, `syncToStore`, toasts and icons are not modelled. A `prompt` answer is a parameter.
- `main.js`, `layout.js`, `sidebar.js`, `preview.js`, `rules-panel.js`, `excel-loader.js`, `utils.js` and `vite.config.js` are not part of this model.

## Findings

| source | as written | input that shows it | evidently intended | confidence | as-written member | corrected member |
|---|---|---|---|---|---|---|
| prototype/js/core/database.js:119-120 | the column list is `${colDefs}, "_row_idx" INTEGER` even when `colDefs` is empty | a region with no columns (end column before start column): `CREATE TABLE "t" (, "_row_idx" INTEGER);` | the list is just `"_row_idx" INTEGER` when there are no columns | not executed | Database.CreateSqlAsWrittenEmpty | Database.CreateSqlOpensWithColumn |
| prototype/js/core/database.js:126-133 | placeholders are `${placeholders}, $${n+1}` even when the row is empty | a direct call `createTableFromData("t", ["a"], [[]])`: the row is empty, so the INSERT reads `VALUES (, $1)`. The defect is latent: rows from `saveAllRegionsToDB` are always as long as the headers, and with no headers the CREATE fails before any INSERT | `VALUES ($1)` for an empty row | not executed | Database.InsertSqlAsWrittenEmpty | Database.InsertSqlPlaceholders |
