/**
 * The records the engine passes around: regions of a sheet, the loaded workbook, the headers
 * derived from a region, the unified field configurations and the merge strategy settings.
 */
module Model {
  import opened Wrappers
  import opened Values
  import opened ExcelUtils

  /** `region.direction`: 'horizontal' or anything else, which every consumer reads as vertical. */
  datatype Direction = Vertical | Horizontal

  /** One attribute-extraction rule of a region: two addresses and a name suffix. */
  datatype AttrRange = AttrRange(start: string, end: string, suffix: string)

  /**
   * A table region. `start`/`end` are A1 addresses ("" when not set), `sheetName` is "" when the
   * region follows the current sheet, `headerRows`/`skipRows` hold what the inputs parsed to.
   */
  datatype Region = Region(
    id: string,
    name: string,
    sheetName: string,
    start: string,
    end: string,
    headerRows: int,
    skipRows: int,
    direction: Direction,
    cascadeHeader: bool,
    headerAttributes: seq<AttrRange>,
    tableName: string)

  /** A loaded sheet: the cell matrix, its merged ranges and its decoded '!ref' range, if any. */
  datatype Sheet = Sheet(matrix: Option<Matrix>, merges: seq<CellRange>, range: Option<CellRange>)

  type Workbook = map<string, Sheet>

  /**
   * The address parser of the spreadsheet library, as a partial function: `cell("B3")` is
   * `Some(Coord(2, 1))`, and `None` stands for a parse that throws.
   */
  datatype Decoder = Decoder(cell: string -> Option<Coord>, range: string -> Option<CellRange>)

  /** `x` lies between `a` and `b` inclusive, in either order (`Math.min`/`Math.max` bounds). */
  predicate InSpan(x: int, a: int, b: int) {
    (a <= x <= b) || (b <= x <= a)
  }

  /** `region.headerRows || 1`. */
  function HeaderCount(region: Region): int {
    if region.headerRows == 0 then 1 else region.headerRows
  }

  /** `region.sheetName || currentSheet`. */
  function SheetNameOf(region: Region, currentSheet: string): string {
    if region.sheetName != "" then region.sheetName else currentSheet
  }

  /** `{id, displayName, isAttribute}`, one entry of a region's field list. */
  datatype Header = Header(id: string, displayName: string, isAttribute: bool)

  /** A region paired with the field list derived from it. */
  datatype Table = Table(region: Region, headers: seq<Header>)

  /** Where a unified field's values come from: one header of one region. */
  datatype FieldSource = FieldSource(
    regionId: string,
    regionName: string,
    fieldName: string,
    displayName: string,
    isAttribute: bool)

  /** `config.strategies`: absent, a single legacy rule id, or a list of rule ids. */
  datatype Strategies = Absent | One(ruleId: string) | Many(ruleIds: seq<string>)

  /**
   * A unified field. `strategy` is the legacy single rule id ('none' when unset), `validations`
   * the validation rule ids chosen for it, if any list was ever made.
   */
  datatype FieldConfig = FieldConfig(
    name: string,
    alias: string,
    physAlias: string,
    sources: seq<FieldSource>,
    strategies: Strategies,
    strategy: string,
    hidden: bool,
    isAttribute: bool,
    validations: Option<seq<string>>)

  /** `targetInstanceId` of a join key: 'MASTER', 'SLAVE_<i>' parsed to i, or anything else. */
  datatype TargetRef = Master | SlaveAt(index: int) | Unparsed

  datatype JoinKey = JoinKey(slaveField: string, target: TargetRef, targetField: string)

  /** A slave table of the horizontal merge; `joinType` is "" when unset. */
  datatype Slave = Slave(regionId: string, joinType: string, joinKeys: seq<JoinKey>)

  /** `{masterRegionId, slaves}`; `masterRegionId` is "" when unset. */
  datatype HConfig = HConfig(masterRegionId: string, slaves: seq<Slave>)

  /** `{matchMode}`; `matchMode` is "" when unset. */
  datatype VConfig = VConfig(matchMode: string)

  /** `{type, verticalConfig, horizontalConfig}`. */
  datatype MergeStrategy = MergeStrategy(
    kind: string,
    verticalConfig: Option<VConfig>,
    horizontalConfig: Option<HConfig>)

  /** `regions.find(r => r.id === id)`. */
  function FindRegion(regions: seq<Region>, id: string): (r: Option<Region>)
    ensures r.Some? ==> r.value in regions && r.value.id == id
    ensures r.None? <==> forall k :: 0 <= k < |regions| ==> regions[k].id != id
  {
    if regions == [] then None
    else if regions[0].id == id then Some(regions[0])
    else FindRegion(regions[1..], id)
  }
}
