/**
 * The region panel: the list of table regions being edited, the tab that is active, and the
 * edits the panel makes to them in place (add, delete, select, rename, the input fields, the
 * attribute list) together with the checks it makes before saving and on attribute ranges.
 */
module RegionPanel {
  import opened Wrappers
  import opened Text
  import opened ExcelUtils
  import opened Model
  import opened Lists
  import RegionService

  /** `validateAttrRange(attr, direction)`: an error text, or None when there is nothing to object to. */
  function ValidateAttrRange(attr: AttrRange, direction: Direction, dec: Decoder): Option<string> {
    if attr.start == "" || attr.end == "" then None
    else
      match (dec.cell(attr.start), dec.cell(attr.end))
      case (Some(s), Some(e)) =>
        if direction == Horizontal then
          if s.c != e.c then Some("横向模式起止位置必须在同一列") else None
        else
          if s.r != e.r then Some("起止位置必须在同一行") else None
      case _ => Some("无效的单元格地址")
  }

  /**
   * An attribute range is accepted exactly when an endpoint is still empty, or both decode and
   * lie in one column (horizontal regions) or one row (any other region). An address that does
   * not decode is reported as invalid, and the two mismatch errors name the line they expect.
   */
  lemma ValidateAttrRangeSpec(attr: AttrRange, direction: Direction, dec: Decoder)
    ensures var r := ValidateAttrRange(attr, direction, dec);
      var s := dec.cell(attr.start);
      var e := dec.cell(attr.end);
      (r.None? <==>
         attr.start == "" || attr.end == "" ||
         (s.Some? && e.Some? &&
          (if direction == Horizontal then s.value.c == e.value.c else s.value.r == e.value.r))) &&
      (r == Some("无效的单元格地址") <==> attr.start != "" && attr.end != "" && (s.None? || e.None?)) &&
      (r == Some("横向模式起止位置必须在同一列") ==> direction == Horizontal) &&
      (r == Some("起止位置必须在同一行") ==> direction == Vertical)
  {
    var r := ValidateAttrRange(attr, direction, dec);
    if attr.start != "" && attr.end != "" && dec.cell(attr.start).Some? && dec.cell(attr.end).Some? {
      assert r != Some("无效的单元格地址") by {
        if direction == Horizontal {
          assert "横向模式起止位置必须在同一列"[0] != "无效的单元格地址"[0];
        } else {
          assert "起止位置必须在同一行"[0] != "无效的单元格地址"[0];
        }
      }
    }
  }

  /** Swapping the two endpoints does not change the verdict. */
  lemma ValidateAttrRangeSymmetric(attr: AttrRange, direction: Direction, dec: Decoder)
    ensures ValidateAttrRange(AttrRange(attr.end, attr.start, attr.suffix), direction, dec) ==
            ValidateAttrRange(attr, direction, dec)
  {
  }

  /** The save button's check: the region must have both a start and an end. */
  predicate SaveAllowed(region: Region) {
    region.start != "" && region.end != ""
  }

  /** `parseInt(value) || 1`: NaN (None) and 0 become 1. */
  function HeaderRowsOf(parsed: Option<int>): (n: int)
    ensures n != 0
    ensures parsed.Some? && parsed.value != 0 ==> n == parsed.value
  {
    if parsed.None? || parsed.value == 0 then 1 else parsed.value
  }

  /** `parseInt(value) || 0`: NaN (None) becomes 0. */
  function SkipRowsOf(parsed: Option<int>): int {
    parsed.GetOr(0)
  }

  /** The fields of the active region that the generic input handler writes. */
  datatype Input =
    | StartInput(text: string)
    | EndInput(text: string)
    | HeaderRowsInput(parsed: Option<int>)
    | SkipRowsInput(parsed: Option<int>)
    | CascadeInput(checked: bool)

  /**
   * The active region after one input: it follows the current sheet when there is one, takes
   * the new value, and a header-row count of at most one switches cascading off.
   */
  function Edited(region: Region, input: Input, currentSheet: string): Region {
    var r := if currentSheet != "" then region.(sheetName := currentSheet) else region;
    match input
    case StartInput(t) => r.(start := t)
    case EndInput(t) => r.(end := t)
    case HeaderRowsInput(p) =>
      var n := HeaderRowsOf(p);
      if n <= 1 then r.(headerRows := n, cascadeHeader := false) else r.(headerRows := n)
    case SkipRowsInput(p) => r.(skipRows := SkipRowsOf(p))
    case CascadeInput(b) => r.(cascadeHeader := b)
  }

  /**
   * After a header-row input the count is never 0 (so it agrees with `headerRows || 1` as the
   * strategies read it) and a count of at most one never cascades. Each input writes only its
   * own field (and the header-row input the cascade flag); the sheet name follows the current
   * sheet; the id, name, table name, direction and attributes are kept whatever the input.
   */
  lemma EditedSpec(region: Region, input: Input, currentSheet: string)
    ensures var r := Edited(region, input, currentSheet);
      r.id == region.id && r.name == region.name && r.tableName == region.tableName &&
      r.headerAttributes == region.headerAttributes && r.direction == region.direction &&
      r.sheetName == (if currentSheet != "" then currentSheet else region.sheetName) &&
      r.start == (if input.StartInput? then input.text else region.start) &&
      r.end == (if input.EndInput? then input.text else region.end) &&
      r.skipRows == (if input.SkipRowsInput? then SkipRowsOf(input.parsed) else region.skipRows) &&
      (!input.HeaderRowsInput? ==> r.headerRows == region.headerRows) &&
      (input.CascadeInput? ==> r.cascadeHeader == input.checked) &&
      (!input.CascadeInput? && !input.HeaderRowsInput? ==> r.cascadeHeader == region.cascadeHeader) &&
      (input.HeaderRowsInput? ==>
         r.headerRows != 0 && HeaderCount(r) == r.headerRows &&
         (r.headerRows <= 1 ==> !r.cascadeHeader) &&
         (input.parsed.Some? && input.parsed.value > 1 ==> r.cascadeHeader == region.cascadeHeader))
  {
  }

  /** The attribute range the "add attribute" button appends: empty endpoints, suffix `属性<n+1>`. */
  function NewAttribute(count: nat): AttrRange {
    AttrRange("", "", "属性" + NatStr(count + 1))
  }

  /** The region a new tab starts with. */
  function NewRegion(count: nat, now: nat, currentSheet: string): Region {
    Region("r_" + NatStr(now), "表格" + NatStr(count + 1), if currentSheet != "" then currentSheet else "Sheet1",
           "", "", 1, 0, Vertical, false, [], "t_table" + NatStr(count + 1))
  }

  /** Without deletions the table names handed out are distinct: the k-th added region gets `t_table<k+1>`. */
  lemma NewTableNamesDistinct(j: nat, k: nat, now: nat, now': nat, sheet: string, sheet': string)
    requires NewRegion(j, now, sheet).tableName == NewRegion(k, now', sheet').tableName
    ensures j == k
  {
    var a, b := NatStr(j + 1), NatStr(k + 1);
    assert ("t_table" + a)[7..] == a;
    assert ("t_table" + b)[7..] == b;
    NatStrInjective(j + 1, k + 1);
  }

  /**
   * The table name of a new region is fixed by the number of regions, so after deleting any
   * region but the last, the next region added repeats the table name of the last one whenever
   * that one was itself the latest added. Saving both then drops and re-creates one table over
   * the other.
   */
  lemma AddAfterDeleteRepeatsTableName(regions: seq<Region>, idx: nat, now: nat, now': nat, currentSheet: string, sheet': string)
    requires idx + 1 < |regions|
    requires regions[|regions| - 1].tableName == NewRegion(|regions| - 1, now', sheet').tableName
    ensures var kept := Splice(regions, idx);
      |kept| == |regions| - 1 && kept[|kept| - 1] == regions[|regions| - 1] &&
      NewRegion(|kept|, now, currentSheet).tableName == kept[|kept| - 1].tableName
  {
    var kept := Splice(regions, idx);
    assert kept == regions[..idx] + regions[idx + 1..];
    assert kept[|kept| - 1] == regions[|regions| - 1];
  }

  class RegionPanel {
    var regions: seq<Region>
    var activeTab: nat

    /** The active tab is a region of the list, or 0 once the list is empty. */
    predicate Valid()
      reads this
    {
      activeTab < |regions| || (regions == [] && activeTab == 0)
    }

    /** The panel starts with one vertical region, 表格1, that follows the current sheet. */
    constructor ()
      ensures Valid()
      ensures activeTab == 0
      ensures regions == [Region("r_0", "表格1", "", "", "", 1, 0, Vertical, false, [], "t_table1")]
    {
      regions := [Region("r_0", "表格1", "", "", "", 1, 0, Vertical, false, [], "t_table1")];
      activeTab := 0;
    }

    /** Clicking a region card makes it the active tab. */
    method Select(idx: nat)
      requires idx < |regions|
      modifies this
      ensures Valid() && activeTab == idx && regions == old(regions)
    {
      activeTab := idx;
    }

    /** The add button: a new region is appended and becomes the active tab. */
    method AddRegion(now: nat, currentSheet: string)
      modifies this
      ensures Valid()
      ensures regions == old(regions) + [NewRegion(|old(regions)|, now, currentSheet)]
      ensures activeTab == |old(regions)|
    {
      var idx := |regions|;
      regions := regions + [NewRegion(idx, now, currentSheet)];
      activeTab := idx;
    }

    /**
     * The delete button, once confirmed: the region goes, and an active tab past the new end is
     * clamped to the last region (0 when none is left). An active tab still in range is kept,
     * even when it now shows a different region.
     */
    method DeleteRegion(idx: nat)
      requires idx < |regions|
      requires Valid()
      modifies this
      ensures Valid()
      ensures regions == Splice(old(regions), idx)
      ensures old(activeTab) < |regions| ==> activeTab == old(activeTab)
      ensures old(activeTab) >= |regions| ==> activeTab == if |regions| == 0 then 0 else |regions| - 1
    {
      regions := Splice(regions, idx);
      if activeTab >= |regions| {
        activeTab := if |regions| - 1 > 0 then |regions| - 1 else 0;
      }
    }

    /** Renaming: a name that trims to nothing is ignored, any other is stored trimmed. */
    method Rename(idx: nat, input: string)
      requires idx < |regions|
      modifies this
      ensures activeTab == old(activeTab)
      ensures Trim(input) == "" ==> regions == old(regions)
      ensures Trim(input) != "" ==> regions == old(regions)[idx := old(regions)[idx].(name := Trim(input))]
    {
      var newName := Trim(input);
      if newName != "" {
        regions := regions[idx := regions[idx].(name := newName)];
      }
    }

    /** A direction button sets the active region's direction. */
    method SetDirection(d: Direction)
      requires Valid() && regions != []
      modifies this
      ensures Valid() && activeTab == old(activeTab)
      ensures regions == old(regions)[activeTab := old(regions)[activeTab].(direction := d)]
    {
      regions := regions[activeTab := regions[activeTab].(direction := d)];
    }

    /** The generic input handler on the active region. */
    method OnInput(input: Input, currentSheet: string)
      requires Valid() && regions != []
      modifies this
      ensures Valid() && activeTab == old(activeTab)
      ensures regions == old(regions)[activeTab := Edited(old(regions)[activeTab], input, currentSheet)]
    {
      regions := regions[activeTab := Edited(regions[activeTab], input, currentSheet)];
    }

    /** The add-attribute button: an empty range named after its position joins the active region's list. */
    method AddAttribute()
      requires Valid() && regions != []
      modifies this
      ensures Valid() && activeTab == old(activeTab)
      ensures var r := old(regions)[activeTab];
        regions == old(regions)[activeTab := r.(headerAttributes := r.headerAttributes + [NewAttribute(|r.headerAttributes|)])]
    {
      var r := regions[activeTab];
      regions := regions[activeTab := r.(headerAttributes := r.headerAttributes + [NewAttribute(|r.headerAttributes|)])];
    }

    /** The delete button of attribute `idx` of the active region. */
    method DeleteAttribute(idx: nat)
      requires Valid() && regions != []
      modifies this
      ensures Valid() && activeTab == old(activeTab)
      ensures var r := old(regions)[activeTab];
        regions == old(regions)[activeTab := r.(headerAttributes := Splice(r.headerAttributes, idx))]
    {
      var r := regions[activeTab];
      regions := regions[activeTab := r.(headerAttributes := Splice(r.headerAttributes, idx))];
    }

    /**
     * Typing into the start or end field of attribute `idx`. The generic input listener fires
     * first and syncs the active region's sheet name with the current sheet; then the endpoint is
     * set, unless there is no attribute `idx`.
     */
    method SetAttributeEndpoint(idx: nat, isStart: bool, text: string, currentSheet: string)
      requires Valid() && regions != []
      modifies this
      ensures Valid() && activeTab == old(activeTab)
      ensures var r0 := old(regions)[activeTab];
        var r := if currentSheet != "" then r0.(sheetName := currentSheet) else r0;
        if idx < |r.headerAttributes| then
          var a := r.headerAttributes[idx];
          var a' := if isStart then a.(start := text) else a.(end := text);
          regions == old(regions)[activeTab := r.(headerAttributes := r.headerAttributes[idx := a'])]
        else regions == old(regions)[activeTab := r]
    {
      var r := regions[activeTab];
      if currentSheet != "" {
        r := r.(sheetName := currentSheet);
      }
      if idx < |r.headerAttributes| {
        var a := r.headerAttributes[idx];
        var a' := if isStart then a.(start := text) else a.(end := text);
        r := r.(headerAttributes := r.headerAttributes[idx := a']);
      }
      regions := regions[activeTab := r];
    }

    /**
     * The save button of region `idx`: refused when that region lacks a start or an end;
     * otherwise every region of the panel is materialised and takes its new table name.
     */
    method Save(idx: nat, wb: Workbook, currentSheet: string, dec: Decoder, clock: nat -> nat)
      returns (saved: bool, tables: seq<RegionService.Materialized>)
      requires idx < |regions| && Valid()
      modifies this
      ensures saved == SaveAllowed(old(regions)[idx])
      ensures Valid() && activeTab == old(activeTab)
      ensures !saved ==> regions == old(regions) && tables == []
      ensures saved ==> regions == RegionService.UpdatedRegions(old(regions), wb, currentSheet, dec, clock, |old(regions)|)
      ensures saved ==> tables == RegionService.SavedTables(old(regions), wb, currentSheet, dec, clock, |old(regions)|)
    {
      if !SaveAllowed(regions[idx]) {
        return false, [];
      }
      var updated;
      tables, updated := RegionService.SaveAllRegionsToDb(regions, wb, currentSheet, dec, clock);
      RegionService.UpdatedRegionsAt(regions, wb, currentSheet, dec, clock, |regions|);
      regions := updated;
      saved := true;
    }
  }
}
