/**
 * The strategy base: the field list of one region (one entry per column, or per row for a
 * horizontal region, each followed by its attribute entries) and the SQL rewriting of a column
 * expression by a chain of cleaning rules.
 */
module BaseStrategy {
  import opened Wrappers
  import opened Text
  import opened Values
  import opened ExcelUtils
  import opened Model
  import TransformRegistry

  // ---------------------------------------------------------------------------------------
  // Where a region lies

  /** The start corner and the last column of a region, as the range decoding settles them. */
  datatype Span = Span(startRow: nat, startCol: nat, endCol: int)

  /** `sheetData[0].length - 1`; an empty matrix has no columns. */
  function LastColumn(m: Matrix): int {
    if |m| > 0 then |m[0]| - 1 else -1
  }

  /**
   * Decoding `start + ":" + end`: a failed decode keeps the defaults (the sheet origin and the
   * last column of the first row); without an end address the sheet's own range gives the end
   * column.
   */
  function DecodeSpan(region: Region, sheet: Sheet, m: Matrix, dec: Decoder): (sp: Span)
    ensures region.start == "" ==> sp.startRow == 0 && sp.startCol == 0
    ensures region.start != "" && dec.range(region.start + ":" + region.end).Some? ==>
      var rg := dec.range(region.start + ":" + region.end);
      sp.startRow == rg.value.s.r && sp.startCol == rg.value.s.c &&
      (region.end != "" ==> sp.endCol == rg.value.e.c)
    ensures region.start != "" && dec.range(region.start + ":" + region.end).None? ==> sp == Span(0, 0, LastColumn(m))
    ensures region.start == "" || (region.end == "" && dec.range(region.start + ":" + region.end).Some?) ==>
      sp.endCol == (if sheet.range.Some? then sheet.range.value.e.c else LastColumn(m))
  {
    var sheetEnd := if sheet.range.Some? then sheet.range.value.e.c else LastColumn(m);
    if region.start != "" then
      match dec.range(region.start + ":" + region.end)
      case None => Span(0, 0, LastColumn(m))
      case Some(rg) => Span(rg.s.r, rg.s.c, if region.end != "" then rg.e.c else sheetEnd)
    else Span(0, 0, sheetEnd)
  }

  /** The last item row of a horizontal region: the decoded end row, else the sheet's last row. */
  function EndRowEff(region: Region, m: Matrix, dec: Decoder): int {
    if region.end != "" then
      match dec.range(region.start + ":" + region.end)
      case Some(rg) => rg.e.r
      case None => |m| - 1
    else |m| - 1
  }

  /**
   * Everything the header derivation reads. Items run from `first` to `last` (columns, or rows
   * for a horizontal region); the header cells of an item run along the other axis from
   * `headerStart` for `headerCount` cells.
   */
  datatype Ctx = Ctx(
    m: Matrix,
    merges: seq<CellRange>,
    dir: Direction,
    cascade: bool,
    headerCount: int,
    attrs: seq<AttrRange>,
    dec: Decoder,
    headerStart: int,
    first: int,
    last: int)

  predicate Valid(ctx: Ctx) {
    ctx.dir == Vertical ==> ctx.first >= 0
  }

  function MakeCtx(region: Region, sheet: Sheet, m: Matrix, dec: Decoder): (ctx: Ctx)
    ensures Valid(ctx)
  {
    var sp := DecodeSpan(region, sheet, m, dec);
    if region.direction == Horizontal then
      Ctx(m, sheet.merges, Horizontal, region.cascadeHeader, HeaderCount(region), region.headerAttributes,
          dec, sp.startCol, sp.startRow + region.skipRows, EndRowEff(region, m, dec))
    else
      Ctx(m, sheet.merges, Vertical, region.cascadeHeader, HeaderCount(region), region.headerAttributes,
          dec, sp.startRow, sp.startCol, sp.endCol)
  }

  /** The (row, column) of the header cell at `pos` on the header axis of `item`. */
  function CellAt(dir: Direction, item: int, pos: int): (int, int) {
    if dir == Vertical then (pos, item) else (item, pos)
  }

  /** `encodeCol(c)` for a column, `Row_<r+1>` for a row. */
  function ItemId(ctx: Ctx, item: int): (id: string)
    requires ctx.dir == Vertical ==> item >= 0
    ensures id != ""
  {
    if ctx.dir == Vertical then ColLabel(item) else "Row_" + IntStr(item + 1)
  }

  // ---------------------------------------------------------------------------------------
  // Display names

  /** The trimmed text of a non-blank cell as a one-element list, nothing for a blank cell. */
  function NonBlankPart(v: Value): seq<string> {
    if IsBlank(v) then [] else [Trim(ToStr(v))]
  }

  /**
   * The cascade parts of the header cells from `pos` to `last`: a cell whose merged range
   * starts where the previously read cell's range starts is skipped, blank cells add nothing.
   */
  function CascadeParts(ctx: Ctx, item: int, pos: int, last: int, prev: Option<CellRange>): seq<string>
    decreases last - pos + 1
  {
    if pos > last then []
    else
      var (r, c) := CellAt(ctx.dir, item, pos);
      var cur := FindCover(ctx.merges, r, c);
      if cur.Some? && prev.Some? && cur.value.s == prev.value.s then
        CascadeParts(ctx, item, pos + 1, last, prev)
      else
        NonBlankPart(CellValueWithMerges(ctx.m, ctx.merges, r, c)) + CascadeParts(ctx, item, pos + 1, last, cur)
  }

  /** The last header cell's text: trimmed, "" for a missing cell. */
  function LastHeaderText(ctx: Ctx, item: int): string {
    var (r, c) := CellAt(ctx.dir, item, ctx.headerStart + ctx.headerCount - 1);
    var v := CellValueWithMerges(ctx.m, ctx.merges, r, c);
    if v.Null? then "" else Trim(ToStr(v))
  }

  /** The header text before the fallback to the item id. */
  function RawName(ctx: Ctx, item: int): string {
    if ctx.cascade then
      Join(CascadeParts(ctx, item, ctx.headerStart, ctx.headerStart + ctx.headerCount - 1, None), "_")
    else LastHeaderText(ctx, item)
  }

  /** An item's display name: its header text, or its id when that text is empty. */
  function DisplayName(ctx: Ctx, item: int): (name: string)
    requires ctx.dir == Vertical ==> item >= 0
    ensures name != ""
  {
    var raw := RawName(ctx, item);
    if raw == "" then ItemId(ctx, item) else raw
  }

  // ---------------------------------------------------------------------------------------
  // Attribute entries

  /** Whether attribute `a` applies to `item`: both addresses set and decodable, item within them. */
  predicate AttrActive(ctx: Ctx, item: int, a: AttrRange) {
    a.start != "" && a.end != "" &&
    var s := ctx.dec.cell(a.start);
    var e := ctx.dec.cell(a.end);
    s.Some? && e.Some? &&
    if ctx.dir == Horizontal then InSpan(item, s.value.r, e.value.r) else InSpan(item, s.value.c, e.value.c)
  }

  function AttrId(id: string, k: nat): string {
    id + "_attr_" + NatStr(k + 1)
  }

  function AttrName(name: string, a: AttrRange, k: nat): string {
    name + "_" + (if a.suffix != "" then a.suffix else "属性" + NatStr(k + 1))
  }

  function AttrHeader(id: string, name: string, a: AttrRange, k: nat): Header {
    Header(AttrId(id, k), AttrName(name, a, k), true)
  }

  /** The attribute entries of an item from the k-th attribute on. */
  function AttrEntries(ctx: Ctx, item: int, id: string, name: string, k: nat): (hs: seq<Header>)
    ensures forall h :: h in hs ==> h.isAttribute
    decreases |ctx.attrs| - k
  {
    if k >= |ctx.attrs| then []
    else
      (if AttrActive(ctx, item, ctx.attrs[k]) then [AttrHeader(id, name, ctx.attrs[k], k)] else [])
        + AttrEntries(ctx, item, id, name, k + 1)
  }

  /** An item's entry followed immediately by its attribute entries. */
  function ItemEntries(ctx: Ctx, item: int): (hs: seq<Header>)
    requires ctx.dir == Vertical ==> item >= 0
  {
    var id := ItemId(ctx, item);
    var name := DisplayName(ctx, item);
    [Header(id, name, false)] + AttrEntries(ctx, item, id, name, 0)
  }

  /** The entries of the items from the first up to, not including, `upto`, in item order. */
  function ItemsBefore(ctx: Ctx, upto: int): seq<Header>
    requires Valid(ctx)
    decreases upto - ctx.first
  {
    if upto <= ctx.first then [] else ItemsBefore(ctx, upto - 1) + ItemEntries(ctx, upto - 1)
  }

  /** One more item adds its entries at the end. */
  lemma ItemsBeforeStep(ctx: Ctx, item: int)
    requires Valid(ctx) && item >= ctx.first
    ensures ItemsBefore(ctx, item + 1) == ItemsBefore(ctx, item) + ItemEntries(ctx, item)
  {
  }

  /** No item comes before the first. */
  lemma NoItemsBefore(ctx: Ctx, upto: int)
    requires Valid(ctx) && upto <= ctx.first
    ensures ItemsBefore(ctx, upto) == []
  {
  }

  /** The entries of all items of a region. */
  function Items(ctx: Ctx): seq<Header>
    requires Valid(ctx)
  {
    ItemsBefore(ctx, ctx.last + 1)
  }

  /** `getRegionFields(region, workbookData, currentSheet)`. */
  function RegionFields(region: Region, wb: Option<Workbook>, currentSheet: string, dec: Decoder): (hs: seq<Header>)
    ensures wb.None? ==> hs == []
    ensures (wb.Some? && (SheetNameOf(region, currentSheet) !in wb.value ||
                          wb.value[SheetNameOf(region, currentSheet)].matrix.None?)) ==> hs == []
  {
    if wb.None? then []
    else
      var name := SheetNameOf(region, currentSheet);
      if name !in wb.value || wb.value[name].matrix.None? then []
      else
        var sheet := wb.value[name];
        var ctx := MakeCtx(region, sheet, sheet.matrix.value, dec);
        Items(ctx)
  }

  // ---------------------------------------------------------------------------------------
  // The loops

  /**
   * One header cell of the cascade loop: a cell in the range of the previously read cell is
   * skipped; otherwise its text (if any) is collected and its range remembered.
   */
  method CascadeCell(ctx: Ctx, item: int, pos: int, last: int, names: seq<string>, lastMerge: Option<CellRange>)
    returns (names': seq<string>, lastMerge': Option<CellRange>)
    requires pos <= last
    ensures names' + CascadeParts(ctx, item, pos + 1, last, lastMerge') == names + CascadeParts(ctx, item, pos, last, lastMerge)
  {
    var rc := CellAt(ctx.dir, item, pos);
    var currentMerge := FindCover(ctx.merges, rc.0, rc.1);
    var v := CellValueWithMerges(ctx.m, ctx.merges, rc.0, rc.1);
    CascadeStep(ctx, item, pos, last, lastMerge, rc.0, rc.1, currentMerge, v);
    if currentMerge.Some? && lastMerge.Some? && currentMerge.value.s == lastMerge.value.s {
      return names, lastMerge;
    }
    names' := names;
    if !IsBlank(v) {
      names' := names + [Trim(ToStr(v))];
    }
    assert names' == names + NonBlankPart(v);
    ConcatAssoc(names, NonBlankPart(v), CascadeParts(ctx, item, pos + 1, last, currentMerge));
    lastMerge' := currentMerge;
  }

  lemma CascadeStep(ctx: Ctx, item: int, pos: int, last: int, prev: Option<CellRange>,
                    r: int, c: int, cur: Option<CellRange>, v: Value)
    requires pos <= last && CellAt(ctx.dir, item, pos) == (r, c)
    requires cur == FindCover(ctx.merges, r, c) && v == CellValueWithMerges(ctx.m, ctx.merges, r, c)
    ensures CascadeParts(ctx, item, pos, last, prev) ==
      if cur.Some? && prev.Some? && cur.value.s == prev.value.s then CascadeParts(ctx, item, pos + 1, last, prev)
      else NonBlankPart(v) + CascadeParts(ctx, item, pos + 1, last, cur)
  {
  }

  /** The cascade loop over the header cells of one item, with its `lastMerge`. */
  method CascadeName(ctx: Ctx, item: int) returns (name: string)
    ensures name == Join(CascadeParts(ctx, item, ctx.headerStart, ctx.headerStart + ctx.headerCount - 1, None), "_")
  {
    var names: seq<string> := [];
    var lastMerge: Option<CellRange> := None;
    var first := ctx.headerStart;
    var last := ctx.headerStart + ctx.headerCount - 1;
    var pos := first;
    assert names + CascadeParts(ctx, item, pos, last, lastMerge) == CascadeParts(ctx, item, first, last, None);
    while pos <= last
      invariant names + CascadeParts(ctx, item, pos, last, lastMerge) == CascadeParts(ctx, item, first, last, None)
      decreases last - pos + 1
    {
      names, lastMerge := CascadeCell(ctx, item, pos, last, names, lastMerge);
      pos := pos + 1;
    }
    assert names + [] == names;
    name := Join(names, "_");
  }

  lemma AttrStep(ctx: Ctx, item: int, id: string, name: string, k: nat)
    requires k < |ctx.attrs|
    ensures AttrEntries(ctx, item, id, name, k) ==
      (if AttrActive(ctx, item, ctx.attrs[k]) then [AttrHeader(id, name, ctx.attrs[k], k)] else [])
        + AttrEntries(ctx, item, id, name, k + 1)
  {
  }

  /** The display name of one item: cascade loop or last header cell, then the id fallback. */
  method ItemDisplayName(ctx: Ctx, item: int) returns (displayName: string)
    requires ctx.dir == Vertical ==> item >= 0
    ensures displayName == DisplayName(ctx, item)
  {
    var raw;
    if ctx.cascade {
      raw := CascadeName(ctx, item);
    } else {
      raw := LastHeaderText(ctx, item);
    }
    DisplayNameOfRaw(ctx, item, raw);
    displayName := if raw == "" then ItemId(ctx, item) else raw;
  }

  /** The display name falls back to the id exactly when the header text is empty. */
  lemma DisplayNameOfRaw(ctx: Ctx, item: int, raw: string)
    requires ctx.dir == Vertical ==> item >= 0
    requires raw == (if ctx.cascade
      then Join(CascadeParts(ctx, item, ctx.headerStart, ctx.headerStart + ctx.headerCount - 1, None), "_")
      else LastHeaderText(ctx, item))
    ensures DisplayName(ctx, item) == if raw == "" then ItemId(ctx, item) else raw
  {
    assert RawName(ctx, item) == raw;
  }

  /** The attribute loop of one item: a push per applicable attribute, in attribute order. */
  method PushAttributes(ctx: Ctx, item: int, colId: string, displayName: string, entries0: seq<Header>)
    returns (entries: seq<Header>)
    ensures entries == entries0 + AttrEntries(ctx, item, colId, displayName, 0)
  {
    entries := entries0;
    for k := 0 to |ctx.attrs|
      invariant entries + AttrEntries(ctx, item, colId, displayName, k) == entries0 + AttrEntries(ctx, item, colId, displayName, 0)
    {
      AttrStep(ctx, item, colId, displayName, k);
      ghost var rest := AttrEntries(ctx, item, colId, displayName, k + 1);
      if AttrActive(ctx, item, ctx.attrs[k]) {
        var h := AttrHeader(colId, displayName, ctx.attrs[k], k);
        assert entries + ([h] + rest) == (entries + [h]) + rest;
        entries := entries + [h];
      } else {
        assert [] + rest == rest;
      }
    }
    assert AttrEntries(ctx, item, colId, displayName, |ctx.attrs|) == [];
    assert entries + [] == entries;
  }

  /** One item of `getRegionFields`: its entry, then its attribute entries. */
  method ItemLoop(ctx: Ctx, item: int) returns (entries: seq<Header>)
    requires ctx.dir == Vertical ==> item >= 0
    ensures entries == ItemEntries(ctx, item)
  {
    var colId := ItemId(ctx, item);
    var displayName := ItemDisplayName(ctx, item);
    entries := PushAttributes(ctx, item, colId, displayName, [Header(colId, displayName, false)]);
  }

  /** The item loop of `getRegionFields`, over columns or rows. */
  method ItemsLoop(ctx: Ctx) returns (results: seq<Header>)
    requires Valid(ctx)
    ensures results == Items(ctx)
  {
    results := [];
    var item := ctx.first;
    if item > ctx.last {
      NoItemsBefore(ctx, ctx.last + 1);
      return;
    }
    while item <= ctx.last
      invariant ctx.first <= item <= ctx.last + 1
      invariant results == ItemsBefore(ctx, item)
      decreases ctx.last - item + 1
    {
      results := AppendItem(ctx, item, results);
      item := item + 1;
    }
  }

  /** One pass of the item loop: the item's entries go after those of the items before it. */
  method AppendItem(ctx: Ctx, item: int, results: seq<Header>) returns (results': seq<Header>)
    requires Valid(ctx) && item >= ctx.first
    requires results == ItemsBefore(ctx, item)
    ensures results' == ItemsBefore(ctx, item + 1)
  {
    var entries := ItemLoop(ctx, item);
    ItemsBeforeStep(ctx, item);
    results' := results + entries;
  }

  /** `getRegionFields`: the guards on the workbook, the sheet and its matrix, then the items. */
  method GetRegionFields(region: Region, wb: Option<Workbook>, currentSheet: string, dec: Decoder)
    returns (results: seq<Header>)
    ensures results == RegionFields(region, wb, currentSheet, dec)
  {
    if wb.None? {
      return [];
    }
    var sheetName := SheetNameOf(region, currentSheet);
    if sheetName !in wb.value || wb.value[sheetName].matrix.None? {
      return [];
    }
    var sheet := wb.value[sheetName];
    var ctx := MakeCtx(region, sheet, sheet.matrix.value, dec);
    results := ItemsLoop(ctx);
  }

  // ---------------------------------------------------------------------------------------
  // What the field list looks like

  /** The ids of the entries that are not attribute entries, in order. */
  function PrimaryIds(hs: seq<Header>): seq<string> {
    if hs == [] then []
    else PrimaryIds(hs[..|hs| - 1]) + (if hs[|hs| - 1].isAttribute then [] else [hs[|hs| - 1].id])
  }

  lemma {:induction false} PrimaryIdsAppend(a: seq<Header>, b: seq<Header>)
    ensures PrimaryIds(a + b) == PrimaryIds(a) + PrimaryIds(b)
    decreases |b|
  {
    if b == [] {
      assert a + b == a;
    } else {
      var b' := b[..|b| - 1];
      assert (a + b)[..|a + b| - 1] == a + b';
      PrimaryIdsAppend(a, b');
    }
  }

  lemma {:induction false} PrimaryIdsOfAttributes(hs: seq<Header>)
    requires forall h :: h in hs ==> h.isAttribute
    ensures PrimaryIds(hs) == []
  {
    if hs != [] {
      PrimaryIdsOfAttributes(hs[..|hs| - 1]);
    }
  }

  /** An entry followed by attribute entries adds exactly the entry's id. */
  lemma PrimaryIdsStep(before: seq<Header>, h: Header, attrs: seq<Header>)
    requires !h.isAttribute && forall a :: a in attrs ==> a.isAttribute
    ensures PrimaryIds(before + ([h] + attrs)) == PrimaryIds(before) + [h.id]
  {
    PrimaryIdsAppend(before, [h] + attrs);
    PrimaryIdsAppend([h], attrs);
    PrimaryIdsOfAttributes(attrs);
    assert [h][..0] == [];
  }

  /** The ids of the items from the first up to, not including, `upto`. */
  function ItemIdsBefore(ctx: Ctx, upto: int): seq<string>
    requires Valid(ctx)
    decreases upto - ctx.first
  {
    if upto <= ctx.first then [] else ItemIdsBefore(ctx, upto - 1) + [ItemId(ctx, upto - 1)]
  }

  lemma {:induction false} PrimaryIdsOfItems(ctx: Ctx, upto: int)
    requires Valid(ctx)
    ensures PrimaryIds(ItemsBefore(ctx, upto)) == ItemIdsBefore(ctx, upto)
    decreases upto - ctx.first
  {
    if upto > ctx.first {
      var item := upto - 1;
      PrimaryIdsOfItems(ctx, item);
      var id := ItemId(ctx, item);
      var name := DisplayName(ctx, item);
      var attrs := AttrEntries(ctx, item, id, name, 0);
      ItemsBeforeStep(ctx, item);
      assert ItemEntries(ctx, item) == [Header(id, name, false)] + attrs;
      PrimaryIdsStep(ItemsBefore(ctx, item), Header(id, name, false), attrs);
    }
  }

  lemma {:induction false} ItemIdsBeforeShape(ctx: Ctx, upto: int)
    requires Valid(ctx)
    ensures |ItemIdsBefore(ctx, upto)| == (if upto <= ctx.first then 0 else upto - ctx.first)
    ensures forall j :: 0 <= j < |ItemIdsBefore(ctx, upto)| ==> ItemIdsBefore(ctx, upto)[j] == ItemId(ctx, ctx.first + j)
    decreases upto - ctx.first
  {
    if upto > ctx.first {
      ItemIdsBeforeShape(ctx, upto - 1);
      var prev := ItemIdsBefore(ctx, upto - 1);
      var ids := ItemIdsBefore(ctx, upto);
      assert ids == prev + [ItemId(ctx, upto - 1)];
      forall j | 0 <= j < |ids|
        ensures ids[j] == ItemId(ctx, ctx.first + j)
      {
        if j < |prev| {
          assert ids[j] == prev[j];
        } else {
          assert j == upto - 1 - ctx.first && ids[j] == ItemId(ctx, upto - 1);
        }
      }
    }
  }

  /** The number of items from `first` to `last` inclusive. */
  function Count(first: int, last: int): nat {
    if last < first then 0 else last - first + 1
  }

  /** The non-attribute entries of a context's items, one per item, in item order. */
  lemma {:induction false} ItemIds(ctx: Ctx)
    requires Valid(ctx)
    ensures var ids := PrimaryIds(Items(ctx));
      |ids| == Count(ctx.first, ctx.last) &&
      forall j :: 0 <= j < |ids| ==> ids[j] == ItemId(ctx, ctx.first + j)
  {
    PrimaryIdsOfItems(ctx, ctx.last + 1);
    ItemIdsBeforeShape(ctx, ctx.last + 1);
  }

  /** A vertical region's items are its columns, from the start column to the end column. */
  lemma VerticalCtx(region: Region, sheet: Sheet, m: Matrix, dec: Decoder)
    requires region.direction == Vertical
    ensures var ctx := MakeCtx(region, sheet, m, dec);
      var sp := DecodeSpan(region, sheet, m, dec);
      ctx.dir == Vertical && ctx.first == sp.startCol && ctx.last == sp.endCol &&
      ctx.headerStart == sp.startRow && ctx.headerCount == HeaderCount(region)
  {
  }

  /**
   * A horizontal region's items are its rows, from `startRow + skipRows` to the end row; its
   * header cells start at the start column.
   */
  lemma HorizontalCtx(region: Region, sheet: Sheet, m: Matrix, dec: Decoder)
    requires region.direction == Horizontal
    ensures var ctx := MakeCtx(region, sheet, m, dec);
      var sp := DecodeSpan(region, sheet, m, dec);
      ctx.dir == Horizontal && ctx.first == sp.startRow + region.skipRows &&
      ctx.last == EndRowEff(region, m, dec) &&
      ctx.headerStart == sp.startCol && ctx.headerCount == HeaderCount(region)
  {
  }

  /**
   * Vertically, there is exactly one non-attribute entry per column, in column order, each
   * named by the column's label.
   */
  lemma ColumnIds(ctx: Ctx)
    requires ctx.dir == Vertical && ctx.first >= 0
    ensures var ids := PrimaryIds(Items(ctx));
      |ids| == Count(ctx.first, ctx.last) &&
      forall j :: 0 <= j < |ids| ==> ids[j] == ColLabel(ctx.first + j)
  {
    ItemIds(ctx);
    var ids := PrimaryIds(Items(ctx));
    forall j | 0 <= j < |ids|
      ensures ids[j] == ColLabel(ctx.first + j)
    {
      assert ids[j] == ItemId(ctx, ctx.first + j);
    }
  }

  /** Horizontally, there is exactly one non-attribute entry per row, named `Row_<r+1>`. */
  lemma RowIds(ctx: Ctx)
    requires ctx.dir == Horizontal
    ensures var ids := PrimaryIds(Items(ctx));
      |ids| == Count(ctx.first, ctx.last) &&
      forall j :: 0 <= j < |ids| ==> ids[j] == "Row_" + IntStr(ctx.first + j + 1)
  {
    ItemIds(ctx);
    var ids := PrimaryIds(Items(ctx));
    forall j | 0 <= j < |ids|
      ensures ids[j] == "Row_" + IntStr(ctx.first + j + 1)
    {
      assert ids[j] == ItemId(ctx, ctx.first + j);
    }
  }

  /** `headerRows` of 0 reads as 1. */
  lemma ZeroHeaderRowsIsOne(region: Region, wb: Option<Workbook>, currentSheet: string, dec: Decoder)
    ensures RegionFields(region.(headerRows := 0), wb, currentSheet, dec)
         == RegionFields(region.(headerRows := 1), wb, currentSheet, dec)
  {
    var r0, r1 := region.(headerRows := 0), region.(headerRows := 1);
    forall sheet: Sheet, m: Matrix
      ensures MakeCtx(r0, sheet, m, dec) == MakeCtx(r1, sheet, m, dec)
    {
      assert DecodeSpan(r0, sheet, m, dec) == DecodeSpan(r1, sheet, m, dec);
      assert EndRowEff(r0, m, dec) == EndRowEff(r1, m, dec);
      assert HeaderCount(r0) == HeaderCount(r1) == 1;
    }
    assert SheetNameOf(r0, currentSheet) == SheetNameOf(r1, currentSheet);
  }

  // Attribute entries

  lemma AttrIdInjective(id: string, j: nat, k: nat)
    requires AttrId(id, j) == AttrId(id, k)
    ensures j == k
  {
    var p := id + "_attr_";
    var a, b := AttrId(id, j), AttrId(id, k);
    assert a == p + NatStr(j + 1) && b == p + NatStr(k + 1);
    assert NatStr(j + 1) == a[|p|..];
    assert NatStr(k + 1) == b[|p|..];
    NatStrInjective(j + 1, k + 1);
  }

  lemma {:induction false} AttrEntriesMember(ctx: Ctx, item: int, id: string, name: string, k0: nat, h: Header)
    requires h in AttrEntries(ctx, item, id, name, k0)
    ensures exists j :: k0 <= j < |ctx.attrs| && AttrActive(ctx, item, ctx.attrs[j]) &&
                        h == AttrHeader(id, name, ctx.attrs[j], j)
    decreases |ctx.attrs| - k0
  {
    if k0 < |ctx.attrs| {
      var here := if AttrActive(ctx, item, ctx.attrs[k0]) then [AttrHeader(id, name, ctx.attrs[k0], k0)] else [];
      if h !in here {
        AttrEntriesMember(ctx, item, id, name, k0 + 1, h);
      }
    }
  }

  lemma {:induction false} ActiveAttrListed(ctx: Ctx, item: int, id: string, name: string, k0: nat, k: nat)
    requires k0 <= k < |ctx.attrs| && AttrActive(ctx, item, ctx.attrs[k])
    ensures AttrHeader(id, name, ctx.attrs[k], k) in AttrEntries(ctx, item, id, name, k0)
    decreases k - k0
  {
    if k0 < k {
      ActiveAttrListed(ctx, item, id, name, k0 + 1, k);
    }
  }

  /**
   * An item's entry comes first, and the entry `<id>_attr_<k+1>` of its k-th attribute follows
   * it exactly when the attribute applies to the item (both addresses set and decodable, the
   * item within their span).
   */
  lemma AttributeFollowsItem(ctx: Ctx, item: int, k: nat)
    requires ctx.dir == Vertical ==> item >= 0
    requires k < |ctx.attrs|
    ensures var id := ItemId(ctx, item);
      var name := DisplayName(ctx, item);
      var hs := ItemEntries(ctx, item);
      hs[0] == Header(id, name, false) &&
      (forall h :: h in hs[1..] ==> h.isAttribute) &&
      (AttrHeader(id, name, ctx.attrs[k], k) in hs[1..] <==> AttrActive(ctx, item, ctx.attrs[k]))
  {
    var id := ItemId(ctx, item);
    var name := DisplayName(ctx, item);
    var hs := ItemEntries(ctx, item);
    assert hs[1..] == AttrEntries(ctx, item, id, name, 0);
    var h := AttrHeader(id, name, ctx.attrs[k], k);
    if h in hs[1..] {
      AttrEntriesMember(ctx, item, id, name, 0, h);
      var j :| 0 <= j < |ctx.attrs| && AttrActive(ctx, item, ctx.attrs[j]) && h == AttrHeader(id, name, ctx.attrs[j], j);
      AttrIdInjective(id, j, k);
    }
    if AttrActive(ctx, item, ctx.attrs[k]) {
      ActiveAttrListed(ctx, item, id, name, 0, k);
    }
  }

  // Display names

  /**
   * Without cascade, the name is the trimmed text of the last header cell (merge-aware), or
   * the item id when that cell is blank.
   */
  lemma PlainDisplayName(ctx: Ctx, item: int)
    requires ctx.dir == Vertical ==> item >= 0
    requires !ctx.cascade
    ensures var (r, c) := CellAt(ctx.dir, item, ctx.headerStart + ctx.headerCount - 1);
      var v := CellValueWithMerges(ctx.m, ctx.merges, r, c);
      DisplayName(ctx, item) == if IsBlank(v) then ItemId(ctx, item) else Trim(ToStr(v))
  {
    var (r, c) := CellAt(ctx.dir, item, ctx.headerStart + ctx.headerCount - 1);
    var v := CellValueWithMerges(ctx.m, ctx.merges, r, c);
    var raw := LastHeaderText(ctx, item);
    assert raw == if v.Null? then "" else Trim(ToStr(v));
    DisplayNameOfRaw(ctx, item, raw);
    assert raw == "" <==> IsBlank(v);
  }

  /** The cell-by-cell parts when no merged range is involved. */
  function PlainParts(ctx: Ctx, item: int, pos: int, last: int): seq<string>
    decreases last - pos + 1
  {
    if pos > last then []
    else
      var (r, c) := CellAt(ctx.dir, item, pos);
      NonBlankPart(At(ctx.m, r, c)) + PlainParts(ctx, item, pos + 1, last)
  }

  /** In a sheet without merges, cascade reads every header cell and keeps the non-blank ones. */
  lemma {:induction false} CascadeWithoutMerges(ctx: Ctx, item: int, pos: int, last: int, prev: Option<CellRange>)
    requires ctx.merges == []
    ensures CascadeParts(ctx, item, pos, last, prev) == PlainParts(ctx, item, pos, last)
    decreases last - pos + 1
  {
    if pos <= last {
      CascadeWithoutMerges(ctx, item, pos + 1, last, None);
    }
  }

  /** Every cascade part is non-empty and trimmed. */
  lemma {:induction false} CascadePartsTrimmed(ctx: Ctx, item: int, pos: int, last: int, prev: Option<CellRange>)
    ensures forall p :: p in CascadeParts(ctx, item, pos, last, prev) ==> Clean(p)
    decreases last - pos + 1
  {
    if pos <= last {
      var rc := CellAt(ctx.dir, item, pos);
      var cur := FindCover(ctx.merges, rc.0, rc.1);
      var v := CellValueWithMerges(ctx.m, ctx.merges, rc.0, rc.1);
      CascadeStep(ctx, item, pos, last, prev, rc.0, rc.1, cur, v);
      CascadePartsTrimmed(ctx, item, pos + 1, last, prev);
      CascadePartsTrimmed(ctx, item, pos + 1, last, cur);
      NonBlankPartClean(v);
    }
  }

  /** Non-empty, with no white space at either end. */
  predicate Clean(p: string) {
    p != "" && !IsSpace(p[0]) && !IsSpace(p[|p| - 1])
  }

  lemma NonBlankPartClean(v: Value)
    ensures forall p :: p in NonBlankPart(v) ==> Clean(p)
  {
    TrimTrimmed(ToStr(v));
  }

  /** Header cells all inside the range the previous cell was read from add nothing. */
  lemma {:induction false} CascadeInsideOneMerge(ctx: Ctx, item: int, pos: int, last: int, rg: CellRange)
    requires forall q :: pos <= q <= last ==>
      FindCover(ctx.merges, CellAt(ctx.dir, item, q).0, CellAt(ctx.dir, item, q).1).Some? &&
      FindCover(ctx.merges, CellAt(ctx.dir, item, q).0, CellAt(ctx.dir, item, q).1).value.s == rg.s
    ensures CascadeParts(ctx, item, pos, last, Some(rg)) == []
    decreases last - pos + 1
  {
    if pos <= last {
      CascadeInsideOneMerge(ctx, item, pos + 1, last, rg);
    }
  }

  /**
   * A header whose cells all lie in one merged range contributes its text once: a vertical
   * merge across the header rows does not repeat the name.
   */
  lemma CascadeOneMergeOnePart(ctx: Ctx, item: int, pos: int, last: int, rg: CellRange)
    requires pos <= last
    requires forall q :: pos <= q <= last ==>
      FindCover(ctx.merges, CellAt(ctx.dir, item, q).0, CellAt(ctx.dir, item, q).1) == Some(rg)
    ensures |CascadeParts(ctx, item, pos, last, None)| <= 1
  {
    CascadeInsideOneMerge(ctx, item, pos + 1, last, rg);
  }

  // ---------------------------------------------------------------------------------------
  // Rule chains in SQL

  function LegacyDate(e: string): string {
    "CASE WHEN " + e + " IS NOT NULL THEN TO_CHAR(" + e + "::TIMESTAMP, 'YYYY-MM-DD') ELSE NULL END"
  }

  /** One reduce step: 'none' is skipped; an SQL-capable rule wraps; legacy ids; else no change. */
  function SqlStep(custom: seq<TransformRegistry.CustomRule>, e: string, ruleId: string): string {
    if ruleId == "none" then e
    else
      var rule := TransformRegistry.GetRule(custom, ruleId);
      if rule.Some? && (rule.value.engine == TransformRegistry.Sql || rule.value.engine == TransformRegistry.Both)
         && rule.value.sqlWrap.Some?
      then rule.value.sqlWrap.value + "(" + e + ")"
      else if ruleId == "date_fmt" then LegacyDate(e)
      else if ruleId == "number_conv" then "CAST(" + e + " AS NUMERIC)"
      else e
  }

  /** `rules.reduce(step, expr)`. */
  function SqlFold(custom: seq<TransformRegistry.CustomRule>, e: string, ruleIds: seq<string>): string
    decreases |ruleIds|
  {
    if ruleIds == [] then e else SqlFold(custom, SqlStep(custom, e, ruleIds[0]), ruleIds[1..])
  }

  /** `applyStrategiesToExpr(expr, strategies)`. */
  function ApplyStrategiesToExpr(custom: seq<TransformRegistry.CustomRule>, expr: string, strategies: Strategies): (r: string)
    ensures expr == "NULL" ==> r == "NULL"
    ensures strategies.Absent? || strategies == Many([]) ==> r == expr
  {
    if expr == "NULL" then "NULL"
    else
      match strategies
      case Absent => expr
      case One(id) => if id == "" then expr else SqlFold(custom, expr, [id])
      case Many(ids) => if ids == [] then expr else SqlFold(custom, expr, ids)
  }

  /** Rules apply left to right: folding `a + b` is folding `b` over the result of `a`. */
  lemma {:induction false} SqlFoldAppend(custom: seq<TransformRegistry.CustomRule>, e: string, a: seq<string>, b: seq<string>)
    ensures SqlFold(custom, e, a + b) == SqlFold(custom, SqlFold(custom, e, a), b)
    decreases |a|
  {
    if a == [] {
      assert a + b == b;
    } else {
      assert (a + b)[1..] == a[1..] + b;
      SqlFoldAppend(custom, SqlStep(custom, e, a[0]), a[1..], b);
    }
  }

  /** A single rule id behaves as the one-element list. */
  lemma SingleIdIsList(custom: seq<TransformRegistry.CustomRule>, expr: string, id: string)
    ensures ApplyStrategiesToExpr(custom, expr, One(id)) == ApplyStrategiesToExpr(custom, expr, Many([id]))
  {
    if id == "" && expr != "NULL" {
      assert [""][1..] == [];
      if "" in TransformRegistry.AllRules(custom) {
        TransformRegistry.RuleOrigin(custom, "");
      }
      assert SqlStep(custom, expr, "") == expr;
    }
  }

  /** With the built-in rules in place, `[trim, upper]` gives `UPPER(TRIM(x))`. */
  lemma TrimThenUpper(custom: seq<TransformRegistry.CustomRule>, x: string)
    requires x != "NULL"
    requires forall c :: c in custom ==> c.id != "trim" && c.id != "upper"
    ensures ApplyStrategiesToExpr(custom, x, Many(["trim", "upper"])) == "UPPER(TRIM(" + x + "))"
  {
    SqlFoldTwo(custom, x, "trim", "upper");
    TextRuleWraps(custom, x, "trim");
    TextRuleWraps(custom, "TRIM" + "(" + x + ")", "upper");
    NestedCallText(x);
  }

  lemma NestedCallText(x: string)
    ensures "UPPER" + "(" + ("TRIM" + "(" + x + ")") + ")" == "UPPER(TRIM(" + x + "))"
  {
  }

  lemma SqlFoldTwo(custom: seq<TransformRegistry.CustomRule>, e: string, a: string, b: string)
    ensures SqlFold(custom, e, [a, b]) == SqlStep(custom, SqlStep(custom, e, a), b)
  {
    assert [a, b][1..] == [b] && [b][1..] == [];
    var e1 := SqlStep(custom, e, a);
    assert SqlFold(custom, e, [a, b]) == SqlFold(custom, e1, [b]);
    assert SqlFold(custom, e1, [b]) == SqlFold(custom, SqlStep(custom, e1, b), []);
  }

  /** `upper`, `lower` and `trim`, when not overridden, become UPPER(e), LOWER(e) and TRIM(e). */
  lemma TextRuleWraps(custom: seq<TransformRegistry.CustomRule>, e: string, id: string)
    requires id in ["upper", "lower", "trim"] && forall c :: c in custom ==> c.id != id
    ensures SqlStep(custom, e, id) ==
      (if id == "upper" then "UPPER" else if id == "lower" then "LOWER" else "TRIM") + "(" + e + ")"
  {
    TransformRegistry.TextRuleServed(custom, id);
    SqlWrapStep(custom, e, id, if id == "upper" then "UPPER" else if id == "lower" then "LOWER" else "TRIM");
  }

  /** A rule served for SQL with a wrapping function wraps the expression in it. */
  lemma SqlWrapStep(custom: seq<TransformRegistry.CustomRule>, e: string, id: string, w: string)
    requires id != "none"
    requires TransformRegistry.GetRule(custom, id).Some?
    requires TransformRegistry.GetRule(custom, id).value.engine != TransformRegistry.Js
    requires TransformRegistry.GetRule(custom, id).value.sqlWrap == Some(w)
    ensures SqlStep(custom, e, id) == w + "(" + e + ")"
  {
  }

  /** A user rule overriding a built-in id is JS-only, so in SQL it leaves the expression alone. */
  lemma CustomRuleNotInSql(custom: seq<TransformRegistry.CustomRule>, e: string, k: nat)
    requires k < |custom|
    requires forall j :: k < j < |custom| ==> custom[j].id != custom[k].id
    requires custom[k].id !in ["none", "date_fmt", "number_conv"]
    ensures SqlStep(custom, e, custom[k].id) == e
  {
    TransformRegistry.LastCustomWins(custom, k);
  }

  // ---------------------------------------------------------------------------------------
  // The field lists of several regions

  /** `regions.map(r => getRegionFields(r, workbookData, currentSheet))`, each list kept with its region. */
  function Tables(regions: seq<Region>, wb: Option<Workbook>, currentSheet: string, dec: Decoder): seq<Table> {
    seq(|regions|, i requires 0 <= i < |regions| => Table(regions[i], RegionFields(regions[i], wb, currentSheet, dec)))
  }
}
