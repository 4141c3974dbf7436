/**
 * Materialising a region as a database table: the region's cells are cut out of the sheet
 * (header rows, then the data rows after the skipped ones), transposed for a horizontal region,
 * labelled with their sheet column letters (or `Row_<n>` row names) and interleaved with one
 * attribute column after every primary column.
 */
module RegionService {
  import opened Wrappers
  import opened Text
  import opened Values
  import opened ExcelUtils
  import opened Model
  import BaseStrategy

  // ---------------------------------------------------------------------------------------
  // Where the region lies

  /** The corners the range decoding settles: the start is a decoded address, the end may be -1. */
  datatype Bounds = Bounds(startRow: nat, startCol: nat, endRow: int, endCol: int)

  /**
   * The bounds of a region. The defaults are the whole sheet (last row of the matrix, last
   * column of its first row); a decodable `start:end` moves the start corner and, when `end` is
   * set, the end corner; without `end` (or without `start`) the sheet's own range, when it has
   * one, gives the end corner. A range that fails to decode keeps all the defaults.
   */
  function RegionBounds(region: Region, sheetRange: Option<CellRange>, m: Matrix, dec: Decoder): Bounds {
    var lastRow := |m| - 1;
    var lastCol := BaseStrategy.LastColumn(m);
    var sheetEndRow := if sheetRange.Some? then sheetRange.value.e.r else lastRow;
    var sheetEndCol := if sheetRange.Some? then sheetRange.value.e.c else lastCol;
    if region.start != "" then
      match dec.range(region.start + ":" + region.end)
      case None => Bounds(0, 0, lastRow, lastCol)
      case Some(rg) =>
        if region.end != "" then Bounds(rg.s.r, rg.s.c, rg.e.r, rg.e.c)
        else Bounds(rg.s.r, rg.s.c, sheetEndRow, sheetEndCol)
    else Bounds(0, 0, sheetEndRow, sheetEndCol)
  }

  /**
   * The table and the field list of a region agree on where it starts and on its last column:
   * both settle them by the same decoding of `start:end` against the same sheet.
   */
  lemma BoundsMatchFieldSpan(region: Region, sheet: Sheet, m: Matrix, dec: Decoder)
    ensures var b := RegionBounds(region, sheet.range, m, dec);
      var sp := BaseStrategy.DecodeSpan(region, sheet, m, dec);
      b.startRow == sp.startRow && b.startCol == sp.startCol && b.endCol == sp.endCol
  {
  }

  /** The number of columns from `startCol` to `endCol` inclusive (none when the end is before the start). */
  function Width(b: Bounds): nat {
    if b.endCol >= b.startCol then b.endCol - b.startCol + 1 else 0
  }

  /** `region.skipRows || 0`. */
  function SkipCount(region: Region): int {
    region.skipRows
  }

  /** The first data row: header rows and skipped rows are passed over. */
  function DataStart(region: Region, b: Bounds): int {
    b.startRow + HeaderCount(region) + SkipCount(region)
  }

  /** How many header rows are read (a negative header count reads none). */
  function HeaderRowCount(region: Region): nat {
    if HeaderCount(region) > 0 then HeaderCount(region) else 0
  }

  /** How many data rows are read: from the first data row to `endRow` inclusive. */
  function DataRowCount(region: Region, b: Bounds): nat {
    var n := b.endRow - DataStart(region, b) + 1;
    if n > 0 then n else 0
  }

  // ---------------------------------------------------------------------------------------
  // The raw rows

  /** Row `r` of the sheet between the region's columns; missing cells read as Null. */
  function RowCells(m: Matrix, r: int, b: Bounds): (row: seq<Value>)
    ensures |row| == Width(b)
  {
    seq(Width(b), j => At(m, r, b.startCol + j))
  }

  /** The sheet row the k-th raw row is read from: a header row, or a data row past the skipped ones. */
  function RawRowIndex(region: Region, b: Bounds, k: nat): int {
    if k < HeaderRowCount(region) then b.startRow + k
    else DataStart(region, b) + (k - HeaderRowCount(region))
  }

  /** The header rows followed by the data rows, each cut to the region's columns. */
  function RawRows(region: Region, m: Matrix, b: Bounds): seq<seq<Value>> {
    seq(HeaderRowCount(region), k => RowCells(m, b.startRow + k, b))
      + seq(DataRowCount(region, b), k => RowCells(m, DataStart(region, b) + k, b))
  }

  /** Every raw row has the region's width and holds, cell by cell, the sheet row it comes from. */
  lemma RawRowsCells(region: Region, m: Matrix, b: Bounds)
    ensures |RawRows(region, m, b)| == HeaderRowCount(region) + DataRowCount(region, b)
    ensures forall k :: 0 <= k < |RawRows(region, m, b)| ==>
      RawRows(region, m, b)[k] == RowCells(m, RawRowIndex(region, b, k), b)
  {
  }

  /** Reads one sheet row between the region's columns, cell by cell. */
  method ReadRow(m: Matrix, r: int, b: Bounds) returns (rowData: seq<Value>)
    ensures rowData == RowCells(m, r, b)
  {
    rowData := [];
    var c := b.startCol;
    while c <= b.endCol
      invariant b.startCol <= c <= b.startCol + Width(b)
      invariant |rowData| == c - b.startCol
      invariant forall j :: 0 <= j < |rowData| ==> rowData[j] == At(m, r, b.startCol + j)
      decreases b.endCol - c
    {
      rowData := rowData + [At(m, r, c)];
      c := c + 1;
    }
  }

  /** Reads the header rows, then the data rows after the skipped ones. */
  method ReadRawRows(region: Region, m: Matrix, b: Bounds) returns (rawRows: seq<seq<Value>>)
    ensures rawRows == RawRows(region, m, b)
  {
    var headerCount := HeaderCount(region);
    var dataStart := DataStart(region, b);
    rawRows := [];
    var r := b.startRow;
    while r < b.startRow + headerCount
      invariant b.startRow <= r <= b.startRow + HeaderRowCount(region)
      invariant rawRows == seq(r - b.startRow, k => RowCells(m, b.startRow + k, b))
      decreases b.startRow + headerCount - r
    {
      var rowData := ReadRow(m, r, b);
      rawRows := rawRows + [rowData];
      r := r + 1;
    }
    ghost var headerPart := rawRows;
    r := dataStart;
    while r <= b.endRow
      invariant dataStart <= r <= dataStart + DataRowCount(region, b)
      invariant rawRows == headerPart + seq(r - dataStart, k => RowCells(m, dataStart + k, b))
      decreases b.endRow - r
    {
      var rowData := ReadRow(m, r, b);
      rawRows := rawRows + [rowData];
      r := r + 1;
    }
  }

  // ---------------------------------------------------------------------------------------
  // Transposition

  /**
   * `transpose(matrix)`: one row per cell of the first row; a row shorter than the first reads
   * as Null past its end; an empty matrix transposes to an empty one.
   */
  function Transpose(mx: seq<seq<Value>>): seq<seq<Value>> {
    if |mx| == 0 then []
    else
      seq(|mx[0]|, i requires 0 <= i < |mx[0]| =>
        seq(|mx|, j requires 0 <= j < |mx| => if i < |mx[j]| then mx[j][i] else Null))
  }

  predicate Rectangular(mx: seq<seq<Value>>, w: nat) {
    forall j :: 0 <= j < |mx| ==> |mx[j]| == w
  }

  /** Transposing a non-empty rectangle swaps its dimensions and its indices. */
  lemma TransposeCells(mx: seq<seq<Value>>, w: nat)
    requires |mx| > 0 && Rectangular(mx, w)
    ensures |Transpose(mx)| == w && Rectangular(Transpose(mx), |mx|)
    ensures forall i, j :: 0 <= i < w && 0 <= j < |mx| ==> Transpose(mx)[i][j] == mx[j][i]
  {
  }

  /** Transposing twice gives a non-empty rectangle with non-empty rows back. */
  lemma TransposeTwice(mx: seq<seq<Value>>, w: nat)
    requires |mx| > 0 && w > 0 && Rectangular(mx, w)
    ensures Transpose(Transpose(mx)) == mx
  {
    TransposeCells(mx, w);
    var t := Transpose(mx);
    TransposeCells(t, |mx|);
    var tt := Transpose(t);
    assert |tt| == |mx|;
    forall j | 0 <= j < |mx|
      ensures tt[j] == mx[j]
    {
      assert |tt[j]| == w;
      forall i | 0 <= i < w
        ensures tt[j][i] == mx[j][i]
      {
        assert tt[j][i] == t[i][j];
      }
    }
  }

  /** A rectangle without columns transposes to nothing: its rows are lost. */
  lemma TransposeLosesEmptyRows(mx: seq<seq<Value>>)
    requires Rectangular(mx, 0)
    ensures Transpose(mx) == []
  {
  }

  /** `array.slice(k)`: a negative start counts from the end; a start past the end gives []. */
  function SliceFrom<T>(s: seq<T>, k: int): (r: seq<T>)
    ensures |r| <= |s|
    ensures 0 <= k <= |s| ==> r == s[k..]
  {
    if k >= 0 then (if k <= |s| then s[k..] else [])
    else if |s| + k >= 0 then s[|s| + k..] else s
  }

  // ---------------------------------------------------------------------------------------
  // Column headers and the interleaved table

  /** Everything the interleaving reads. */
  datatype Extraction = Extraction(region: Region, m: Matrix, dec: Decoder, b: Bounds)

  /** The database column of item `i`: the sheet row name `Row_<n>` (horizontal) or the column letters. */
  function ColumnHeader(x: Extraction, i: nat): (h: string)
    ensures h != ""
  {
    if x.region.direction == Horizontal then "Row_" + NatStr(x.b.startRow + i + 1)
    else BijLetters(x.b.startCol + i + 1); ColLabel(x.b.startCol + i)
  }

  /** `Row_<a>` and `Row_<b>` differ for different numbers. */
  lemma RowNameInjective(a: nat, b: nat)
    requires "Row_" + NatStr(a) == "Row_" + NatStr(b)
    ensures a == b
  {
    var p := "Row_";
    assert NatStr(a) == (p + NatStr(a))[|p|..];
    assert NatStr(b) == (p + NatStr(b))[|p|..];
    NatStrInjective(a, b);
  }

  /** Distinct items get distinct database columns. */
  lemma ColumnHeadersDistinct(x: Extraction, i: nat, j: nat)
    requires i != j
    ensures ColumnHeader(x, i) != ColumnHeader(x, j)
  {
    if x.region.direction == Horizontal {
      if ColumnHeader(x, i) == ColumnHeader(x, j) {
        RowNameInjective(x.b.startRow + i + 1, x.b.startRow + j + 1);
      }
    } else if ColumnHeader(x, i) == ColumnHeader(x, j) {
      ColLabelInjective(x.b.startCol + i, x.b.startCol + j);
    }
  }

  /** A vertical table's columns carry the sheet's own column letters. */
  lemma VerticalColumnHeaders(x: Extraction, i: nat)
    requires x.region.direction == Vertical
    ensures IsLabel(ColumnHeader(x, i)) && DecodeCol(ColumnHeader(x, i)) == x.b.startCol + i
  {
    ColLabelRoundTrip(x.b.startCol + i);
  }

  /** Builds the column headers one item at a time. */
  method ColumnHeaders(x: Extraction, count: nat) returns (columnHeaders: seq<string>)
    ensures |columnHeaders| == count
    ensures forall i :: 0 <= i < count ==> columnHeaders[i] == ColumnHeader(x, i)
  {
    columnHeaders := [];
    var i := 0;
    while i < count
      invariant i <= count && |columnHeaders| == i
      invariant forall j :: 0 <= j < i ==> columnHeaders[j] == ColumnHeader(x, j)
    {
      var h;
      if x.region.direction == Horizontal {
        h := "Row_" + NatStr(x.b.startRow + i + 1);
      } else {
        h := EncodeCol(x.b.startCol + i);
      }
      columnHeaders := columnHeaders + [h];
      i := i + 1;
    }
  }

  /** An attribute with both addresses set yields a column; one with either missing is passed over. */
  predicate Active(a: AttrRange) {
    a.start != "" && a.end != ""
  }

  /**
   * The attribute value for item `i`: the cell of the attribute's column at the item's row
   * (horizontal), or of its row at the item's column (vertical), when the item lies between the
   * two addresses; Null when it does not or when an address fails to decode.
   */
  function AttrValue(x: Extraction, a: AttrRange, i: nat): Value {
    var s := x.dec.cell(a.start);
    var e := x.dec.cell(a.end);
    if s.None? || e.None? then Null
    else if x.region.direction == Horizontal then
      var row := x.b.startRow + i;
      if InSpan(row, s.value.r, e.value.r) then At(x.m, row, s.value.c) else Null
    else
      var col := x.b.startCol + i;
      if InSpan(col, s.value.c, e.value.c) then At(x.m, s.value.r, col) else Null
  }

  /** `row[i]`: Null past the row's end. */
  function Cell(row: seq<Value>, i: nat): Value {
    if i < |row| then row[i] else Null
  }

  /** What a data row holds in an attribute column: Null under a blank primary cell. */
  function AttrCell(x: Extraction, row: seq<Value>, a: AttrRange, i: nat): Value {
    if IsBlank(Cell(row, i)) then Null else AttrValue(x, a, i)
  }

  /** The attribute column names of item `i` for the first `k` attributes. */
  function AttrHeaders(x: Extraction, i: nat, k: nat): seq<string>
    requires k <= |x.region.headerAttributes|
  {
    if k == 0 then []
    else
      var a := x.region.headerAttributes[k - 1];
      AttrHeaders(x, i, k - 1) + (if Active(a) then [BaseStrategy.AttrId(ColumnHeader(x, i), k - 1)] else [])
  }

  /** A data row's attribute cells of item `i` for the first `k` attributes. */
  function AttrCells(x: Extraction, row: seq<Value>, i: nat, k: nat): seq<Value>
    requires k <= |x.region.headerAttributes|
  {
    if k == 0 then []
    else
      var a := x.region.headerAttributes[k - 1];
      AttrCells(x, row, i, k - 1) + (if Active(a) then [AttrCell(x, row, a, i)] else [])
  }

  /** Item `i`'s columns: its own, then one per active attribute. */
  function ItemHeaders(x: Extraction, i: nat): seq<string> {
    [ColumnHeader(x, i)] + AttrHeaders(x, i, |x.region.headerAttributes|)
  }

  /** A data row's cells for item `i`, in the order of `ItemHeaders`. */
  function ItemCells(x: Extraction, row: seq<Value>, i: nat): seq<Value> {
    [Cell(row, i)] + AttrCells(x, row, i, |x.region.headerAttributes|)
  }

  /** The interleaved headers of the first `n` items. */
  function HeadersUpTo(x: Extraction, n: nat): seq<string> {
    if n == 0 then [] else HeadersUpTo(x, n - 1) + ItemHeaders(x, n - 1)
  }

  /** A data row interleaved over the first `n` items. */
  function RowUpTo(x: Extraction, row: seq<Value>, n: nat): seq<Value> {
    if n == 0 then [] else RowUpTo(x, row, n - 1) + ItemCells(x, row, n - 1)
  }

  /** Attribute names and attribute cells come in equal numbers. */
  lemma {:induction false} AttrLengths(x: Extraction, row: seq<Value>, i: nat, k: nat)
    requires k <= |x.region.headerAttributes|
    ensures |AttrCells(x, row, i, k)| == |AttrHeaders(x, i, k)|
  {
    if k > 0 {
      AttrLengths(x, row, i, k - 1);
    }
  }

  /** Every interleaved row has exactly as many cells as there are headers. */
  lemma {:induction false} RowMatchesHeaders(x: Extraction, row: seq<Value>, n: nat)
    ensures |RowUpTo(x, row, n)| == |HeadersUpTo(x, n)|
  {
    if n > 0 {
      RowMatchesHeaders(x, row, n - 1);
      AttrLengths(x, row, n - 1, |x.region.headerAttributes|);
    }
  }

  /** The headers of fewer items are a prefix of the headers of more. */
  lemma {:induction false} HeadersPrefix(x: Extraction, i: nat, n: nat)
    requires i <= n
    ensures HeadersUpTo(x, i) <= HeadersUpTo(x, n)
  {
    if i < n {
      HeadersPrefix(x, i, n - 1);
      var p := HeadersUpTo(x, n - 1);
      assert HeadersUpTo(x, n) == p + ItemHeaders(x, n - 1);
      assert HeadersUpTo(x, n)[..|p|] == p;
    }
  }

  /** A row interleaved over fewer items is a prefix of the row interleaved over more. */
  lemma {:induction false} RowPrefix(x: Extraction, row: seq<Value>, i: nat, n: nat)
    requires i <= n
    ensures RowUpTo(x, row, i) <= RowUpTo(x, row, n)
  {
    if i < n {
      RowPrefix(x, row, i, n - 1);
      var p := RowUpTo(x, row, n - 1);
      assert RowUpTo(x, row, n) == p + ItemCells(x, row, n - 1);
      assert RowUpTo(x, row, n)[..|p|] == p;
    }
  }

  /** Item `i`'s columns sit in one block of the headers, after those of the earlier items. */
  lemma ItemHeadersAt(x: Extraction, i: nat, n: nat)
    requires i < n
    ensures |HeadersUpTo(x, i + 1)| <= |HeadersUpTo(x, n)|
    ensures HeadersUpTo(x, n)[|HeadersUpTo(x, i)|..|HeadersUpTo(x, i + 1)|] == ItemHeaders(x, i)
  {
    HeadersPrefix(x, i + 1, n);
    var h := HeadersUpTo(x, i + 1);
    assert h == HeadersUpTo(x, i) + ItemHeaders(x, i);
    assert HeadersUpTo(x, n)[|HeadersUpTo(x, i)|..|h|] == h[|HeadersUpTo(x, i)|..];
  }

  /** Item `i`'s cells sit in one block of the row, after those of the earlier items. */
  lemma ItemCellsAt(x: Extraction, row: seq<Value>, i: nat, n: nat)
    requires i < n
    ensures |RowUpTo(x, row, i + 1)| <= |RowUpTo(x, row, n)|
    ensures RowUpTo(x, row, n)[|RowUpTo(x, row, i)|..|RowUpTo(x, row, i + 1)|] == ItemCells(x, row, i)
  {
    RowPrefix(x, row, i + 1, n);
    var r := RowUpTo(x, row, i + 1);
    assert r == RowUpTo(x, row, i) + ItemCells(x, row, i);
    assert RowUpTo(x, row, n)[|RowUpTo(x, row, i)|..|r|] == r[|RowUpTo(x, row, i)|..];
  }

  /**
   * Item `i` occupies the same place in the headers and in every row: its own column first,
   * its attribute columns right after it.
   */
  lemma ItemBlock(x: Extraction, row: seq<Value>, i: nat, n: nat)
    requires i < n
    ensures |HeadersUpTo(x, i)| == |RowUpTo(x, row, i)| < |HeadersUpTo(x, n)| == |RowUpTo(x, row, n)|
    ensures HeadersUpTo(x, n)[|HeadersUpTo(x, i)|] == ColumnHeader(x, i)
    ensures RowUpTo(x, row, n)[|HeadersUpTo(x, i)|] == Cell(row, i)
  {
    RowMatchesHeaders(x, row, i);
    RowMatchesHeaders(x, row, n);
    var at := |HeadersUpTo(x, i)|;
    ItemHeadersAt(x, i, n);
    var hs := HeadersUpTo(x, n)[at..|HeadersUpTo(x, i + 1)|];
    assert hs[0] == ItemHeaders(x, i)[0];
    ItemCellsAt(x, row, i, n);
    var cs := RowUpTo(x, row, n)[at..|RowUpTo(x, row, i + 1)|];
    assert cs[0] == ItemCells(x, row, i)[0];
  }

  /** The q-th attribute column of an item is named after the item's column and the attribute's position. */
  lemma {:induction false} AttrHeaderNames(x: Extraction, i: nat, k: nat)
    requires k <= |x.region.headerAttributes|
    ensures forall h :: h in AttrHeaders(x, i, k) ==>
      exists q :: 0 <= q < k && Active(x.region.headerAttributes[q]) && h == BaseStrategy.AttrId(ColumnHeader(x, i), q)
  {
    if k > 0 {
      AttrHeaderNames(x, i, k - 1);
    }
  }

  /** Under a blank primary cell every attribute cell is Null. */
  lemma {:induction false} BlankBaseNullAttrs(x: Extraction, row: seq<Value>, i: nat, k: nat)
    requires k <= |x.region.headerAttributes|
    requires IsBlank(Cell(row, i))
    ensures forall q :: 0 <= q < |AttrCells(x, row, i, k)| ==> AttrCells(x, row, i, k)[q] == Null
  {
    if k > 0 {
      BlankBaseNullAttrs(x, row, i, k - 1);
    }
  }

  /**
   * An attribute cell holds a value only under a non-blank primary cell, with both addresses
   * decodable and the item between them.
   */
  lemma AttrCellNonNull(x: Extraction, row: seq<Value>, a: AttrRange, i: nat)
    requires AttrCell(x, row, a, i) != Null
    ensures !IsBlank(Cell(row, i))
    ensures x.dec.cell(a.start).Some? && x.dec.cell(a.end).Some?
    ensures var s, e := x.dec.cell(a.start).value, x.dec.cell(a.end).value;
      if x.region.direction == Horizontal then InSpan(x.b.startRow + i, s.r, e.r)
      else InSpan(x.b.startCol + i, s.c, e.c)
  {
  }

  // ---------------------------------------------------------------------------------------
  // The materialised table

  /** What `createTableFromData` is handed: a table name, column names and rows of cells. */
  datatype Materialized = Materialized(tableName: string, headers: seq<string>, rows: seq<seq<Value>>)

  /** `region.tableName || 'table_' + now`. */
  function TableNameFor(region: Region, now: nat): (name: string)
    ensures name != ""
    ensures region.tableName != "" ==> name == region.tableName
  {
    if region.tableName != "" then region.tableName else "table_" + NatStr(now)
  }

  /** The rows after the transposition, if any. */
  function FinalRows(region: Region, raw: seq<seq<Value>>): seq<seq<Value>> {
    if region.direction == Horizontal then Transpose(raw) else raw
  }

  /** The number of items: raw rows (horizontal, after the transposition) or region columns. */
  function ColumnCount(region: Region, b: Bounds, raw: seq<seq<Value>>): nat {
    if region.direction == Horizontal then |raw| else Width(b)
  }

  /** The data rows: the rows after the first `headerCount` (slice semantics for a negative count). */
  function DataOnly(region: Region, raw: seq<seq<Value>>): seq<seq<Value>> {
    SliceFrom(FinalRows(region, raw), HeaderCount(region))
  }

  /** Whether the region yields no table: it ends before it starts, or its data starts past the sheet. */
  predicate Skipped(region: Region, m: Matrix, b: Bounds) {
    b.startRow > b.endRow || DataStart(region, b) > |m|
  }

  /** `processRegionToTable(region, sheetData)`: the table handed to the database, or None for an early return. */
  function Materialize(region: Region, sheetRange: Option<CellRange>, m: Matrix, dec: Decoder, now: nat): Option<Materialized> {
    var b := RegionBounds(region, sheetRange, m, dec);
    if Skipped(region, m, b) then None
    else
      var x := Extraction(region, m, dec, b);
      var raw := RawRows(region, m, b);
      var n := ColumnCount(region, b, raw);
      var dataOnly := DataOnly(region, raw);
      Some(Materialized(TableNameFor(region, now), HeadersUpTo(x, n), seq(|dataOnly|, ri requires 0 <= ri < |dataOnly| => RowUpTo(x, dataOnly[ri], n))))
  }

  /** Nothing is materialised exactly when the region ends before it starts or its data starts past the sheet. */
  lemma MaterializeNoneIff(region: Region, sheetRange: Option<CellRange>, m: Matrix, dec: Decoder, now: nat)
    ensures Materialize(region, sheetRange, m, dec, now).None? <==> Skipped(region, m, RegionBounds(region, sheetRange, m, dec))
  {
  }

  /** Every row of a materialised table has one cell per header, and the table is named. */
  lemma MaterializedWellFormed(region: Region, sheetRange: Option<CellRange>, m: Matrix, dec: Decoder, now: nat)
    requires Materialize(region, sheetRange, m, dec, now).Some?
    ensures var t := Materialize(region, sheetRange, m, dec, now).value;
      t.tableName != "" && forall ri :: 0 <= ri < |t.rows| ==> |t.rows[ri]| == |t.headers|
  {
    var b := RegionBounds(region, sheetRange, m, dec);
    var x := Extraction(region, m, dec, b);
    var raw := RawRows(region, m, b);
    var n := ColumnCount(region, b, raw);
    var dataOnly := DataOnly(region, raw);
    forall ri | 0 <= ri < |dataOnly|
      ensures |RowUpTo(x, dataOnly[ri], n)| == |HeadersUpTo(x, n)|
    {
      RowMatchesHeaders(x, dataOnly[ri], n);
    }
  }

  /**
   * In a vertical table, data row `ri` is sheet row `dataStart + ri` and item `i` is sheet
   * column `startCol + i`: the primary cell is that sheet cell.
   */
  lemma VerticalDataCell(region: Region, m: Matrix, b: Bounds, ri: nat, i: nat)
    requires region.direction == Vertical && HeaderCount(region) > 0
    requires ri < DataRowCount(region, b) && i < Width(b)
    ensures ri < |DataOnly(region, RawRows(region, m, b))|
    ensures Cell(DataOnly(region, RawRows(region, m, b))[ri], i) == At(m, DataStart(region, b) + ri, b.startCol + i)
  {
    var raw := RawRows(region, m, b);
    RawRowsCells(region, m, b);
    var k := HeaderRowCount(region) + ri;
    assert DataOnly(region, raw)[ri] == raw[k];
    assert RawRowIndex(region, b, k) == DataStart(region, b) + ri;
  }

  /**
   * In a horizontal table the roles swap: data row `ri` is sheet column `startCol + headerCount + ri`
   * and item `k` is the k-th raw row, which after the skipped rows is not the row its `Row_<n>`
   * name gives.
   */
  lemma HorizontalDataCell(region: Region, m: Matrix, b: Bounds, ri: nat, k: nat)
    requires region.direction == Horizontal && HeaderCount(region) > 0
    requires k < HeaderRowCount(region) + DataRowCount(region, b)
    requires HeaderRowCount(region) + ri < Width(b)
    ensures ri < |DataOnly(region, RawRows(region, m, b))|
    ensures Cell(DataOnly(region, RawRows(region, m, b))[ri], k)
      == At(m, RawRowIndex(region, b, k), b.startCol + HeaderRowCount(region) + ri)
    ensures RawRowIndex(region, b, k) ==
      b.startRow + k + (if k < HeaderRowCount(region) then 0 else SkipCount(region))
  {
    var raw := RawRows(region, m, b);
    var hc := HeaderRowCount(region);
    RawRowsCells(region, m, b);
    assert |raw| > 0 && Rectangular(raw, Width(b));
    TransposeCells(raw, Width(b));
    var t := Transpose(raw);
    assert DataOnly(region, raw)[ri] == t[hc + ri];
    assert t[hc + ri][k] == raw[k][hc + ri];
  }

  // ---------------------------------------------------------------------------------------
  // The imperative extraction

  /** Appends `col[ri]` to row `ri` of every row. */
  method PushColumn(rows: seq<seq<Value>>, col: seq<Value>) returns (rows': seq<seq<Value>>)
    requires |col| == |rows|
    ensures |rows'| == |rows|
    ensures forall ri :: 0 <= ri < |rows| ==> rows'[ri] == rows[ri] + [col[ri]]
  {
    rows' := rows;
    var ri := 0;
    while ri < |rows|
      invariant ri <= |rows| && |rows'| == |rows|
      invariant forall j :: 0 <= j < ri ==> rows'[j] == rows[j] + [col[j]]
      invariant forall j :: ri <= j < |rows| ==> rows'[j] == rows[j]
    {
      rows' := rows'[ri := rows'[ri] + [col[ri]]];
      ri := ri + 1;
    }
  }

  /** The rows hold item `i`'s primary cells and its first `k` attribute cells after the earlier items. */
  ghost predicate RowsAt(x: Extraction, dataOnly: seq<seq<Value>>, rows: seq<seq<Value>>, i: nat, k: nat)
    requires k <= |x.region.headerAttributes|
  {
    |rows| == |dataOnly| &&
    forall ri :: 0 <= ri < |rows| ==>
      rows[ri] == RowUpTo(x, dataOnly[ri], i) + ([Cell(dataOnly[ri], i)] + AttrCells(x, dataOnly[ri], i, k))
  }

  /** One attribute column appended to every row keeps `RowsAt` one attribute further. */
  lemma AttrStep(x: Extraction, dataOnly: seq<seq<Value>>, rows: seq<seq<Value>>, rows': seq<seq<Value>>, i: nat, k: nat)
    requires k < |x.region.headerAttributes| && Active(x.region.headerAttributes[k])
    requires RowsAt(x, dataOnly, rows, i, k) && |rows'| == |rows|
    requires forall ri :: 0 <= ri < |rows| ==>
      rows'[ri] == rows[ri] + [AttrCell(x, dataOnly[ri], x.region.headerAttributes[k], i)]
    ensures RowsAt(x, dataOnly, rows', i, k + 1)
  {
    forall ri | 0 <= ri < |rows|
      ensures rows'[ri] == RowUpTo(x, dataOnly[ri], i) + ([Cell(dataOnly[ri], i)] + AttrCells(x, dataOnly[ri], i, k + 1))
    {
      var p := RowUpTo(x, dataOnly[ri], i);
      var c := [Cell(dataOnly[ri], i)];
      var q := AttrCells(x, dataOnly[ri], i, k);
      var v := [AttrCell(x, dataOnly[ri], x.region.headerAttributes[k], i)];
      assert AttrCells(x, dataOnly[ri], i, k + 1) == q + v;
      ConcatAssoc(c, q, v);
      ConcatAssoc(p, c + q, v);
    }
  }

  /** Finishing item `i` is having interleaved `i + 1` items. */
  lemma ItemDone(x: Extraction, dataOnly: seq<seq<Value>>, rows: seq<seq<Value>>, i: nat)
    requires RowsAt(x, dataOnly, rows, i, |x.region.headerAttributes|)
    ensures |rows| == |dataOnly|
    ensures forall ri :: 0 <= ri < |rows| ==> rows[ri] == RowUpTo(x, dataOnly[ri], i + 1)
  {
  }

  /** The headers and rows hold the first `n` items, interleaved. */
  ghost predicate Interleaved(x: Extraction, dataOnly: seq<seq<Value>>, headers: seq<string>, rows: seq<seq<Value>>, n: nat) {
    headers == HeadersUpTo(x, n) &&
    |rows| == |dataOnly| &&
    forall ri :: 0 <= ri < |rows| ==> rows[ri] == RowUpTo(x, dataOnly[ri], n)
  }

  /** Pushes item `i`'s column, then the column of each active attribute, onto the headers and every data row. */
  method PushItem(x: Extraction, dataOnly: seq<seq<Value>>, i: nat, colHeader: string,
                  headers0: seq<string>, rows0: seq<seq<Value>>)
    returns (headers: seq<string>, rows: seq<seq<Value>>)
    requires colHeader == ColumnHeader(x, i)
    requires Interleaved(x, dataOnly, headers0, rows0, i)
    ensures Interleaved(x, dataOnly, headers, rows, i + 1)
  {
    var attrs := x.region.headerAttributes;
    headers := headers0 + [colHeader];
    rows := PushColumn(rows0, seq(|dataOnly|, ri requires 0 <= ri < |dataOnly| => Cell(dataOnly[ri], i)));
    assert RowsAt(x, dataOnly, rows, i, 0);
    var k := 0;
    while k < |attrs|
      invariant k <= |attrs|
      invariant headers == headers0 + ([colHeader] + AttrHeaders(x, i, k))
      invariant RowsAt(x, dataOnly, rows, i, k)
    {
      var a := attrs[k];
      if Active(a) {
        var attrValue := AttrValue(x, a, i);
        var attrColId := BaseStrategy.AttrId(colHeader, k);
        ConcatAssoc(headers0, [colHeader] + AttrHeaders(x, i, k), [attrColId]);
        headers := headers + [attrColId];
        var col := seq(|dataOnly|, ri requires 0 <= ri < |dataOnly| =>
          if IsBlank(Cell(dataOnly[ri], i)) then Null else attrValue);
        var rows' := PushColumn(rows, col);
        AttrStep(x, dataOnly, rows, rows', i, k);
        rows := rows';
      }
      k := k + 1;
    }
    ItemDone(x, dataOnly, rows, i);
    assert HeadersUpTo(x, i + 1) == headers0 + ItemHeaders(x, i);
  }

  /** Interleaves all `count` items, in order. */
  method Interleave(x: Extraction, columnHeaders: seq<string>, dataOnly: seq<seq<Value>>, count: nat)
    returns (headers: seq<string>, rows: seq<seq<Value>>)
    requires |columnHeaders| == count
    requires forall i :: 0 <= i < count ==> columnHeaders[i] == ColumnHeader(x, i)
    ensures Interleaved(x, dataOnly, headers, rows, count)
  {
    headers := [];
    rows := seq(|dataOnly|, ri => []);
    var i := 0;
    while i < count
      invariant i <= count
      invariant Interleaved(x, dataOnly, headers, rows, i)
    {
      headers, rows := PushItem(x, dataOnly, i, columnHeaders[i], headers, rows);
      i := i + 1;
    }
  }

  /** `processRegionToTable`, step by step as the source does it. */
  method ProcessRegionToTable(region: Region, sheetRange: Option<CellRange>, m: Matrix, dec: Decoder, now: nat)
    returns (table: Option<Materialized>)
    ensures table == Materialize(region, sheetRange, m, dec, now)
  {
    var b := RegionBounds(region, sheetRange, m, dec);
    if b.startRow > b.endRow {
      return None;
    }
    var headerCount := HeaderCount(region);
    var dataStartRowIdx := b.startRow + headerCount + SkipCount(region);
    if dataStartRowIdx > |m| {
      return None;
    }
    var rawRows := ReadRawRows(region, m, b);
    var finalRows := rawRows;
    var finalColsCount := Width(b);
    if region.direction == Horizontal {
      finalRows := Transpose(rawRows);
      finalColsCount := |rawRows|;
    }
    var x := Extraction(region, m, dec, b);
    var columnHeaders := ColumnHeaders(x, finalColsCount);
    var dataOnly := SliceFrom(finalRows, headerCount);
    assert finalColsCount == ColumnCount(region, b, rawRows) && dataOnly == DataOnly(region, rawRows);
    var headers, rows := Interleave(x, columnHeaders, dataOnly, finalColsCount);
    assert rows == seq(|dataOnly|, ri requires 0 <= ri < |dataOnly| => RowUpTo(x, dataOnly[ri], finalColsCount));
    table := Some(Materialized(TableNameFor(region, now), headers, rows));
  }

  // ---------------------------------------------------------------------------------------
  // Saving every region

  /**
   * One region of `saveAllRegionsToDB`: skipped when its sheet (its own, else the current one)
   * is unnamed or not loaded, else materialised from that sheet.
   */
  function SaveOne(region: Region, wb: Workbook, currentSheet: string, dec: Decoder, now: nat): Option<Materialized> {
    var name := SheetNameOf(region, currentSheet);
    if name == "" || name !in wb then None
    else Materialize(region, wb[name].range, wb[name].matrix.GetOr([]), dec, now)
  }

  /** The region after its table was created: it remembers the table's name. */
  function Updated(region: Region, t: Option<Materialized>): Region {
    if t.Some? then region.(tableName := t.value.tableName) else region
  }

  /** The tables created for the first `n` regions, in region order; `clock(i)` is the time read for region i. */
  function SavedTables(regions: seq<Region>, wb: Workbook, currentSheet: string, dec: Decoder, clock: nat -> nat, n: nat): seq<Materialized>
    requires n <= |regions|
  {
    if n == 0 then []
    else
      var t := SaveOne(regions[n - 1], wb, currentSheet, dec, clock(n - 1));
      SavedTables(regions, wb, currentSheet, dec, clock, n - 1) + (if t.Some? then [t.value] else [])
  }

  /** The first `n` regions as they are after saving. */
  function UpdatedRegions(regions: seq<Region>, wb: Workbook, currentSheet: string, dec: Decoder, clock: nat -> nat, n: nat): seq<Region>
    requires n <= |regions|
  {
    if n == 0 then []
    else
      UpdatedRegions(regions, wb, currentSheet, dec, clock, n - 1)
        + [Updated(regions[n - 1], SaveOne(regions[n - 1], wb, currentSheet, dec, clock(n - 1)))]
  }

  /** Saving updates the regions one for one, each by its own table only. */
  lemma {:induction false} UpdatedRegionsAt(regions: seq<Region>, wb: Workbook, currentSheet: string, dec: Decoder, clock: nat -> nat, n: nat)
    requires n <= |regions|
    ensures |UpdatedRegions(regions, wb, currentSheet, dec, clock, n)| == n
    ensures forall i :: 0 <= i < n ==>
      UpdatedRegions(regions, wb, currentSheet, dec, clock, n)[i]
        == Updated(regions[i], SaveOne(regions[i], wb, currentSheet, dec, clock(i)))
  {
    if n > 0 {
      UpdatedRegionsAt(regions, wb, currentSheet, dec, clock, n - 1);
      var before := UpdatedRegions(regions, wb, currentSheet, dec, clock, n - 1);
      var last := Updated(regions[n - 1], SaveOne(regions[n - 1], wb, currentSheet, dec, clock(n - 1)));
      assert UpdatedRegions(regions, wb, currentSheet, dec, clock, n) == before + [last];
    }
  }

  /**
   * A region that already had a table name keeps it; a region that got a table now has one;
   * a region whose sheet is not loaded gets no table and is left as it was.
   */
  lemma UpdatedNames(region: Region, wb: Workbook, currentSheet: string, dec: Decoder, now: nat)
    ensures var t := SaveOne(region, wb, currentSheet, dec, now);
      (region.tableName != "" ==> Updated(region, t).tableName == region.tableName) &&
      (t.Some? ==> Updated(region, t).tableName != "" && Updated(region, t).tableName == t.value.tableName) &&
      (SheetNameOf(region, currentSheet) !in wb ==> t.None? && Updated(region, t) == region)
  {
  }

  /** Every saved table comes from one region: there are never more tables than regions. */
  lemma {:induction false} SavedTablesBound(regions: seq<Region>, wb: Workbook, currentSheet: string, dec: Decoder, clock: nat -> nat, n: nat)
    requires n <= |regions|
    ensures |SavedTables(regions, wb, currentSheet, dec, clock, n)| <= n
  {
    if n > 0 {
      SavedTablesBound(regions, wb, currentSheet, dec, clock, n - 1);
    }
  }

  /** Looks up the region's sheet and materialises the region from it, unless the sheet is missing. */
  method SaveRegion(region: Region, wb: Workbook, currentSheet: string, dec: Decoder, now: nat)
    returns (t: Option<Materialized>)
    ensures t == SaveOne(region, wb, currentSheet, dec, now)
  {
    var sheetName := SheetNameOf(region, currentSheet);
    if sheetName == "" || sheetName !in wb {
      return None;
    }
    var sheet := wb[sheetName];
    t := ProcessRegionToTable(region, sheet.range, sheet.matrix.GetOr([]), dec, now);
  }

  /** `saveAllRegionsToDB(regions)`: the tables created, in order, and the regions with their table names. */
  method SaveAllRegionsToDb(regions: seq<Region>, wb: Workbook, currentSheet: string, dec: Decoder, clock: nat -> nat)
    returns (tables: seq<Materialized>, updated: seq<Region>)
    ensures tables == SavedTables(regions, wb, currentSheet, dec, clock, |regions|)
    ensures updated == UpdatedRegions(regions, wb, currentSheet, dec, clock, |regions|)
  {
    tables := [];
    updated := [];
    var i := 0;
    while i < |regions|
      invariant i <= |regions|
      invariant tables == SavedTables(regions, wb, currentSheet, dec, clock, i)
      invariant updated == UpdatedRegions(regions, wb, currentSheet, dec, clock, i)
    {
      var region := regions[i];
      var t := SaveRegion(region, wb, currentSheet, dec, clock(i));
      if t.Some? {
        tables := tables + [t.value];
        updated := updated + [region.(tableName := t.value.tableName)];
      } else {
        updated := updated + [region];
      }
      i := i + 1;
    }
  }
}
