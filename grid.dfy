/**
 * The two pure helpers of the sheet grid view: which merged range a cell belongs to (and
 * whether it is that range's top-left, "main" cell) and whether a cell lies in a selection.
 */
module Grid {
  import opened Wrappers
  import opened ExcelUtils

  /** `{isMain: true, rowspan, colspan}` for a range's top-left cell, `{isMain: false}` otherwise. */
  datatype MergeInfo = Main(rowspan: int, colspan: int) | Covered

  /** What `findMerge` reports for a cell whose first covering range is `m`. */
  function InfoFor(m: CellRange, r: int, c: int): MergeInfo {
    if r == m.s.r && c == m.s.c then Main(m.e.r - m.s.r + 1, m.e.c - m.s.c + 1) else Covered
  }

  /** `findMerge(merges, r, c)`: scans the ranges in order and answers for the first that covers the cell. */
  function FindMerge(merges: seq<CellRange>, r: int, c: int): (res: Option<MergeInfo>)
    ensures res.None? <==> forall k :: 0 <= k < |merges| ==> !Covers(merges[k], r, c)
    ensures forall k :: (0 <= k < |merges| && Covers(merges[k], r, c) &&
                         (forall j :: 0 <= j < k ==> !Covers(merges[j], r, c))) ==>
               res == Some(InfoFor(merges[k], r, c))
    ensures res.Some? && res.value.Main? ==> res.value.rowspan >= 1 && res.value.colspan >= 1
  {
    if merges == [] then None
    else
      var m := merges[0];
      if r >= m.s.r && r <= m.e.r && c >= m.s.c && c <= m.e.c then
        if r == m.s.r && c == m.s.c then Some(Main(m.e.r - m.s.r + 1, m.e.c - m.s.c + 1))
        else Some(Covered)
      else
        var rest := FindMerge(merges[1..], r, c);
        assert forall k :: 1 <= k < |merges| ==> merges[k] == merges[1..][k - 1];
        rest
  }

  /** A selection: two corners in either order. */
  datatype Selection = Selection(start: Coord, end: Coord)

  function Min(a: int, b: int): int { if a <= b then a else b }
  function Max(a: int, b: int): int { if a <= b then b else a }

  predicate Between(x: int, a: int, b: int) {
    (a <= x <= b) || (b <= x <= a)
  }

  /** `isInRange(r, c, selection)`: inside the rectangle the two corners span, edges included. */
  function IsInRange(r: int, c: int, sel: Selection): (b: bool)
    ensures b <==> Between(r, sel.start.r, sel.end.r) && Between(c, sel.start.c, sel.end.c)
  {
    var minR := Min(sel.start.r, sel.end.r);
    var maxR := Max(sel.start.r, sel.end.r);
    var minC := Min(sel.start.c, sel.end.c);
    var maxC := Max(sel.start.c, sel.end.c);
    r >= minR && r <= maxR && c >= minC && c <= maxC
  }

  /** Swapping the corners of a selection does not change which cells it contains. */
  lemma IsInRangeSymmetric(r: int, c: int, a: Coord, b: Coord)
    ensures IsInRange(r, c, Selection(a, b)) == IsInRange(r, c, Selection(b, a))
  {
  }
}
