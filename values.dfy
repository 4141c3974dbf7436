/**
 * Spreadsheet cell values and the 2-D cell matrix a sheet is loaded into.
 * JavaScript's `null` and `undefined` are both `Null`: every consumer in the core tests for
 * the two together.
 */
module Values {
  import opened Text

  datatype Value = Null | Str(s: string) | Num(n: int) | Bool(b: bool)

  /** `String(v)`. */
  function ToStr(v: Value): string {
    match v
    case Null => "null"
    case Str(s) => s
    case Num(n) => IntStr(n)
    case Bool(b) => if b then "true" else "false"
  }

  /** `v === null || v === undefined || String(v).trim() === ""`. */
  predicate IsBlank(v: Value) {
    v.Null? || Trim(ToStr(v)) == ""
  }

  /** A sheet as loaded: one sequence of cells per row; rows may be ragged. */
  type Matrix = seq<seq<Value>>

  /** `matrix[r] ? matrix[r][c] : null`: a missing row or a cell past the row's end reads as Null. */
  function At(m: Matrix, r: int, c: int): Value {
    if 0 <= r < |m| && 0 <= c < |m[r]| then m[r][c] else Null
  }
}
