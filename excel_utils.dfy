/**
 * Cell addressing: spreadsheet column labels (bijective base-26: A..Z, AA..ZZ, AAA..) and the
 * merge-aware cell lookup, where every cell of a merged range reads the value of the range's
 * top-left cell.
 */
module ExcelUtils {
  import opened Wrappers
  import opened Values

  /** A decoded cell address: zero-based row and column. */
  datatype Coord = Coord(r: nat, c: nat)

  /** A cell range `{s, e}` (a merged range or a decoded A1:B2 range), both corners inclusive. */
  datatype CellRange = CellRange(s: Coord, e: Coord)

  predicate Covers(m: CellRange, r: int, c: int) {
    m.s.r <= r <= m.e.r && m.s.c <= c <= m.e.c
  }

  // ---------------------------------------------------------------------------------------
  // Column labels

  predicate IsLetter(ch: char) { 'A' <= ch <= 'Z' }

  predicate IsLabel(s: string) {
    |s| > 0 && forall i :: 0 <= i < |s| ==> IsLetter(s[i])
  }

  function Letter(d: nat): (ch: char)
    requires d < 26
    ensures IsLetter(ch)
  {
    (65 + d) as char
  }

  /** The bijective base-26 numeral of k: "" for 0, "A" for 1, "Z" for 26, "AA" for 27. */
  function Bij(k: nat): string {
    if k == 0 then [] else Bij((k - 1) / 26) + [Letter((k - 1) % 26)]
  }

  /** The numeral is made of letters, and is empty only for 0. */
  lemma {:induction false} BijLetters(k: nat)
    ensures k == 0 <==> Bij(k) == []
    ensures forall i :: 0 <= i < |Bij(k)| ==> IsLetter(Bij(k)[i])
  {
    if k != 0 {
      BijLetters((k - 1) / 26);
    }
  }

  /** The label of the zero-based column `col`. */
  function ColLabel(col: nat): string {
    Bij(col + 1)
  }

  /** `encodeCol(col)`: the loop prepends one letter per base-26 digit, least significant first. */
  method EncodeCol(col: nat) returns (s: string)
    ensures s == ColLabel(col)
  {
    s := "";
    var k: nat := col + 1;
    while k != 0
      invariant Bij(k) + s == Bij(col + 1)
      decreases k
    {
      var d := (k - 1) % 26;
      assert Bij(k) == Bij((k - 1) / 26) + [Letter(d)];
      s := [Letter(d)] + s;
      k := (k - 1) / 26;
    }
  }

  /** The value of a bijective base-26 numeral. */
  function Unbij(s: string): nat
    requires forall i :: 0 <= i < |s| ==> IsLetter(s[i])
  {
    if s == [] then 0
    else
      assert IsLetter(s[|s| - 1]);
      Unbij(s[..|s| - 1]) * 26 + (s[|s| - 1] as int - 65) + 1
  }

  /** The zero-based column a label names (the inverse of ColLabel). */
  function DecodeCol(s: string): int
    requires IsLabel(s)
  {
    Unbij(s) - 1
  }

  lemma {:induction false} UnbijBij(k: nat)
    ensures (forall i :: 0 <= i < |Bij(k)| ==> IsLetter(Bij(k)[i])) && Unbij(Bij(k)) == k
  {
    BijLetters(k);
    if k != 0 {
      var p := Bij((k - 1) / 26);
      BijLetters((k - 1) / 26);
      assert Bij(k)[..|Bij(k)| - 1] == p;
      UnbijBij((k - 1) / 26);
    }
  }

  lemma {:induction false} BijUnbij(s: string)
    requires forall i :: 0 <= i < |s| ==> IsLetter(s[i])
    ensures Bij(Unbij(s)) == s
  {
    if s != [] {
      var p := s[..|s| - 1];
      var d := s[|s| - 1] as int - 65;
      BijUnbij(p);
      var k := Unbij(s);
      assert k - 1 == Unbij(p) * 26 + d;
      assert (k - 1) / 26 == Unbij(p) && (k - 1) % 26 == d;
      assert s == p + [s[|s| - 1]];
    }
  }

  /** Every label is a non-empty run of the letters A-Z. */
  lemma ColLabelIsLabel(col: nat)
    ensures IsLabel(ColLabel(col))
  {
    BijLetters(col + 1);
  }

  /** Decoding a column's label gives the column back. */
  lemma ColLabelRoundTrip(col: nat)
    ensures IsLabel(ColLabel(col)) && DecodeCol(ColLabel(col)) == col
  {
    BijLetters(col + 1);
    UnbijBij(col + 1);
  }

  /** Every label names exactly one column: labels and columns are in bijection. */
  lemma LabelRoundTrip(s: string)
    requires IsLabel(s)
    ensures DecodeCol(s) >= 0 && ColLabel(DecodeCol(s)) == s
  {
    BijUnbij(s);
  }

  /** Distinct columns get distinct labels. */
  lemma ColLabelInjective(a: nat, b: nat)
    requires ColLabel(a) == ColLabel(b)
    ensures a == b
  {
    BijLetters(a + 1);
    ColLabelRoundTrip(a);
    ColLabelRoundTrip(b);
  }

  /** The examples the source's documentation gives, and the ends of the two-letter block. */
  lemma ColLabelExamples()
    ensures ColLabel(0) == "A" && ColLabel(1) == "B" && ColLabel(25) == "Z"
    ensures ColLabel(26) == "AA" && ColLabel(701) == "ZZ" && ColLabel(702) == "AAA"
  {
    assert Bij(1) == "A" && Bij(26) == "Z";
    assert Bij(27) == Bij(1) + "A";
    assert Bij(702) == Bij(26) + "Z";
    assert Bij(703) == Bij(27) + "A";
  }

  // ---------------------------------------------------------------------------------------
  // Merge-aware lookup

  /** `merges.findIndex(covers (r, c))`, with |merges| standing for "none". */
  function FirstCover(merges: seq<CellRange>, r: int, c: int): nat {
    if merges == [] then 0
    else if Covers(merges[0], r, c) then 0
    else 1 + FirstCover(merges[1..], r, c)
  }

  /** The index found is the first range covering the cell, or |merges| when none does. */
  lemma {:induction false} FirstCoverSpec(merges: seq<CellRange>, r: int, c: int)
    ensures var k := FirstCover(merges, r, c);
      k <= |merges| &&
      (k < |merges| ==> Covers(merges[k], r, c)) &&
      forall j :: 0 <= j < k ==> !Covers(merges[j], r, c)
  {
    if merges != [] && !Covers(merges[0], r, c) {
      FirstCoverSpec(merges[1..], r, c);
    }
  }

  /** `merges.find(m => covers (r, c))`. */
  function FindCover(merges: seq<CellRange>, r: int, c: int): Option<CellRange> {
    var k := FirstCover(merges, r, c);
    if k < |merges| then Some(merges[k]) else None
  }

  /** `getCellValueWithMerges(matrix, merges, r, c)`. */
  function CellValueWithMerges(matrix: Matrix, merges: seq<CellRange>, r: int, c: int): Value {
    if |merges| == 0 then At(matrix, r, c)
    else
      match FindCover(merges, r, c)
      case Some(m) => At(matrix, m.s.r, m.s.c)
      case None => At(matrix, r, c)
  }

  /** Without merges, the lookup is the plain cell (Null for a missing row or column). */
  lemma NoMergesReadsCell(matrix: Matrix, r: int, c: int)
    ensures CellValueWithMerges(matrix, [], r, c) == At(matrix, r, c)
  {
  }

  /** A cell inside a range (the first that covers it) reads the range's top-left cell. */
  lemma CoveredReadsTopLeft(matrix: Matrix, merges: seq<CellRange>, r: int, c: int, k: nat)
    requires k < |merges| && Covers(merges[k], r, c)
    requires forall j :: 0 <= j < k ==> !Covers(merges[j], r, c)
    ensures CellValueWithMerges(matrix, merges, r, c) == At(matrix, merges[k].s.r, merges[k].s.c)
  {
    FirstCoverSpec(merges, r, c);
  }

  /** A cell outside every range reads its own value. */
  lemma UncoveredReadsCell(matrix: Matrix, merges: seq<CellRange>, r: int, c: int)
    requires forall k :: 0 <= k < |merges| ==> !Covers(merges[k], r, c)
    ensures CellValueWithMerges(matrix, merges, r, c) == At(matrix, r, c)
  {
    FirstCoverSpec(merges, r, c);
  }

  /** All cells whose first covering range is the same range read the same value. */
  lemma SameMergeSameValue(matrix: Matrix, merges: seq<CellRange>, r1: int, c1: int, r2: int, c2: int)
    requires FirstCover(merges, r1, c1) == FirstCover(merges, r2, c2) < |merges|
    ensures CellValueWithMerges(matrix, merges, r1, c1) == CellValueWithMerges(matrix, merges, r2, c2)
  {
  }
}
