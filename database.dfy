/**
 * The database side of the engine, as text: the final query chosen by merge strategy, and the
 * statements that load one materialised region (DROP, CREATE with de-duplicated column names
 * and a hidden row index, one INSERT per row with its bound values).
 */
module Database {
  import opened Text
  import opened Values
  import opened Model
  import opened Wrappers
  import Naming
  import TransformRegistry
  import RegionService
  import V = VerticalStrategy
  import H = HorizontalStrategy

  // ---------------------------------------------------------------------------------------
  // The execution query

  /** The query used when no field is configured: the first region's table, in row order. */
  function FallbackSql(regions: seq<Region>): string {
    var tableName := if regions != [] then regions[0].tableName else "t_main";
    "SELECT * FROM " + V.Quote(tableName) + " ORDER BY \"_row_idx\""
  }

  /**
   * `buildExecutionSql(regions, mergeStrategy, fieldConfigs)`: the fallback without fields, the
   * join chain for a horizontal strategy (an unset configuration read as empty), and the union
   * for a vertical or any other strategy.
   */
  function BuildExecutionSql(custom: seq<TransformRegistry.CustomRule>, regions: seq<Region>,
                             ms: MergeStrategy, cs: seq<FieldConfig>): string
  {
    if cs == [] then FallbackSql(regions)
    else if ms.kind == "vertical" then V.BuildSql(custom, regions, cs)
    else if ms.kind == "horizontal" then H.BuildSql(custom, ms.horizontalConfig.GetOr(HConfig("", [])), regions, cs)
    else V.BuildSql(custom, regions, cs)
  }

  lemma FallbackAt7(regions: seq<Region>)
    ensures |FallbackSql(regions)| > 7 && FallbackSql(regions)[7] == '*'
  {
  }

  /** Every strategy query starts `SELECT "` or `SELECT '`. */
  lemma StrategySqlAt7(custom: seq<TransformRegistry.CustomRule>, regions: seq<Region>, ms: MergeStrategy, cs: seq<FieldConfig>)
    requires cs != []
    ensures |BuildExecutionSql(custom, regions, ms, cs)| > 7
    ensures BuildExecutionSql(custom, regions, ms, cs)[7] == '"' || BuildExecutionSql(custom, regions, ms, cs)[7] == '\''
  {
    H.ErrorTexts();
    if ms.kind == "horizontal" {
      var hc := ms.horizontalConfig.GetOr(HConfig("", []));
      if H.Master(hc, regions).Some? && V.Visible(cs) != [] {
        H.JoinedStartsQuoted(custom, hc, regions, cs);
      }
    } else if V.Visible(cs) != [] {
      V.ProjectionStartsQuoted(custom, regions, cs);
    }
  }

  /** The whole-table fallback comes back exactly when no field is configured. */
  lemma FallbackIff(custom: seq<TransformRegistry.CustomRule>, regions: seq<Region>, ms: MergeStrategy, cs: seq<FieldConfig>)
    ensures BuildExecutionSql(custom, regions, ms, cs) == FallbackSql(regions) <==> cs == []
  {
    FallbackAt7(regions);
    if cs != [] {
      StrategySqlAt7(custom, regions, ms, cs);
    }
  }

  /** A strategy type other than 'vertical' or 'horizontal' builds the vertical union. */
  lemma UnknownKindIsVertical(custom: seq<TransformRegistry.CustomRule>, regions: seq<Region>, ms: MergeStrategy, cs: seq<FieldConfig>)
    requires ms.kind != "vertical" && ms.kind != "horizontal"
    ensures BuildExecutionSql(custom, regions, ms, cs) == BuildExecutionSql(custom, regions, ms.(kind := "vertical"), cs)
  {
  }

  /** Horizontal merging without any region reports the missing master. */
  lemma HorizontalWithoutRegions(custom: seq<TransformRegistry.CustomRule>, ms: MergeStrategy, cs: seq<FieldConfig>)
    requires ms.kind == "horizontal" && cs != []
    ensures BuildExecutionSql(custom, [], ms, cs) == H.MasterNotFound
  {
    H.MasterMissingIff(custom, ms.horizontalConfig.GetOr(HConfig("", [])), [], cs);
  }

  // ---------------------------------------------------------------------------------------
  // Column names

  /** The name a header asks for: its trimmed text, or `Col_<i+1>` when that is empty. */
  function BaseHeader(h: string, i: nat): (name: string)
    ensures name != ""
  {
    var name := Trim(h);
    if name == "" then "Col_" + NatStr(i + 1) else name
  }

  function BaseHeaders(headers: seq<string>): seq<string> {
    seq(|headers|, i requires 0 <= i < |headers| => BaseHeader(headers[i], i))
  }

  /** The column names of the created table: the base names, made unique left to right. */
  function FinalHeaders(headers: seq<string>): seq<string> {
    Naming.DedupNames(BaseHeaders(headers))
  }

  /** `name` is `base` or `base_<n>`. */
  ghost predicate IsCandidate(name: string, base: string) {
    exists n: nat :: name == Naming.Candidate(base, n)
  }

  /**
   * One column per header, no two alike, none empty; each is its header's base name or that
   * name with a `_<n>` suffix; the first header asking for a name gets it unchanged.
   */
  lemma FinalHeadersSpec(headers: seq<string>)
    ensures |FinalHeaders(headers)| == |headers|
    ensures forall i, j :: 0 <= i < j < |headers| ==> FinalHeaders(headers)[i] != FinalHeaders(headers)[j]
    ensures forall i :: 0 <= i < |headers| ==> IsCandidate(FinalHeaders(headers)[i], BaseHeader(headers[i], i))
  {
    var bases := BaseHeaders(headers);
    Naming.DedupNamesDistinct(bases);
    forall i | 0 <= i < |headers|
      ensures IsCandidate(FinalHeaders(headers)[i], BaseHeader(headers[i], i))
    {
      Naming.DedupFromCandidate(bases, {}, i);
      assert bases[i] == BaseHeader(headers[i], i);
      assert FinalHeaders(headers)[i] == Naming.DedupFrom(bases, {})[i];
    }
  }

  /** No column name is empty. */
  lemma FinalHeadersNonEmpty(headers: seq<string>, i: nat)
    requires i < |headers|
    ensures |FinalHeaders(headers)| == |headers| && FinalHeaders(headers)[i] != ""
  {
    FinalHeadersSpec(headers);
    assert IsCandidate(FinalHeaders(headers)[i], BaseHeader(headers[i], i));
    var n: nat :| FinalHeaders(headers)[i] == Naming.Candidate(BaseHeader(headers[i], i), n);
  }

  /** A header keeps its base name exactly when no earlier column already took it. */
  lemma FinalHeadersKeep(headers: seq<string>, i: nat)
    requires i < |headers|
    ensures |FinalHeaders(headers)| == |headers|
    ensures FinalHeaders(headers)[i] == BaseHeader(headers[i], i) <==> BaseHeader(headers[i], i) !in FinalHeaders(headers)[..i]
  {
    Naming.DedupNamesDistinct(BaseHeaders(headers));
    Naming.DedupNamesKeeps(BaseHeaders(headers), i);
  }

  /** The header loop: trim, fall back to `Col_<i+1>`, then pick the first free suffix. */
  method DedupHeaders(headers: seq<string>) returns (finalHeaders: seq<string>)
    ensures finalHeaders == FinalHeaders(headers)
  {
    ghost var bases := BaseHeaders(headers);
    finalHeaders := [];
    var usedNames: set<string> := {};
    for i := 0 to |headers|
      invariant finalHeaders + Naming.DedupFrom(bases[i..], usedNames) == Naming.DedupNames(bases)
    {
      var name := Trim(headers[i]);
      if name == "" {
        name := "Col_" + NatStr(i + 1);
      }
      assert name == bases[i];
      var finalName := Naming.PickFresh(name, usedNames);
      Naming.DedupAdvance(finalHeaders, bases, i, usedNames, Naming.DedupNames(bases));
      finalHeaders := finalHeaders + [finalName];
      usedNames := usedNames + {finalName};
    }
    assert bases[|headers|..] == [];
  }

  // ---------------------------------------------------------------------------------------
  // Statements

  const RowIdxDef := "\"_row_idx\" INTEGER"

  function DropSql(tableName: string): string {
    "DROP TABLE IF EXISTS " + V.Quote(tableName)
  }

  /** `"<name>" TEXT` for every column. */
  function ColumnDefs(finalHeaders: seq<string>): seq<string> {
    seq(|finalHeaders|, j requires 0 <= j < |finalHeaders| => V.Quote(finalHeaders[j]) + " TEXT")
  }

  function CreatePrefix(tableName: string): string {
    "CREATE TABLE " + V.Quote(tableName) + " ("
  }

  /** The CREATE text as written: the joined column definitions, then `, "_row_idx" INTEGER`. */
  function CreateSqlAsWritten(tableName: string, finalHeaders: seq<string>): string {
    CreatePrefix(tableName) + (Join(ColumnDefs(finalHeaders), ", ") + (", " + RowIdxDef + ");"))
  }

  /** The CREATE text with the row index as the last entry of one joined definition list. */
  function CreateSql(tableName: string, finalHeaders: seq<string>): string {
    CreatePrefix(tableName) + (Join(ColumnDefs(finalHeaders) + [RowIdxDef], ", ") + ");")
  }

  /** With at least one column the two texts are the same. */
  lemma CreateSqlAgrees(tableName: string, finalHeaders: seq<string>)
    requires finalHeaders != []
    ensures CreateSql(tableName, finalHeaders) == CreateSqlAsWritten(tableName, finalHeaders)
  {
    JoinSnoc(ColumnDefs(finalHeaders), RowIdxDef, ", ");
  }

  /** Without columns, the text as written opens its definition list with a comma. */
  lemma CreateSqlAsWrittenEmpty(tableName: string)
    ensures var s := CreateSqlAsWritten(tableName, []);
      |s| > |CreatePrefix(tableName)| && s[|CreatePrefix(tableName)|] == ','
  {
    assert CreateSqlAsWritten(tableName, []) == CreatePrefix(tableName) + (", " + RowIdxDef + ");");
  }

  /** The definition list always opens with a quoted column name: a data column or the row index. */
  lemma CreateSqlOpensWithColumn(tableName: string, finalHeaders: seq<string>)
    ensures var s := CreateSql(tableName, finalHeaders);
      |s| > |CreatePrefix(tableName)| && s[|CreatePrefix(tableName)|] == '"'
  {
    var defs := ColumnDefs(finalHeaders) + [RowIdxDef];
    JoinStartsWith(defs, ", ");
    assert defs[0][0] == '"';
  }

  /** The created table has one TEXT column per final header plus the INTEGER row index, last. */
  lemma CreateSqlColumns(finalHeaders: seq<string>)
    ensures |ColumnDefs(finalHeaders) + [RowIdxDef]| == |finalHeaders| + 1
    ensures (ColumnDefs(finalHeaders) + [RowIdxDef])[|finalHeaders|] == RowIdxDef
    ensures forall j :: 0 <= j < |finalHeaders| ==>
      (ColumnDefs(finalHeaders) + [RowIdxDef])[j] == "\"" + finalHeaders[j] + "\" TEXT"
  {
  }

  /** A bound value: SQL NULL, text, or the integer row index. */
  datatype Param = PNull | PText(s: string) | PInt(n: nat)

  /** `(v === null || v === undefined) ? null : String(v)`. */
  function ParamOf(v: Value): Param {
    if v.Null? then PNull else PText(ToStr(v))
  }

  /** The values bound for row `i`: its cells stringified, then the index `i`. */
  function RowParams(row: seq<Value>, i: nat): seq<Param> {
    seq(|row|, j requires 0 <= j < |row| => ParamOf(row[j])) + [PInt(i)]
  }

  /** One parameter per cell, null exactly for a null cell, text otherwise, and the row index last. */
  lemma RowParamsSpec(row: seq<Value>, i: nat)
    ensures |RowParams(row, i)| == |row| + 1 && RowParams(row, i)[|row|] == PInt(i)
    ensures forall j :: 0 <= j < |row| ==>
      (RowParams(row, i)[j] == PNull <==> row[j] == Null) &&
      (row[j] != Null ==> RowParams(row, i)[j] == PText(ToStr(row[j])))
  {
  }

  /** `$1`, `$2`, ... `$n`. */
  function Placeholders(n: nat): seq<string> {
    seq(n, j requires 0 <= j < n => "$" + NatStr(j + 1))
  }

  function InsertPrefix(tableName: string): string {
    "INSERT INTO " + V.Quote(tableName) + " VALUES ("
  }

  /** The INSERT text as written for a row of n cells: the joined `$1..$n`, then `, $<n+1>`. */
  function InsertSqlAsWritten(tableName: string, n: nat): string {
    InsertPrefix(tableName) + (Join(Placeholders(n), ", ") + (", $" + NatStr(n + 1) + ")"))
  }

  /** The INSERT text with the n + 1 placeholders joined as one list. */
  function InsertSql(tableName: string, n: nat): string {
    InsertPrefix(tableName) + (Join(Placeholders(n + 1), ", ") + ")")
  }

  lemma PlaceholdersSnoc(n: nat)
    ensures Placeholders(n + 1) == Placeholders(n) + ["$" + NatStr(n + 1)]
  {
    var a := Placeholders(n + 1);
    var b := Placeholders(n) + ["$" + NatStr(n + 1)];
    assert |a| == |b|;
    forall j | 0 <= j < |a|
      ensures a[j] == b[j]
    {
      if j < n {
        assert a[j] == "$" + NatStr(j + 1) == b[j];
      }
    }
  }

  /** For a row with cells the two texts are the same. */
  lemma InsertSqlAgrees(tableName: string, n: nat)
    requires n > 0
    ensures InsertSql(tableName, n) == InsertSqlAsWritten(tableName, n)
  {
    PlaceholdersSnoc(n);
    JoinSnoc(Placeholders(n), "$" + NatStr(n + 1), ", ");
  }

  /** For an empty row, the text as written opens its value list with a comma. */
  lemma InsertSqlAsWrittenEmpty(tableName: string)
    ensures var s := InsertSqlAsWritten(tableName, 0);
      |s| > |InsertPrefix(tableName)| && s[|InsertPrefix(tableName)|] == ','
  {
    assert InsertSqlAsWritten(tableName, 0) == InsertPrefix(tableName) + (", $" + NatStr(1) + ")");
  }

  /** The value list always opens with `$1`, and there is one placeholder per bound value. */
  lemma InsertSqlPlaceholders(tableName: string, row: seq<Value>, i: nat)
    ensures |Placeholders(|row| + 1)| == |RowParams(row, i)|
    ensures var s := InsertSql(tableName, |row|);
      |s| > |InsertPrefix(tableName)| && s[|InsertPrefix(tableName)|] == '$'
  {
    var ps := Placeholders(|row| + 1);
    JoinStartsWith(ps, ", ");
    assert ps[0][0] == '$';
  }

  /** A statement handed to the database, with its bound values. */
  datatype Statement = Statement(sql: string, params: seq<Param>)

  /** The INSERT of row `i` as `createTableFromData` writes it. */
  function InsertStatement(tableName: string, row: seq<Value>, i: nat): Statement {
    Statement(InsertSqlAsWritten(tableName, |row|), RowParams(row, i))
  }

  /** The INSERT of row `i` with the corrected placeholder list. */
  function InsertStatementIntended(tableName: string, row: seq<Value>, i: nat): Statement {
    Statement(InsertSql(tableName, |row|), RowParams(row, i))
  }

  /** `createTableFromData(tableName, headers, rows)` as written: drop, create, then insert every row in order. */
  function TableStatements(tableName: string, headers: seq<string>, rows: seq<seq<Value>>): seq<Statement> {
    [Statement(DropSql(tableName), []), Statement(CreateSqlAsWritten(tableName, FinalHeaders(headers)), [])]
      + seq(|rows|, i requires 0 <= i < |rows| => InsertStatement(tableName, rows[i], i))
  }

  /** The same statements with the corrected CREATE and INSERT texts. */
  function TableStatementsIntended(tableName: string, headers: seq<string>, rows: seq<seq<Value>>): seq<Statement> {
    [Statement(DropSql(tableName), []), Statement(CreateSql(tableName, FinalHeaders(headers)), [])]
      + seq(|rows|, i requires 0 <= i < |rows| => InsertStatementIntended(tableName, rows[i], i))
  }

  /**
   * Both statement lists: two statements, then one INSERT per row, row `i` bound with index `i`
   * last.
   */
  lemma TableStatementsShape(tableName: string, headers: seq<string>, rows: seq<seq<Value>>)
    ensures |TableStatements(tableName, headers, rows)| == |rows| + 2
    ensures |TableStatementsIntended(tableName, headers, rows)| == |rows| + 2
    ensures forall i :: 0 <= i < |rows| ==>
      TableStatements(tableName, headers, rows)[i + 2] == InsertStatement(tableName, rows[i], i) &&
      TableStatementsIntended(tableName, headers, rows)[i + 2] == InsertStatementIntended(tableName, rows[i], i)
    ensures forall i :: 0 <= i < |rows| ==>
      var st := TableStatements(tableName, headers, rows)[i + 2];
      |st.params| == |rows[i]| + 1 && st.params[|rows[i]|] == PInt(i)
  {
    var ts := TableStatements(tableName, headers, rows);
    var tsi := TableStatementsIntended(tableName, headers, rows);
    var ins := seq(|rows|, i requires 0 <= i < |rows| => InsertStatement(tableName, rows[i], i));
    var insi := seq(|rows|, i requires 0 <= i < |rows| => InsertStatementIntended(tableName, rows[i], i));
    assert ts[2..] == ins;
    assert tsi[2..] == insi;
    forall i | 0 <= i < |rows|
      ensures ts[i + 2] == InsertStatement(tableName, rows[i], i)
      ensures tsi[i + 2] == InsertStatementIntended(tableName, rows[i], i)
      ensures |ts[i + 2].params| == |rows[i]| + 1 && ts[i + 2].params[|rows[i]|] == PInt(i)
    {
      assert ts[i + 2] == ins[i];
      assert tsi[i + 2] == insi[i];
      RowParamsSpec(rows[i], i);
    }
  }

  /** In the corrected statements every column list and every value list opens with a column or a placeholder. */
  lemma TableStatementsIntendedOpen(tableName: string, headers: seq<string>, rows: seq<seq<Value>>)
    ensures var s := TableStatementsIntended(tableName, headers, rows)[1].sql;
      |s| > |CreatePrefix(tableName)| && s[|CreatePrefix(tableName)|] == '"'
    ensures forall i :: 0 <= i < |rows| ==>
      var s := InsertStatementIntended(tableName, rows[i], i).sql;
      |s| > |InsertPrefix(tableName)| && s[|InsertPrefix(tableName)|] == '$'
  {
    CreateSqlOpensWithColumn(tableName, FinalHeaders(headers));
    forall i | 0 <= i < |rows|
      ensures var s := InsertStatementIntended(tableName, rows[i], i).sql;
        |s| > |InsertPrefix(tableName)| && s[|InsertPrefix(tableName)|] == '$'
    {
      InsertSqlPlaceholders(tableName, rows[i], i);
    }
  }

  /**
   * The texts as written are the corrected ones exactly when every list they build is non-empty:
   * with at least one header and no empty row the two statement lists coincide, and with no
   * header the CREATE as written differs.
   */
  lemma TableStatementsAgree(tableName: string, headers: seq<string>, rows: seq<seq<Value>>)
    ensures (headers != [] && forall i :: 0 <= i < |rows| ==> rows[i] != []) ==>
      TableStatements(tableName, headers, rows) == TableStatementsIntended(tableName, headers, rows)
    ensures headers == [] ==>
      TableStatements(tableName, headers, rows)[1] != TableStatementsIntended(tableName, headers, rows)[1]
  {
    FinalHeadersSpec(headers);
    if headers != [] && forall i :: 0 <= i < |rows| ==> rows[i] != [] {
      CreateSqlAgrees(tableName, FinalHeaders(headers));
      forall i | 0 <= i < |rows|
        ensures InsertStatement(tableName, rows[i], i) == InsertStatementIntended(tableName, rows[i], i)
      {
        InsertSqlAgrees(tableName, |rows[i]|);
      }
    }
    if headers == [] {
      CreateSqlAsWrittenEmpty(tableName);
      CreateSqlOpensWithColumn(tableName, []);
    }
  }

  /**
   * Loading a materialised region binds exactly one value per column of the created table in
   * every INSERT: one per header, plus the row index.
   */
  lemma RegionTableArity(region: Region, sheetRange: Option<ExcelUtils.CellRange>, m: Matrix, dec: Decoder, now: nat)
    requires RegionService.Materialize(region, sheetRange, m, dec, now).Some?
    ensures var t := RegionService.Materialize(region, sheetRange, m, dec, now).value;
      var sts := TableStatements(t.tableName, t.headers, t.rows);
      forall i :: 2 <= i < |sts| ==> |sts[i].params| == |FinalHeaders(t.headers)| + 1
    ensures var t := RegionService.Materialize(region, sheetRange, m, dec, now).value;
      t.headers != [] ==> TableStatements(t.tableName, t.headers, t.rows) == TableStatementsIntended(t.tableName, t.headers, t.rows)
  {
    var t := RegionService.Materialize(region, sheetRange, m, dec, now).value;
    RegionService.MaterializedWellFormed(region, sheetRange, m, dec, now);
    FinalHeadersSpec(t.headers);
    TableStatementsShape(t.tableName, t.headers, t.rows);
    TableStatementsAgree(t.tableName, t.headers, t.rows);
  }

  /** The body of `createTableFromData`: the header loop, then the row loop. */
  method CreateTableFromData(tableName: string, headers: seq<string>, rows: seq<seq<Value>>)
    returns (statements: seq<Statement>)
    ensures statements == TableStatements(tableName, headers, rows)
  {
    statements := [Statement(DropSql(tableName), [])];
    var finalHeaders := DedupHeaders(headers);
    statements := statements + [Statement(CreateSqlAsWritten(tableName, finalHeaders), [])];
    ghost var head := statements;
    for i := 0 to |rows|
      invariant statements == head + seq(i, k requires 0 <= k < i => InsertStatement(tableName, rows[k], k))
    {
      var row := rows[i];
      var values := seq(|row|, j requires 0 <= j < |row| => ParamOf(row[j]));
      statements := statements + [Statement(InsertSqlAsWritten(tableName, |row|), values + [PInt(i)])];
    }
  }
}
