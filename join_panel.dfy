/**
 * The join panel: the header names it offers for join keys, the choice of merge strategy, and
 * the horizontal join dialog, whose state (the master region and the slave list with their join
 * keys) it edits in place before saving it into the merge strategy.
 */
module JoinPanel {
  import opened Wrappers
  import opened Text
  import opened Values
  import opened ExcelUtils
  import opened Model
  import opened Lists
  import BaseStrategy
  import H = HorizontalStrategy

  // ---------------------------------------------------------------------------------------
  // Header names offered for join keys

  /**
   * The corner and last column the panel reads: the decoded `start:end` range, with the sheet
   * origin and the first row's last column as defaults (and when the decode fails).
   */
  function JoinSpan(region: Region, m: Matrix, dec: Decoder): BaseStrategy.Span {
    if region.start != "" then
      match dec.range(region.start + ":" + region.end)
      case None => BaseStrategy.Span(0, 0, BaseStrategy.LastColumn(m))
      case Some(rg) => BaseStrategy.Span(rg.s.r, rg.s.c, if region.end != "" then rg.e.c else BaseStrategy.LastColumn(m))
    else BaseStrategy.Span(0, 0, BaseStrategy.LastColumn(m))
  }

  /** The row the panel reads the names from: the start row moved down by the skipped rows. */
  function HeaderRowIndex(region: Region, m: Matrix, dec: Decoder): int {
    JoinSpan(region, m, dec).startRow + region.skipRows
  }

  /** The name offered for the cell of column `c`: `Column_<c+1>` for a missing or empty cell, else its trimmed text. */
  function HeaderName(v: Value, c: nat): string {
    if v.Null? || v == Str("") then "Column_" + NatStr(c + 1) else Trim(ToStr(v))
  }

  /** `row[c]`, Null past the row's end. */
  function CellOf(row: seq<Value>, c: int): Value {
    if 0 <= c < |row| then row[c] else Null
  }

  /** The names of the cells `from..to` of a row, in column order. */
  function Names(row: seq<Value>, from: nat, to: int): (r: seq<string>)
    decreases to - from
  {
    if to < from then [] else Names(row, from, to - 1) + [HeaderName(CellOf(row, to), to)]
  }

  /** One name per column from `from` to `to`, each the name of its own cell. */
  lemma {:induction false} NamesSpec(row: seq<Value>, from: nat, to: int)
    decreases to - from
    ensures |Names(row, from, to)| == (if to < from then 0 else to - from + 1)
    ensures forall i :: 0 <= i < |Names(row, from, to)| ==>
      Names(row, from, to)[i] == HeaderName(CellOf(row, from + i), from + i)
  {
    if to >= from {
      NamesSpec(row, from, to - 1);
      var prev := Names(row, from, to - 1);
      var last := HeaderName(CellOf(row, to), to);
      var all := Names(row, from, to);
      assert all == prev + [last];
      forall i | 0 <= i < |all|
        ensures all[i] == HeaderName(CellOf(row, from + i), from + i)
      {
        if i < |prev| {
          assert all[i] == prev[i];
        } else {
          assert i == to - from && all[i] == last;
        }
      }
    }
  }

  /**
   * `getRegionFields(region)`: the names of the header row's cells over the region's columns;
   * nothing when the sheet, its matrix or the header row is missing.
   */
  function RegionFieldNames(region: Region, wb: Workbook, currentSheet: string, dec: Decoder): seq<string> {
    var name := SheetNameOf(region, currentSheet);
    if name == "" || name !in wb || wb[name].matrix.None? then []
    else
      var m := wb[name].matrix.value;
      var idx := HeaderRowIndex(region, m, dec);
      var sp := JoinSpan(region, m, dec);
      if 0 <= idx < |m| then Names(m[idx], sp.startCol, sp.endCol) else []
  }

  /** The loop of `getRegionFields`. */
  method GetRegionFields(region: Region, wb: Workbook, currentSheet: string, dec: Decoder) returns (headers: seq<string>)
    ensures headers == RegionFieldNames(region, wb, currentSheet, dec)
  {
    var sheetName := SheetNameOf(region, currentSheet);
    if sheetName == "" || sheetName !in wb || wb[sheetName].matrix.None? {
      return [];
    }
    var m := wb[sheetName].matrix.value;
    var sp := JoinSpan(region, m, dec);
    var idx := sp.startRow + region.skipRows;
    if !(0 <= idx < |m|) {
      return [];
    }
    headers := [];
    var c: int := sp.startCol;
    while c <= sp.endCol
      invariant sp.startCol <= c
      invariant c <= sp.endCol + 1 || c == sp.startCol
      invariant headers == Names(m[idx], sp.startCol, c - 1)
      decreases sp.endCol - c
    {
      var v := CellOf(m[idx], c);
      assert Names(m[idx], sp.startCol, c) == Names(m[idx], sp.startCol, c - 1) + [HeaderName(v, c)];
      headers := headers + [HeaderName(v, c)];
      c := c + 1;
    }
  }

  /**
   * The panel reads its names from the same start row as the header derivation of the merge
   * strategies, moved down by `skipRows`: the strategies read the header rows first and skip
   * the rows after them.
   */
  lemma HeaderRowAfterSkip(region: Region, sheet: Sheet, m: Matrix, dec: Decoder)
    requires region.direction == Vertical
    ensures HeaderRowIndex(region, m, dec) == BaseStrategy.MakeCtx(region, sheet, m, dec).headerStart + region.skipRows
  {
  }

  /**
   * On a vertical region with one header row, no merges and no cascading, the offered name of a
   * column equals the field's display name exactly when its header cell is not blank: a blank
   * cell is offered as `Column_<c+1>` (or as "" for spaces) while the field is named by its
   * column letters, so a join key picked on it matches no field.
   */
  lemma OfferedNameIsDisplayName(ctx: BaseStrategy.Ctx, c: nat)
    requires ctx.dir == Vertical && !ctx.cascade && ctx.headerCount == 1 && ctx.merges == []
    ensures var v := At(ctx.m, ctx.headerStart, c);
      HeaderName(v, c) == BaseStrategy.DisplayName(ctx, c) <==> !IsBlank(v)
  {
    var v := At(ctx.m, ctx.headerStart, c);
    NoMergesReadsCell(ctx.m, ctx.headerStart, c);
    BaseStrategy.PlainDisplayName(ctx, c);
    if v.Null? || v == Str("") {
      var letters := ColLabel(c);
      ColLabelIsLabel(c);
      var offered := "Column_" + NatStr(c + 1);
      assert offered[1] == 'o';
      if |letters| > 1 {
        assert !IsLetter(offered[1]);
        assert offered != letters;
      } else {
        assert |offered| > 1;
      }
    }
  }

  // ---------------------------------------------------------------------------------------
  // Merge strategy selection

  /** `{ type: 'vertical', verticalConfig: { matchMode: 'byName' } }`. */
  function DefaultStrategy(): MergeStrategy {
    MergeStrategy("vertical", Some(VConfig("byName")), None)
  }

  /** `ensureDefaultStrategy()`: vertical by name is installed only when no strategy exists. */
  function EnsureDefaultStrategy(ms: Option<MergeStrategy>): (r: Option<MergeStrategy>)
    ensures r.Some?
    ensures ms.Some? ==> r == ms
    ensures ms.None? ==> r == Some(DefaultStrategy())
  {
    if ms.None? then Some(DefaultStrategy()) else ms
  }

  /** Installing the default twice is installing it once. */
  lemma EnsureDefaultIdempotent(ms: Option<MergeStrategy>)
    ensures EnsureDefaultStrategy(EnsureDefaultStrategy(ms)) == EnsureDefaultStrategy(ms)
  {
  }

  /**
   * A click on a strategy card: ignored (None) with fewer than two regions; otherwise the
   * strategy takes the clicked type and keeps its settings, and a missing setting of the chosen
   * type is filled with its default.
   */
  function SelectStrategy(regionCount: nat, ms: Option<MergeStrategy>, kind: string): (r: Option<MergeStrategy>)
    ensures r.None? <==> regionCount < 2
    ensures r.Some? ==> r.value.kind == kind
    ensures r.Some? && kind == "vertical" ==> r.value.verticalConfig.Some?
    ensures r.Some? && kind == "horizontal" ==> r.value.horizontalConfig.Some?
  {
    if regionCount < 2 then None
    else
      var s := ms.GetOr(MergeStrategy("", None, None)).(kind := kind);
      var s1 := if kind == "vertical" && s.verticalConfig.None? then s.(verticalConfig := Some(VConfig("byName"))) else s;
      Some(if kind == "horizontal" && s1.horizontalConfig.None? then s1.(horizontalConfig := Some(HConfig("", []))) else s1)
  }

  /** Switching the type keeps whatever settings of either type were already made. */
  lemma SelectStrategyKeepsSettings(regionCount: nat, ms: MergeStrategy, kind: string)
    requires regionCount >= 2
    ensures var r := SelectStrategy(regionCount, Some(ms), kind).value;
      (ms.verticalConfig.Some? ==> r.verticalConfig == ms.verticalConfig) &&
      (ms.horizontalConfig.Some? ==> r.horizontalConfig == ms.horizontalConfig)
  {
  }

  /** The match-mode select: the vertical settings take the chosen mode (a missing strategy counts as vertical). */
  function ChangeMatchMode(ms: Option<MergeStrategy>, mode: string): (r: MergeStrategy)
    ensures r.verticalConfig == Some(VConfig(mode))
    ensures ms.Some? ==> r.kind == ms.value.kind && r.horizontalConfig == ms.value.horizontalConfig
    ensures ms.None? ==> r.kind == "vertical"
  {
    ms.GetOr(MergeStrategy("vertical", None, None)).(verticalConfig := Some(VConfig(mode)))
  }

  /**
   * The dialog's save button: refused (None) without a master; otherwise the strategy (a new
   * horizontal one when none exists) takes the dialog's master and slaves as its settings.
   */
  function SaveJoin(ms: Option<MergeStrategy>, masterId: string, slaves: seq<Slave>): (r: Option<MergeStrategy>)
    ensures r.None? <==> masterId == ""
    ensures r.Some? ==> r.value.horizontalConfig == Some(HConfig(masterId, slaves))
    ensures r.Some? && ms.Some? ==> r.value.kind == ms.value.kind && r.value.verticalConfig == ms.value.verticalConfig
    ensures r.Some? && ms.None? ==> r.value.kind == "horizontal"
  {
    if masterId == "" then None
    else Some(ms.GetOr(MergeStrategy("horizontal", None, None)).(horizontalConfig := Some(HConfig(masterId, slaves))))
  }

  // ---------------------------------------------------------------------------------------
  // The join dialog

  /** `{ slaveField: '', targetInstanceId: 'MASTER', targetField: '' }`. */
  const BlankKey := JoinKey("", Master, "")

  /** The slave the panel creates for a region: a left join on one blank key. */
  function NewSlave(regionId: string): Slave {
    Slave(regionId, "left", [BlankKey])
  }

  /** `allRegions.filter(r => r.id !== masterId).map(...)`: one new slave per other region, in order. */
  function AutoSlaves(regions: seq<Region>, masterId: string): (r: seq<Slave>)
    ensures |r| <= |regions|
    ensures forall i :: 0 <= i < |r| ==> r[i] == NewSlave(r[i].regionId)
  {
    if regions == [] then []
    else (if regions[0].id != masterId then [NewSlave(regions[0].id)] else []) + AutoSlaves(regions[1..], masterId)
  }

  /** The region ids of some slaves, in order. */
  function SlaveIds(slaves: seq<Slave>): seq<string> {
    if slaves == [] then [] else [slaves[0].regionId] + SlaveIds(slaves[1..])
  }

  /** The ids of some regions, in order. */
  function RegionIds(regions: seq<Region>): seq<string> {
    if regions == [] then [] else [regions[0].id] + RegionIds(regions[1..])
  }

  /**
   * The slaves loaded for a master are the other regions, in region order: their ids are the
   * region ids with the master's removed, so the master is never its own slave and every other
   * region is one.
   */
  lemma {:induction false} AutoSlavesIds(regions: seq<Region>, masterId: string)
    ensures SlaveIds(AutoSlaves(regions, masterId)) == Without(RegionIds(regions), masterId)
  {
    if regions != [] {
      AutoSlavesIds(regions[1..], masterId);
      var r := AutoSlaves(regions, masterId);
      var rest := AutoSlaves(regions[1..], masterId);
      var ids := RegionIds(regions);
      assert ids[1..] == RegionIds(regions[1..]);
      if regions[0].id != masterId {
        assert r == [NewSlave(regions[0].id)] + rest;
        assert r[1..] == rest;
      } else {
        assert r == rest;
      }
    }
  }

  /** An entry of the target-table select: its `targetInstanceId` and the label shown. */
  datatype Target = Target(ref: TargetRef, name: string)

  /** The label of the master entry: the master region's name, or 主表. */
  function MasterLabel(regions: seq<Region>, masterId: string): string {
    match FindRegion(regions, masterId)
    case Some(r) => r.name
    case None => "主表"
  }

  /** The label of the entry for earlier slave `i`: its region's name, or `从表 <i+1>`. */
  function SlaveLabel(regions: seq<Region>, slaves: seq<Slave>, i: nat): string
    requires i < |slaves|
  {
    match FindRegion(regions, slaves[i].regionId)
    case Some(r) => r.name
    case None => "从表 " + NatStr(i + 1)
  }

  /** The targets a key of slave `slaveIndex` may point at: the master, then every earlier slave. */
  function Targets(regions: seq<Region>, masterId: string, slaves: seq<Slave>, slaveIndex: nat): (r: seq<Target>)
    requires slaveIndex <= |slaves|
    ensures |r| == slaveIndex + 1
    ensures r[0].ref == Master
    ensures forall i :: 0 < i < |r| ==> r[i].ref == SlaveAt(i - 1)
  {
    if slaveIndex == 0 then [Target(Master, MasterLabel(regions, masterId))]
    else Targets(regions, masterId, slaves, slaveIndex - 1) + [Target(SlaveAt(slaveIndex - 1), SlaveLabel(regions, slaves, slaveIndex - 1))]
  }

  /**
   * Every target the dialog offers to slave `s` resolves, under the saved settings, to the master
   * or to a slave declared before `s`: the horizontal strategy itself would accept any slave.
   */
  lemma OfferedTargetsResolve(regions: seq<Region>, masterId: string, slaves: seq<Slave>, s: nat, t: nat)
    requires s < |slaves| && t <= s && masterId != ""
    ensures var ref := Targets(regions, masterId, slaves, s)[t].ref;
      var resolved := H.KeyTarget(HConfig(masterId, slaves), H.MasterId(HConfig(masterId, slaves), regions), ref);
      resolved.Some? &&
      (ref == Master ==> resolved.value == masterId) &&
      (ref != Master ==> ref.SlaveAt? && 0 <= ref.index < s && resolved.value == slaves[ref.index].regionId)
  {
  }

  /** Every slave has at least one join key. */
  predicate KeysPresent(slaves: seq<Slave>) {
    forall i :: 0 <= i < |slaves| ==> slaves[i].joinKeys != []
  }

  /** The dialog's working copy of the horizontal settings. */
  class JoinDialog {
    var masterId: string
    var slaves: seq<Slave>

    constructor ()
      ensures masterId == "" && slaves == []
    {
      masterId := "";
      slaves := [];
    }

    /** Opening the dialog loads the saved settings, with at least two regions only. */
    method Open(regionCount: nat, hc: HConfig) returns (shown: bool)
      modifies this
      ensures shown == (regionCount >= 2)
      ensures shown ==> masterId == hc.masterRegionId && slaves == hc.slaves
      ensures !shown ==> masterId == old(masterId) && slaves == old(slaves)
    {
      if regionCount < 2 {
        return false;
      }
      masterId := hc.masterRegionId;
      slaves := hc.slaves;
      shown := true;
    }

    /**
     * Choosing a different master replaces the slaves by every other region, each a left join
     * on one blank key; clearing the master clears the slaves; choosing the same master
     * changes nothing.
     */
    method ChangeMaster(regions: seq<Region>, newId: string)
      modifies this
      ensures newId == old(masterId) ==> masterId == old(masterId) && slaves == old(slaves)
      ensures newId != old(masterId) ==> masterId == newId && slaves == (if newId != "" then AutoSlaves(regions, newId) else [])
      ensures newId != old(masterId) ==> KeysPresent(slaves)
    {
      if newId != masterId {
        masterId := newId;
        if newId != "" {
          slaves := AutoSlaves(regions, newId);
        } else {
          slaves := [];
        }
      }
    }

    /** The add-slave button: without a master nothing happens; otherwise the first non-master region joins as a new slave. */
    method AddSlave(regions: seq<Region>)
      modifies this
      ensures masterId == old(masterId)
      ensures old(masterId) == "" ==> slaves == old(slaves)
      ensures old(masterId) != "" ==>
        var others := AutoSlaves(regions, masterId);
        slaves == old(slaves) + [NewSlave(if others != [] then others[0].regionId else "")]
      ensures KeysPresent(old(slaves)) ==> KeysPresent(slaves)
    {
      if masterId == "" {
        return;
      }
      var others := AutoSlaves(regions, masterId);
      slaves := slaves + [NewSlave(if others != [] then others[0].regionId else "")];
    }

    /** The remove-slave button of slave `s`. */
    method RemoveSlave(s: nat)
      requires s < |slaves|
      modifies this
      ensures masterId == old(masterId) && slaves == RemoveAt(old(slaves), s)
      ensures KeysPresent(old(slaves)) ==> KeysPresent(slaves)
    {
      slaves := RemoveAt(slaves, s);
    }

    /** The join-type option and the slave-region select of slave `s`. */
    method SetSlave(s: nat, joinType: string, regionId: string)
      requires s < |slaves|
      modifies this
      ensures masterId == old(masterId)
      ensures slaves == old(slaves)[s := old(slaves)[s].(joinType := joinType, regionId := regionId)]
      ensures KeysPresent(old(slaves)) ==> KeysPresent(slaves)
    {
      slaves := slaves[s := slaves[s].(joinType := joinType, regionId := regionId)];
    }

    /** The add-key button of key `k` of slave `s`: a blank key is inserted right after it. */
    method AddKey(s: nat, k: nat)
      requires s < |slaves| && k < |slaves[s].joinKeys|
      modifies this
      ensures masterId == old(masterId)
      ensures var keys := old(slaves)[s].joinKeys;
        slaves == old(slaves)[s := old(slaves)[s].(joinKeys := InsertAt(keys, k + 1, BlankKey))]
      ensures KeysPresent(old(slaves)) ==> KeysPresent(slaves)
    {
      var keys := slaves[s].joinKeys;
      slaves := slaves[s := slaves[s].(joinKeys := InsertAt(keys, k + 1, BlankKey))];
    }

    /** The remove-key button of key `k` of slave `s`: removing the last key leaves one blank key. */
    method RemoveKey(s: nat, k: nat)
      requires s < |slaves| && k < |slaves[s].joinKeys|
      modifies this
      ensures masterId == old(masterId)
      ensures var keys := old(slaves)[s].joinKeys;
        slaves == old(slaves)[s := old(slaves)[s].(joinKeys := if |keys| == 1 then [BlankKey] else RemoveAt(keys, k))]
      ensures slaves[s].joinKeys != []
      ensures KeysPresent(old(slaves)) ==> KeysPresent(slaves)
    {
      var keys := RemoveAt(slaves[s].joinKeys, k);
      if |keys| == 0 {
        keys := [BlankKey];
      }
      slaves := slaves[s := slaves[s].(joinKeys := keys)];
    }

    /** Choosing the target of key `k` of slave `s` clears its target field. */
    method SetKeyTarget(s: nat, k: nat, t: TargetRef)
      requires s < |slaves| && k < |slaves[s].joinKeys|
      modifies this
      ensures masterId == old(masterId)
      ensures var keys := old(slaves)[s].joinKeys;
        slaves == old(slaves)[s := old(slaves)[s].(joinKeys := keys[k := keys[k].(target := t, targetField := "")])]
      ensures KeysPresent(old(slaves)) ==> KeysPresent(slaves)
    {
      var keys := slaves[s].joinKeys;
      slaves := slaves[s := slaves[s].(joinKeys := keys[k := keys[k].(target := t, targetField := "")])];
    }

    /** Choosing the slave field or the target field of key `k` of slave `s`. */
    method SetKeyFields(s: nat, k: nat, slaveField: string, targetField: string)
      requires s < |slaves| && k < |slaves[s].joinKeys|
      modifies this
      ensures masterId == old(masterId)
      ensures var keys := old(slaves)[s].joinKeys;
        slaves == old(slaves)[s := old(slaves)[s].(joinKeys := keys[k := keys[k].(slaveField := slaveField, targetField := targetField)])]
      ensures KeysPresent(old(slaves)) ==> KeysPresent(slaves)
    {
      var keys := slaves[s].joinKeys;
      slaves := slaves[s := slaves[s].(joinKeys := keys[k := keys[k].(slaveField := slaveField, targetField := targetField)])];
    }
  }

  /** Adding a key after key `k` and removing it again gives the key list back. */
  lemma AddThenRemoveKey(keys: seq<JoinKey>, k: nat)
    requires k < |keys|
    ensures RemoveAt(InsertAt(keys, k + 1, BlankKey), k + 1) == keys
  {
    RemoveInserted(keys, k + 1, BlankKey);
  }
}
