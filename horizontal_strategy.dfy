/**
 * Horizontal merging: a master region and its slave regions are joined side by side. Every
 * header starts in a group of its own, the join keys merge the group of a slave's field into
 * the group of the field it is joined to, each group becomes one field named after its source
 * from the earliest region, and the SQL joins the tables in a chain.
 */
module HorizontalStrategy {
  import opened Wrappers
  import opened Text
  import opened Model
  import BaseStrategy
  import TransformRegistry
  import V = VerticalStrategy

  // ---------------------------------------------------------------------------------------
  // The master and the order of the regions

  /** `hConfig.masterRegionId || (regions[0] ? regions[0].id : null)`. */
  function MasterId(hc: HConfig, regions: seq<Region>): Option<string> {
    if hc.masterRegionId != "" then Some(hc.masterRegionId)
    else if regions != [] then Some(regions[0].id)
    else None
  }

  /** `regions.find(r => r.id === masterId)`. */
  function Master(hc: HConfig, regions: seq<Region>): Option<Region> {
    match MasterId(hc, regions)
    case Some(id) => FindRegion(regions, id)
    case None => None
  }

  /** The regions of the first n declared slaves that exist, in declared order. */
  function SlaveRegions(hc: HConfig, regions: seq<Region>, n: nat): seq<Region>
    requires n <= |hc.slaves|
  {
    if n == 0 then []
    else
      var found := FindRegion(regions, hc.slaves[n - 1].regionId);
      SlaveRegions(hc, regions, n - 1) + (if found.Some? then [found.value] else [])
  }

  /** `orderedRegions`: the master, if it exists, then every existing slave region in declared order. */
  function Ordered(hc: HConfig, regions: seq<Region>): seq<Region> {
    (if Master(hc, regions).Some? then [Master(hc, regions).value] else [])
      + SlaveRegions(hc, regions, |hc.slaves|)
  }

  /** A region is listed after the master exactly when some declared slave names it. */
  lemma {:induction false} SlaveRegionsSpec(hc: HConfig, regions: seq<Region>, n: nat)
    requires n <= |hc.slaves|
    ensures |SlaveRegions(hc, regions, n)| <= n
    ensures forall r :: r in SlaveRegions(hc, regions, n) <==>
      exists k :: 0 <= k < n && FindRegion(regions, hc.slaves[k].regionId) == Some(r)
  {
    if n > 0 {
      SlaveRegionsSpec(hc, regions, n - 1);
    }
  }

  /** The ordered list starts with the master when it exists, and otherwise holds only slave regions. */
  lemma OrderedSpec(hc: HConfig, regions: seq<Region>)
    ensures Master(hc, regions).Some? ==> Ordered(hc, regions)[0] == Master(hc, regions).value
    ensures Master(hc, regions).None? ==> Ordered(hc, regions) == SlaveRegions(hc, regions, |hc.slaves|)
    ensures |Ordered(hc, regions)| <= 1 + |hc.slaves|
  {
    SlaveRegionsSpec(hc, regions, |hc.slaves|);
  }

  // ---------------------------------------------------------------------------------------
  // Field groups

  type Group = seq<FieldSource>

  /** One singleton group per header of a table. */
  function Singletons(t: Table): seq<Group> {
    seq(|t.headers|, j requires 0 <= j < |t.headers| => [V.Src(t, t.headers[j], t.headers[j].isAttribute)])
  }

  /** The groups before merging: one singleton per header, region by region. */
  function InitialGroups(ts: seq<Table>): seq<Group> {
    if ts == [] then [] else InitialGroups(ts[..|ts| - 1]) + Singletons(ts[|ts| - 1])
  }

  /** All sources of all groups, group by group. */
  function FlattenAll(gs: seq<Group>): seq<FieldSource> {
    if gs == [] then [] else FlattenAll(gs[..|gs| - 1]) + gs[|gs| - 1]
  }

  lemma {:induction false} FlattenConcat(a: seq<Group>, b: seq<Group>)
    ensures FlattenAll(a + b) == FlattenAll(a) + FlattenAll(b)
    decreases |b|
  {
    if b != [] {
      var b0 := b[..|b| - 1];
      assert (a + b)[..|a + b| - 1] == a + b0;
      FlattenConcat(a, b0);
    } else {
      assert a + b == a;
    }
  }

  lemma {:induction false} SingletonsFlatten(t: Table, n: nat)
    requires n <= |t.headers|
    ensures FlattenAll(Singletons(t)[..n]) == V.HeaderSources(t, t.headers[..n])
  {
    if n > 0 {
      SingletonsFlatten(t, n - 1);
      var s := Singletons(t)[..n];
      assert s[..n - 1] == Singletons(t)[..n - 1];
      assert t.headers[..n][..n - 1] == t.headers[..n - 1];
    }
  }

  predicate AllSingletons(gs: seq<Group>) {
    forall j :: 0 <= j < |gs| ==> |gs[j]| == 1
  }

  /**
   * Before merging there is one singleton group per header, and together they hold exactly
   * the sources of all headers, region by region.
   */
  lemma {:induction false} InitialGroupsSpec(ts: seq<Table>)
    ensures |InitialGroups(ts)| == V.TotalHeaders(ts)
    ensures AllSingletons(InitialGroups(ts))
    ensures FlattenAll(InitialGroups(ts)) == V.AllSources(ts)
  {
    if ts != [] {
      var init, t := ts[..|ts| - 1], ts[|ts| - 1];
      InitialGroupsSpec(init);
      FlattenConcat(InitialGroups(init), Singletons(t));
      SingletonsFlatten(t, |t.headers|);
      assert Singletons(t)[..|t.headers|] == Singletons(t);
      assert t.headers[..|t.headers|] == t.headers;
    }
  }

  // ---------------------------------------------------------------------------------------
  // Merging by join keys

  /** `g.some(f => f.regionId === id && f.displayName === name)`. */
  predicate HasField(g: Group, id: string, name: string) {
    exists j :: 0 <= j < |g| && g[j].regionId == id && g[j].displayName == name
  }

  /** `fieldGroups.findIndex(g => HasField(g, id, name))`, with |gs| standing for -1. */
  function FindField(gs: seq<Group>, id: string, name: string): nat {
    if gs == [] then 0
    else if HasField(gs[0], id, name) then 0
    else 1 + FindField(gs[1..], id, name)
  }

  /** The index found is the first group holding the field, or |gs| when none does. */
  lemma {:induction false} FindFieldSpec(gs: seq<Group>, id: string, name: string)
    ensures var k := FindField(gs, id, name);
      k <= |gs| && (k < |gs| ==> HasField(gs[k], id, name)) &&
      forall j :: 0 <= j < k ==> !HasField(gs[j], id, name)
  {
    if gs != [] && !HasField(gs[0], id, name) {
      FindFieldSpec(gs[1..], id, name);
    }
  }

  /** A group holding the field with none before it is the one found. */
  lemma {:induction false} FindFieldAt(gs: seq<Group>, id: string, name: string, k: nat)
    requires k < |gs| && HasField(gs[k], id, name)
    requires forall j :: 0 <= j < k ==> !HasField(gs[j], id, name)
    ensures FindField(gs, id, name) == k
  {
    if k > 0 {
      FindFieldAt(gs[1..], id, name, k - 1);
    }
  }

  /** `fieldGroups.splice(i, 1)`. */
  function Remove(gs: seq<Group>, i: nat): (r: seq<Group>)
    requires i < |gs|
    ensures |r| == |gs| - 1
  {
    gs[..i] + gs[i + 1..]
  }

  /** After the slave group is removed, the target group is found again, one place earlier if it came after. */
  lemma RefindTarget(gs: seq<Group>, si: nat, ti: nat, id: string, name: string)
    requires si < |gs| && ti < |gs| && si != ti && ti == FindField(gs, id, name)
    ensures FindField(Remove(gs, si), id, name) == (if ti < si then ti else ti - 1)
  {
    FindFieldSpec(gs, id, name);
    var rest := Remove(gs, si);
    if ti < si {
      assert forall j :: 0 <= j <= ti ==> rest[j] == gs[j];
      FindFieldAt(rest, id, name, ti);
    } else {
      assert forall j :: 0 <= j < si ==> rest[j] == gs[j];
      assert forall j :: si <= j < ti ==> rest[j] == gs[j + 1];
      FindFieldAt(rest, id, name, ti - 1);
    }
  }

  /**
   * One resolved join key: the group holding the slave's field is taken out and its sources
   * are appended to the group holding the target field, when both exist and differ.
   */
  function Merge(gs: seq<Group>, slaveId: string, targetId: string, k: JoinKey): seq<Group> {
    var si := FindField(gs, slaveId, k.slaveField);
    var ti := FindField(gs, targetId, k.targetField);
    if si < |gs| && ti < |gs| && si != ti then
      var rest := Remove(gs, si);
      RefindTarget(gs, si, ti, targetId, k.targetField);
      var t := FindField(rest, targetId, k.targetField);
      rest[t := rest[t] + gs[si]]
    else gs
  }

  /**
   * The region a join key points at: the master's id, or the region id of the declared slave
   * at the given index (any slave, earlier or later), or nothing.
   */
  function KeyTarget(hc: HConfig, masterId: Option<string>, t: TargetRef): Option<string> {
    match t
    case Master => masterId
    case SlaveAt(i) => if 0 <= i < |hc.slaves| then Some(hc.slaves[i].regionId) else None
    case Unparsed => None
  }

  /** One join key of a slave: keys with an empty field or without a target region are ignored. */
  function ApplyKey(gs: seq<Group>, hc: HConfig, masterId: Option<string>, slaveReg: Region, k: JoinKey): seq<Group> {
    if k.slaveField == "" || k.targetField == "" then gs
    else
      var tid := KeyTarget(hc, masterId, k.target);
      if tid.Some? && tid.value != "" then Merge(gs, slaveReg.id, tid.value, k) else gs
  }

  /** The join keys of one slave, in order. */
  function ApplyKeys(gs: seq<Group>, hc: HConfig, masterId: Option<string>, slaveReg: Region, keys: seq<JoinKey>): seq<Group> {
    if keys == [] then gs
    else ApplyKey(ApplyKeys(gs, hc, masterId, slaveReg, keys[..|keys| - 1]), hc, masterId, slaveReg, keys[|keys| - 1])
  }

  /** A join key with an empty slave field or an empty target field changes nothing. */
  lemma IncompleteKeyIgnored(gs: seq<Group>, hc: HConfig, masterId: Option<string>, slaveReg: Region, k: JoinKey)
    requires k.slaveField == "" || k.targetField == ""
    ensures ApplyKey(gs, hc, masterId, slaveReg, k) == gs
  {
  }

  /** Applying `a + b` is applying `a`, then `b`. */
  lemma {:induction false} ApplyKeysAppend(gs: seq<Group>, hc: HConfig, masterId: Option<string>, slaveReg: Region, a: seq<JoinKey>, b: seq<JoinKey>)
    ensures ApplyKeys(gs, hc, masterId, slaveReg, a + b) ==
      ApplyKeys(ApplyKeys(gs, hc, masterId, slaveReg, a), hc, masterId, slaveReg, b)
    decreases |b|
  {
    if b == [] {
      assert a + b == a;
    } else {
      assert (a + b)[..|a + b| - 1] == a + b[..|b| - 1];
      ApplyKeysAppend(gs, hc, masterId, slaveReg, a, b[..|b| - 1]);
    }
  }

  /** Anywhere in a slave's key list, a key with an empty field can be dropped without effect. */
  lemma IncompleteKeysIgnored(gs: seq<Group>, hc: HConfig, masterId: Option<string>, slaveReg: Region,
                              a: seq<JoinKey>, k: JoinKey, b: seq<JoinKey>)
    requires k.slaveField == "" || k.targetField == ""
    ensures ApplyKeys(gs, hc, masterId, slaveReg, a + [k] + b) == ApplyKeys(gs, hc, masterId, slaveReg, a + b)
  {
    ApplyKeysAppend(gs, hc, masterId, slaveReg, a + [k], b);
    ApplyKeysAppend(gs, hc, masterId, slaveReg, a, b);
    assert (a + [k])[..|a + [k]| - 1] == a;
  }

  /** The join keys of the first n declared slaves whose region exists. */
  function ApplySlaves(gs: seq<Group>, hc: HConfig, masterId: Option<string>, regions: seq<Region>, n: nat): seq<Group>
    requires n <= |hc.slaves|
  {
    if n == 0 then gs
    else
      var before := ApplySlaves(gs, hc, masterId, regions, n - 1);
      var s := hc.slaves[n - 1];
      match FindRegion(regions, s.regionId)
      case None => before
      case Some(r) => ApplyKeys(before, hc, masterId, r, s.joinKeys)
  }

  predicate NonEmptyGroups(gs: seq<Group>) {
    forall j :: 0 <= j < |gs| ==> gs[j] != []
  }

  /** The flattened groups are the part before a group, the group, and the part after it. */
  lemma FlattenSplit(gs: seq<Group>, i: nat)
    requires i < |gs|
    ensures FlattenAll(gs) == FlattenAll(gs[..i]) + gs[i] + FlattenAll(gs[i + 1..])
  {
    var a, g, b := gs[..i], gs[i], gs[i + 1..];
    var gb := gs[i..];
    assert gs == a + gb;
    assert gb == [g] + b by {
      assert |gb| == 1 + |b|;
      assert forall j :: 0 <= j < |gb| ==> gb[j] == ([g] + b)[j];
    }
    calc {
      FlattenAll(gs);
      { FlattenConcat(a, gb); }
      FlattenAll(a) + FlattenAll(gb);
      { assert gb == [g] + b; FlattenConcat([g], b); FlattenOne(g); }
      FlattenAll(a) + (g + FlattenAll(b));
      { ConcatAssoc(FlattenAll(a), g, FlattenAll(b)); }
      FlattenAll(a) + g + FlattenAll(b);
    }
  }

  lemma FlattenOne(g: Group)
    ensures FlattenAll([g]) == g
  {
    assert [g][..0] == [];
  }

  /** Removing a group removes exactly its sources. */
  lemma RemoveSources(gs: seq<Group>, i: nat)
    requires i < |gs|
    ensures multiset(FlattenAll(gs)) == multiset(FlattenAll(Remove(gs, i))) + multiset(gs[i])
  {
    FlattenSplit(gs, i);
    FlattenConcat(gs[..i], gs[i + 1..]);
  }

  /** Appending sources to one group adds exactly those sources. */
  lemma AppendSources(gs: seq<Group>, i: nat, x: Group)
    requires i < |gs|
    ensures multiset(FlattenAll(gs[i := gs[i] + x])) == multiset(FlattenAll(gs)) + multiset(x)
  {
    var gs' := gs[i := gs[i] + x];
    FlattenSplit(gs, i);
    FlattenSplit(gs', i);
    assert gs'[..i] == gs[..i] && gs'[i + 1..] == gs[i + 1..];
  }

  /**
   * When the merge happens the group count drops by one and the target group ends with the
   * slave group's sources; otherwise (a group missing, or both fields in one group) nothing
   * changes.
   */
  lemma MergeShape(gs: seq<Group>, slaveId: string, targetId: string, k: JoinKey)
    ensures var si, ti := FindField(gs, slaveId, k.slaveField), FindField(gs, targetId, k.targetField);
      var r := Merge(gs, slaveId, targetId, k);
      if si < |gs| && ti < |gs| && si != ti then
        |r| == |gs| - 1 && r[if ti < si then ti else ti - 1] == gs[ti] + gs[si]
      else r == gs
  {
    var si, ti := FindField(gs, slaveId, k.slaveField), FindField(gs, targetId, k.targetField);
    if si < |gs| && ti < |gs| && si != ti {
      RefindTarget(gs, si, ti, targetId, k.targetField);
      var t := if ti < si then ti else ti - 1;
      assert Remove(gs, si)[t] == gs[ti];
    }
  }

  /** A merge keeps every group non-empty. */
  lemma MergeNonEmpty(gs: seq<Group>, slaveId: string, targetId: string, k: JoinKey)
    requires NonEmptyGroups(gs)
    ensures NonEmptyGroups(Merge(gs, slaveId, targetId, k))
  {
    var si, ti := FindField(gs, slaveId, k.slaveField), FindField(gs, targetId, k.targetField);
    if si < |gs| && ti < |gs| && si != ti {
      var rest := Remove(gs, si);
      RefindTarget(gs, si, ti, targetId, k.targetField);
      assert NonEmptyGroups(rest) by {
        assert forall j :: 0 <= j < |rest| ==> rest[j] == (if j < si then gs[j] else gs[j + 1]);
      }
    }
  }

  /** A merge keeps every source. */
  lemma MergeKeeps(gs: seq<Group>, slaveId: string, targetId: string, k: JoinKey)
    ensures multiset(FlattenAll(Merge(gs, slaveId, targetId, k))) == multiset(FlattenAll(gs))
  {
    var si, ti := FindField(gs, slaveId, k.slaveField), FindField(gs, targetId, k.targetField);
    if si < |gs| && ti < |gs| && si != ti {
      var rest := Remove(gs, si);
      RefindTarget(gs, si, ti, targetId, k.targetField);
      var t := FindField(rest, targetId, k.targetField);
      RemoveSources(gs, si);
      AppendSources(rest, t, gs[si]);
    }
  }

  lemma {:induction false} ApplyKeysKeeps(gs: seq<Group>, hc: HConfig, masterId: Option<string>, slaveReg: Region, keys: seq<JoinKey>)
    requires NonEmptyGroups(gs)
    ensures NonEmptyGroups(ApplyKeys(gs, hc, masterId, slaveReg, keys))
    ensures multiset(FlattenAll(ApplyKeys(gs, hc, masterId, slaveReg, keys))) == multiset(FlattenAll(gs))
  {
    if keys != [] {
      var before := ApplyKeys(gs, hc, masterId, slaveReg, keys[..|keys| - 1]);
      ApplyKeysKeeps(gs, hc, masterId, slaveReg, keys[..|keys| - 1]);
      var k := keys[|keys| - 1];
      var tid := KeyTarget(hc, masterId, k.target);
      if k.slaveField != "" && k.targetField != "" && tid.Some? && tid.value != "" {
        MergeNonEmpty(before, slaveReg.id, tid.value, k);
        MergeKeeps(before, slaveReg.id, tid.value, k);
      }
    }
  }

  /** Merging keeps every source, and every group non-empty. */
  lemma {:induction false} ApplySlavesKeeps(gs: seq<Group>, hc: HConfig, masterId: Option<string>, regions: seq<Region>, n: nat)
    requires n <= |hc.slaves| && NonEmptyGroups(gs)
    ensures NonEmptyGroups(ApplySlaves(gs, hc, masterId, regions, n))
    ensures multiset(FlattenAll(ApplySlaves(gs, hc, masterId, regions, n))) == multiset(FlattenAll(gs))
  {
    if n > 0 {
      var before := ApplySlaves(gs, hc, masterId, regions, n - 1);
      ApplySlavesKeeps(gs, hc, masterId, regions, n - 1);
      var s := hc.slaves[n - 1];
      if FindRegion(regions, s.regionId).Some? {
        ApplyKeysKeeps(before, hc, masterId, FindRegion(regions, s.regionId).value, s.joinKeys);
      }
    }
  }

  /** The groups after all join keys. */
  function Merged(hc: HConfig, regions: seq<Region>, ts: seq<Table>): seq<Group> {
    ApplySlaves(InitialGroups(ts), hc, MasterId(hc, regions), regions, |hc.slaves|)
  }

  /** After merging, the groups are non-empty and hold every header's source exactly once. */
  lemma MergedSpec(hc: HConfig, regions: seq<Region>, ts: seq<Table>)
    ensures NonEmptyGroups(Merged(hc, regions, ts))
    ensures multiset(FlattenAll(Merged(hc, regions, ts))) == multiset(V.AllSources(ts))
  {
    InitialGroupsSpec(ts);
    ApplySlavesKeeps(InitialGroups(ts), hc, MasterId(hc, regions), regions, |hc.slaves|);
  }

  // ---------------------------------------------------------------------------------------
  // The field of a group

  /** `orderedRegions.findIndex(r => r.id === id)`: -1 when absent. */
  function RegionOrder(ordered: seq<Region>, id: string): int {
    if ordered == [] then -1
    else if ordered[0].id == id then 0
    else
      var k := RegionOrder(ordered[1..], id);
      if k < 0 then -1 else k + 1
  }

  /** The position in `g` of the source whose region comes first in the ordered list; the first of them on a tie. */
  function BestIndex(g: Group, ordered: seq<Region>): (j: nat)
    requires g != []
    ensures j < |g|
  {
    if |g| == 1 then 0
    else
      var b := BestIndex(g[..|g| - 1], ordered);
      if RegionOrder(ordered, g[|g| - 1].regionId) < RegionOrder(ordered, g[b].regionId) then |g| - 1 else b
  }

  /** `bestSource` after the scan of a group. */
  function BestIn(g: Group, ordered: seq<Region>): FieldSource
    requires g != []
  {
    g[BestIndex(g, ordered)]
  }

  /** The best source has the least region order, and every source before it a greater one. */
  lemma {:induction false} BestIndexSpec(g: Group, ordered: seq<Region>)
    requires g != []
    ensures var j := BestIndex(g, ordered);
      (forall l :: 0 <= l < |g| ==> RegionOrder(ordered, g[l].regionId) >= RegionOrder(ordered, g[j].regionId)) &&
      (forall l :: 0 <= l < j ==> RegionOrder(ordered, g[l].regionId) > RegionOrder(ordered, g[j].regionId))
  {
    if |g| > 1 {
      var init := g[..|g| - 1];
      BestIndexSpec(init, ordered);
      assert forall l :: 0 <= l < |init| ==> g[l] == init[l];
    }
  }

  /** The field of a group: named after its best source, `isAttribute` when any source is one. */
  function GroupField(g: Group, ordered: seq<Region>): FieldConfig
    requires g != []
  {
    var b := BestIn(g, ordered);
    FieldConfig(b.displayName, b.displayName, "", g, Absent, "none", false, V.AnyAttribute(g), None)
  }

  /** The fields before the alias pass: one per merged group. */
  function GroupFields(hc: HConfig, regions: seq<Region>, ts: seq<Table>): seq<FieldConfig> {
    var gs := Merged(hc, regions, ts);
    MergedSpec(hc, regions, ts);
    seq(|gs|, j requires 0 <= j < |gs| => GroupField(gs[j], Ordered(hc, regions)))
  }

  /** `computeFields`, given the ordered regions' field lists. */
  function Fields(hc: HConfig, regions: seq<Region>, ts: seq<Table>): seq<FieldConfig> {
    V.Dedup(regions, GroupFields(hc, regions, ts))
  }

  /** `computeFields(regions, workbookData, currentSheet)`. */
  function ComputeFields(hc: HConfig, regions: seq<Region>, wb: Option<Workbook>, currentSheet: string, dec: Decoder): seq<FieldConfig> {
    Fields(hc, regions, BaseStrategy.Tables(Ordered(hc, regions), wb, currentSheet, dec))
  }

  /**
   * A field is named and aliased after the source of its group from the earliest ordered region,
   * keeps the whole group as its sources, and is an attribute exactly when some source is one.
   */
  lemma GroupFieldSpec(g: Group, ordered: seq<Region>)
    requires g != []
    ensures var f := GroupField(g, ordered);
      f.sources == g && f.name == f.alias &&
      (exists j :: 0 <= j < |g| && f.name == g[j].displayName &&
        forall l :: 0 <= l < |g| ==> RegionOrder(ordered, g[l].regionId) >= RegionOrder(ordered, g[j].regionId)) &&
      (f.isAttribute <==> exists l :: 0 <= l < |g| && g[l].isAttribute)
  {
    BestIndexSpec(g, ordered);
  }

  /**
   * The horizontal schema has one field per merged group, holding that group's sources; together
   * the fields hold every header's source exactly once, and aliases and physical aliases are
   * each pairwise distinct.
   */
  lemma FieldsSpec(hc: HConfig, regions: seq<Region>, ts: seq<Table>)
    ensures var fs, gs := Fields(hc, regions, ts), Merged(hc, regions, ts);
      |fs| == |gs| &&
      (forall j :: 0 <= j < |gs| ==> fs[j].sources == gs[j] && gs[j] != []) &&
      multiset(FlattenAll(gs)) == multiset(V.AllSources(ts)) &&
      forall a, b :: 0 <= a < b < |fs| ==> fs[a].alias != fs[b].alias && fs[a].physAlias != fs[b].physAlias
  {
    MergedSpec(hc, regions, ts);
    V.DedupSpec(regions, GroupFields(hc, regions, ts));
  }

  // ---------------------------------------------------------------------------------------
  // computeFields, step by step

  /** `bestSource`: the scan keeps the source whose region order is strictly smaller than any before it. */
  method BestSource(g: Group, ordered: seq<Region>) returns (bestSource: FieldSource)
    requires g != []
    ensures bestSource == BestIn(g, ordered)
  {
    bestSource := g[0];
    var minOrder: Option<int> := None;  // None stands for Infinity
    ghost var b: nat := 0;
    for j := 0 to |g|
      invariant j == 0 ==> minOrder.None? && bestSource == g[0]
      invariant j > 0 ==> (b == BestIndex(g[..j], ordered) && bestSource == g[b] &&
                           minOrder == Some(RegionOrder(ordered, g[b].regionId)))
    {
      var order := RegionOrder(ordered, g[j].regionId);
      assert g[..j + 1][..j] == g[..j];
      if minOrder.None? || order < minOrder.value {
        minOrder := Some(order);
        bestSource := g[j];
        b := j;
      }
    }
    assert g[..|g|] == g;
  }

  /** One join key of a slave, on the groups in place: the slave's group is spliced out and appended to the target's. */
  method MergeKey(fieldGroups: seq<Group>, hc: HConfig, masterId: Option<string>, slaveReg: Region, k: JoinKey)
    returns (groups: seq<Group>)
    ensures groups == ApplyKey(fieldGroups, hc, masterId, slaveReg, k)
  {
    groups := fieldGroups;
    if k.slaveField == "" || k.targetField == "" {
      return;
    }
    var targetRegId := KeyTarget(hc, masterId, k.target);
    if targetRegId.Some? && targetRegId.value != "" {
      var slaveGroupIdx := FindField(groups, slaveReg.id, k.slaveField);
      var targetGroupIdx := FindField(groups, targetRegId.value, k.targetField);
      if slaveGroupIdx < |groups| && targetGroupIdx < |groups| && slaveGroupIdx != targetGroupIdx {
        var slaveGroup := groups[slaveGroupIdx];
        groups := Remove(groups, slaveGroupIdx);
        RefindTarget(fieldGroups, slaveGroupIdx, targetGroupIdx, targetRegId.value, k.targetField);
        targetGroupIdx := FindField(groups, targetRegId.value, k.targetField);
        groups := groups[targetGroupIdx := groups[targetGroupIdx] + slaveGroup];
      }
    }
  }

  /** `orderedRegions`: the master, then every slave whose region exists. */
  method OrderRegions(hc: HConfig, regions: seq<Region>) returns (orderedRegions: seq<Region>)
    ensures orderedRegions == Ordered(hc, regions)
  {
    orderedRegions := [];
    var masterId := MasterId(hc, regions);
    var master := if masterId.Some? then FindRegion(regions, masterId.value) else None;
    if master.Some? {
      orderedRegions := orderedRegions + [master.value];
    }
    ghost var head := orderedRegions;
    for i := 0 to |hc.slaves|
      invariant orderedRegions == head + SlaveRegions(hc, regions, i)
    {
      var r := FindRegion(regions, hc.slaves[i].regionId);
      if r.Some? {
        orderedRegions := orderedRegions + [r.value];
      }
    }
  }

  /** One singleton group per header of each ordered region, read from the workbook. */
  method SingletonGroups(orderedRegions: seq<Region>, wb: Option<Workbook>, currentSheet: string, dec: Decoder)
    returns (fieldGroups: seq<Group>)
    ensures fieldGroups == InitialGroups(BaseStrategy.Tables(orderedRegions, wb, currentSheet, dec))
  {
    fieldGroups := [];
    for i := 0 to |orderedRegions|
      invariant fieldGroups == InitialGroups(BaseStrategy.Tables(orderedRegions[..i], wb, currentSheet, dec))
    {
      var headers := BaseStrategy.GetRegionFields(orderedRegions[i], wb, currentSheet, dec);
      var t := Table(orderedRegions[i], headers);
      SingletonStep(orderedRegions, i, wb, currentSheet, dec);
      fieldGroups := fieldGroups + Singletons(t);
    }
    assert orderedRegions[..|orderedRegions|] == orderedRegions;
  }

  /** Reading one more region adds that region's singleton groups at the end. */
  lemma SingletonStep(rs: seq<Region>, i: nat, wb: Option<Workbook>, currentSheet: string, dec: Decoder)
    requires i < |rs|
    ensures InitialGroups(BaseStrategy.Tables(rs[..i + 1], wb, currentSheet, dec)) ==
      InitialGroups(BaseStrategy.Tables(rs[..i], wb, currentSheet, dec)) +
      Singletons(Table(rs[i], BaseStrategy.RegionFields(rs[i], wb, currentSheet, dec)))
  {
    var ts := BaseStrategy.Tables(rs[..i + 1], wb, currentSheet, dec);
    assert ts[..i] == BaseStrategy.Tables(rs[..i], wb, currentSheet, dec);
  }

  /** The merge pass: every join key of every slave whose region exists, in declared order. */
  method MergeGroups(fieldGroups: seq<Group>, hc: HConfig, masterId: Option<string>, regions: seq<Region>)
    returns (groups: seq<Group>)
    ensures groups == ApplySlaves(fieldGroups, hc, masterId, regions, |hc.slaves|)
  {
    groups := fieldGroups;
    for i := 0 to |hc.slaves|
      invariant groups == ApplySlaves(fieldGroups, hc, masterId, regions, i)
    {
      var s := hc.slaves[i];
      var slaveReg := FindRegion(regions, s.regionId);
      if slaveReg.None? {
        continue;
      }
      ghost var before := groups;
      for j := 0 to |s.joinKeys|
        invariant groups == ApplyKeys(before, hc, masterId, slaveReg.value, s.joinKeys[..j])
      {
        assert s.joinKeys[..j + 1][..j] == s.joinKeys[..j];
        groups := MergeKey(groups, hc, masterId, slaveReg.value, s.joinKeys[j]);
      }
      assert s.joinKeys[..|s.joinKeys|] == s.joinKeys;
    }
  }

  /** One field per group, named after its best source. */
  method GroupConfigs(fieldGroups: seq<Group>, orderedRegions: seq<Region>) returns (configs: seq<FieldConfig>)
    requires NonEmptyGroups(fieldGroups)
    ensures |configs| == |fieldGroups|
    ensures forall j :: 0 <= j < |fieldGroups| ==> configs[j] == GroupField(fieldGroups[j], orderedRegions)
  {
    configs := [];
    for i := 0 to |fieldGroups|
      invariant |configs| == i
      invariant forall j :: 0 <= j < i ==> configs[j] == GroupField(fieldGroups[j], orderedRegions)
    {
      var group := fieldGroups[i];
      var bestSource := BestSource(group, orderedRegions);
      configs := configs + [FieldConfig(bestSource.displayName, bestSource.displayName, "", group, Absent, "none",
                                        false, V.AnyAttribute(group), None)];
    }
  }

  /** `computeFields(regions, workbookData, currentSheet)`. */
  method ComputeFieldsLoop(hc: HConfig, regions: seq<Region>, wb: Option<Workbook>, currentSheet: string, dec: Decoder)
    returns (fieldConfigs: seq<FieldConfig>)
    ensures fieldConfigs == ComputeFields(hc, regions, wb, currentSheet, dec)
  {
    var masterId := MasterId(hc, regions);
    var orderedRegions := OrderRegions(hc, regions);
    var fieldGroups := SingletonGroups(orderedRegions, wb, currentSheet, dec);
    ghost var ts := BaseStrategy.Tables(orderedRegions, wb, currentSheet, dec);
    fieldGroups := MergeGroups(fieldGroups, hc, masterId, regions);
    MergedSpec(hc, regions, ts);
    var configs := GroupConfigs(fieldGroups, orderedRegions);
    assert configs == GroupFields(hc, regions, ts);
    fieldConfigs := V.DedupConfigs(regions, configs);
  }

  // ---------------------------------------------------------------------------------------
  // SQL

  /** A table alias in the joined query: `m` for the master, `s<k>` for the k-th declared slave (from 1). */
  datatype TableAlias = M | S(k: nat)

  function AliasText(a: TableAlias): string {
    match a
    case M => "m"
    case S(k) => "s" + NatStr(k)
  }

  /** The rank the best-source scan gives an alias: 0 for the master, k for `s<k>`. */
  function Rank(a: TableAlias): nat {
    match a
    case M => 0
    case S(k) => k
  }

  /** A slave of the join chain: its declaration, its region and the number k of its alias `s<k>`. */
  datatype ChainSlave = ChainSlave(slave: Slave, region: Region, k: nat)

  /** `regionToAlias` after the first n declared slaves: later entries override earlier ones. */
  function AliasMap(hc: HConfig, regions: seq<Region>, master: Region, n: nat): map<string, TableAlias>
    requires n <= |hc.slaves|
  {
    if n == 0 then map[master.id := M]
    else
      var m := AliasMap(hc, regions, master, n - 1);
      var id := hc.slaves[n - 1].regionId;
      if FindRegion(regions, id).Some? then m[id := S(n)] else m
  }

  /** `orderedSlaves` after the first n declared slaves. */
  function ChainSlaves(hc: HConfig, regions: seq<Region>, n: nat): seq<ChainSlave>
    requires n <= |hc.slaves|
  {
    if n == 0 then []
    else
      var s := hc.slaves[n - 1];
      var r := FindRegion(regions, s.regionId);
      ChainSlaves(hc, regions, n - 1) + (if r.Some? then [ChainSlave(s, r.value, n)] else [])
  }

  /** A region has an alias exactly when it is the master or some declared slave whose region exists names it. */
  lemma {:induction false} AliasMapDomain(hc: HConfig, regions: seq<Region>, master: Region, n: nat, id: string)
    requires n <= |hc.slaves|
    ensures id in AliasMap(hc, regions, master, n) <==>
      id == master.id || (FindRegion(regions, id).Some? && exists l :: 0 <= l < n && hc.slaves[l].regionId == id)
  {
    if n > 0 {
      AliasMapDomain(hc, regions, master, n - 1, id);
    }
  }

  /** The alias `s<k>` belongs to the last declared slave k naming the region: later slaves override earlier ones. */
  lemma {:induction false} AliasMapSlave(hc: HConfig, regions: seq<Region>, master: Region, n: nat, id: string)
    requires n <= |hc.slaves|
    requires id in AliasMap(hc, regions, master, n) && AliasMap(hc, regions, master, n)[id].S?
    ensures var k := AliasMap(hc, regions, master, n)[id].k;
      1 <= k <= n && hc.slaves[k - 1].regionId == id && FindRegion(regions, id).Some? &&
      forall l :: k <= l < n ==> hc.slaves[l].regionId != id
  {
    if !(hc.slaves[n - 1].regionId == id && FindRegion(regions, id).Some?) {
      AliasMapSlave(hc, regions, master, n - 1, id);
    }
  }

  /** The master keeps the alias `m` only when no declared slave names its region. */
  lemma {:induction false} AliasMapMaster(hc: HConfig, regions: seq<Region>, master: Region, n: nat, id: string)
    requires n <= |hc.slaves|
    requires id in AliasMap(hc, regions, master, n) && AliasMap(hc, regions, master, n)[id].M?
    ensures id == master.id && (FindRegion(regions, id).None? || forall l :: 0 <= l < n ==> hc.slaves[l].regionId != id)
  {
    if n > 0 {
      AliasMapMaster(hc, regions, master, n - 1, id);
    }
  }

  /** Each slave of the chain is a declared slave whose region exists, with the number of its declaration. */
  ghost predicate ChainSound(hc: HConfig, regions: seq<Region>, n: nat, cs: seq<ChainSlave>) {
    forall j :: 0 <= j < |cs| ==>
      1 <= cs[j].k <= n && cs[j].k <= |hc.slaves| && cs[j].slave == hc.slaves[cs[j].k - 1] &&
      FindRegion(regions, cs[j].slave.regionId) == Some(cs[j].region)
  }

  /** The chain follows the declared order. */
  ghost predicate ChainIncreasing(cs: seq<ChainSlave>) {
    forall a, b :: 0 <= a < b < |cs| ==> cs[a].k < cs[b].k
  }

  /** Every declared slave among the first n whose region exists is in the chain. */
  ghost predicate ChainComplete(hc: HConfig, regions: seq<Region>, n: nat, cs: seq<ChainSlave>)
    requires n <= |hc.slaves|
  {
    forall l :: 0 <= l < n && FindRegion(regions, hc.slaves[l].regionId).Some? ==>
      exists j :: 0 <= j < |cs| && cs[j].k == l + 1
  }

  /** The chain lists every declared slave whose region exists, in declared order, with its alias number. */
  lemma ChainSlavesSpec(hc: HConfig, regions: seq<Region>, n: nat)
    requires n <= |hc.slaves|
    ensures ChainSound(hc, regions, n, ChainSlaves(hc, regions, n))
    ensures ChainIncreasing(ChainSlaves(hc, regions, n))
    ensures ChainComplete(hc, regions, n, ChainSlaves(hc, regions, n))
  {
    ChainSlavesSound(hc, regions, n);
    ChainSlavesIncreasing(hc, regions, n);
    ChainSlavesComplete(hc, regions, n);
  }

  lemma {:induction false} ChainSlavesSound(hc: HConfig, regions: seq<Region>, n: nat)
    requires n <= |hc.slaves|
    ensures ChainSound(hc, regions, n, ChainSlaves(hc, regions, n))
  {
    if n > 0 {
      ChainSlavesSound(hc, regions, n - 1);
      var prev := ChainSlaves(hc, regions, n - 1);
      var cs := ChainSlaves(hc, regions, n);
      forall j | 0 <= j < |cs|
        ensures 1 <= cs[j].k <= n && cs[j].k <= |hc.slaves| && cs[j].slave == hc.slaves[cs[j].k - 1]
        ensures FindRegion(regions, cs[j].slave.regionId) == Some(cs[j].region)
      {
        if j < |prev| {
          assert cs[j] == prev[j];
        }
      }
    }
  }

  lemma {:induction false} ChainSlavesIncreasing(hc: HConfig, regions: seq<Region>, n: nat)
    requires n <= |hc.slaves|
    ensures ChainIncreasing(ChainSlaves(hc, regions, n))
  {
    if n > 0 {
      ChainSlavesIncreasing(hc, regions, n - 1);
      ChainSlavesSound(hc, regions, n - 1);
      var prev := ChainSlaves(hc, regions, n - 1);
      var cs := ChainSlaves(hc, regions, n);
      forall a, b | 0 <= a < b < |cs|
        ensures cs[a].k < cs[b].k
      {
        assert cs[a] == prev[a];
        if b < |prev| {
          assert cs[b] == prev[b];
        } else {
          assert cs[b].k == n;
        }
      }
    }
  }

  lemma {:induction false} ChainSlavesComplete(hc: HConfig, regions: seq<Region>, n: nat)
    requires n <= |hc.slaves|
    ensures ChainComplete(hc, regions, n, ChainSlaves(hc, regions, n))
  {
    if n > 0 {
      ChainSlavesComplete(hc, regions, n - 1);
      var prev := ChainSlaves(hc, regions, n - 1);
      var cs := ChainSlaves(hc, regions, n);
      assert forall j :: 0 <= j < |prev| ==> cs[j] == prev[j];
      if FindRegion(regions, hc.slaves[n - 1].regionId).Some? {
        assert cs[|prev|].k == n;
      }
    }
  }

  /** The rank of a source's table, when the source's region has an alias. */
  function SourceRank(am: map<string, TableAlias>, src: FieldSource): Option<nat> {
    if src.regionId in am then Some(Rank(am[src.regionId])) else None
  }

  /**
   * The position of `bestSrc` after the scan of the sources in buildSql: among the sources with
   * an alias, the first of least rank; None when no source has one.
   */
  function SqlBest(am: map<string, TableAlias>, srcs: seq<FieldSource>): (b: Option<nat>)
    ensures b.Some? ==> b.value < |srcs| && SourceRank(am, srcs[b.value]).Some?
  {
    if srcs == [] then None
    else
      var n := |srcs| - 1;
      var b := SqlBest(am, srcs[..n]);
      var r := SourceRank(am, srcs[n]);
      if r.None? then b
      else if b.None? || r.value < SourceRank(am, srcs[b.value]).value then Some(n)
      else b
  }

  /** The best source has the least rank among the aliased sources, and every aliased source before it a greater one. */
  lemma {:induction false} SqlBestSpec(am: map<string, TableAlias>, srcs: seq<FieldSource>)
    ensures SqlBest(am, srcs).None? <==> forall l :: 0 <= l < |srcs| ==> srcs[l].regionId !in am
    ensures SqlBest(am, srcs).Some? ==>
      var j := SqlBest(am, srcs).value;
      (forall l :: 0 <= l < |srcs| && srcs[l].regionId in am ==>
        SourceRank(am, srcs[l]).value >= SourceRank(am, srcs[j]).value) &&
      (forall l :: 0 <= l < j && srcs[l].regionId in am ==>
        SourceRank(am, srcs[l]).value > SourceRank(am, srcs[j]).value)
  {
    if srcs != [] {
      var init := srcs[..|srcs| - 1];
      SqlBestSpec(am, init);
      assert forall l :: 0 <= l < |init| ==> srcs[l] == init[l];
    }
  }

  /** `bestSrc` in buildSql: starts at the first source; an aliased source of strictly smaller rank replaces it. */
  method SqlBestSource(am: map<string, TableAlias>, sources: seq<FieldSource>) returns (bestSrc: FieldSource)
    requires sources != []
    ensures SqlBest(am, sources).None? ==> bestSrc == sources[0]
    ensures SqlBest(am, sources).Some? ==> bestSrc == sources[SqlBest(am, sources).value]
  {
    bestSrc := sources[0];
    var minOrder: Option<nat> := None;  // None stands for Infinity
    for j := 0 to |sources|
      invariant var b := SqlBest(am, sources[..j]);
        (b.None? ==> minOrder.None? && bestSrc == sources[0]) &&
        (b.Some? ==> b.value < j && bestSrc == sources[b.value] && minOrder == SourceRank(am, sources[b.value]))
    {
      assert sources[..j + 1][..j] == sources[..j];
      var src := sources[j];
      if src.regionId in am {
        var order := Rank(am[src.regionId]);
        if minOrder.None? || order < minOrder.value {
          minOrder := Some(order);
          bestSrc := src;
        }
      }
    }
    assert sources[..|sources|] == sources;
  }

  /** The column a field reads: `<alias>."<fieldName>"` of its best source, or NULL. */
  function SelectExpr(am: map<string, TableAlias>, srcs: seq<FieldSource>): string {
    if srcs == [] then "NULL"
    else
      match SqlBest(am, srcs)
      case Some(j) => AliasText(am[srcs[j].regionId]) + "." + V.Quote(srcs[j].fieldName)
      case None => "NULL"
  }

  /** `${expr} AS "${config.physAlias}"`. */
  function SelectPart(custom: seq<TransformRegistry.CustomRule>, am: map<string, TableAlias>, c: FieldConfig): string {
    BaseStrategy.ApplyStrategiesToExpr(custom, SelectExpr(am, c.sources), c.strategies) + " AS " + V.Quote(c.physAlias)
  }

  /** A field reads NULL exactly when none of its sources belongs to a joined table. */
  lemma SelectNullIff(am: map<string, TableAlias>, srcs: seq<FieldSource>)
    ensures SelectExpr(am, srcs) == "NULL" <==> forall l :: 0 <= l < |srcs| ==> srcs[l].regionId !in am
  {
    SqlBestSpec(am, srcs);
    if SqlBest(am, srcs).Some? {
      var j := SqlBest(am, srcs).value;
      var a := AliasText(am[srcs[j].regionId]);
      assert a[0] == 'm' || a[0] == 's';
      assert SelectExpr(am, srcs)[0] == a[0];
    }
  }

  /** All sources of all fields, hidden ones included (`fieldConfigs.flatMap(c => c.sources)`). */
  function ConfigSources(cs: seq<FieldConfig>): seq<FieldSource> {
    if cs == [] then [] else ConfigSources(cs[..|cs| - 1]) + cs[|cs| - 1].sources
  }

  /** The first source of a region with a given display name. */
  function FindDisplay(srcs: seq<FieldSource>, id: string, name: string): Option<FieldSource> {
    if srcs == [] then None
    else if srcs[0].regionId == id && srcs[0].displayName == name then Some(srcs[0])
    else FindDisplay(srcs[1..], id, name)
  }

  /** The physical column of a join-key field: the field name of its source, or the key's text itself. */
  function PhysName(srcs: seq<FieldSource>, id: string, name: string): string {
    match FindDisplay(srcs, id, name)
    case Some(src) => src.fieldName
    case None => name
  }

  /** The physical column of a key field is the field name of the first source of that region with that display name. */
  lemma {:induction false} PhysNameFirst(srcs: seq<FieldSource>, id: string, name: string, j: nat)
    requires j < |srcs| && srcs[j].regionId == id && srcs[j].displayName == name
    requires forall l :: 0 <= l < j ==> !(srcs[l].regionId == id && srcs[l].displayName == name)
    ensures PhysName(srcs, id, name) == srcs[j].fieldName
  {
    if j > 0 {
      PhysNameFirst(srcs[1..], id, name, j - 1);
    }
  }

  /** Without such a source the key's text itself is the column. */
  lemma {:induction false} PhysNameFallback(srcs: seq<FieldSource>, id: string, name: string)
    requires forall l :: 0 <= l < |srcs| ==> !(srcs[l].regionId == id && srcs[l].displayName == name)
    ensures PhysName(srcs, id, name) == name
  {
    if srcs != [] {
      PhysNameFallback(srcs[1..], id, name);
    }
  }

  /** `<slave alias>."<slave column>" = <target alias>."<target column>"`. */
  function Cond(slaveAlias: TableAlias, slavePhys: string, targetAlias: TableAlias, targetPhys: string): string {
    AliasText(slaveAlias) + ("." + V.Quote(slavePhys) + " = " + AliasText(targetAlias) + "." + V.Quote(targetPhys))
  }

  /** A condition starts with the slave's alias. */
  lemma CondStart(k: nat, slavePhys: string, targetAlias: TableAlias, targetPhys: string)
    ensures |Cond(S(k), slavePhys, targetAlias, targetPhys)| > 0 && Cond(S(k), slavePhys, targetAlias, targetPhys)[0] == 's'
  {
    assert AliasText(S(k))[0] == 's';
  }

  /** A join key gives a condition when both fields are set and its target region has an alias. */
  predicate KeyResolves(hc: HConfig, masterId: Option<string>, am: map<string, TableAlias>, k: JoinKey) {
    k.slaveField != "" && k.targetField != "" &&
    var tid := KeyTarget(hc, masterId, k.target);
    tid.Some? && tid.value in am
  }

  /** The ON condition of one join key, or None when a field is empty or the target has no alias. */
  function OnCondition(hc: HConfig, masterId: Option<string>, am: map<string, TableAlias>, cs: seq<FieldConfig>,
                       s: ChainSlave, k: JoinKey): Option<string>
  {
    if !KeyResolves(hc, masterId, am, k) then None
    else
      var tid := KeyTarget(hc, masterId, k.target);
      var srcs := ConfigSources(cs);
      Some(Cond(S(s.k), PhysName(srcs, s.region.id, k.slaveField), am[tid.value], PhysName(srcs, tid.value, k.targetField)))
  }

  /** The conditions of the first n join keys of a slave, those that resolve. */
  function OnConditions(hc: HConfig, masterId: Option<string>, am: map<string, TableAlias>, cs: seq<FieldConfig>,
                        s: ChainSlave, n: nat): seq<string>
    requires n <= |s.slave.joinKeys|
  {
    if n == 0 then []
    else
      var c := OnCondition(hc, masterId, am, cs, s, s.slave.joinKeys[n - 1]);
      OnConditions(hc, masterId, am, cs, s, n - 1) + (if c.Some? then [c.value] else [])
  }

  /** `onConditions || '1=1'`. */
  function OnText(conds: seq<string>): string {
    if conds == [] then "1=1" else Join(conds, " AND ")
  }

  /** `(joinType || 'left').toUpperCase()`, FULL written as FULL OUTER JOIN. */
  function JoinKeyword(joinType: string): string {
    var t := Upper(if joinType == "" then "left" else joinType);
    if t == "FULL" then "FULL OUTER JOIN" else t + " JOIN"
  }

  /** ` <keyword> "<table>" s<k> ON <conditions>` for one slave of the chain. */
  function JoinClause(hc: HConfig, masterId: Option<string>, am: map<string, TableAlias>, cs: seq<FieldConfig>,
                      s: ChainSlave): string
  {
    var conds := OnConditions(hc, masterId, am, cs, s, |s.slave.joinKeys|);
    " " + JoinKeyword(s.slave.joinType) + " " + V.Quote(s.region.tableName) + " " + AliasText(S(s.k)) + " ON " + OnText(conds)
  }

  /** The join clauses of a chain, in order. */
  function JoinClauses(hc: HConfig, masterId: Option<string>, am: map<string, TableAlias>, cs: seq<FieldConfig>,
                       chain: seq<ChainSlave>): string
  {
    if chain == [] then ""
    else JoinClauses(hc, masterId, am, cs, chain[..|chain| - 1]) + JoinClause(hc, masterId, am, cs, chain[|chain| - 1])
  }

  /** `fromClause`: the master as `m`, then one join per chain slave. */
  function FromClause(hc: HConfig, masterId: Option<string>, am: map<string, TableAlias>, cs: seq<FieldConfig>,
                      master: Region, chain: seq<ChainSlave>): string
  {
    V.Quote(master.tableName) + " m" + JoinClauses(hc, masterId, am, cs, chain)
  }

  const MasterNotFound := "SELECT 'Error: Master table not found' AS error"

  /** The inner projection: one select part per visible field. */
  function SelectParts(custom: seq<TransformRegistry.CustomRule>, am: map<string, TableAlias>, vis: seq<FieldConfig>): string {
    Join(seq(|vis|, j requires 0 <= j < |vis| => SelectPart(custom, am, vis[j])), ", ")
  }

  /** `"<physAlias>", ...` for the visible fields. */
  function FinalFields(vis: seq<FieldConfig>): string {
    Join(seq(|vis|, j requires 0 <= j < |vis| => V.Quote(vis[j].physAlias)), ", ")
  }

  /** The outer query around the inner joined SELECT, ordered by the master's row index. */
  function Joined(finalFields: string, parts: string, from: string): string {
    "SELECT " + finalFields + " FROM (SELECT " + parts + ", m.\"_row_idx\" FROM " + from
      + ") AS t_union ORDER BY \"_row_idx\""
  }

  /** `buildSql(regions, fieldConfigs)`. */
  function BuildSql(custom: seq<TransformRegistry.CustomRule>, hc: HConfig, regions: seq<Region>,
                    cs: seq<FieldConfig>): string
  {
    match Master(hc, regions)
    case None => MasterNotFound
    case Some(master) =>
      var am := AliasMap(hc, regions, master, |hc.slaves|);
      var vis := V.Visible(cs);
      if vis == [] then V.NoVisibleFields
      else
        var from := FromClause(hc, MasterId(hc, regions), am, cs, master, ChainSlaves(hc, regions, |hc.slaves|));
        Joined(FinalFields(vis), SelectParts(custom, am, vis), from)
  }

  /** `fromClause`, built with `+=` over the chain. */
  method FromClauseLoop(hc: HConfig, masterId: Option<string>, am: map<string, TableAlias>, cs: seq<FieldConfig>,
                        master: Region, chain: seq<ChainSlave>) returns (fromClause: string)
    ensures fromClause == FromClause(hc, masterId, am, cs, master, chain)
  {
    fromClause := V.Quote(master.tableName) + " m";
    ghost var head := fromClause;
    for i := 0 to |chain|
      invariant fromClause == head + JoinClauses(hc, masterId, am, cs, chain[..i])
    {
      assert chain[..i + 1][..i] == chain[..i];
      ConcatAssoc(head, JoinClauses(hc, masterId, am, cs, chain[..i]), JoinClause(hc, masterId, am, cs, chain[i]));
      fromClause := fromClause + JoinClause(hc, masterId, am, cs, chain[i]);
    }
    assert chain[..|chain|] == chain;
  }

  /** The error queries: the master's region is missing, or no field is visible. */
  lemma MasterMissingIff(custom: seq<TransformRegistry.CustomRule>, hc: HConfig, regions: seq<Region>, cs: seq<FieldConfig>)
    ensures BuildSql(custom, hc, regions, cs) == MasterNotFound <==> Master(hc, regions).None?
  {
    if Master(hc, regions).Some? {
      if V.Visible(cs) == [] {
        ErrorTexts();
      } else {
        JoinedStartsQuoted(custom, hc, regions, cs);
        ErrorTexts();
      }
    }
  }

  /** With a master, the error query comes back exactly when every field is hidden. */
  lemma NoVisibleIff(custom: seq<TransformRegistry.CustomRule>, hc: HConfig, regions: seq<Region>, cs: seq<FieldConfig>)
    requires Master(hc, regions).Some?
    ensures BuildSql(custom, hc, regions, cs) == V.NoVisibleFields <==> forall j :: 0 <= j < |cs| ==> cs[j].hidden
  {
    V.VisibleEmptyIff(cs);
    if V.Visible(cs) != [] {
      JoinedStartsQuoted(custom, hc, regions, cs);
      ErrorTexts();
    }
  }

  /** Both error queries start `SELECT '` and differ from each other. */
  lemma ErrorTexts()
    ensures |MasterNotFound| > 7 && MasterNotFound[7] == '\''
    ensures |V.NoVisibleFields| > 7 && V.NoVisibleFields[7] == '\''
    ensures MasterNotFound != V.NoVisibleFields
  {
    assert MasterNotFound[8] != V.NoVisibleFields[8];
  }

  /** The field list of a non-empty projection starts with a quote. */
  lemma FinalFieldsQuoted(vis: seq<FieldConfig>)
    requires vis != []
    ensures |FinalFields(vis)| > 0 && FinalFields(vis)[0] == '"'
  {
    var quoted := seq(|vis|, j requires 0 <= j < |vis| => V.Quote(vis[j].physAlias));
    JoinStartsWith(quoted, ", ");
    assert FinalFields(vis)[0] == quoted[0][0];
  }

  lemma JoinedAt7(finalFields: string, parts: string, from: string)
    requires |finalFields| > 0 && finalFields[0] == '"'
    ensures |Joined(finalFields, parts, from)| > 7 && Joined(finalFields, parts, from)[7] == '"'
  {
    var rest := " FROM (SELECT " + parts + ", m.\"_row_idx\" FROM " + from + ") AS t_union ORDER BY \"_row_idx\"";
    assert Joined(finalFields, parts, from) == "SELECT " + (finalFields + rest);
  }

  /** With a master and a visible field, the query starts `SELECT "`, which neither error query does. */
  lemma JoinedStartsQuoted(custom: seq<TransformRegistry.CustomRule>, hc: HConfig, regions: seq<Region>, cs: seq<FieldConfig>)
    requires Master(hc, regions).Some? && V.Visible(cs) != []
    ensures |BuildSql(custom, hc, regions, cs)| > 7 && BuildSql(custom, hc, regions, cs)[7] == '"'
  {
    var vis := V.Visible(cs);
    var master := Master(hc, regions).value;
    var am := AliasMap(hc, regions, master, |hc.slaves|);
    var from := FromClause(hc, MasterId(hc, regions), am, cs, master, ChainSlaves(hc, regions, |hc.slaves|));
    FinalFieldsQuoted(vis);
    JoinedAt7(FinalFields(vis), SelectParts(custom, am, vis), from);
  }

  /**
   * With a master and a visible field, the query selects the visible fields from one inner
   * SELECT over the master `m` joined to the chain, and orders by the master's `"_row_idx"`.
   */
  lemma JoinShape(custom: seq<TransformRegistry.CustomRule>, hc: HConfig, regions: seq<Region>, cs: seq<FieldConfig>)
    requires Master(hc, regions).Some? && exists j :: 0 <= j < |cs| && !cs[j].hidden
    ensures var master := Master(hc, regions).value;
      var am := AliasMap(hc, regions, master, |hc.slaves|);
      var chain := ChainSlaves(hc, regions, |hc.slaves|);
      BuildSql(custom, hc, regions, cs) ==
        Joined(FinalFields(V.Visible(cs)), SelectParts(custom, am, V.Visible(cs)),
               V.Quote(master.tableName) + " m" + JoinClauses(hc, MasterId(hc, regions), am, cs, chain))
  {
    V.VisibleEmptyIff(cs);
  }

  /** Every condition is `s<k>."<column>" = <alias>."<column>"`, so it starts with the slave's alias. */
  predicate StartsAtSlave(c: string) {
    |c| > 0 && c[0] == 's'
  }

  lemma OnConditionStart(hc: HConfig, masterId: Option<string>, am: map<string, TableAlias>,
                         cs: seq<FieldConfig>, s: ChainSlave, k: JoinKey)
    requires OnCondition(hc, masterId, am, cs, s, k).Some?
    ensures StartsAtSlave(OnCondition(hc, masterId, am, cs, s, k).value)
  {
    var tid := KeyTarget(hc, masterId, k.target);
    var srcs := ConfigSources(cs);
    CondStart(s.k, PhysName(srcs, s.region.id, k.slaveField), am[tid.value], PhysName(srcs, tid.value, k.targetField));
  }

  lemma {:induction false} OnConditionsStart(hc: HConfig, masterId: Option<string>, am: map<string, TableAlias>,
                                             cs: seq<FieldConfig>, s: ChainSlave, n: nat)
    requires n <= |s.slave.joinKeys|
    ensures forall j :: 0 <= j < |OnConditions(hc, masterId, am, cs, s, n)| ==>
      StartsAtSlave(OnConditions(hc, masterId, am, cs, s, n)[j])
  {
    if n > 0 {
      OnConditionsStart(hc, masterId, am, cs, s, n - 1);
      var prev := OnConditions(hc, masterId, am, cs, s, n - 1);
      var k := s.slave.joinKeys[n - 1];
      var c := OnCondition(hc, masterId, am, cs, s, k);
      if c.Some? {
        OnConditionStart(hc, masterId, am, cs, s, k);
        var conds := OnConditions(hc, masterId, am, cs, s, n);
        assert conds == prev + [c.value];
        forall j | 0 <= j < |conds|
          ensures StartsAtSlave(conds[j])
        {
          if j < |prev| {
            assert conds[j] == prev[j];
          } else {
            assert conds[j] == c.value;
          }
        }
      } else {
        assert OnConditions(hc, masterId, am, cs, s, n) == prev;
      }
    }
  }

  lemma {:induction false} OnConditionsEmpty(hc: HConfig, masterId: Option<string>, am: map<string, TableAlias>,
                                             cs: seq<FieldConfig>, s: ChainSlave, n: nat)
    requires n <= |s.slave.joinKeys|
    ensures OnConditions(hc, masterId, am, cs, s, n) == [] <==>
      forall l :: 0 <= l < n ==> !KeyResolves(hc, masterId, am, s.slave.joinKeys[l])
  {
    if n > 0 {
      OnConditionsEmpty(hc, masterId, am, cs, s, n - 1);
      var prev := OnConditions(hc, masterId, am, cs, s, n - 1);
      if KeyResolves(hc, masterId, am, s.slave.joinKeys[n - 1]) {
        assert |OnConditions(hc, masterId, am, cs, s, n)| == |prev| + 1;
      } else {
        assert OnConditions(hc, masterId, am, cs, s, n) == prev;
      }
    }
  }

  /** A slave gets `ON 1=1` exactly when none of its join keys resolves. */
  lemma CrossJoinIff(hc: HConfig, masterId: Option<string>, am: map<string, TableAlias>, cs: seq<FieldConfig>, s: ChainSlave)
    ensures OnText(OnConditions(hc, masterId, am, cs, s, |s.slave.joinKeys|)) == "1=1" <==>
      forall l :: 0 <= l < |s.slave.joinKeys| ==> !KeyResolves(hc, masterId, am, s.slave.joinKeys[l])
  {
    var conds := OnConditions(hc, masterId, am, cs, s, |s.slave.joinKeys|);
    OnConditionsEmpty(hc, masterId, am, cs, s, |s.slave.joinKeys|);
    if conds != [] {
      OnConditionsStart(hc, masterId, am, cs, s, |s.slave.joinKeys|);
      JoinStartsWith(conds, " AND ");
      assert Join(conds, " AND ")[0] == conds[0][0] == 's';
    }
  }

  /**
   * A key naming any declared slave resolves when that slave's region has an alias, whatever the
   * slave's position, even the slave itself or a later one; a key naming no declared slave never does.
   */
  lemma AnySlaveResolves(hc: HConfig, masterId: Option<string>, am: map<string, TableAlias>, cs: seq<FieldConfig>,
                         s: ChainSlave, k: JoinKey)
    requires k.slaveField != "" && k.targetField != "" && k.target.SlaveAt?
    ensures OnCondition(hc, masterId, am, cs, s, k).Some? <==>
      0 <= k.target.index < |hc.slaves| && hc.slaves[k.target.index].regionId in am
  {
  }

  /** An unset join type joins LEFT; `full` in any letter case joins FULL OUTER. */
  lemma JoinKeywordDefaults()
    ensures JoinKeyword("") == "LEFT JOIN"
    ensures JoinKeyword("full") == "FULL OUTER JOIN" && JoinKeyword("Full") == "FULL OUTER JOIN"
  {
    var l := Upper("left");
    assert l[0] == 'L' && l[1] == 'E' && l[2] == 'F' && l[3] == 'T';
    assert l == "LEFT";
    var f := Upper("full");
    assert f[0] == 'F' && f[1] == 'U' && f[2] == 'L' && f[3] == 'L';
    assert f == "FULL";
    var g := Upper("Full");
    assert g[0] == 'F' && g[1] == 'U' && g[2] == 'L' && g[3] == 'L';
    assert g == "FULL";
  }

  /** Any other type is upper-cased and followed by JOIN. */
  lemma JoinKeywordInner()
    ensures JoinKeyword("inner") == "INNER JOIN"
  {
    var u := Upper("inner");
    assert u[0] == 'I' && u[1] == 'N' && u[2] == 'N' && u[3] == 'E' && u[4] == 'R';
    assert u == "INNER";
  }

  /** Every join keyword ends in ` JOIN`. */
  lemma JoinKeywordEndsJoin(joinType: string)
    ensures var kw := JoinKeyword(joinType); |kw| >= 5 && kw[|kw| - 5..] == " JOIN"
  {
  }
}
