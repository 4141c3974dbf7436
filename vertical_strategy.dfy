/**
 * Vertical merging: the field lists of several regions are stacked into one schema, either
 * column by column (by position) or by header name, the aliases are made unique, and the
 * regions are read back with one SELECT each, glued by UNION ALL.
 */
module VerticalStrategy {
  import opened Wrappers
  import opened Text
  import opened Model
  import opened Naming
  import BaseStrategy
  import TransformRegistry

  /** `vConfig.matchMode || 'byName'`. */
  function Mode(vc: VConfig): (mode: string)
    ensures mode != ""
    ensures vc.matchMode != "" ==> mode == vc.matchMode
  {
    if vc.matchMode == "" then "byName" else vc.matchMode
  }

  /** The source record for header `h` of a table. */
  function Src(t: Table, h: Header, attr: bool): FieldSource {
    FieldSource(t.region.id, t.region.name, h.id, h.displayName, attr)
  }

  // ---------------------------------------------------------------------------------------
  // By position

  /** `maxCols` after the pass over the header lists. */
  function MaxLen(ts: seq<Table>): nat {
    if ts == [] then 0
    else
      var m := MaxLen(ts[..|ts| - 1]);
      if |ts[|ts| - 1].headers| > m then |ts[|ts| - 1].headers| else m
  }

  /** `maxCols` is the largest header count of any region (0 without regions). */
  lemma {:induction false} MaxLenIsMax(ts: seq<Table>)
    ensures forall k :: 0 <= k < |ts| ==> |ts[k].headers| <= MaxLen(ts)
    ensures ts == [] ==> MaxLen(ts) == 0
    ensures ts != [] ==> exists k :: 0 <= k < |ts| && |ts[k].headers| == MaxLen(ts)
  {
    if ts != [] {
      var init := ts[..|ts| - 1];
      MaxLenIsMax(init);
      assert forall k :: 0 <= k < |init| ==> ts[k] == init[k];
    }
  }

  /** The sources of column `i`: one per region having an i-th header, in region order. */
  function PositionSources(ts: seq<Table>, i: nat): seq<FieldSource> {
    if ts == [] then []
    else
      var t := ts[|ts| - 1];
      PositionSources(ts[..|ts| - 1], i) + (if i < |t.headers| then [Src(t, t.headers[i], false)] else [])
  }

  /** The regions having an i-th header, as indices in increasing order. */
  function Holders(ts: seq<Table>, i: nat): seq<nat> {
    if ts == [] then []
    else Holders(ts[..|ts| - 1], i) + (if i < |ts[|ts| - 1].headers| then [|ts| - 1] else [])
  }

  /** Holders lists only regions with an i-th header. */
  lemma {:induction false} HoldersBound(ts: seq<Table>, i: nat)
    ensures forall j :: 0 <= j < |Holders(ts, i)| ==>
      Holders(ts, i)[j] < |ts| && i < |ts[Holders(ts, i)[j]].headers|
  {
    if ts != [] {
      var init := ts[..|ts| - 1];
      HoldersBound(init, i);
      assert forall k :: 0 <= k < |init| ==> ts[k] == init[k];
    }
  }

  /** Holders lists regions in increasing order, so each at most once. */
  lemma {:induction false} HoldersSorted(ts: seq<Table>, i: nat)
    ensures forall a, b :: 0 <= a < b < |Holders(ts, i)| ==> Holders(ts, i)[a] < Holders(ts, i)[b]
  {
    if ts != [] {
      var init := ts[..|ts| - 1];
      HoldersSorted(init, i);
      HoldersBound(init, i);
      var h0 := Holders(init, i);
      assert forall j :: 0 <= j < |h0| ==> h0[j] < |ts| - 1;
    }
  }

  /** Holders lists every region with an i-th header. */
  lemma {:induction false} HoldersComplete(ts: seq<Table>, i: nat)
    ensures forall k :: 0 <= k < |ts| && i < |ts[k].headers| ==> k in Holders(ts, i)
  {
    if ts != [] {
      var init := ts[..|ts| - 1];
      HoldersComplete(init, i);
      assert forall k :: 0 <= k < |init| ==> ts[k] == init[k];
    }
  }

  /** Holders lists exactly the regions with an i-th header, each once and in order. */
  lemma HoldersSpec(ts: seq<Table>, i: nat)
    ensures forall j :: 0 <= j < |Holders(ts, i)| ==>
      Holders(ts, i)[j] < |ts| && i < |ts[Holders(ts, i)[j]].headers|
    ensures forall a, b :: 0 <= a < b < |Holders(ts, i)| ==> Holders(ts, i)[a] < Holders(ts, i)[b]
    ensures forall k :: 0 <= k < |ts| && i < |ts[k].headers| ==> k in Holders(ts, i)
  {
    HoldersBound(ts, i);
    HoldersSorted(ts, i);
    HoldersComplete(ts, i);
  }

  /** The j-th source of column i comes from the j-th region that has an i-th header. */
  lemma {:induction false} PositionSourcesSpec(ts: seq<Table>, i: nat)
    ensures |PositionSources(ts, i)| == |Holders(ts, i)|
    ensures forall j :: 0 <= j < |Holders(ts, i)| ==>
      var k := Holders(ts, i)[j];
      k < |ts| && i < |ts[k].headers| && PositionSources(ts, i)[j] == Src(ts[k], ts[k].headers[i], false)
  {
    HoldersBound(ts, i);
    if ts != [] {
      var init, t := ts[..|ts| - 1], ts[|ts| - 1];
      PositionSourcesSpec(init, i);
      HoldersBound(init, i);
      var p0, h0 := PositionSources(init, i), Holders(init, i);
      if i < |t.headers| {
        assert PositionSources(ts, i) == p0 + [Src(t, t.headers[i], false)];
        assert Holders(ts, i) == h0 + [|ts| - 1];
      } else {
        assert PositionSources(ts, i) == p0 && Holders(ts, i) == h0;
      }
      forall j | 0 <= j < |h0|
        ensures PositionSources(ts, i)[j] == Src(ts[h0[j]], ts[h0[j]].headers[i], false)
      {
        assert ts[h0[j]] == init[h0[j]];
      }
    }
  }

  /** The first non-empty display name of a source list ("" when there is none). */
  function FirstName(srcs: seq<FieldSource>): string {
    if srcs == [] then ""
    else
      var p := FirstName(srcs[..|srcs| - 1]);
      if p != "" then p else srcs[|srcs| - 1].displayName
  }

  /** FirstName is empty exactly when every display name is, else it is the first non-empty one. */
  lemma {:induction false} FirstNameSpec(srcs: seq<FieldSource>)
    ensures FirstName(srcs) == "" <==> forall j :: 0 <= j < |srcs| ==> srcs[j].displayName == ""
    ensures FirstName(srcs) != "" ==>
      exists j :: 0 <= j < |srcs| && FirstName(srcs) == srcs[j].displayName &&
        (forall l :: 0 <= l < j ==> srcs[l].displayName == "")
  {
    if srcs != [] {
      var init := srcs[..|srcs| - 1];
      FirstNameSpec(init);
      assert forall l :: 0 <= l < |init| ==> srcs[l] == init[l];
    }
  }

  /** `Column_<i+1>`. */
  function ColumnName(i: nat): string {
    "Column_" + NatStr(i + 1)
  }

  /** The unified field for column i (before the alias pass). */
  function PositionField(ts: seq<Table>, i: nat): FieldConfig {
    var srcs := PositionSources(ts, i);
    var p := FirstName(srcs);
    var name := if p != "" then p else ColumnName(i);
    FieldConfig(name, name, "", srcs, Absent, "none", false, false, None)
  }

  /** The by-position schema: one field per column index up to the longest header list. */
  function ByPosition(ts: seq<Table>): seq<FieldConfig> {
    seq(MaxLen(ts), i requires 0 <= i < MaxLen(ts) => PositionField(ts, i))
  }

  /**
   * There are as many fields as the longest header list has entries, every field has at least
   * one source, and a field is named by its first non-empty display name or else `Column_<i+1>`.
   */
  lemma ByPositionShape(ts: seq<Table>, i: nat)
    requires i < |ByPosition(ts)|
    ensures |ByPosition(ts)| == MaxLen(ts)
    ensures ByPosition(ts)[i].sources == PositionSources(ts, i) != []
    ensures var f := ByPosition(ts)[i];
      f.alias == f.name &&
      (f.name == ColumnName(i) || exists j :: 0 <= j < |f.sources| && f.name == f.sources[j].displayName != "")
  {
    ColumnHasSource(ts, i);
    PositionFieldName(ts, i);
  }

  /** Every column index below the longest header list has a source. */
  lemma ColumnHasSource(ts: seq<Table>, i: nat)
    requires i < MaxLen(ts)
    ensures PositionSources(ts, i) != []
  {
    MaxLenIsMax(ts);
    var k :| 0 <= k < |ts| && |ts[k].headers| == MaxLen(ts);
    HoldersComplete(ts, i);
    PositionSourcesSpec(ts, i);
    assert k in Holders(ts, i);
  }

  lemma PositionFieldName(ts: seq<Table>, i: nat)
    ensures var f := PositionField(ts, i);
      f.name == ColumnName(i) || exists j :: 0 <= j < |f.sources| && f.name == f.sources[j].displayName != ""
  {
    FirstNameSpec(PositionSources(ts, i));
  }

  /** The inner pass over the regions for column i: collect sources and the first display name. */
  method PositionColumn(ts: seq<Table>, i: nat) returns (field: FieldConfig)
    ensures field == PositionField(ts, i)
  {
    var sources: seq<FieldSource> := [];
    var primary := "";
    for k := 0 to |ts|
      invariant sources == PositionSources(ts[..k], i)
      invariant primary == FirstName(sources)
    {
      assert ts[..k + 1][..k] == ts[..k];
      var t := ts[k];
      if i < |t.headers| {
        var h := t.headers[i];
        assert (sources + [Src(t, h, false)])[..|sources|] == sources;
        sources := sources + [Src(t, h, false)];
        if primary == "" {
          primary := h.displayName;
        }
      }
    }
    assert ts[..|ts|] == ts;
    var name := if primary != "" then primary else ColumnName(i);
    field := FieldConfig(name, name, "", sources, Absent, "none", false, false, None);
  }

  /** The by-position branch: the longest header list, then one field per column index. */
  method ByPositionLoop(ts: seq<Table>) returns (configs: seq<FieldConfig>)
    ensures configs == ByPosition(ts)
  {
    var maxCols: nat := 0;
    for k := 0 to |ts|
      invariant maxCols == MaxLen(ts[..k])
    {
      assert ts[..k + 1][..k] == ts[..k];
      if |ts[k].headers| > maxCols {
        maxCols := |ts[k].headers|;
      }
    }
    assert ts[..|ts|] == ts;
    configs := [];
    for i := 0 to maxCols
      invariant |configs| == i
      invariant forall j :: 0 <= j < i ==> configs[j] == PositionField(ts, j)
    {
      var field := PositionColumn(ts, i);
      configs := configs + [field];
    }
  }

  // ---------------------------------------------------------------------------------------
  // By name

  /** A field group under construction: a header name and the sources collected for it. */
  datatype Group = Group(name: string, sources: seq<FieldSource>)

  /** `g.sources.some(s => s.regionId === id)`. */
  predicate HasRegion(g: Group, id: string) {
    exists j :: 0 <= j < |g.sources| && g.sources[j].regionId == id
  }

  /** The group may take a header named `name` from region `id`. */
  predicate Fits(g: Group, name: string, id: string) {
    g.name == name && !HasRegion(g, id)
  }

  /** The index `fieldGroups.find(...)` stops at, or |gs| when no group fits. */
  function FindGroup(gs: seq<Group>, name: string, id: string): nat {
    if gs == [] then 0
    else if Fits(gs[0], name, id) then 0
    else 1 + FindGroup(gs[1..], name, id)
  }

  /** The group found is the first that fits. */
  lemma {:induction false} FindGroupSpec(gs: seq<Group>, name: string, id: string)
    ensures var k := FindGroup(gs, name, id);
      k <= |gs| && (k < |gs| ==> Fits(gs[k], name, id)) &&
      forall j :: 0 <= j < k ==> !Fits(gs[j], name, id)
  {
    if gs != [] && !Fits(gs[0], name, id) {
      FindGroupSpec(gs[1..], name, id);
    }
  }

  /**
   * One header: its source joins the first group of the same name that has no source from
   * this region yet, or else opens a new group at the end.
   */
  function AddHeader(gs: seq<Group>, t: Table, h: Header): seq<Group> {
    var s := Src(t, h, h.isAttribute);
    var k := FindGroup(gs, h.displayName, t.region.id);
    if k < |gs| then gs[k := Group(gs[k].name, gs[k].sources + [s])]
    else gs + [Group(h.displayName, [s])]
  }

  /** The headers `hs` of table `t`, one after the other. */
  function AddHeaders(gs: seq<Group>, t: Table, hs: seq<Header>): seq<Group> {
    if hs == [] then gs else AddHeader(AddHeaders(gs, t, hs[..|hs| - 1]), t, hs[|hs| - 1])
  }

  /** The groups after all regions, one after the other. */
  function Grouped(ts: seq<Table>): seq<Group> {
    if ts == [] then [] else AddHeaders(Grouped(ts[..|ts| - 1]), ts[|ts| - 1], ts[|ts| - 1].headers)
  }

  /** `group.sources.some(s => s.isAttribute)`. */
  predicate AnyAttribute(srcs: seq<FieldSource>) {
    exists j :: 0 <= j < |srcs| && srcs[j].isAttribute
  }

  function GroupConfig(g: Group): FieldConfig {
    FieldConfig(g.name, g.name, "", g.sources, Absent, "none", false, AnyAttribute(g.sources), None)
  }

  /** The by-name schema: one field per group, in the order the groups were opened. */
  function ByName(ts: seq<Table>): seq<FieldConfig> {
    var gs := Grouped(ts);
    seq(|gs|, j requires 0 <= j < |gs| => GroupConfig(gs[j]))
  }

  /** A well-formed group: not empty, one header name, and at most one source per region. */
  predicate GroupOk(g: Group) {
    && |g.sources| > 0
    && (forall j :: 0 <= j < |g.sources| ==> g.sources[j].displayName == g.name)
    && (forall a, b :: 0 <= a < b < |g.sources| ==> g.sources[a].regionId != g.sources[b].regionId)
  }

  predicate GroupsOk(gs: seq<Group>) {
    forall k :: 0 <= k < |gs| ==> GroupOk(gs[k])
  }

  /** Appending a same-named source from a region the group lacks keeps it well formed. */
  lemma AppendOk(g: Group, s: FieldSource)
    requires GroupOk(g) && Fits(g, s.displayName, s.regionId)
    ensures GroupOk(Group(g.name, g.sources + [s]))
  {
    var srcs := g.sources + [s];
    forall a, b | 0 <= a < b < |srcs|
      ensures srcs[a].regionId != srcs[b].regionId
    {
      if b == |g.sources| {
        assert srcs[a] == g.sources[a];
      }
    }
  }

  /** Adding a header keeps every group well formed. */
  lemma AddHeaderOk(gs: seq<Group>, t: Table, h: Header)
    requires GroupsOk(gs)
    ensures GroupsOk(AddHeader(gs, t, h))
  {
    var s := Src(t, h, h.isAttribute);
    var k := FindGroup(gs, h.displayName, t.region.id);
    FindGroupSpec(gs, h.displayName, t.region.id);
    if k < |gs| {
      AppendOk(gs[k], s);
    }
  }

  /** All sources of all groups, group by group. */
  function Flatten(gs: seq<Group>): seq<FieldSource> {
    if gs == [] then [] else Flatten(gs[..|gs| - 1]) + gs[|gs| - 1].sources
  }

  /** Appending a source to one group adds exactly that source to the flattened list. */
  lemma {:induction false} FlattenUpdate(gs: seq<Group>, k: nat, s: FieldSource)
    requires k < |gs|
    ensures multiset(Flatten(gs[k := Group(gs[k].name, gs[k].sources + [s])])) ==
      multiset(Flatten(gs)) + multiset{s}
  {
    var g' := Group(gs[k].name, gs[k].sources + [s]);
    var gs' := gs[k := g'];
    var init, last := gs[..|gs| - 1], gs[|gs| - 1];
    assert Flatten(gs) == Flatten(init) + last.sources;
    if k < |gs| - 1 {
      assert gs'[..|gs| - 1] == init[k := g'] && gs'[|gs| - 1] == last;
      FlattenUpdate(init, k, s);
      assert Flatten(gs') == Flatten(init[k := g']) + last.sources;
      assert multiset(Flatten(gs')) == multiset(Flatten(init[k := g'])) + multiset(last.sources);
    } else {
      assert gs'[..|gs| - 1] == init;
      assert Flatten(gs') == Flatten(init) + (last.sources + [s]);
      assert multiset(Flatten(gs')) == multiset(Flatten(init)) + multiset(last.sources) + multiset{s};
    }
  }

  /** Adding a header adds exactly its source to the flattened groups. */
  lemma AddHeaderSources(gs: seq<Group>, t: Table, h: Header)
    ensures multiset(Flatten(AddHeader(gs, t, h))) == multiset(Flatten(gs)) + multiset{Src(t, h, h.isAttribute)}
  {
    var s := Src(t, h, h.isAttribute);
    var k := FindGroup(gs, h.displayName, t.region.id);
    if k < |gs| {
      FlattenUpdate(gs, k, s);
    } else {
      assert (gs + [Group(h.displayName, [s])])[..|gs|] == gs;
    }
  }

  /** The sources of the headers `hs` of table `t`, in order. */
  function HeaderSources(t: Table, hs: seq<Header>): (srcs: seq<FieldSource>)
    ensures |srcs| == |hs|
  {
    if hs == [] then []
    else HeaderSources(t, hs[..|hs| - 1]) + [Src(t, hs[|hs| - 1], hs[|hs| - 1].isAttribute)]
  }

  /** The sources of all headers of all regions, region by region. */
  function AllSources(ts: seq<Table>): seq<FieldSource> {
    if ts == [] then [] else AllSources(ts[..|ts| - 1]) + HeaderSources(ts[|ts| - 1], ts[|ts| - 1].headers)
  }

  /** The number of headers over all regions. */
  function TotalHeaders(ts: seq<Table>): nat {
    if ts == [] then 0 else TotalHeaders(ts[..|ts| - 1]) + |ts[|ts| - 1].headers|
  }

  /** Adding a table's headers adds their sources and keeps the groups well formed. */
  lemma {:induction false} AddHeadersSpec(gs: seq<Group>, t: Table, hs: seq<Header>)
    requires GroupsOk(gs)
    ensures GroupsOk(AddHeaders(gs, t, hs))
    ensures multiset(Flatten(AddHeaders(gs, t, hs))) == multiset(Flatten(gs)) + multiset(HeaderSources(t, hs))
  {
    if hs != [] {
      var init, h := hs[..|hs| - 1], hs[|hs| - 1];
      var mid := AddHeaders(gs, t, init);
      AddHeadersSpec(gs, t, init);
      AddHeaderOk(mid, t, h);
      AddHeaderSources(mid, t, h);
    }
  }

  /**
   * Every header of every region lands in exactly one group (as multisets of sources), and
   * every group is non-empty, shares one name and holds at most one source per region.
   */
  lemma {:induction false} GroupedSpec(ts: seq<Table>)
    ensures GroupsOk(Grouped(ts))
    ensures multiset(Flatten(Grouped(ts))) == multiset(AllSources(ts))
  {
    if ts != [] {
      var init, t := ts[..|ts| - 1], ts[|ts| - 1];
      GroupedSpec(init);
      var g0 := Grouped(init);
      assert Grouped(ts) == AddHeaders(g0, t, t.headers);
      AddHeadersSpec(g0, t, t.headers);
      assert AllSources(ts) == AllSources(init) + HeaderSources(t, t.headers);
    }
  }

  /** Total sources over all groups equal total headers over all regions. */
  lemma GroupedCount(ts: seq<Table>)
    ensures |Flatten(Grouped(ts))| == TotalHeaders(ts)
  {
    GroupedSpec(ts);
    AllSourcesCount(ts);
    assert |multiset(Flatten(Grouped(ts)))| == |multiset(AllSources(ts))|;
  }

  lemma {:induction false} AllSourcesCount(ts: seq<Table>)
    ensures |AllSources(ts)| == TotalHeaders(ts)
  {
    if ts != [] {
      AllSourcesCount(ts[..|ts| - 1]);
    }
  }

  /** The by-name fields are the groups, each well formed, with `isAttribute` set when any source is one. */
  lemma ByNameSpec(ts: seq<Table>)
    ensures |ByName(ts)| == |Grouped(ts)|
    ensures forall j :: 0 <= j < |ByName(ts)| ==>
      var f := ByName(ts)[j];
      f.name == f.alias == Grouped(ts)[j].name && f.sources == Grouped(ts)[j].sources &&
      GroupOk(Group(f.name, f.sources)) && f.isAttribute == AnyAttribute(f.sources)
  {
    GroupedSpec(ts);
  }

  /** The inner pass over one region's headers, updating the groups in place. */
  method AddRegion(groups0: seq<Group>, t: Table) returns (groups: seq<Group>)
    ensures groups == AddHeaders(groups0, t, t.headers)
  {
    groups := groups0;
    for j := 0 to |t.headers|
      invariant groups == AddHeaders(groups0, t, t.headers[..j])
    {
      assert t.headers[..j + 1][..j] == t.headers[..j];
      var h := t.headers[j];
      var s := Src(t, h, h.isAttribute);
      var k := FindGroup(groups, h.displayName, t.region.id);
      if k < |groups| {
        groups := groups[k := Group(groups[k].name, groups[k].sources + [s])];
      } else {
        groups := groups + [Group(h.displayName, [s])];
      }
    }
    assert t.headers[..|t.headers|] == t.headers;
  }

  /** The by-name branch: group every header of every region, then one field per group. */
  method ByNameLoop(ts: seq<Table>) returns (configs: seq<FieldConfig>)
    ensures configs == ByName(ts)
  {
    var groups: seq<Group> := [];
    for k := 0 to |ts|
      invariant groups == Grouped(ts[..k])
    {
      assert ts[..k + 1][..k] == ts[..k];
      groups := AddRegion(groups, ts[k]);
    }
    assert ts[..|ts|] == ts;
    configs := [];
    for j := 0 to |groups|
      invariant |configs| == j
      invariant forall l :: 0 <= l < j ==> configs[l] == GroupConfig(groups[l])
    {
      configs := configs + [GroupConfig(groups[j])];
    }
  }

  // ---------------------------------------------------------------------------------------
  // Alias and physical alias de-duplication

  /** `config.alias || config.name`. */
  function AliasBase(c: FieldConfig): string {
    if c.alias != "" then c.alias else c.name
  }

  /**
   * `${tableName}#${colName}`: the table name (cut to 30 characters, "t" when the first
   * source's region is unknown or unnamed) and the first source's field name ("Col" without one).
   */
  function PhysBase(regions: seq<Region>, c: FieldConfig): string {
    var region := if c.sources == [] then None else FindRegion(regions, c.sources[0].regionId);
    var table := if region.Some? && region.value.tableName != "" then region.value.tableName else "t";
    var col := if c.sources != [] && c.sources[0].fieldName != "" then c.sources[0].fieldName else "Col";
    Prefix(table, 30) + "#" + col
  }

  function AliasBases(cs: seq<FieldConfig>): seq<string> {
    seq(|cs|, j requires 0 <= j < |cs| => AliasBase(cs[j]))
  }

  function PhysBases(regions: seq<Region>, cs: seq<FieldConfig>): seq<string> {
    seq(|cs|, j requires 0 <= j < |cs| => PhysBase(regions, cs[j]))
  }

  /** The fields after the alias pass: each gets the first free alias and physical alias of its bases. */
  function Dedup(regions: seq<Region>, cs: seq<FieldConfig>): seq<FieldConfig> {
    var aliases := DedupNames(AliasBases(cs));
    var phys := DedupNames(PhysBases(regions, cs));
    seq(|cs|, j requires 0 <= j < |cs| => cs[j].(alias := aliases[j], physAlias := phys[j]))
  }

  /**
   * The pass changes only `alias` and `physAlias`, and leaves both pairwise distinct; each is
   * a candidate of its base (the base itself or the base with a `_<n>` suffix).
   */
  lemma DedupSpec(regions: seq<Region>, cs: seq<FieldConfig>)
    ensures |Dedup(regions, cs)| == |cs|
    ensures forall j :: 0 <= j < |cs| ==>
      Dedup(regions, cs)[j].(alias := cs[j].alias, physAlias := cs[j].physAlias) == cs[j]
    ensures forall a, b :: 0 <= a < b < |cs| ==>
      Dedup(regions, cs)[a].alias != Dedup(regions, cs)[b].alias &&
      Dedup(regions, cs)[a].physAlias != Dedup(regions, cs)[b].physAlias
  {
    var ab, pb := AliasBases(cs), PhysBases(regions, cs);
    DedupNamesDistinct(ab);
    DedupNamesDistinct(pb);
  }

  /** Each alias and physical alias is its base, or its base with a `_<n>` suffix. */
  lemma DedupCandidates(regions: seq<Region>, cs: seq<FieldConfig>, j: nat)
    requires j < |cs|
    ensures exists n: nat :: Dedup(regions, cs)[j].alias == Candidate(AliasBase(cs[j]), n)
    ensures exists n: nat :: Dedup(regions, cs)[j].physAlias == Candidate(PhysBase(regions, cs[j]), n)
  {
    DedupFromCandidate(AliasBases(cs), {}, j);
    DedupFromCandidate(PhysBases(regions, cs), {}, j);
  }

  /** A field keeps its alias base exactly when no earlier field already took that alias. */
  lemma DedupKeepsFirst(regions: seq<Region>, cs: seq<FieldConfig>, j: nat)
    requires j < |cs|
    ensures Dedup(regions, cs)[j].alias == AliasBase(cs[j]) <==>
      forall l :: 0 <= l < j ==> Dedup(regions, cs)[l].alias != AliasBase(cs[j])
  {
    var ab := AliasBases(cs);
    var names := DedupNames(ab);
    DedupNamesKeeps(ab, j);
    assert forall l :: 0 <= l < j ==> names[..j][l] == names[l] == Dedup(regions, cs)[l].alias;
  }

  /**
   * The alias loop: two sets of used names, and for each field the first free alias and
   * physical alias, written into the field.
   */
  method DedupConfigs(regions: seq<Region>, configs: seq<FieldConfig>) returns (out: seq<FieldConfig>)
    ensures out == Dedup(regions, configs)
  {
    out := configs;
    var usedAliases: set<string> := {};
    var usedPhys: set<string> := {};
    ghost var ab, pb := AliasBases(configs), PhysBases(regions, configs);
    ghost var aliases: seq<string> := [];
    ghost var phys: seq<string> := [];
    for i := 0 to |configs|
      invariant |aliases| == i && Renamed(configs, out, aliases, phys)
      invariant aliases + DedupFrom(ab[i..], usedAliases) == DedupNames(ab)
      invariant phys + DedupFrom(pb[i..], usedPhys) == DedupNames(pb)
    {
      var config := out[i];
      assert config == configs[i];
      BasesAt(regions, configs, i);
      var finalAlias := PickFresh(AliasBase(config), usedAliases);
      DedupAdvance(aliases, ab, i, usedAliases, DedupNames(ab));
      usedAliases := usedAliases + {finalAlias};

      var finalPhys := PickFresh(PhysBase(regions, config), usedPhys);
      DedupAdvance(phys, pb, i, usedPhys, DedupNames(pb));
      usedPhys := usedPhys + {finalPhys};

      RenamedStep(configs, out, aliases, phys, finalAlias, finalPhys);
      out := out[i := config.(alias := finalAlias, physAlias := finalPhys)];
      aliases, phys := aliases + [finalAlias], phys + [finalPhys];
    }
    assert ab[|configs|..] == [] && pb[|configs|..] == [];
    RenamedDone(regions, configs, out);
  }

  lemma BasesAt(regions: seq<Region>, configs: seq<FieldConfig>, i: nat)
    requires i < |configs|
    ensures AliasBases(configs)[i] == AliasBase(configs[i])
    ensures PhysBases(regions, configs)[i] == PhysBase(regions, configs[i])
  {
  }

  /** The loop state: the first |aliases| fields carry their new names, the rest are untouched. */
  ghost predicate Renamed(configs: seq<FieldConfig>, out: seq<FieldConfig>, aliases: seq<string>, phys: seq<string>) {
    && |out| == |configs| && |phys| == |aliases| <= |configs|
    && (forall j :: 0 <= j < |aliases| ==> out[j] == configs[j].(alias := aliases[j], physAlias := phys[j]))
    && (forall j :: |aliases| <= j < |configs| ==> out[j] == configs[j])
  }

  lemma RenamedStep(configs: seq<FieldConfig>, out: seq<FieldConfig>, aliases: seq<string>, phys: seq<string>, a: string, p: string)
    requires Renamed(configs, out, aliases, phys) && |aliases| < |configs|
    ensures var i := |aliases|;
      Renamed(configs, out[i := out[i].(alias := a, physAlias := p)], aliases + [a], phys + [p])
  {
  }

  lemma RenamedDone(regions: seq<Region>, configs: seq<FieldConfig>, out: seq<FieldConfig>)
    requires Renamed(configs, out, DedupNames(AliasBases(configs)), DedupNames(PhysBases(regions, configs)))
    ensures out == Dedup(regions, configs)
  {
  }

  // ---------------------------------------------------------------------------------------
  // The unified schema

  /** `computeFields`: the schema of the chosen mode, then the alias pass. */
  function Fields(regions: seq<Region>, ts: seq<Table>, vc: VConfig): seq<FieldConfig> {
    Dedup(regions, if Mode(vc) == "byPosition" then ByPosition(ts) else ByName(ts))
  }

  /** The schema of some regions, read from a workbook. */
  function ComputeFields(regions: seq<Region>, wb: Option<Workbook>, currentSheet: string,
                         dec: Decoder, vc: VConfig): seq<FieldConfig>
  {
    Fields(regions, BaseStrategy.Tables(regions, wb, currentSheet, dec), vc)
  }

  /** `computeFields(regions, workbookData, currentSheet)`. */
  method ComputeFieldsLoop(regions: seq<Region>, wb: Option<Workbook>, currentSheet: string,
                           dec: Decoder, vc: VConfig) returns (fieldConfigs: seq<FieldConfig>)
    ensures fieldConfigs == ComputeFields(regions, wb, currentSheet, dec, vc)
  {
    var ts: seq<Table> := [];
    for k := 0 to |regions|
      invariant |ts| == k
      invariant forall j :: 0 <= j < k ==>
        ts[j] == Table(regions[j], BaseStrategy.RegionFields(regions[j], wb, currentSheet, dec))
    {
      var headers := BaseStrategy.GetRegionFields(regions[k], wb, currentSheet, dec);
      ts := ts + [Table(regions[k], headers)];
    }
    assert ts == BaseStrategy.Tables(regions, wb, currentSheet, dec);
    var configs;
    if Mode(vc) == "byPosition" {
      configs := ByPositionLoop(ts);
    } else {
      configs := ByNameLoop(ts);
    }
    fieldConfigs := DedupConfigs(regions, configs);
  }

  /** An unset match mode and any mode other than 'byPosition' group by name. */
  lemma DefaultIsByName(regions: seq<Region>, ts: seq<Table>, vc: VConfig)
    requires vc.matchMode != "byPosition"
    ensures Fields(regions, ts, vc) == Dedup(regions, ByName(ts))
  {
  }

  // ---------------------------------------------------------------------------------------
  // SQL

  /** `fieldConfigs.filter(c => !c.hidden)`. */
  function Visible(cs: seq<FieldConfig>): seq<FieldConfig> {
    if cs == [] then [] else (if cs[0].hidden then [] else [cs[0]]) + Visible(cs[1..])
  }

  /** The visible fields are exactly the fields that are not hidden. */
  lemma {:induction false} VisibleSpec(cs: seq<FieldConfig>)
    ensures forall c :: c in Visible(cs) <==> c in cs && !c.hidden
  {
    if cs != [] {
      VisibleSpec(cs[1..]);
      assert forall c :: c in cs <==> c == cs[0] || c in cs[1..];
    }
  }

  /** Inserting a hidden field anywhere leaves the visible list as it was. */
  lemma {:induction false} VisibleSkipsHidden(a: seq<FieldConfig>, c: FieldConfig, b: seq<FieldConfig>)
    requires c.hidden
    ensures Visible(a + [c] + b) == Visible(a + b)
  {
    var x, y := a + [c] + b, a + b;
    if a == [] {
      assert x == [c] + b && y == b;
      assert x[1..] == b;
      assert Visible(x) == [] + Visible(b);
    } else {
      VisibleSkipsHidden(a[1..], c, b);
      assert x[0] == y[0] == a[0];
      assert x[1..] == a[1..] + [c] + b;
      assert y[1..] == a[1..] + b;
      var head := if a[0].hidden then [] else [a[0]];
      assert Visible(x) == head + Visible(a[1..] + [c] + b);
      assert Visible(y) == head + Visible(a[1..] + b);
    }
  }

  /** `(config.sources || []).find(src => src.regionId === id)`. */
  function FindSource(srcs: seq<FieldSource>, id: string): (r: Option<FieldSource>)
    ensures r.Some? ==> r.value in srcs && r.value.regionId == id
    ensures r.None? <==> forall j :: 0 <= j < |srcs| ==> srcs[j].regionId != id
  {
    if srcs == [] then None
    else if srcs[0].regionId == id then Some(srcs[0])
    else FindSource(srcs[1..], id)
  }

  function Quote(s: string): string {
    "\"" + s + "\""
  }

  /** `${expr} AS "${config.physAlias}"` for one field in the SELECT of region r. */
  function SelectPart(custom: seq<TransformRegistry.CustomRule>, r: Region, c: FieldConfig): string {
    var src := FindSource(c.sources, r.id);
    var expr := if src.Some? then Quote(src.value.fieldName) else "NULL";
    BaseStrategy.ApplyStrategiesToExpr(custom, expr, c.strategies) + " AS " + Quote(c.physAlias)
  }

  /** The SELECT reading region r, the `rIdx`-th region, into the unified columns. */
  function RegionSelect(custom: seq<TransformRegistry.CustomRule>, r: Region, rIdx: nat, vis: seq<FieldConfig>): string {
    var parts := seq(|vis|, j requires 0 <= j < |vis| => SelectPart(custom, r, vis[j]));
    "SELECT " + Join(parts, ", ") + ", " + NatStr(rIdx) + " AS _reg_idx, \"_row_idx\" FROM " + Quote(r.tableName)
  }

  /** One SELECT per region, in region order. */
  function RegionSelects(custom: seq<TransformRegistry.CustomRule>, regions: seq<Region>, vis: seq<FieldConfig>): seq<string> {
    seq(|regions|, i requires 0 <= i < |regions| => RegionSelect(custom, regions[i], i, vis))
  }

  const NoVisibleFields := "SELECT 'No visible fields' AS error"

  /** `buildSql(regions, fieldConfigs)`. */
  function BuildSql(custom: seq<TransformRegistry.CustomRule>, regions: seq<Region>, cs: seq<FieldConfig>): string {
    var vis := Visible(cs);
    if vis == [] then NoVisibleFields
    else
      var finalFields := Join(seq(|vis|, j requires 0 <= j < |vis| => Quote(vis[j].physAlias)), ", ");
      "SELECT " + finalFields + " FROM (" + Join(RegionSelects(custom, regions, vis), " UNION ALL ")
        + ") AS t_union ORDER BY _reg_idx, \"_row_idx\""
  }

  /** No field is visible exactly when every field is hidden. */
  lemma VisibleEmptyIff(cs: seq<FieldConfig>)
    ensures Visible(cs) == [] <==> forall j :: 0 <= j < |cs| ==> cs[j].hidden
  {
    VisibleSpec(cs);
    if Visible(cs) != [] {
      assert Visible(cs)[0] in cs;
    } else {
      forall j | 0 <= j < |cs| ensures cs[j].hidden {
        assert cs[j] in cs;
      }
    }
  }

  /** With a visible field the query starts `SELECT "`, which the error query does not. */
  lemma ProjectionStartsQuoted(custom: seq<TransformRegistry.CustomRule>, regions: seq<Region>, cs: seq<FieldConfig>)
    requires Visible(cs) != []
    ensures |BuildSql(custom, regions, cs)| > 7 && BuildSql(custom, regions, cs)[7] == '"'
  {
    var vis := Visible(cs);
    var quoted := seq(|vis|, j requires 0 <= j < |vis| => Quote(vis[j].physAlias));
    JoinStartsWith(quoted, ", ");
    var rest := " FROM (" + Join(RegionSelects(custom, regions, vis), " UNION ALL ")
      + ") AS t_union ORDER BY _reg_idx, \"_row_idx\"";
    var fields := Join(quoted, ", ");
    assert BuildSql(custom, regions, cs) == "SELECT " + fields + rest;
    assert fields[0] == quoted[0][0] == '"';
  }

  /** The error query comes back exactly when every field is hidden (or there are none). */
  lemma NoVisibleIff(custom: seq<TransformRegistry.CustomRule>, regions: seq<Region>, cs: seq<FieldConfig>)
    ensures BuildSql(custom, regions, cs) == NoVisibleFields <==> forall j :: 0 <= j < |cs| ==> cs[j].hidden
  {
    VisibleEmptyIff(cs);
    if Visible(cs) != [] {
      ProjectionIsNotError(custom, regions, cs);
    }
  }

  lemma ProjectionIsNotError(custom: seq<TransformRegistry.CustomRule>, regions: seq<Region>, cs: seq<FieldConfig>)
    requires Visible(cs) != []
    ensures BuildSql(custom, regions, cs) != NoVisibleFields
  {
    ProjectionStartsQuoted(custom, regions, cs);
    assert NoVisibleFields[7] == '\'';
  }

  /** Hidden fields are never projected: adding one anywhere leaves the query unchanged. */
  lemma HiddenNeverProjected(custom: seq<TransformRegistry.CustomRule>, regions: seq<Region>,
                             a: seq<FieldConfig>, c: FieldConfig, b: seq<FieldConfig>)
    requires c.hidden
    ensures BuildSql(custom, regions, a + [c] + b) == BuildSql(custom, regions, a + b)
  {
    VisibleSkipsHidden(a, c, b);
  }

  /** A region without a source for a field selects NULL, whatever rules the field carries. */
  lemma NullWhereNoSource(custom: seq<TransformRegistry.CustomRule>, r: Region, c: FieldConfig)
    requires forall j :: 0 <= j < |c.sources| ==> c.sources[j].regionId != r.id
    ensures SelectPart(custom, r, c) == "NULL AS " + Quote(c.physAlias)
  {
  }

  /** A region with a source for a field and no rules selects the source's quoted column. */
  lemma ColumnWhereSource(custom: seq<TransformRegistry.CustomRule>, r: Region, c: FieldConfig, j: nat)
    requires j < |c.sources| && c.sources[j].regionId == r.id
    requires forall l :: 0 <= l < j ==> c.sources[l].regionId != r.id
    requires c.strategies.Absent?
    ensures SelectPart(custom, r, c) == Quote(c.sources[j].fieldName) + " AS " + Quote(c.physAlias)
  {
    FindSourceFirst(c.sources, r.id, j);
  }

  lemma {:induction false} FindSourceFirst(srcs: seq<FieldSource>, id: string, j: nat)
    requires j < |srcs| && srcs[j].regionId == id
    requires forall l :: 0 <= l < j ==> srcs[l].regionId != id
    ensures FindSource(srcs, id) == Some(srcs[j])
  {
    if j > 0 {
      FindSourceFirst(srcs[1..], id, j - 1);
    }
  }

  /**
   * With a visible field, the query reads one SELECT per region, the i-th tagged with `_reg_idx`
   * i, united by UNION ALL and ordered by region and row.
   */
  lemma UnionShape(custom: seq<TransformRegistry.CustomRule>, regions: seq<Region>, cs: seq<FieldConfig>)
    requires exists j :: 0 <= j < |cs| && !cs[j].hidden
    ensures var selects := RegionSelects(custom, regions, Visible(cs));
      |selects| == |regions| &&
      (forall i :: 0 <= i < |regions| ==> selects[i] == RegionSelect(custom, regions[i], i, Visible(cs))) &&
      exists fields :: BuildSql(custom, regions, cs) ==
        "SELECT " + fields + " FROM (" + Join(selects, " UNION ALL ") + ") AS t_union ORDER BY _reg_idx, \"_row_idx\""
  {
    VisibleSpec(cs);
    var j :| 0 <= j < |cs| && !cs[j].hidden;
    assert cs[j] in Visible(cs);
  }
}
