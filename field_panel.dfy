/**
 * The field panel's list edits: refreshing the unified fields while carrying over what the user
 * customised, moving a field to another position, and toggling a cleaning rule or a validation
 * rule on one field.
 */
module FieldPanel {
  import opened Wrappers
  import opened Model
  import opened Lists
  import V = VerticalStrategy
  import H = HorizontalStrategy

  /** `sources[0]?.regionId`: None when the field has no source. */
  function FirstRegion(sources: seq<FieldSource>): Option<string> {
    if sources == [] then None else Some(sources[0].regionId)
  }

  /** The migration's match test: equal name and equal first source region. */
  predicate SameKey(a: FieldConfig, b: FieldConfig) {
    a.name == b.name && FirstRegion(a.sources) == FirstRegion(b.sources)
  }

  /** `existing.find(...)`: the first earlier configuration with the same key. */
  function FindMatch(existing: seq<FieldConfig>, c: FieldConfig): (r: Option<FieldConfig>)
    ensures r.Some? ==> r.value in existing && SameKey(r.value, c)
    ensures r.None? <==> forall k :: 0 <= k < |existing| ==> !SameKey(existing[k], c)
  {
    if existing == [] then None
    else if SameKey(existing[0], c) then Some(existing[0])
    else FindMatch(existing[1..], c)
  }

  /** The match found is the one at the first index with the key. */
  lemma {:induction false} FindMatchFirst(existing: seq<FieldConfig>, c: FieldConfig, k: nat)
    requires k < |existing| && SameKey(existing[k], c)
    requires forall j :: 0 <= j < k ==> !SameKey(existing[j], c)
    ensures FindMatch(existing, c) == Some(existing[k])
  {
    if k > 0 {
      FindMatchFirst(existing[1..], c, k - 1);
    }
  }

  /** Whether `strategies` is falsy: absent or the empty string. */
  predicate Falsy(s: Strategies) {
    s.Absent? || s == One("")
  }

  /** `strategies.length`. */
  function Length(s: Strategies): nat {
    match s
    case Absent => 0
    case One(id) => |id|
    case Many(ids) => |ids|
  }

  /**
   * The rule list carried over from a matched configuration: its own list (`[]` when falsy),
   * replaced by the one-element list of its legacy rule when that list is empty and the legacy
   * rule is set and not 'none'.
   */
  function CarriedStrategies(m: FieldConfig): (r: Strategies)
    ensures !Falsy(r)
    ensures !Falsy(m.strategies) && Length(m.strategies) > 0 ==> r == m.strategies
    ensures Falsy(m.strategies) || m.strategies == Many([]) ==>
      r == if m.strategy != "" && m.strategy != "none" then Many([m.strategy]) else Many([])
  {
    var s := if Falsy(m.strategies) then Many([]) else m.strategies;
    if Length(s) == 0 && m.strategy != "" && m.strategy != "none" then Many([m.strategy]) else s
  }

  /** One computed field after migration. */
  function Migrate(existing: seq<FieldConfig>, c: FieldConfig): FieldConfig {
    match FindMatch(existing, c)
    case Some(m) => c.(alias := m.alias, strategies := CarriedStrategies(m), hidden := m.hidden)
    case None => if Falsy(c.strategies) then c.(strategies := Many([])) else c
  }

  /** The migration `map` over the computed fields. */
  function MigrateAll(existing: seq<FieldConfig>, computed: seq<FieldConfig>): (r: seq<FieldConfig>)
    ensures |r| == |computed|
  {
    seq(|computed|, i requires 0 <= i < |computed| => Migrate(existing, computed[i]))
  }

  /**
   * A migrated field keeps the computed field's name, sources, physical alias, attribute flag,
   * legacy rule and validations, and never has a falsy rule list. When an earlier configuration
   * has its key, the alias, the hidden flag and the rule list are that configuration's; otherwise
   * they are the computed field's.
   */
  lemma MigrateSpec(existing: seq<FieldConfig>, c: FieldConfig)
    ensures var r := Migrate(existing, c);
      r.name == c.name && r.sources == c.sources && r.physAlias == c.physAlias &&
      r.isAttribute == c.isAttribute && r.strategy == c.strategy && r.validations == c.validations &&
      !Falsy(r.strategies) &&
      (FindMatch(existing, c).Some? ==>
         var m := FindMatch(existing, c).value;
         r.alias == m.alias && r.hidden == m.hidden && r.strategies == CarriedStrategies(m)) &&
      (FindMatch(existing, c).None? ==>
         r.alias == c.alias && r.hidden == c.hidden && (Falsy(c.strategies) || r.strategies == c.strategies))
  {
  }

  /** The computed fields of the chosen merge mode; `mergeStrategy` defaults to vertical by name. */
  function Computed(regions: seq<Region>, ms: Option<MergeStrategy>, wb: Option<Workbook>, currentSheet: string,
                    dec: Decoder): seq<FieldConfig>
  {
    var m := ms.GetOr(MergeStrategy("vertical", Some(VConfig("byName")), None));
    if m.kind == "horizontal" then
      H.ComputeFields(m.horizontalConfig.GetOr(HConfig("", [])), regions, wb, currentSheet, dec)
    else if m.kind == "vertical" then
      V.ComputeFields(regions, wb, currentSheet, dec, m.verticalConfig.GetOr(VConfig("")))
    else V.ComputeFields(regions, wb, currentSheet, dec, VConfig(""))
  }

  /**
   * `refreshFields()`: the new `fieldConfigs`. Without regions the panel only alerts and the
   * field list stays as it was; otherwise each computed field, in order, is migrated.
   */
  function Refresh(regions: seq<Region>, ms: Option<MergeStrategy>, wb: Option<Workbook>, currentSheet: string,
                   dec: Decoder, existing: seq<FieldConfig>): (r: seq<FieldConfig>)
    ensures regions == [] ==> r == existing
    ensures regions != [] ==> |r| == |Computed(regions, ms, wb, currentSheet, dec)|
  {
    if regions == [] then existing
    else MigrateAll(existing, Computed(regions, ms, wb, currentSheet, dec))
  }

  /** The computed fields have pairwise different keys. */
  predicate DistinctKeys(cs: seq<FieldConfig>) {
    forall i, j :: 0 <= i < j < |cs| ==> !SameKey(cs[i], cs[j])
  }

  /** In a list migrated against fields with distinct keys, field `i` is the first with its key. */
  lemma MigratedFirstMatch(existing: seq<FieldConfig>, computed: seq<FieldConfig>, i: nat)
    requires DistinctKeys(computed) && i < |computed|
    ensures FindMatch(MigrateAll(existing, computed), computed[i]) == Some(MigrateAll(existing, computed)[i])
  {
    var first := MigrateAll(existing, computed);
    forall j | 0 <= j <= i
      ensures first[j].name == computed[j].name && first[j].sources == computed[j].sources
    {
      MigrateSpec(existing, computed[j]);
    }
    FindMatchFirst(first, computed[i], i);
  }

  /**
   * Refreshing twice is refreshing once, when the computed fields have distinct keys and no
   * legacy rule, as the merge strategies produce them.
   */
  lemma MigrateTwice(existing: seq<FieldConfig>, computed: seq<FieldConfig>)
    requires DistinctKeys(computed)
    requires forall i :: 0 <= i < |computed| ==> computed[i].strategy == "none"
    ensures MigrateAll(MigrateAll(existing, computed), computed) == MigrateAll(existing, computed)
  {
    var first := MigrateAll(existing, computed);
    var second := MigrateAll(first, computed);
    forall i | 0 <= i < |computed|
      ensures second[i] == first[i]
    {
      MigratedFirstMatch(existing, computed, i);
      MigrateSpec(existing, computed[i]);
    }
  }

  /** `reorderFields(from, to)`: the field at `from` is moved to index `to`. */
  function Reorder<T>(list: seq<T>, from: nat, to: nat): (r: seq<T>)
    requires from < |list| && to < |list|
    ensures |r| == |list| && r[to] == list[from]
  {
    InsertAt(RemoveAt(list, from), to, list[from])
  }

  /** The other fields keep their relative order. */
  lemma ReorderKeepsOthers<T>(list: seq<T>, from: nat, to: nat)
    requires from < |list| && to < |list|
    ensures RemoveAt(Reorder(list, from, to), to) == RemoveAt(list, from)
  {
    RemoveInserted(RemoveAt(list, from), to, list[from]);
  }

  /** Moving a field back undoes the move. */
  lemma ReorderBack<T>(list: seq<T>, from: nat, to: nat)
    requires from < |list| && to < |list|
    ensures Reorder(Reorder(list, from, to), to, from) == list
  {
    var moved := Reorder(list, from, to);
    ReorderKeepsOthers(list, from, to);
    InsertRemoved(list, from);
  }

  /** A move is a permutation. */
  lemma ReorderPermutes<T>(list: seq<T>, from: nat, to: nat)
    requires from < |list| && to < |list|
    ensures multiset(Reorder(list, from, to)) == multiset(list)
  {
    var rest := RemoveAt(list, from);
    assert list == list[..from] + [list[from]] + list[from + 1..];
    assert multiset(list) == multiset(rest) + multiset{list[from]};
    assert InsertAt(rest, to, list[from]) == rest[..to] + [list[from]] + rest[to..];
    assert rest == rest[..to] + rest[to..];
  }

  /** `list.indexOf(x)`. */
  function IndexOf(list: seq<string>, x: string): (k: int)
    ensures -1 <= k < |list|
    ensures k == -1 <==> x !in list
    ensures k >= 0 ==> list[k] == x && forall j :: 0 <= j < k ==> list[j] != x
  {
    if list == [] then -1
    else if list[0] == x then 0
    else var k := IndexOf(list[1..], x); if k == -1 then -1 else k + 1
  }

  /** A click on a rule: its first occurrence is removed if present, otherwise it is appended. */
  function Toggle(list: seq<string>, x: string): seq<string> {
    var k := IndexOf(list, x);
    if k >= 0 then RemoveAt(list, k) else list + [x]
  }

  /** `x` occurs in `list` at most once. */
  predicate AtMostOnce(list: seq<string>, x: string) {
    forall i, j :: 0 <= i < j < |list| && list[i] == x ==> list[j] != x
  }

  /** With at most one occurrence, a click selects an unselected rule and deselects a selected one. */
  lemma ToggleFlips(list: seq<string>, x: string)
    requires AtMostOnce(list, x)
    ensures x in Toggle(list, x) <==> x !in list
    ensures AtMostOnce(Toggle(list, x), x)
  {
    var k := IndexOf(list, x);
    if k >= 0 {
      var r := Toggle(list, x);
      forall i | 0 <= i < |r|
        ensures r[i] != x
      {
        if i >= k {
          assert r[i] == list[i + 1];
        }
      }
    }
  }

  /** Clicking an unselected rule twice gives the list back. */
  lemma ToggleTwice(list: seq<string>, x: string)
    requires x !in list
    ensures Toggle(Toggle(list, x), x) == list
  {
    var once := list + [x];
    var k := IndexOf(once, x);
    assert once[|list|] == x;
    assert k == |list|;
    assert RemoveAt(once, k) == list;
  }

  /** Clicking a selected rule twice moves it to the end of the list. */
  lemma ToggleTwiceMovesLast(list: seq<string>, x: string)
    requires x in list && AtMostOnce(list, x)
    ensures Toggle(Toggle(list, x), x) == RemoveAt(list, IndexOf(list, x)) + [x]
  {
    ToggleFlips(list, x);
    ToggleTwice(Toggle(list, x), x);
  }

  /**
   * A click on a cleaning rule of one field. An absent or empty rule list starts as `[]`; a
   * legacy single-string list has no `splice`/`push`, so the click throws and nothing changes
   * (None).
   */
  function ToggleStrategy(c: FieldConfig, ruleId: string): (r: Option<FieldConfig>)
    ensures r.None? <==> c.strategies.One? && c.strategies.ruleId != ""
    ensures r.Some? ==> r.value == c.(strategies := r.value.strategies) && r.value.strategies.Many?
  {
    match c.strategies
    case Absent => Some(c.(strategies := Many(Toggle([], ruleId))))
    case One(id) => if id == "" then Some(c.(strategies := Many(Toggle([], ruleId)))) else None
    case Many(ids) => Some(c.(strategies := Many(Toggle(ids, ruleId))))
  }

  /** A click on a validation rule of one field; an absent list starts as `[]`. */
  function ToggleValidation(c: FieldConfig, valId: string): (r: FieldConfig)
    ensures r == c.(validations := r.validations) && r.validations.Some?
  {
    c.(validations := Some(Toggle(c.validations.GetOr([]), valId)))
  }

  /** Toggling a cleaning rule twice on a field that lacks it restores the field's rule list. */
  lemma ToggleStrategyTwice(c: FieldConfig, ruleId: string)
    requires c.strategies.Many? && ruleId !in c.strategies.ruleIds
    ensures ToggleStrategy(c, ruleId).Some?
    ensures ToggleStrategy(ToggleStrategy(c, ruleId).value, ruleId) == Some(c)
  {
    ToggleTwice(c.strategies.ruleIds, ruleId);
  }

  /** The field list after a click on field `idx`: only that field changes, and only its rule list. */
  function ClickRule(configs: seq<FieldConfig>, idx: nat, ruleId: string): (r: seq<FieldConfig>)
    requires idx < |configs|
    ensures |r| == |configs|
    ensures forall i :: 0 <= i < |r| && i != idx ==> r[i] == configs[i]
    ensures r[idx] == configs[idx].(strategies := r[idx].strategies)
  {
    match ToggleStrategy(configs[idx], ruleId)
    case None => configs
    case Some(c) => configs[idx := c]
  }
}
