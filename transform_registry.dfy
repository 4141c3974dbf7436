/**
 * The cleaning-rule registry: the built-in rules, user rules overriding them by id, the JS-side
 * application of a rule chain (fail-closed: on the first failure the original value comes back
 * with one warning) and the single-rule format check used by the preview.
 *
 * The date, decimal and thousands-separator rules depend on `Date`, `parseFloat` and
 * `Intl.NumberFormat`; they and user code are taken as an abstract `Env`.
 */
module TransformRegistry {
  import opened Wrappers
  import opened Text
  import opened Values

  datatype Engine = Sql | Js | Both

  /** What a rule's `transform` does to a cell value. */
  datatype Transform =
    | ToUpper | ToLower | TrimValue | RemoveThousands
    | Builtin        // date_format, precision, thousands: floating point, dates and locales
    | RunCode(code: string)
    | NoTransform

  /** What a rule's `validate` does. */
  datatype Check = NoCheck | AlwaysValid | BuiltinCheck

  /** `sqlWrap == Some("UPPER")` stands for `sqlExpr: col => "UPPER(" + col + ")"`. */
  datatype Rule = Rule(
    id: string,
    name: string,
    engine: Engine,
    sqlWrap: Option<string>,
    transform: Transform,
    validate: Check,
    isCustom: bool)

  /** A user rule as stored: id, display name and the body of a `(value, row)` function. */
  datatype CustomRule = CustomRule(id: string, name: string, code: string)

  /** A value or the message of a thrown error. */
  datatype Outcome<T> = Ok(value: T) | Throw(msg: string)

  type Row = map<string, Value>

  /**
   * What the model does not compute itself: the built-in float/date transforms and checks
   * (by rule id) and running a user rule's code.
   */
  datatype Env = Env(
    builtin: (string, Value) -> Outcome<Value>,
    builtinValid: (string, Value) -> bool,
    run: (string, Value, Row) -> Outcome<Value>)

  const BuiltinIds: seq<string> :=
    ["upper", "lower", "trim", "date_format", "precision", "thousands", "remove_thousands"]

  /** The seven built-in rules. */
  function BuiltinRules(): map<string, Rule> {
    map[
      "upper" := Rule("upper", "转为大写", Both, Some("UPPER"), ToUpper, NoCheck, false),
      "lower" := Rule("lower", "转为小写", Both, Some("LOWER"), ToLower, NoCheck, false),
      "trim" := Rule("trim", "去除前后空格", Both, Some("TRIM"), TrimValue, NoCheck, false),
      "date_format" := Rule("date_format", "日期格式化 (yyyy-MM-dd)", Js, None, Builtin, BuiltinCheck, false),
      "precision" := Rule("precision", "保留2位小数", Js, None, Builtin, BuiltinCheck, false),
      "thousands" := Rule("thousands", "添加千分符", Js, None, Builtin, BuiltinCheck, false),
      "remove_thousands" := Rule("remove_thousands", "去掉千分符", Js, None, RemoveThousands, AlwaysValid, false)
    ]
  }

  /** A stored user rule as the registry serves it: forced to the JS engine and marked custom. */
  function AsRule(c: CustomRule): Rule {
    Rule(c.id, c.name, Js, None, if c.code != "" then RunCode(c.code) else NoTransform, NoCheck, true)
  }

  /** `getAllRules()`: built-ins, then the user rules in order, a later entry replacing an earlier one. */
  function AllRules(custom: seq<CustomRule>): map<string, Rule> {
    if custom == [] then BuiltinRules()
    else
      var last := custom[|custom| - 1];
      AllRules(custom[..|custom| - 1])[last.id := AsRule(last)]
  }

  /** `getRule(id)`. */
  function GetRule(custom: seq<CustomRule>, id: string): Option<Rule> {
    var rules := AllRules(custom);
    if id in rules then Some(rules[id]) else None
  }

  /** The ids served are the built-in ids and the user rules' ids. */
  lemma {:induction false} AllRulesDomain(custom: seq<CustomRule>, id: string)
    ensures id in AllRules(custom) <==> id in BuiltinRules() || exists c :: c in custom && c.id == id
  {
    if custom != [] {
      var init := custom[..|custom| - 1];
      AllRulesDomain(init, id);
      assert forall c :: c in custom ==> c in init || c == custom[|custom| - 1];
      assert forall c :: c in init ==> c in custom;
    }
  }

  /** Without a user rule of that id, the built-in (or nothing) is served unchanged. */
  lemma {:induction false} BuiltinServed(custom: seq<CustomRule>, id: string)
    requires forall c :: c in custom ==> c.id != id
    ensures id in AllRules(custom) <==> id in BuiltinRules()
    ensures id in BuiltinRules() ==> AllRules(custom)[id] == BuiltinRules()[id]
  {
    if custom != [] {
      var init := custom[..|custom| - 1];
      assert forall c :: c in init ==> c in custom;
      BuiltinServed(init, id);
    }
  }

  /** The last user rule with a given id overrides the built-in and every earlier user rule. */
  lemma {:induction false} LastCustomWins(custom: seq<CustomRule>, k: nat)
    requires k < |custom|
    requires forall j :: k < j < |custom| ==> custom[j].id != custom[k].id
    ensures custom[k].id in AllRules(custom) && AllRules(custom)[custom[k].id] == AsRule(custom[k])
  {
    if k < |custom| - 1 {
      var init := custom[..|custom| - 1];
      assert init[k] == custom[k];
      LastCustomWins(init, k);
    }
  }

  /** Every rule served is a built-in or a user rule as rewritten by AsRule. */
  lemma {:induction false} RuleOrigin(custom: seq<CustomRule>, id: string)
    requires id in AllRules(custom)
    ensures AllRules(custom)[id].isCustom ==> exists c :: c in custom && AllRules(custom)[id] == AsRule(c)
    ensures !AllRules(custom)[id].isCustom ==> id in BuiltinRules() && AllRules(custom)[id] == BuiltinRules()[id]
  {
    if custom != [] {
      var init := custom[..|custom| - 1];
      var last := custom[|custom| - 1];
      if id != last.id {
        RuleOrigin(init, id);
        assert forall c :: c in init ==> c in custom;
      }
    }
  }

  /** The text rules, when no user rule overrides them, are served for both engines with their SQL function. */
  lemma TextRuleServed(custom: seq<CustomRule>, id: string)
    requires id in ["upper", "lower", "trim"] && forall c :: c in custom ==> c.id != id
    ensures GetRule(custom, id).Some? && GetRule(custom, id).value.engine == Both
    ensures GetRule(custom, id).value.sqlWrap ==
      Some(if id == "upper" then "UPPER" else if id == "lower" then "LOWER" else "TRIM")
  {
    BuiltinServed(custom, id);
  }

  /** A user rule always runs on the JS engine and has no format check. */
  lemma CustomIsJs(custom: seq<CustomRule>, id: string)
    requires GetRule(custom, id).Some? && GetRule(custom, id).value.isCustom
    ensures GetRule(custom, id).value.engine == Js && GetRule(custom, id).value.validate == NoCheck
  {
    RuleOrigin(custom, id);
  }

  // ---------------------------------------------------------------------------------------
  // Applying a chain in JS

  /** One rule's `transform` on the running value. */
  function Step(env: Env, r: Rule, v: Value, row: Row): Outcome<Value> {
    match r.transform
    case ToUpper => Ok(if v.Str? then Str(Upper(v.s)) else v)
    case ToLower => Ok(if v.Str? then Str(Lower(v.s)) else v)
    case TrimValue => Ok(if v.Str? then Str(Trim(v.s)) else v)
    case RemoveThousands => Ok(Str(RemoveCommas(ToStr(v))))
    case Builtin => env.builtin(r.id, v)
    case RunCode(code) => env.run(code, v, row)
    case NoTransform => Ok(v)
  }

  /** The running value after a chain, or the rule that threw and its message. */
  datatype ChainResult = Done(value: Value) | Failed(ruleName: string, msg: string)

  /** Whether the chain skips this id: an unknown rule or one that only runs in SQL. */
  predicate Skipped(custom: seq<CustomRule>, id: string) {
    GetRule(custom, id).None? || GetRule(custom, id).value.engine == Sql
  }

  /** The rules of `ids` applied left to right to `v`, stopping at the first throw. */
  function Chain(env: Env, custom: seq<CustomRule>, ids: seq<string>, v: Value, row: Row): ChainResult
  {
    if ids == [] then Done(v)
    else if Skipped(custom, ids[0]) then Chain(env, custom, ids[1..], v, row)
    else
      var r := GetRule(custom, ids[0]).value;
      match Step(env, r, v, row)
      case Ok(w) => Chain(env, custom, ids[1..], w, row)
      case Throw(msg) => Failed(r.name, msg)
  }

  /** `{value, warnings}`. */
  datatype Applied = Applied(value: Value, warnings: seq<string>)

  function FailureWarning(ruleName: string, msg: string): string {
    "规则 [" + ruleName + "] 应用失败: " + msg
  }

  /** What `applyJsTransforms(value, row, ids)` returns. */
  function ApplyJs(env: Env, custom: seq<CustomRule>, value: Value, row: Row, ids: seq<string>): (a: Applied)
    ensures |a.warnings| <= 1
    ensures a.warnings == [] <==> Chain(env, custom, ids, value, row).Done?
    ensures a.warnings != [] ==> a.value == value
    ensures Chain(env, custom, ids, value, row).Done? ==> a.value == Chain(env, custom, ids, value, row).value
    ensures Chain(env, custom, ids, value, row).Failed? ==>
      a.warnings == [FailureWarning(Chain(env, custom, ids, value, row).ruleName, Chain(env, custom, ids, value, row).msg)]
  {
    match Chain(env, custom, ids, value, row)
    case Done(w) => Applied(w, [])
    case Failed(name, msg) => Applied(value, [FailureWarning(name, msg)])
  }

  /** `applyJsTransforms`: the loop with its early return on the first error. */
  method ApplyJsTransforms(env: Env, custom: seq<CustomRule>, value: Value, row: Row, ids: seq<string>)
    returns (result: Value, warnings: seq<string>)
    ensures Applied(result, warnings) == ApplyJs(env, custom, value, row, ids)
  {
    warnings := [];
    result := value;
    for i := 0 to |ids|
      invariant Chain(env, custom, ids[i..], result, row) == Chain(env, custom, ids, value, row)
    {
      assert ids[i..][1..] == ids[i + 1..];
      var rule := GetRule(custom, ids[i]);
      if rule.None? || rule.value.engine == Sql {
        continue;
      }
      var outcome := Step(env, rule.value, result, row);
      if outcome.Throw? {
        warnings := warnings + [FailureWarning(rule.value.name, outcome.msg)];
        return value, warnings;
      }
      result := outcome.value;
    }
    assert ids[|ids|..] == [];
  }

  /** Chains compose: running `a + b` is running `b` on the result of `a`; a failure in `a` stops everything. */
  lemma {:induction false} ChainAppend(env: Env, custom: seq<CustomRule>, a: seq<string>, b: seq<string>, v: Value, row: Row)
    ensures Chain(env, custom, a + b, v, row) ==
      match Chain(env, custom, a, v, row)
      case Done(w) => Chain(env, custom, b, w, row)
      case Failed(n, m) => Failed(n, m)
  {
    if a != [] {
      assert (a + b)[1..] == a[1..] + b;
      if Skipped(custom, a[0]) {
        ChainAppend(env, custom, a[1..], b, v, row);
      } else {
        var r := GetRule(custom, a[0]).value;
        if Step(env, r, v, row).Ok? {
          ChainAppend(env, custom, a[1..], b, Step(env, r, v, row).value, row);
        }
      }
    } else {
      assert a + b == b;
    }
  }

  /** Unknown and SQL-only ids can be dropped from a chain without changing its result. */
  lemma {:induction false} SkippedIdsIrrelevant(env: Env, custom: seq<CustomRule>, a: seq<string>, id: string, b: seq<string>, v: Value, row: Row)
    requires Skipped(custom, id)
    ensures Chain(env, custom, a + [id] + b, v, row) == Chain(env, custom, a + b, v, row)
  {
    ChainAppend(env, custom, a, [id] + b, v, row);
    ChainAppend(env, custom, a, b, v, row);
    assert a + [id] + b == a + ([id] + b);
    assert ([id] + b)[1..] == b;
  }

  /** The case-changing and trimming rules leave values that are not strings unchanged. */
  lemma TextRulesKeepNonStrings(env: Env, custom: seq<CustomRule>, id: string, v: Value, row: Row)
    requires id in ["upper", "lower", "trim"] && forall c :: c in custom ==> c.id != id
    requires !v.Str?
    ensures Chain(env, custom, [id], v, row) == Done(v)
  {
    BuiltinServed(custom, id);
  }

  // ---------------------------------------------------------------------------------------
  // Format check

  function FormatWarning(ruleName: string): string {
    "数据格式不符合规则 [" + ruleName + "]"
  }

  /**
   * `validateValue(value, ruleId)`: exactly one warning, naming the rule, when the rule has a
   * built-in check that rejects the value; none for an unknown rule or a rule without a check.
   */
  function ValidateValue(env: Env, custom: seq<CustomRule>, value: Value, ruleId: string): (w: seq<string>)
    ensures |w| <= 1
    ensures GetRule(custom, ruleId).None? ==> w == []
    ensures w != [] ==> GetRule(custom, ruleId).Some? && w == [FormatWarning(GetRule(custom, ruleId).value.name)]
    ensures w != [] <==>
      GetRule(custom, ruleId).Some? && GetRule(custom, ruleId).value.validate == BuiltinCheck &&
      !env.builtinValid(GetRule(custom, ruleId).value.id, value)
  {
    match GetRule(custom, ruleId)
    case None => []
    case Some(r) =>
      var ok := match r.validate
        case NoCheck => true
        case AlwaysValid => true
        case BuiltinCheck => env.builtinValid(r.id, value);
      if ok then [] else [FormatWarning(r.name)]
  }

  /** A user rule has no format check, so it never warns here. */
  lemma CustomNeverWarns(env: Env, custom: seq<CustomRule>, value: Value, ruleId: string)
    requires GetRule(custom, ruleId).Some? && GetRule(custom, ruleId).value.isCustom
    ensures ValidateValue(env, custom, value, ruleId) == []
  {
    CustomIsJs(custom, ruleId);
  }

  /** The registry object: the built-ins are fixed, the user rules are replaced as a whole. */
  class Registry {
    var customRules: seq<CustomRule>

    constructor ()
      ensures customRules == []
    {
      customRules := [];
    }

    /** `setCustomRules(rules)`: a missing list counts as empty. */
    method SetCustomRules(rules: Option<seq<CustomRule>>)
      modifies this
      ensures customRules == rules.GetOr([])
    {
      customRules := rules.GetOr([]);
    }

    /** `getRule(id)` on the current user rules. */
    function Rule(id: string): Option<Rule>
      reads this
    {
      GetRule(customRules, id)
    }
  }
}
