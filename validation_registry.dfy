/**
 * The validation-rule registry: two built-in comparison rules, user rules overriding them by
 * id, and the dispatch of one check. A check yields an error message or nothing; a rule that
 * throws yields a message naming it, so a check never fails outright.
 *
 * The built-in handlers compare floating-point sums and averages, and user rules run their own
 * code; both are taken as parts of an abstract `Env`.
 */
module ValidationRegistry {
  import opened Wrappers
  import opened Values
  import TransformRegistry

  type Row = TransformRegistry.Row

  /** The built-in comparisons. */
  datatype BuiltinOp = SumEquals | AvgEquals

  /**
   * `rule.config`: the built-in comparison to use, the fields it adds up and the tolerance it
   * compares with (None when unset; the handlers read `tolerance || 0.001` themselves).
   */
  datatype RuleConfig = RuleConfig(operator: string, sourceFields: seq<string>, tolerance: Option<real>)

  /**
   * A validation rule: `kind` is its `type` ('script', 'config' or anything else), `code` is ""
   * when it has none, `builtin` is the handler of a built-in rule.
   */
  datatype VRule = VRule(
    id: string,
    name: string,
    kind: string,
    code: string,
    builtin: Option<BuiltinOp>,
    config: Option<RuleConfig>)

  /** What running a rule's code returned. */
  datatype ScriptResult = ReturnedFalse | ReturnedString(s: string) | ReturnedOther

  /**
   * What the model does not compute itself: the floating-point comparison of a built-in
   * handler, running a user rule's code, and the message of the error thrown when a config
   * rule has no `config`.
   */
  datatype Env = Env(
    compare: (BuiltinOp, Value, Row, RuleConfig) -> TransformRegistry.Outcome<Option<string>>,
    run: (string, Value, Row) -> TransformRegistry.Outcome<ScriptResult>,
    missingConfigMessage: string)

  /** `config || {}`. */
  const EmptyConfig := RuleConfig("", [], None)

  /** The two built-in rules. */
  function BuiltinRules(): map<string, VRule> {
    map[
      "sum_equals" := VRule("sum_equals", "分项之和校验", "config", "", Some(SumEquals), None),
      "avg_equals" := VRule("avg_equals", "平均值校验", "config", "", Some(AvgEquals), None)
    ]
  }

  /** `getAllRules()`: built-ins, then the user rules in order, a later entry replacing an earlier one. */
  function AllRules(custom: seq<VRule>): map<string, VRule> {
    if custom == [] then BuiltinRules()
    else
      var last := custom[|custom| - 1];
      AllRules(custom[..|custom| - 1])[last.id := last]
  }

  /** `getRule(id)`. */
  function GetRule(custom: seq<VRule>, id: string): Option<VRule> {
    var rules := AllRules(custom);
    if id in rules then Some(rules[id]) else None
  }

  /** The ids served are the built-in ids and the user rules' ids. */
  lemma {:induction false} AllRulesDomain(custom: seq<VRule>, id: string)
    ensures id in AllRules(custom) <==> id in BuiltinRules() || exists r :: r in custom && r.id == id
  {
    if custom != [] {
      var init := custom[..|custom| - 1];
      AllRulesDomain(init, id);
      assert forall r :: r in custom ==> r in init || r == custom[|custom| - 1];
      assert forall r :: r in init ==> r in custom;
    }
  }

  /** The last user rule with a given id overrides the built-in and every earlier user rule. */
  lemma {:induction false} LastCustomWins(custom: seq<VRule>, k: nat)
    requires k < |custom|
    requires forall j :: k < j < |custom| ==> custom[j].id != custom[k].id
    ensures GetRule(custom, custom[k].id) == Some(custom[k])
  {
    if k < |custom| - 1 {
      var init := custom[..|custom| - 1];
      assert init[k] == custom[k];
      LastCustomWins(init, k);
    }
  }

  /** Without a user rule of that id, the built-in (or nothing) is served unchanged. */
  lemma {:induction false} BuiltinServed(custom: seq<VRule>, id: string)
    requires forall r :: r in custom ==> r.id != id
    ensures GetRule(custom, id) == if id in BuiltinRules() then Some(BuiltinRules()[id]) else None
  {
    if custom != [] {
      var init := custom[..|custom| - 1];
      assert forall r :: r in init ==> r in custom;
      BuiltinServed(init, id);
    }
  }

  /** A built-in handler: the average check passes outright when it has no fields to average. */
  function Handle(env: Env, op: BuiltinOp, value: Value, row: Row, config: RuleConfig): TransformRegistry.Outcome<Option<string>> {
    if op == AvgEquals && config.sourceFields == [] then TransformRegistry.Ok(None)
    else env.compare(op, value, row, config)
  }

  /** `校验失败: <name>`, the message of a script that returned false. */
  function FailedMessage(name: string): string {
    "校验失败: " + name
  }

  /** `校验执行出错 [<name>]: <message>`, the message of a rule that threw. */
  function ErrorMessage(name: string, msg: string): string {
    "校验执行出错 [" + name + "]: " + msg
  }

  /** Whether a rule runs as a script: its type says so or it carries code. */
  predicate IsScript(rule: VRule) {
    rule.kind == "script" || rule.code != ""
  }

  /** The body of the `try`: script, built-in handler, or a config rule delegating to a built-in. */
  function Dispatch(env: Env, rule: VRule, value: Value, row: Row): TransformRegistry.Outcome<Option<string>> {
    if IsScript(rule) then
      match env.run(rule.code, value, row)
      case Throw(msg) => TransformRegistry.Throw(msg)
      case Ok(ReturnedFalse) => TransformRegistry.Ok(Some(FailedMessage(rule.name)))
      case Ok(ReturnedString(s)) => TransformRegistry.Ok(Some(s))
      case Ok(ReturnedOther) => TransformRegistry.Ok(None)
    else if rule.builtin.Some? then
      Handle(env, rule.builtin.value, value, row, rule.config.GetOr(EmptyConfig))
    else if rule.kind == "config" then
      match rule.config
      case None => TransformRegistry.Throw(env.missingConfigMessage)
      case Some(c) =>
        var base := BuiltinRules();
        if c.operator in base && base[c.operator].builtin.Some? then
          Handle(env, base[c.operator].builtin.value, value, row, c)
        else TransformRegistry.Ok(None)
    else TransformRegistry.Ok(None)
  }

  /** `validate(value, row, ruleId)`: an error message, or None when the value passes. */
  function Validate(env: Env, custom: seq<VRule>, value: Value, row: Row, ruleId: string): Option<string> {
    match GetRule(custom, ruleId)
    case None => None
    case Some(rule) =>
      match Dispatch(env, rule, value, row)
      case Ok(r) => r
      case Throw(msg) => Some(ErrorMessage(rule.name, msg))
  }

  /** An id no rule has passes every value. */
  lemma UnknownRulePasses(env: Env, custom: seq<VRule>, value: Value, row: Row, ruleId: string)
    requires ruleId !in BuiltinRules() && forall r :: r in custom ==> r.id != ruleId
    ensures Validate(env, custom, value, row, ruleId) == None
  {
    BuiltinServed(custom, ruleId);
  }

  /**
   * A script rule: returning false fails with the rule's name, returning a string fails with
   * that string, returning anything else passes, and throwing fails with the error message.
   */
  lemma ScriptOutcomes(env: Env, custom: seq<VRule>, value: Value, row: Row, ruleId: string)
    requires GetRule(custom, ruleId).Some? && IsScript(GetRule(custom, ruleId).value)
    ensures var rule := GetRule(custom, ruleId).value;
      var v := Validate(env, custom, value, row, ruleId);
      match env.run(rule.code, value, row)
      case Throw(msg) => v == Some(ErrorMessage(rule.name, msg))
      case Ok(ReturnedFalse) => v == Some(FailedMessage(rule.name))
      case Ok(ReturnedString(s)) => v == Some(s)
      case Ok(ReturnedOther) => v == None
  {
  }

  /** Every thrown error, from code or from a missing config, becomes the rule-named error message. */
  lemma ThrowBecomesMessage(env: Env, custom: seq<VRule>, value: Value, row: Row, ruleId: string)
    requires GetRule(custom, ruleId).Some?
    requires Dispatch(env, GetRule(custom, ruleId).value, value, row).Throw?
    ensures Validate(env, custom, value, row, ruleId) ==
      Some(ErrorMessage(GetRule(custom, ruleId).value.name, Dispatch(env, GetRule(custom, ruleId).value, value, row).msg))
  {
  }

  /**
   * A code-less config rule delegates to the built-in its operator names, with its own config;
   * an operator naming no built-in passes every value.
   */
  lemma ConfigDelegates(env: Env, rule: VRule, value: Value, row: Row)
    requires !IsScript(rule) && rule.builtin.None? && rule.kind == "config" && rule.config.Some?
    ensures var c := rule.config.value;
      Dispatch(env, rule, value, row) ==
        if c.operator == "sum_equals" then Handle(env, SumEquals, value, row, c)
        else if c.operator == "avg_equals" then Handle(env, AvgEquals, value, row, c)
        else TransformRegistry.Ok(None)
  {
  }

  /** The average check with no fields passes, whatever the value. */
  lemma AvgWithoutFieldsPasses(env: Env, custom: seq<VRule>, value: Value, row: Row)
    requires forall r :: r in custom ==> r.id != "avg_equals"
    ensures Validate(env, custom, value, row, "avg_equals") == None
  {
    BuiltinServed(custom, "avg_equals");
  }

  /** A user rule replaces the built-in of the same id. */
  lemma CustomOverridesBuiltin(custom: seq<VRule>, r: VRule)
    ensures GetRule(custom + [r], r.id) == Some(r)
  {
    assert (custom + [r])[..|custom|] == custom;
  }

  /** The registry object: the built-ins are fixed, the user rules are replaced as a whole. */
  class Registry {
    var customRules: seq<VRule>

    constructor ()
      ensures customRules == []
    {
      customRules := [];
    }

    /** `setCustomRules(rules)`: a missing list counts as empty. */
    method SetCustomRules(rules: Option<seq<VRule>>)
      modifies this
      ensures customRules == rules.GetOr([])
    {
      customRules := rules.GetOr([]);
    }

    function Rule(id: string): Option<VRule>
      reads this
    {
      GetRule(customRules, id)
    }

    function Check(env: Env, value: Value, row: Row, ruleId: string): Option<string>
      reads this
    {
      Validate(env, customRules, value, row, ruleId)
    }
  }
}
