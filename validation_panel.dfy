/**
 * The validation-rule editor: an expression is built as a list of tokens, translated into the
 * body of a JavaScript check, and saved with the rule into the list of validation rules.
 *
 * The modal's name and code inputs are fields of the panel; `Date.now()` is the `now`
 * parameter, and `isNaN` on a constant's text is the `isNaN` parameter.
 */
module ValidationPanel {
  import opened Wrappers
  import opened Text
  import opened Lists

  /**
   * An expression token: `kind` is its `type` ('field', 'current', 'constant', 'logic', 'op'),
   * `value` the physical column a field token reads (None for `null`).
   */
  datatype Token = Token(kind: string, name: string, value: Option<string>)

  /** A stored validation rule; `tokens` is None for a script rule, which stores none. */
  datatype StoredRule = StoredRule(id: string, name: string, kind: string, code: string, tokens: Option<seq<Token>>)

  /** The name of the token the "current value" button inserts. */
  const CurrentName := "当前项 (Value)"

  /** The code of a rule with no tokens. */
  const EmptyCode := "return true;"

  /** The helper every generated check starts with: `_p` turns a cell into a number. */
  const Prelude :=
    "\n            const _p = (v) => {\n                if (typeof v === 'number') return v;\n                if (!v) return 0;\n                const clean = String(v).replace(/[^0-9.-]/g, '');\n                return parseFloat(clean) || 0;\n            };\n            return ("

  /** What follows the expression. */
  const Epilogue := ");\n        "

  /** `${v}` of a token value. */
  function ValueText(v: Option<string>): string {
    match v
    case Some(s) => s
    case None => "null"
  }

  /** `'<s>'`. */
  function Quote(s: string): (r: string)
    ensures |r| == |s| + 2 && r[0] == '\'' && r[|r| - 1] == '\''
  {
    "'" + s + "'"
  }

  /** The code of one token. */
  function TokenCode(t: Token, isNaN: string -> bool): string {
    if t.kind == "field" then "_p(row['" + ValueText(t.value) + "'])"
    else if t.kind == "current" then "_p(value)"
    else if t.kind == "constant" then
      (if isNaN(RemoveCommas(t.name)) then Quote(t.name) else RemoveCommas(t.name))
    else if t.kind == "logic" then
      (if t.name == "=" then "===" else if t.name == "!=" then "!==" else t.name)
    else t.name
  }

  /** The codes of the tokens, in order. */
  function Codes(tokens: seq<Token>, isNaN: string -> bool): (r: seq<string>)
    ensures |r| == |tokens|
    ensures forall i :: 0 <= i < |tokens| ==> r[i] == TokenCode(tokens[i], isNaN)
  {
    seq(|tokens|, i requires 0 <= i < |tokens| => TokenCode(tokens[i], isNaN))
  }

  /** The expression: the token codes joined by single spaces. */
  function CodePart(tokens: seq<Token>, isNaN: string -> bool): string {
    Join(Codes(tokens, isNaN), " ")
  }

  /** `generateJSFromTokens()`. */
  function Generate(tokens: seq<Token>, isNaN: string -> bool): string {
    if tokens == [] then EmptyCode
    else Prelude + CodePart(tokens, isNaN) + Epilogue
  }

  /** The generated check: `return true;` without tokens, else the expression inside the `_p` wrapper. */
  lemma GenerateShape(tokens: seq<Token>, isNaN: string -> bool)
    ensures tokens == [] ==> Generate(tokens, isNaN) == "return true;"
    ensures tokens != [] ==>
      var code := Generate(tokens, isNaN);
      |code| == |Prelude| + |CodePart(tokens, isNaN)| + |Epilogue| &&
      code[..|Prelude|] == Prelude &&
      code[|Prelude|..|code| - |Epilogue|] == CodePart(tokens, isNaN) &&
      code[|code| - |Epilogue|..] == Epilogue
  {
    if tokens != [] {
      var code := Generate(tokens, isNaN);
      var body := CodePart(tokens, isNaN);
      assert code == Prelude + body + Epilogue;
      assert code[..|Prelude|] == Prelude;
      assert code[|Prelude|..|code| - |Epilogue|] == body;
      assert code[|code| - |Epilogue|..] == Epilogue;
    }
  }

  /** A single token's expression is its own code. */
  lemma SingleTokenExpression(t: Token, isNaN: string -> bool)
    ensures CodePart([t], isNaN) == TokenCode(t, isNaN)
  {
  }

  /** The expression of two token lists put together is their two expressions with a space between. */
  lemma CodePartConcat(a: seq<Token>, b: seq<Token>, isNaN: string -> bool)
    requires a != [] && b != []
    ensures CodePart(a + b, isNaN) == CodePart(a, isNaN) + " " + CodePart(b, isNaN)
  {
    assert Codes(a + b, isNaN) == Codes(a, isNaN) + Codes(b, isNaN);
    JoinConcat(Codes(a, isNaN), Codes(b, isNaN), " ");
  }

  /** Adding a token to a non-empty expression appends a space and the token's code. */
  lemma AddTokenExtendsExpression(tokens: seq<Token>, t: Token, isNaN: string -> bool)
    requires tokens != []
    ensures CodePart(tokens + [t], isNaN) == CodePart(tokens, isNaN) + " " + TokenCode(t, isNaN)
  {
    CodePartConcat(tokens, [t], isNaN);
  }

  /** The field a field token reads can be read back from its code. */
  lemma FieldCodeNamesColumn(t: Token, isNaN: string -> bool)
    requires t.kind == "field" && t.value.Some?
    ensures var code := TokenCode(t, isNaN);
      |code| == |t.value.value| + 11 &&
      code[..8] == "_p(row['" && code[8..|code| - 3] == t.value.value && code[|code| - 3..] == "'])"
  {
    var code := TokenCode(t, isNaN);
    var v := t.value.value;
    assert code == "_p(row['" + v + "'])";
    assert code[..8] == "_p(row['";
    assert code[8..|code| - 3] == v;
    assert code[|code| - 3..] == "'])";
  }

  /** The current value reads `value`, whatever the token's name. */
  lemma CurrentCode(t: Token, isNaN: string -> bool)
    requires t.kind == "current"
    ensures TokenCode(t, isNaN) == "_p(value)"
  {
  }

  /** Logic `=` and `!=` become the strict comparisons; other logic and operator tokens keep their text. */
  lemma LogicTranslation(t: Token, isNaN: string -> bool)
    requires t.kind == "logic" || t.kind == "op"
    ensures t.kind == "logic" && t.name == "=" ==> TokenCode(t, isNaN) == "==="
    ensures t.kind == "logic" && t.name == "!=" ==> TokenCode(t, isNaN) == "!=="
    ensures t.name != "=" && t.name != "!=" ==> TokenCode(t, isNaN) == t.name
    ensures t.kind == "op" ==> TokenCode(t, isNaN) == t.name
  {
  }

  /**
   * A numeric constant is written without its thousands separators; any other constant is
   * quoted, with its text (commas included) between the quotes.
   */
  lemma ConstantCode(t: Token, isNaN: string -> bool)
    requires t.kind == "constant"
    ensures var code := TokenCode(t, isNaN);
      (!isNaN(RemoveCommas(t.name)) ==> code == RemoveCommas(t.name) && ',' !in code) &&
      (isNaN(RemoveCommas(t.name)) ==> |code| == |t.name| + 2 && code[0] == '\'' && code[1..|code| - 1] == t.name && code[|code| - 1] == '\'')
  {
    var code := TokenCode(t, isNaN);
    if isNaN(RemoveCommas(t.name)) {
      assert code == "'" + t.name + "'";
      assert code[1..|code| - 1] == t.name;
    } else {
      var r := RemoveCommas(t.name);
      assert forall i :: 0 <= i < |r| ==> r[i] != ',';
    }
  }

  /** `rules.findIndex(r => r.id === id)`: the first index with that id, or -1. */
  function FindIndex(rules: seq<StoredRule>, id: string): (r: int)
    ensures -1 <= r < |rules|
    ensures r >= 0 ==> rules[r].id == id && forall j :: 0 <= j < r ==> rules[j].id != id
    ensures r == -1 <==> forall j :: 0 <= j < |rules| ==> rules[j].id != id
  {
    if rules == [] then -1
    else if rules[0].id == id then 0
    else
      var k := FindIndex(rules[1..], id);
      if k == -1 then -1 else k + 1
  }

  /** The id of a new rule: `'v_' + Date.now()`. */
  function NewId(now: nat): string {
    "v_" + NatStr(now)
  }

  /** Rules created at different times get different ids. */
  lemma NewIdsDiffer(a: nat, b: nat)
    requires a != b
    ensures NewId(a) != NewId(b)
  {
    if NewId(a) == NewId(b) {
      assert NatStr(a) == NewId(a)[2..] == NewId(b)[2..] == NatStr(b);
      NatStrInjective(a, b);
    }
  }

  /**
   * The rule being saved: the edited rule's id or a new one, and for a script its trimmed code,
   * otherwise the tokens and the code generated from them.
   */
  function RuleData(editingId: string, now: nat, name: string, mode: string, codeInput: string,
                    tokens: seq<Token>, isNaN: string -> bool): (r: StoredRule)
    ensures r.id == (if editingId != "" then editingId else NewId(now))
    ensures r.name == name && r.kind == mode
    ensures mode == "script" ==> r.code == Trim(codeInput) && r.tokens == None
    ensures mode != "script" ==> r.code == Generate(tokens, isNaN) && r.tokens == Some(tokens)
  {
    var id := if editingId != "" then editingId else NewId(now);
    if mode == "script" then StoredRule(id, name, mode, Trim(codeInput), None)
    else StoredRule(id, name, mode, Generate(tokens, isNaN), Some(tokens))
  }

  /**
   * The list handed to the store: when editing, the first rule with the edited id is replaced
   * (and nothing changes when there is none, the write landing on the array's `-1` property);
   * otherwise the rule is appended.
   */
  function SavedRules(rules: seq<StoredRule>, editingId: string, data: StoredRule): seq<StoredRule> {
    if editingId != "" then
      var idx := FindIndex(rules, editingId);
      if idx >= 0 then rules[idx := data] else rules
    else rules + [data]
  }

  /** Saving an edit replaces exactly the first rule with the edited id, and keeps every other rule. */
  lemma SaveEditReplacesFirst(rules: seq<StoredRule>, editingId: string, data: StoredRule, k: nat)
    requires editingId != "" && k < |rules| && rules[k].id == editingId
    requires forall j :: 0 <= j < k ==> rules[j].id != editingId
    ensures var r := SavedRules(rules, editingId, data);
      |r| == |rules| && r[k] == data && forall j :: 0 <= j < |rules| && j != k ==> r[j] == rules[j]
  {
    var idx := FindIndex(rules, editingId);
    assert idx == k;
  }

  /** Saving an edit of a rule that is no longer listed leaves the list as it was. */
  lemma SaveEditOfMissingRule(rules: seq<StoredRule>, editingId: string, data: StoredRule)
    requires editingId != "" && forall j :: 0 <= j < |rules| ==> rules[j].id != editingId
    ensures SavedRules(rules, editingId, data) == rules
  {
  }

  /** Saving the same rule twice is saving it once: the second save finds the first one's result. */
  lemma SaveEditTwice(rules: seq<StoredRule>, editingId: string, d1: StoredRule, d2: StoredRule)
    requires editingId != "" && d1.id == editingId
    ensures SavedRules(SavedRules(rules, editingId, d1), editingId, d2) == SavedRules(rules, editingId, d2)
  {
    var idx := FindIndex(rules, editingId);
    if idx >= 0 {
      var once := rules[idx := d1];
      var idx2 := FindIndex(once, editingId);
      assert once[idx].id == editingId;
      assert idx2 == idx;
      assert once[idx := d2] == rules[idx := d2];
    }
  }

  /** `rules.filter(r => r.id !== id)`: the rules with other ids, in order. */
  function DeleteRule(rules: seq<StoredRule>, id: string): (r: seq<StoredRule>)
    ensures |r| <= |rules|
    ensures forall x :: x in r ==> x in rules && x.id != id
    ensures forall x :: x in rules && x.id != id ==> x in r
  {
    if rules == [] then []
    else (if rules[0].id == id then [] else [rules[0]]) + DeleteRule(rules[1..], id)
  }

  /** Deleting an id no rule has changes nothing. */
  lemma {:induction false} DeleteAbsent(rules: seq<StoredRule>, id: string)
    requires forall j :: 0 <= j < |rules| ==> rules[j].id != id
    ensures DeleteRule(rules, id) == rules
  {
    if rules != [] {
      DeleteAbsent(rules[1..], id);
    }
  }

  /** Deleting distributes over putting two lists together. */
  lemma {:induction false} DeleteAppend(a: seq<StoredRule>, b: seq<StoredRule>, id: string)
    ensures DeleteRule(a + b, id) == DeleteRule(a, id) + DeleteRule(b, id)
  {
    if a != [] {
      assert (a + b)[1..] == a[1..] + b;
      DeleteAppend(a[1..], b, id);
    } else {
      assert a + b == b;
    }
  }

  /** Deleting a newly saved rule, whose id is new, gives back the list it was added to. */
  lemma DeleteUndoesNewSave(rules: seq<StoredRule>, data: StoredRule)
    requires forall j :: 0 <= j < |rules| ==> rules[j].id != data.id
    ensures DeleteRule(SavedRules(rules, "", data), data.id) == rules
  {
    DeleteAppend(rules, [data], data.id);
    DeleteAbsent(rules, data.id);
    assert DeleteRule([data], data.id) == [];
  }

  /** Adding a token and removing it at its index gives back the token list. */
  lemma AddThenRemoveToken(tokens: seq<Token>, t: Token)
    ensures Splice(tokens + [t], |tokens|) == tokens
  {
    assert (tokens + [t])[..|tokens|] == tokens;
  }

  /**
   * The editor. `editingRuleId` is "" when no rule is being edited: `null` and "" behave alike
   * everywhere it is used. `nameInput` and `codeInput` are the modal's two inputs.
   */
  class ValidationPanel {
    var editingRuleId: string
    var currentMode: string
    var tokens: seq<Token>
    var nameInput: string
    var codeInput: string

    constructor ()
      ensures editingRuleId == "" && currentMode == "config" && tokens == []
      ensures nameInput == "" && codeInput == ""
    {
      editingRuleId := "";
      currentMode := "config";
      tokens := [];
      nameInput := "";
      codeInput := "";
    }

    /** `addToken(type, name, value)`: appends one token. */
    method AddToken(kind: string, name: string, value: Option<string>)
      modifies this
      ensures tokens == old(tokens) + [Token(kind, name, value)]
      ensures editingRuleId == old(editingRuleId) && currentMode == old(currentMode)
      ensures nameInput == old(nameInput) && codeInput == old(codeInput)
    {
      tokens := tokens + [Token(kind, name, value)];
    }

    /** The "current value" button. */
    method InsertCurrentValue()
      modifies this
      ensures tokens == old(tokens) + [Token("current", CurrentName, None)]
      ensures editingRuleId == old(editingRuleId) && currentMode == old(currentMode)
      ensures nameInput == old(nameInput) && codeInput == old(codeInput)
    {
      AddToken("current", CurrentName, None);
    }

    /** The constant button: `answer` is what the prompt returned (None when cancelled). */
    method InsertConstant(answer: Option<string>)
      modifies this
      ensures answer.Some? && Trim(answer.value) != "" ==>
        tokens == old(tokens) + [Token("constant", Trim(answer.value), None)]
      ensures answer.None? || Trim(answer.value) == "" ==> tokens == old(tokens)
      ensures editingRuleId == old(editingRuleId) && currentMode == old(currentMode)
      ensures nameInput == old(nameInput) && codeInput == old(codeInput)
    {
      if answer.Some? && Trim(answer.value) != "" {
        AddToken("constant", Trim(answer.value), None);
      }
    }

    /** The clear button. */
    method ClearTokens()
      modifies this
      ensures tokens == []
      ensures editingRuleId == old(editingRuleId) && currentMode == old(currentMode)
      ensures nameInput == old(nameInput) && codeInput == old(codeInput)
    {
      tokens := [];
    }

    /** A token's remove button: `tokens.splice(index, 1)`. */
    method RemoveToken(index: nat)
      modifies this
      ensures tokens == Splice(old(tokens), index)
      ensures index < |old(tokens)| ==>
        (|tokens| == |old(tokens)| - 1 &&
         forall j :: 0 <= j < |tokens| ==> tokens[j] == old(tokens)[if j < index then j else j + 1])
      ensures editingRuleId == old(editingRuleId) && currentMode == old(currentMode)
      ensures nameInput == old(nameInput) && codeInput == old(codeInput)
    {
      tokens := Splice(tokens, index);
    }

    /** The mode switcher. */
    method SetMode(mode: string)
      modifies this
      ensures currentMode == mode
      ensures tokens == old(tokens) && editingRuleId == old(editingRuleId)
      ensures nameInput == old(nameInput) && codeInput == old(codeInput)
    {
      currentMode := mode;
    }

    /**
     * `openModal(ruleId)`: a blank form for a new rule, or the form of the listed rule. Editing
     * an id that is not listed throws after the id is recorded; `shown` is then false.
     */
    method OpenModal(ruleId: string, rules: seq<StoredRule>) returns (shown: bool)
      modifies this
      ensures editingRuleId == ruleId
      ensures ruleId == "" ==>
        (shown && nameInput == "" && codeInput == EmptyCode && currentMode == "config" && tokens == [])
      ensures ruleId != "" ==> (shown <==> FindIndex(rules, ruleId) >= 0)
      ensures ruleId != "" && shown ==>
        var rule := rules[FindIndex(rules, ruleId)];
        nameInput == rule.name && currentMode == rule.kind && tokens == rule.tokens.GetOr([]) &&
        codeInput == (if rule.kind == "script" then rule.code else old(codeInput))
      ensures ruleId != "" && !shown ==>
        nameInput == old(nameInput) && codeInput == old(codeInput) &&
        currentMode == old(currentMode) && tokens == old(tokens)
    {
      editingRuleId := ruleId;
      if ruleId != "" {
        var idx := FindIndex(rules, ruleId);
        if idx < 0 {
          return false;
        }
        var rule := rules[idx];
        nameInput := rule.name;
        currentMode := rule.kind;
        tokens := rule.tokens.GetOr([]);
        if rule.kind == "script" {
          codeInput := rule.code;
        }
      } else {
        nameInput := "";
        codeInput := EmptyCode;
        currentMode := "config";
        tokens := [];
      }
      shown := true;
    }

    /** `closeModal()`. */
    method CloseModal()
      modifies this
      ensures editingRuleId == ""
      ensures tokens == old(tokens) && currentMode == old(currentMode)
      ensures nameInput == old(nameInput) && codeInput == old(codeInput)
    {
      editingRuleId := "";
    }

    /**
     * `saveRule()`: None (and nothing changes) when the trimmed name is empty; otherwise the
     * list to store, after which the modal is closed.
     */
    method SaveRule(now: nat, rules: seq<StoredRule>, isNaN: string -> bool) returns (saved: Option<seq<StoredRule>>)
      modifies this
      ensures saved.None? <==> Trim(old(nameInput)) == ""
      ensures saved.None? ==> editingRuleId == old(editingRuleId)
      ensures saved.Some? ==>
        saved.value == SavedRules(rules, old(editingRuleId),
          RuleData(old(editingRuleId), now, Trim(old(nameInput)), old(currentMode), old(codeInput), old(tokens), isNaN)) &&
        editingRuleId == ""
      ensures tokens == old(tokens) && currentMode == old(currentMode)
      ensures nameInput == old(nameInput) && codeInput == old(codeInput)
    {
      var name := Trim(nameInput);
      if name == "" {
        return None;
      }
      var id := if editingRuleId != "" then editingRuleId else NewId(now);
      var data;
      if currentMode == "script" {
        data := StoredRule(id, name, currentMode, Trim(codeInput), None);
      } else {
        data := StoredRule(id, name, currentMode, Generate(tokens, isNaN), Some(tokens));
      }
      var list := rules;
      if editingRuleId != "" {
        var idx := FindIndex(list, editingRuleId);
        if idx >= 0 {
          list := list[idx := data];
        }
      } else {
        list := list + [data];
      }
      CloseModal();
      saved := Some(list);
    }
  }
}
