/**
 * The application store: one state object whose keys are replaced by shallow merges, and a
 * list of listeners that are called, in subscription order, with the new state after every
 * change. Listener calls are recorded rather than run.
 */
module Store {
  import opened Lists

  /** A state value as the store sees it: any JavaScript value, compared structurally. */
  datatype JsValue =
    | JsNull
    | JsStr(s: string)
    | JsNum(n: int)
    | JsBool(b: bool)
    | JsList(items: seq<JsValue>)
    | JsObject(fields: map<string, JsValue>)

  type State = map<string, JsValue>

  /** A listener, by identity. */
  type Listener = nat

  /** One recorded listener call: who was called, with which state. */
  datatype Call = Call(listener: Listener, state: State)

  /** The state the store starts from. */
  function InitialState(): State {
    map[
      "workbookData" := JsObject(map[]),
      "currentSheet" := JsNull,
      "configs" := JsObject(map[]),
      "currentRegionId" := JsNull,
      "selection" := JsNull,
      "joinConfigs" := JsList([]),
      "customRules" := JsList([]),
      "validationRules" := JsList([])]
  }

  /** `{ ...state, ...newState }`: the given keys take their new values, every other key keeps its own. */
  function Merge(state: State, newState: State): (r: State)
    ensures r.Keys == state.Keys + newState.Keys
    ensures forall k :: k in newState ==> r[k] == newState[k]
    ensures forall k :: k in state && k !in newState ==> r[k] == state[k]
  {
    state + newState
  }

  /** Merging the same keys twice is merging once: the later values win. */
  lemma MergeTwice(state: State, a: State, b: State)
    requires a.Keys == b.Keys
    ensures Merge(Merge(state, a), b) == Merge(state, b)
  {
  }

  /** Merging nothing changes nothing. */
  lemma MergeEmpty(state: State)
    ensures Merge(state, map[]) == state
  {
  }

  /** The keys `resetAllConfigs` clears, with their cleared values. */
  function ResetValues(): State {
    map[
      "configs" := JsObject(map[]),
      "currentRegionId" := JsNull,
      "fieldConfigs" := JsList([]),
      "joinConfigs" := JsList([]),
      "validationRules" := JsList([])]
  }

  /**
   * After a reset the configuration keys hold their cleared values, and the workbook, the
   * current sheet, the custom rules and the selection are as they were.
   */
  lemma ResetKeepsData(state: State)
    ensures var r := Merge(state, ResetValues());
      r["configs"] == JsObject(map[]) && r["currentRegionId"] == JsNull && r["fieldConfigs"] == JsList([]) &&
      r["joinConfigs"] == JsList([]) && r["validationRules"] == JsList([]) &&
      forall k :: k in state && k in {"workbookData", "currentSheet", "customRules", "selection"} ==> r[k] == state[k]
  {
  }

  /** Resetting twice is resetting once. */
  lemma ResetIdempotent(state: State)
    ensures Merge(Merge(state, ResetValues()), ResetValues()) == Merge(state, ResetValues())
  {
  }

  /** Unsubscribing a listener right after its first subscription restores the listener list. */
  lemma SubscribeUnsubscribe(listeners: seq<Listener>, l: Listener)
    requires l !in listeners
    ensures Without(listeners + [l], l) == listeners
  {
    WithoutAppend(listeners, [l], l);
    WithoutAbsent(listeners, l);
    assert Without([l], l) == [];
  }

  /** The calls one notification makes: each listener once, in order, with the same state. */
  function Calls(listeners: seq<Listener>, state: State): seq<Call> {
    seq(|listeners|, i requires 0 <= i < |listeners| => Call(listeners[i], state))
  }

  class Store {
    var state: State
    var listeners: seq<Listener>
    /** Every listener call made so far, oldest first. */
    var log: seq<Call>

    constructor ()
      ensures state == InitialState() && listeners == [] && log == []
    {
      state := InitialState();
      listeners := [];
      log := [];
    }

    /** `getState()`. */
    function GetState(): State
      reads this
    {
      state
    }

    /** `notify()`: calls every listener with the current state, in subscription order. */
    method Notify()
      modifies this
      ensures state == old(state) && listeners == old(listeners)
      ensures log == old(log) + Calls(listeners, state)
    {
      var i := 0;
      while i < |listeners|
        invariant i <= |listeners|
        invariant state == old(state) && listeners == old(listeners)
        invariant log == old(log) + Calls(listeners[..i], state)
      {
        assert Calls(listeners[..i + 1], state) == Calls(listeners[..i], state) + [Call(listeners[i], state)];
        log := log + [Call(listeners[i], state)];
        i := i + 1;
      }
      assert listeners[..i] == listeners;
    }

    /** `setState(newState)`: shallow merge, then notify. */
    method SetState(newState: State)
      modifies this
      ensures state == Merge(old(state), newState)
      ensures listeners == old(listeners)
      ensures log == old(log) + Calls(listeners, state)
    {
      state := state + newState;
      Notify();
    }

    /** `subscribe(listener)`: the listener is called on every later change. */
    method Subscribe(l: Listener)
      modifies this
      ensures listeners == old(listeners) + [l]
      ensures state == old(state) && log == old(log)
    {
      listeners := listeners + [l];
    }

    /** The function `subscribe` returns: it removes the listener. */
    method Unsubscribe(l: Listener)
      modifies this
      ensures listeners == Without(old(listeners), l)
      ensures state == old(state) && log == old(log)
    {
      listeners := Without(listeners, l);
    }

    method SetWorkbookData(data: JsValue)
      modifies this
      ensures state == old(state)["workbookData" := data]
      ensures listeners == old(listeners) && log == old(log) + Calls(listeners, state)
    {
      SetState(map["workbookData" := data]);
    }

    method SetCurrentSheet(sheetName: JsValue)
      modifies this
      ensures state == old(state)["currentSheet" := sheetName]
      ensures listeners == old(listeners) && log == old(log) + Calls(listeners, state)
    {
      SetState(map["currentSheet" := sheetName]);
    }

    method SetSelection(selection: JsValue)
      modifies this
      ensures state == old(state)["selection" := selection]
      ensures listeners == old(listeners) && log == old(log) + Calls(listeners, state)
    {
      SetState(map["selection" := selection]);
    }

    method SetJoinConfigs(joinConfigs: JsValue)
      modifies this
      ensures state == old(state)["joinConfigs" := joinConfigs]
      ensures listeners == old(listeners) && log == old(log) + Calls(listeners, state)
    {
      SetState(map["joinConfigs" := joinConfigs]);
    }

    method SetCustomRules(customRules: JsValue)
      modifies this
      ensures state == old(state)["customRules" := customRules]
      ensures listeners == old(listeners) && log == old(log) + Calls(listeners, state)
    {
      SetState(map["customRules" := customRules]);
    }

    method SetValidationRules(validationRules: JsValue)
      modifies this
      ensures state == old(state)["validationRules" := validationRules]
      ensures listeners == old(listeners) && log == old(log) + Calls(listeners, state)
    {
      SetState(map["validationRules" := validationRules]);
    }

    /** `resetAllConfigs()`: clears the configuration keys in one change. */
    method ResetAllConfigs()
      modifies this
      ensures state == Merge(old(state), ResetValues())
      ensures listeners == old(listeners) && log == old(log) + Calls(listeners, state)
    {
      SetState(ResetValues());
    }
  }
}
