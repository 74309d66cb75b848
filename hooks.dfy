/**
 * The hook cursor of core/src/hooks.ts.
 *
 * Each hook call takes the next slot of the fiber being rendered
 * (`wipFiber`): it reuses the hook record its alternate kept at the same
 * position, or creates one, appends it to `wipFiber.hooks` and advances
 * `hookIndex`. Calls into component code (reducers, `init`, factories) go
 * through `call(fn, args)`, an opaque total function.
 */
module Hooks {
  import opened Wrappers
  import opened JsValues
  import opened Fibers
  import Scheduler

  /** A fiber is being rendered and its hook list has been started. */
  predicate HasWip(s: Shared) {
    s.wipFiber.Some? && s.wipFiber.value < |s.fibers| && s.fibers[s.wipFiber.value].hooks.Some?
  }

  /** `wipFiber?.alternate?.hooks?.[hookIndex]`: the hook the previous render kept in this slot. */
  function OldHook(s: Shared): Option<nat> {
    if s.wipFiber.Some? && s.wipFiber.value < |s.fibers| then
      var alt := s.fibers[s.wipFiber.value].alternate;
      if alt.Some? && alt.value < |s.fibers| && s.fibers[alt.value].hooks.Some? then
        var hs := s.fibers[alt.value].hooks.value;
        if 0 <= s.hookIndex < |hs| then Some(hs[s.hookIndex]) else None
      else None
    else None
  }

  /**
   * The shared state after `baseHook(createHook)`, and the hook it returns;
   * `made` is the record `createHook` builds, which is used only when the
   * slot has no old hook.
   */
  function BaseHookStep(s: Shared, made: Hook): (Shared, nat)
    requires HasWip(s)
  {
    var w := s.wipFiber.value;
    var f := s.fibers[w];
    var h := if OldHook(s).Some? then OldHook(s).value else |s.hooks|;
    var hooks := if OldHook(s).Some? then s.hooks else s.hooks + [made];
    (s.(fibers := s.fibers[w := f.(hooks := Some(f.hooks.value + [h]))], hooks := hooks, hookIndex := s.hookIndex + 1), h)
  }

  /**
   * The cursor advances by exactly one, the returned hook is appended to
   * `wipFiber.hooks`, and no other fiber or variable changes.
   */
  lemma BaseHookAdvances(s: Shared, made: Hook)
    requires HasWip(s)
    ensures var (t, h) := BaseHookStep(s, made); var w := s.wipFiber.value;
      t.hookIndex == s.hookIndex + 1
      && |t.fibers| == |s.fibers| && t.fibers[w].hooks == Some(s.fibers[w].hooks.value + [h])
      && t.fibers[w] == s.fibers[w].(hooks := t.fibers[w].hooks)
      && (forall i :: 0 <= i < |s.fibers| && i != w ==> t.fibers[i] == s.fibers[i])
      && t == s.(fibers := t.fibers, hooks := t.hooks, hookIndex := t.hookIndex)
  {
  }

  /**
   * When the alternate kept a hook in this slot, that very record is
   * returned, whatever its kind and whatever record `createHook` would
   * have built: the hook's tag is never compared with the call.
   */
  lemma BaseHookReusesWhateverTag(s: Shared, made1: Hook, made2: Hook)
    requires HasWip(s) && OldHook(s).Some?
    ensures BaseHookStep(s, made1).1 == OldHook(s).value
    ensures BaseHookStep(s, made1) == BaseHookStep(s, made2)
    ensures BaseHookStep(s, made1).0.hooks == s.hooks
  {
  }

  /** Without an old hook, the made record is appended to the hook arena and returned. */
  lemma BaseHookCreatesWhenMissing(s: Shared, made: Hook)
    requires HasWip(s) && OldHook(s).None?
    ensures var (t, h) := BaseHookStep(s, made);
      h == |s.hooks| && t.hooks == s.hooks + [made] && t.hooks[h] == made
  {
  }

  /** `baseHook` keeps every handle in range. */
  lemma BaseHookOk(s: Shared, made: Hook)
    requires SharedOk(s) && HasWip(s)
    ensures SharedOk(BaseHookStep(s, made).0) && HasWip(BaseHookStep(s, made).0)
    ensures BaseHookStep(s, made).1 < |BaseHookStep(s, made).0.hooks|
  {
    var (t, h) := BaseHookStep(s, made);
    var w := s.wipFiber.value;
    if OldHook(s).Some? {
      var alt := s.fibers[w].alternate.value;
      assert FiberOk(s.fibers, |s.hooks|, alt);
    }
    forall i | 0 <= i < |t.fibers| ensures FiberOk(t.fibers, |t.hooks|, i) {
      assert FiberOk(s.fibers, |s.hooks|, i);
    }
  }

  /** `baseHook(createHook)` */
  method BaseHook(rt: Runtime, made: Hook) returns (h: nat)
    requires rt.Valid() && HasWip(rt.State())
    modifies rt
    ensures rt.Valid() && HasWip(rt.State()) && h < |rt.hooks|
    ensures (rt.State(), h) == BaseHookStep(old(rt.State()), made)
  {
    BaseHookOk(rt.State(), made);
    var w := rt.wipFiber.value;
    var kept := OldHook(rt.State());
    if kept.Some? {
      h := kept.value;
    } else {
      h := |rt.hooks|;
      rt.hooks := rt.hooks + [made];
    }
    var f := rt.fibers[w];
    rt.fibers := rt.fibers[w := f.(hooks := Some(f.hooks.value + [h]))];
    rt.SetHookIndex(rt.hookIndex + 1);
  }

  /** The reducer a `dispatch` closure applies: the fixed one of `useState`, or the caller's. */
  datatype Reducer = SetStateReducer | UserReducer(fn: Value)

  /** `reducer(state, action)` */
  function Reduce(r: Reducer, state: Value, action: Value, call: (Value, seq<Value>) -> Value): Value {
    match r
    case SetStateReducer => if TypeOf(action) == "function" then call(action, [state]) else action
    case UserReducer(fn) => call(fn, [state, action])
  }

  /** The `useState` reducer applies a function action to the previous state and otherwise replaces it. */
  lemma SetStateReducerCases(state: Value, action: Value, call: (Value, seq<Value>) -> Value)
    ensures action.Fn? ==> Reduce(SetStateReducer, state, action, call) == call(action, [state])
    ensures !action.Fn? ==> Reduce(SetStateReducer, state, action, call) == action
  {
  }

  /** `hook.state`: a reused hook of another kind has no such field. */
  function StateOf(h: Hook): Value {
    if h.ReducerHook? then h.state else Undefined
  }

  /** `init ? init(initialState) : initialState` */
  function InitialState(initialState: Value, init: Value, call: (Value, seq<Value>) -> Value): Value {
    if Truthy(init) then call(init, [initialState]) else initialState
  }

  /** A new reducer slot starts from `init(initialState)` or `initialState`; a reused one keeps its state. */
  lemma ReducerStartState(s: Shared, initialState: Value, init: Value, call: (Value, seq<Value>) -> Value)
    requires SharedOk(s) && HasWip(s)
    ensures var (t, h) := BaseHookStep(s, ReducerHook(InitialState(initialState, init, call)));
      h < |t.hooks|
      && (OldHook(s).None? ==> StateOf(t.hooks[h]) == (if Truthy(init) then call(init, [initialState]) else initialState))
      && (OldHook(s).Some? ==> t.hooks[h] == s.hooks[OldHook(s).value])
  {
    BaseHookOk(s, ReducerHook(InitialState(initialState, init, call)));
  }

  /** `useReducer(reducer, initialState, init)`: the slot's state and the slot itself, which `dispatch` updates. */
  method UseReducer(rt: Runtime, initialState: Value, init: Value, call: (Value, seq<Value>) -> Value)
    returns (state: Value, h: nat)
    requires rt.Valid() && HasWip(rt.State())
    modifies rt
    ensures rt.Valid() && HasWip(rt.State()) && h < |rt.hooks|
    ensures (rt.State(), h) == BaseHookStep(old(rt.State()), ReducerHook(InitialState(initialState, init, call)))
    ensures state == StateOf(rt.hooks[h])
  {
    h := BaseHook(rt, ReducerHook(InitialState(initialState, init, call)));
    state := StateOf(rt.hooks[h]);
  }

  /** `useState(initial)`: `useReducer` with the set-state reducer and no `init`. */
  method UseState(rt: Runtime, initial: Value, call: (Value, seq<Value>) -> Value)
    returns (state: Value, h: nat)
    requires rt.Valid() && HasWip(rt.State())
    modifies rt
    ensures rt.Valid() && HasWip(rt.State()) && h < |rt.hooks|
    ensures (rt.State(), h) == BaseHookStep(old(rt.State()), ReducerHook(initial))
    ensures state == StateOf(rt.hooks[h])
  {
    state, h := UseReducer(rt, initial, Undefined, call);
  }

  /** The shared state after `dispatch(action)` on the reducer hook `h`. */
  function DispatchStep(s: Shared, h: nat, r: Reducer, action: Value, call: (Value, seq<Value>) -> Value): Shared
    requires h < |s.hooks| && s.hooks[h].ReducerHook? && s.wipFiber.Some? && s.wipFiber.value < |s.fibers|
  {
    var next := Reduce(r, s.hooks[h].state, action, call);
    if next == s.hooks[h].state then s
    else ScheduledUpdate(s.(hooks := s.hooks[h := ReducerHook(next)]), s.wipFiber.value)
  }

  /**
   * A dispatch whose reducer returns the current state changes nothing;
   * otherwise the hook holds the new state and an update is queued for the
   * fiber that is `wipFiber` when `dispatch` runs, not necessarily the one
   * that owns the hook.
   */
  lemma DispatchEffect(s: Shared, h: nat, r: Reducer, action: Value, call: (Value, seq<Value>) -> Value)
    requires SharedOk(s) && h < |s.hooks| && s.hooks[h].ReducerHook? && s.wipFiber.Some?
    ensures var t := DispatchStep(s, h, r, action, call); var next := Reduce(r, s.hooks[h].state, action, call);
      SharedOk(t)
      && (t == s <==> next == s.hooks[h].state)
      && (next != s.hooks[h].state ==>
            t.hooks[h] == ReducerHook(next)
            && t.pendingUpdates == s.pendingUpdates + [if s.isCommitting then s.wipFiber.value else |s.fibers|]
            && (!s.isCommitting ==> t.fibers[|s.fibers|].alternate == s.wipFiber))
  {
    var next := Reduce(r, s.hooks[h].state, action, call);
    if next != s.hooks[h].state {
      var s1 := s.(hooks := s.hooks[h := ReducerHook(next)]);
      assert SharedOk(s1) by {
        forall i | 0 <= i < |s1.fibers| ensures FiberOk(s1.fibers, |s1.hooks|, i) {
          assert FiberOk(s.fibers, |s.hooks|, i);
        }
      }
      ScheduledUpdateOk(s1, s.wipFiber.value);
      var t := DispatchStep(s, h, r, action, call);
      assert t.hooks[h] == ReducerHook(next);
      if !s.isCommitting {
        UpdateRequestLinks(s1.fibers, s.wipFiber.value);
      }
    }
  }

  /** `dispatch(action)`, the closure `useReducer` stores on the hook, run with reducer `r`. */
  method Dispatch(rt: Runtime, h: nat, r: Reducer, action: Value, call: (Value, seq<Value>) -> Value)
    requires rt.Valid() && h < |rt.hooks| && rt.hooks[h].ReducerHook? && rt.wipFiber.Some?
    modifies rt, rt.queue
    ensures rt.Valid()
    ensures rt.State() == DispatchStep(old(rt.State()), h, r, action, call)
    ensures old(rt.State()) == rt.State() || old(rt.isCommitting) ==> unchanged(rt.queue)
  {
    DispatchEffect(rt.State(), h, r, action, call);
    var newState := Reduce(r, rt.hooks[h].state, action, call);
    if newState != rt.hooks[h].state {
      rt.hooks := rt.hooks[h := ReducerHook(newState)];
      assert rt.Valid() by {
        forall i | 0 <= i < |rt.fibers| ensures FiberOk(rt.fibers, |rt.hooks|, i) {
          assert FiberOk(old(rt.fibers), |old(rt.hooks)|, i);
        }
      }
      rt.ScheduleUpdate(rt.wipFiber.value);
    }
  }

  /** `useEffect(effect, deps)`: a new slot records effect and deps; a reused one keeps the first render's. */
  method UseEffect(rt: Runtime, effect: Value, deps: Value)
    requires rt.Valid() && HasWip(rt.State())
    modifies rt
    ensures rt.Valid() && HasWip(rt.State())
    ensures rt.State() == BaseHookStep(old(rt.State()), EffectHook(effect, Undefined, deps, None)).0
  {
    var _ := BaseHook(rt, EffectHook(effect, Undefined, deps, None));
  }

  /** `useLayoutEffect(effect, deps)` */
  method UseLayoutEffect(rt: Runtime, effect: Effect, deps: Value)
    requires rt.Valid() && HasWip(rt.State())
    modifies rt
    ensures rt.Valid() && HasWip(rt.State())
    ensures rt.State() == BaseHookStep(old(rt.State()), LayoutEffectHook(effect, Undefined, deps)).0
  {
    var _ := BaseHook(rt, LayoutEffectHook(effect, Undefined, deps));
  }

  /** The state after `useImperativeHandle(ref, create, deps)`: an imperative-handle slot, then a layout-effect slot. */
  function ImperativeHandleStep(s: Shared, ref: Value, create: Value, deps: Value): Shared
    requires SharedOk(s) && HasWip(s)
  {
    BaseHookOk(s, ImperativeHandleHook(ref, create, deps));
    var s1 := BaseHookStep(s, ImperativeHandleHook(ref, create, deps)).0;
    BaseHookStep(s1, LayoutEffectHook(ImperativeHandleEffect(ref, create), Undefined, deps)).0
  }

  /** `useImperativeHandle` takes two slots of the same fiber. */
  lemma ImperativeHandleTakesTwoSlots(s: Shared, ref: Value, create: Value, deps: Value)
    requires SharedOk(s) && HasWip(s)
    ensures var t := ImperativeHandleStep(s, ref, create, deps); var w := s.wipFiber.value;
      t.hookIndex == s.hookIndex + 2
      && |t.fibers[w].hooks.value| == |s.fibers[w].hooks.value| + 2
      && t.fibers[w].hooks.value[..|s.fibers[w].hooks.value|] == s.fibers[w].hooks.value
  {
    var made := ImperativeHandleHook(ref, create, deps);
    BaseHookOk(s, made);
    var s1 := BaseHookStep(s, made).0;
    BaseHookAdvances(s, made);
    BaseHookAdvances(s1, LayoutEffectHook(ImperativeHandleEffect(ref, create), Undefined, deps));
  }

  /** `useImperativeHandle(ref, create, deps)` */
  method UseImperativeHandle(rt: Runtime, ref: Value, create: Value, deps: Value)
    requires rt.Valid() && HasWip(rt.State())
    modifies rt
    ensures rt.Valid() && HasWip(rt.State())
    ensures rt.State() == ImperativeHandleStep(old(rt.State()), ref, create, deps)
  {
    var _ := BaseHook(rt, ImperativeHandleHook(ref, create, deps));
    UseLayoutEffect(rt, ImperativeHandleEffect(ref, create), deps);
  }

  /** The id `useId` gives the `n`-th new id slot: `:r<n>:`. */
  function IdFor(n: nat): string {
    ":r" + NatToString(n) + ":"
  }

  lemma {:induction false} NatToStringLength(n: nat)
    ensures n >= 10 ==> |NatToString(n)| >= 2
  {
    if n >= 10 {
      assert NatToString(n) == NatToString(n / 10) + [DigitChar(n % 10)];
    }
  }

  lemma {:induction false} NatToStringInjective(n: nat, m: nat)
    requires NatToString(n) == NatToString(m)
    ensures n == m
    decreases n
  {
    NatToStringLength(n);
    NatToStringLength(m);
    if n < 10 && m < 10 {
      assert DigitChar(n) == NatToString(n)[0] == NatToString(m)[0] == DigitChar(m);
    } else if n >= 10 && m >= 10 {
      var a := NatToString(n / 10);
      var b := NatToString(m / 10);
      assert NatToString(n) == a + [DigitChar(n % 10)];
      assert NatToString(m) == b + [DigitChar(m % 10)];
      assert DigitChar(n % 10) == NatToString(n)[|a|] == NatToString(m)[|b|] == DigitChar(m % 10);
      assert a == NatToString(n)[..|a|] == NatToString(m)[..|b|] == b;
      NatToStringInjective(n / 10, m / 10);
    }
  }

  /** Ids made from different counter values differ. */
  lemma IdsDistinct(n: nat, m: nat)
    ensures IdFor(n) == IdFor(m) <==> n == m
  {
    if IdFor(n) == IdFor(m) {
      var a := NatToString(n);
      var b := NatToString(m);
      assert |a| == |b|;
      assert a == IdFor(n)[2..2 + |a|] == IdFor(m)[2..2 + |b|] == b;
      NatToStringInjective(n, m);
    }
  }

  /** `hook.id`: a reused hook of another kind has no such field. */
  function IdOf(h: Hook): Value {
    if h.IdHook? then Str(h.id) else Undefined
  }

  /**
   * `useId()`: a new slot takes the id of the current counter value and
   * increments the counter; a reused slot returns the id it was given and
   * leaves the counter alone.
   */
  method UseId(rt: Runtime) returns (id: Value)
    requires rt.Valid() && HasWip(rt.State())
    modifies rt
    ensures rt.Valid() && HasWip(rt.State())
    ensures var (t, h) := BaseHookStep(old(rt.State()), IdHook(IdFor(old(rt.globalIdCounter))));
      rt.State() == t.(globalIdCounter := rt.globalIdCounter) && h < |t.hooks| && id == IdOf(t.hooks[h])
    ensures rt.globalIdCounter == old(rt.globalIdCounter) + (if OldHook(old(rt.State())).None? then 1 else 0)
    ensures OldHook(old(rt.State())).None? ==> id == Str(IdFor(old(rt.globalIdCounter)))
  {
    var isNew := OldHook(rt.State()).None?;
    var h := BaseHook(rt, IdHook(IdFor(rt.globalIdCounter)));
    if isNew {
      rt.globalIdCounter := rt.globalIdCounter + 1;
    }
    id := IdOf(rt.hooks[h]);
  }

  /** `hook.memoizedValue` */
  function MemoOf(h: Hook): Value {
    if h.MemoHook? then h.memoizedValue else Undefined
  }

  /** `useMemo(factory, deps)`: the factory runs only for a new slot; later renders return its first value. */
  method UseMemo(rt: Runtime, factory: Value, deps: Value, call: (Value, seq<Value>) -> Value) returns (v: Value)
    requires rt.Valid() && HasWip(rt.State())
    modifies rt
    ensures rt.Valid() && HasWip(rt.State())
    ensures var (t, h) := BaseHookStep(old(rt.State()), MemoHook(call(factory, []), deps));
      rt.State() == t && h < |t.hooks| && v == MemoOf(t.hooks[h])
  {
    var h := BaseHook(rt, MemoHook(call(factory, []), deps));
    v := MemoOf(rt.hooks[h]);
  }

  /** `hook.callback` */
  function CallbackOf(h: Hook): Value {
    if h.CallbackHook? then h.callback else Undefined
  }

  /** `useCallback(callback, deps)`: later renders return the first render's callback. */
  method UseCallback(rt: Runtime, callback: Value, deps: Value) returns (v: Value)
    requires rt.Valid() && HasWip(rt.State())
    modifies rt
    ensures rt.Valid() && HasWip(rt.State())
    ensures var (t, h) := BaseHookStep(old(rt.State()), CallbackHook(callback, deps));
      rt.State() == t && h < |t.hooks| && v == CallbackOf(t.hooks[h])
  {
    var h := BaseHook(rt, CallbackHook(callback, deps));
    v := CallbackOf(rt.hooks[h]);
  }

  /** `useRef(initialValue)`: the hook record itself is the ref object. */
  method UseRef(rt: Runtime, initialValue: Value) returns (h: nat)
    requires rt.Valid() && HasWip(rt.State())
    modifies rt
    ensures rt.Valid() && HasWip(rt.State()) && h < |rt.hooks|
    ensures (rt.State(), h) == BaseHookStep(old(rt.State()), RefHook(initialValue))
  {
    h := BaseHook(rt, RefHook(initialValue));
  }

  /**
   * Later renders see the values of the first: for a slot the alternate
   * filled, `useMemo`, `useCallback`, `useEffect` and `useLayoutEffect`
   * return or keep that record, whatever factory, callback, effect or deps
   * the current render passes; deps are never compared.
   */
  lemma FirstRenderValuesKept(s: Shared, v1: Value, v2: Value, d1: Value, d2: Value)
    requires SharedOk(s) && HasWip(s) && OldHook(s).Some?
    ensures OldHook(s).value < |s.hooks|
    ensures var kept := s.hooks[OldHook(s).value];
      MemoOf(BaseHookStep(s, MemoHook(v1, d1)).0.hooks[BaseHookStep(s, MemoHook(v2, d2)).1]) == MemoOf(kept)
      && CallbackOf(BaseHookStep(s, CallbackHook(v1, d1)).0.hooks[BaseHookStep(s, CallbackHook(v2, d2)).1]) == CallbackOf(kept)
      && BaseHookStep(s, EffectHook(v1, Undefined, d1, None)) == BaseHookStep(s, EffectHook(v2, Undefined, d2, None))
  {
    var alt := s.fibers[s.wipFiber.value].alternate.value;
    assert FiberOk(s.fibers, |s.hooks|, alt);
  }

  /** `useContext(context)`: the context's current value; it takes no hook slot. */
  function UseContext(rt: Runtime, context: Value): (r: Result<Value>)
    reads rt
    ensures r.Throws? <==> context == Null || context == Undefined
    ensures r.Ok? ==> r.value == ContextValue(rt.contextValues, context)
  {
    ReadContext(rt.contextValues, context)
  }

  /**
   * `context._currentValue` given the values providers have set: reading a
   * property of `undefined` or `null` is a TypeError.
   */
  function ReadContext(values: map<Value, Value>, context: Value): (r: Result<Value>)
    ensures r.Throws? <==> context == Null || context == Undefined
  {
    if context == Null || context == Undefined then
      Throws("Cannot read properties of " + (if context == Null then "null" else "undefined") + " (reading '_currentValue')")
    else Ok(ContextValue(values, context))
  }

  /** The value a provider last set, else the value the context was created with; any other value has no such property. */
  function ContextValue(values: map<Value, Value>, context: Value): Value {
    if context in values then values[context]
    else if context.Obj? then Read(context.fields, "_currentValue")
    else Undefined
  }
}
