/**
 * One unit of render work in core/src/reconcile.ts: `performUnitOfWork`
 * with the update step for each kind of fiber (`updateContextProvider`,
 * `updateFragmentComponent`, `updateFunctionComponent`,
 * `updateHostComponent`), `createDom`, and `render`, which starts a render
 * from a container node.
 */
module Work {
  import opened Wrappers
  import opened JsValues
  import opened Fragments
  import opened Host
  import opened Fibers
  import opened Reconcile
  import Hooks
  import PropsDiff
  import Scheduler

  /** The four update steps `performUnitOfWork` chooses between, in the order it tries them. */
  datatype UnitKind = ProviderUnit | FragmentUnit | FunctionUnit | HostUnit

  /** `type.$$typeof === Symbol.for(desc)` */
  predicate TypeTagged(kind: Value, desc: string) {
    kind.Obj? && Read(kind.fields, "$$typeof") == Sym(desc)
  }

  /**
   * The update step a fiber of type `kind` gets: a context provider first,
   * then the `createFragment` function (a function, but never called as a
   * component), then any other function, and everything else as a host node.
   */
  function UnitKindOf(kind: Value): (r: UnitKind)
    ensures r == FunctionUnit ==> TypeOf(kind) == "function" && kind != CREATE_FRAGMENT_FN
    ensures r == HostUnit ==> TypeOf(kind) != "function" && !TypeTagged(kind, "react.provider")
    ensures r == ProviderUnit <==> TypeTagged(kind, "react.provider")
    ensures r == FragmentUnit <==> kind == CREATE_FRAGMENT_FN
  {
    if Truthy(kind) && TypeTagged(kind, "react.provider") then ProviderUnit
    else if kind == CREATE_FRAGMENT_FN then FragmentUnit
    else if TypeOf(kind) == "function" then FunctionUnit
    else HostUnit
  }

  /**
   * `createDom(fiber)`: a string type makes a text node (for
   * `'TEXT_ELEMENT'`) or an element node of that tag, whose props are then
   * applied against `{}`; functions, providers and consumers have no node,
   * and any other type is reported with a warning.
   */
  function CreateDom(d: Document, kind: Value, props: Props): (r: (Document, Option<nat>))
    ensures r.1.Some? <==> kind.Str?
    ensures r.1.Some? ==> r.1.value == d.nodeCount && r.0.nodeCount == d.nodeCount + 1
    ensures r.1.None? ==> r.0.nodeCount == d.nodeCount && r.0.textNodes == d.textNodes
    ensures r.1.Some? ==> |d.log| < |r.0.log|
    ensures r.0.parentOf == d.parentOf && |d.log| <= |r.0.log| && r.0.log[..|d.log|] == d.log
  {
    if kind.Str? then
      var (d1, node) := NewNode(d, kind == TEXT_ELEMENT, kind);
      (PropsDiff.UpdateDom(d1, node, [], props), Some(node))
    else if TypeOf(kind) == "function" || TypeTagged(kind, "react.provider") || TypeTagged(kind, "react.context") then
      (d, None)
    else
      (Emit(d, [Warn(kind)]), None)
  }

  /** A created node is new, detached, and keeps the document well formed. */
  lemma CreateDomFresh(d: Document, kind: Value, props: Props)
    requires WellFormed(d) && kind.Str?
    ensures var (d1, node) := CreateDom(d, kind, props);
      WellFormed(d1) && node.Some? && !Attached(d1, node.value) && !Attached(d, node.value)
      && (node.value in d1.textNodes <==> kind == TEXT_ELEMENT)
      && d1.log[|d.log|] == (if kind == TEXT_ELEMENT then CreateTextNode(d.nodeCount) else CreateElementNode(d.nodeCount, kind))
  {
    NewNodeIsFresh(d, kind == TEXT_ELEMENT, kind);
  }

  /** `typeof children !== undefined` for the steps that test it: the children to reconcile, if any. */
  function Present(children: Value): Option<Value> {
    if children.Undefined? then None else Some(children)
  }

  /**
   * The update step of `fiber` before it reconciles, and the children it
   * then reconciles (`None`: it does not). A provider stores `props.value`
   * as its context's current value; a function component becomes the
   * work-in-progress fiber with hook index 0 and an empty hook list and is
   * called with its props (`call`); a host fiber without a node gets one.
   */
  function Begin(s: Shared, fiber: nat, call: (Value, seq<Value>) -> Value): (r: (Shared, Option<Value>))
    requires fiber < |s.fibers|
  {
    match UnitKindOf(s.fibers[fiber].kind)
    case ProviderUnit => ProviderStep(s, fiber)
    case FragmentUnit => (s, Some(Read(s.fibers[fiber].props, "children")))
    case FunctionUnit => FunctionStep(s, fiber, call)
    case HostUnit => HostStep(s, fiber)
  }

  /** `updateContextProvider` up to `reconcileChildren`. */
  function ProviderStep(s: Shared, fiber: nat): (Shared, Option<Value>)
    requires fiber < |s.fibers| && s.fibers[fiber].kind.Obj?
  {
    var f := s.fibers[fiber];
    var context := Read(f.kind.fields, "_context");
    (s.(contextValues := s.contextValues[context := Read(f.props, "value")]), Present(Read(f.props, "children")))
  }

  /** Fibers whose type is an object, as `updateContextProvider` reads them. */
  predicate ProvidersIn(s: Shared, ps: seq<nat>) {
    forall i :: 0 <= i < |ps| ==> ps[i] < |s.fibers| && s.fibers[ps[i]].kind.Obj?
  }

  /** `updateContextProvider` on each fiber of `ps` in turn, as the work loop meets them. */
  function ProvideAll(s: Shared, ps: seq<nat>): (r: Shared)
    requires ProvidersIn(s, ps)
    ensures r.fibers == s.fibers
    decreases |ps|
  {
    if ps == [] then s else ProvideAll(ProviderStep(s, ps[0]).0, ps[1..])
  }

  /**
   * After a provider runs, `useContext` of its context reads the provider's
   * `props.value`; every other context reads as before.
   */
  lemma ProvidedValueRead(s: Shared, fiber: nat, c: Value)
    requires fiber < |s.fibers| && s.fibers[fiber].kind.Obj?
    ensures var context := Read(s.fibers[fiber].kind.fields, "_context");
      var s1 := ProviderStep(s, fiber).0;
      (context != Null && context != Undefined ==>
        Hooks.ReadContext(s1.contextValues, context) == Ok(Read(s.fibers[fiber].props, "value")))
      && (c != context ==> Hooks.ReadContext(s1.contextValues, c) == Hooks.ReadContext(s.contextValues, c))
  {
  }

  /** Providers of other contexts leave what `useContext(c)` reads unchanged. */
  lemma {:induction false} OtherProvidersKeepValue(s: Shared, ps: seq<nat>, c: Value)
    requires ProvidersIn(s, ps)
    requires forall i :: 0 <= i < |ps| ==> Read(s.fibers[ps[i]].kind.fields, "_context") != c
    ensures Hooks.ReadContext(ProvideAll(s, ps).contextValues, c) == Hooks.ReadContext(s.contextValues, c)
    decreases |ps|
  {
    if ps != [] {
      ProvidedValueRead(s, ps[0], c);
      var s1 := ProviderStep(s, ps[0]).0;
      assert ProvidersIn(s1, ps[1..]) by {
        forall i | 0 <= i < |ps[1..]| ensures ps[1..][i] < |s1.fibers| && s1.fibers[ps[1..][i]].kind.Obj? {
          assert ps[1..][i] == ps[i + 1];
        }
      }
      forall i | 0 <= i < |ps[1..]| ensures Read(s1.fibers[ps[1..][i]].kind.fields, "_context") != c {
        assert ps[1..][i] == ps[i + 1];
      }
      OtherProvidersKeepValue(s1, ps[1..], c);
    }
  }

  /**
   * With no provider of it above, `useContext(context)` reads the value the
   * context was created with: from the initial state, providers of other
   * contexts leave it in place.
   */
  lemma NoProviderReadsOwnValue(d: Document, ps: seq<nat>, fibers: seq<Fiber>, context: Value)
    requires context.Obj?
    requires ProvidersIn(InitialShared(d).(fibers := fibers), ps)
    requires forall i :: 0 <= i < |ps| ==> Read(fibers[ps[i]].kind.fields, "_context") != context
    ensures Hooks.ReadContext(ProvideAll(InitialShared(d).(fibers := fibers), ps).contextValues, context)
      == Ok(Read(context.fields, "_currentValue"))
  {
    OtherProvidersKeepValue(InitialShared(d).(fibers := fibers), ps, context);
  }

  /** `updateFunctionComponent` up to `reconcileChildren`. */
  function FunctionStep(s: Shared, fiber: nat, call: (Value, seq<Value>) -> Value): (Shared, Option<Value>)
    requires fiber < |s.fibers|
  {
    var f := s.fibers[fiber];
    (s.(fibers := s.fibers[fiber := f.(hooks := Some([]))], wipFiber := Some(fiber), hookIndex := 0),
     Some(call(f.kind, [Obj(f.props)])))
  }

  /** `updateHostComponent` up to `reconcileChildren`. */
  function HostStep(s: Shared, fiber: nat): (Shared, Option<Value>)
    requires fiber < |s.fibers|
  {
    var f := s.fibers[fiber];
    var s1 := if f.dom.Some? then s
              else var (d, dom) := CreateDom(s.document, f.kind, f.props);
                   s.(fibers := s.fibers[fiber := f.(dom := dom)], document := d);
    (s1, Present(Read(f.props, "children")))
  }

  /** The reconciler can take the children `Begin` hands it: `olds` is the old chain and the children are ones it handles. */
  predicate UnitReady(s: Shared, fiber: nat, olds: seq<nat>, call: (Value, seq<Value>) -> Value)
    requires fiber < |s.fibers|
  {
    var (s1, children) := Begin(s, fiber, call);
    children.Some? ==> IsChain(s1.fibers, FirstOld(s1.fibers, fiber), olds) && Reconcilable(ChildList(children.value))
  }

  /** The shared variables after `performUnitOfWork(fiber)`: the update step, then `reconcileChildren`. */
  function Performed(s: Shared, fiber: nat, olds: seq<nat>, call: (Value, seq<Value>) -> Value): Shared
    requires fiber < |s.fibers| && UnitReady(s, fiber, olds, call)
  {
    var (s1, children) := Begin(s, fiber, call);
    if children.None? then s1
    else
      var w := Reconcile.Arr(World(s1.fibers, s1.deletions), fiber, olds, ChildList(children.value));
      s1.(fibers := w.fibers, deletions := w.deletions)
  }

  /** From `x` up: the sibling of `x` or of its nearest ancestor that has one. */
  function Climb(fs: seq<Fiber>, x: nat): Option<nat>
    requires x < |fs| && ParentsBelow(fs)
    decreases x
  {
    if fs[x].sibling.Some? then fs[x].sibling
    else if fs[x].parent.Some? then Climb(fs, fs[x].parent.value)
    else None
  }

  /** The fiber `performUnitOfWork(x)` returns: its child, else where `Climb` leads. */
  function NextUnit(fs: seq<Fiber>, x: nat): Option<nat>
    requires x < |fs| && ParentsBelow(fs)
  {
    if fs[x].child.Some? then fs[x].child else Climb(fs, x)
  }

  /** The ancestor of `x` `k` parent links up (`x` itself for 0), if the chain is that long. */
  function Up(fs: seq<Fiber>, x: nat, k: nat): (r: Option<nat>)
    requires x < |fs| && ParentsBelow(fs)
    ensures r.Some? ==> r.value < |fs|
    decreases k
  {
    if k == 0 then Some(x)
    else if fs[x].parent.Some? then Up(fs, fs[x].parent.value, k - 1)
    else None
  }

  /** The ancestor `k` links up exists and has a sibling. */
  predicate SiblingUp(fs: seq<Fiber>, x: nat, k: nat)
    requires x < |fs| && ParentsBelow(fs)
  {
    Up(fs, x, k).Some? && fs[Up(fs, x, k).value].sibling.Some?
  }

  /**
   * When `Climb` finds a fiber, it is the sibling of the nearest
   * ancestor-or-self that has a sibling: `k` links up, with no sibling on
   * any of the `k` fibers below.
   */
  lemma {:induction false} ClimbFinds(fs: seq<Fiber>, x: nat) returns (k: nat)
    requires x < |fs| && ParentsBelow(fs) && Climb(fs, x).Some?
    ensures SiblingUp(fs, x, k) && Climb(fs, x) == fs[Up(fs, x, k).value].sibling
    ensures forall j :: 0 <= j < k ==> !SiblingUp(fs, x, j)
    decreases x
  {
    if fs[x].sibling.Some? {
      k := 0;
    } else {
      var p := fs[x].parent.value;
      var k1 := ClimbFinds(fs, p);
      k := k1 + 1;
      assert Up(fs, x, k) == Up(fs, p, k1);
      forall j | 0 <= j < k ensures !SiblingUp(fs, x, j) {
        if j == 0 {
          assert Up(fs, x, 0) == Some(x);
        } else {
          assert Up(fs, x, j) == Up(fs, p, j - 1);
          assert !SiblingUp(fs, p, j - 1);
        }
      }
    }
  }

  /** When `Climb` finds nothing, no ancestor-or-self of `x` has a sibling. */
  lemma {:induction false} ClimbNone(fs: seq<Fiber>, x: nat, k: nat)
    requires x < |fs| && ParentsBelow(fs) && Climb(fs, x).None?
    ensures !SiblingUp(fs, x, k)
    decreases x
  {
    if k > 0 && fs[x].parent.Some? {
      ClimbNone(fs, fs[x].parent.value, k - 1);
    }
  }

  /** Changing one fiber's `dom` or emptying its hook list keeps the arena consistent. */
  lemma FiberTouchOk(fs: seq<Fiber>, hc: nat, x: nat, g: Fiber)
    requires ArenaOk(fs, hc) && x < |fs|
    requires g == fs[x].(dom := g.dom, hooks := g.hooks) && (g.hooks.Some? ==> g.hooks.value == [] || g.hooks == fs[x].hooks)
    ensures ArenaOk(fs[x := g], hc)
  {
    var gs := fs[x := g];
    forall i | 0 <= i < |gs| ensures FiberOk(gs, hc, i) {
      assert FiberOk(fs, hc, i);
    }
  }

  /** `context._currentValue = fiber.props.value` in `updateContextProvider`. */
  method SetProviderValue(rt: Runtime, fiber: nat)
    requires rt.Valid() && fiber < |rt.fibers| && rt.fibers[fiber].kind.Obj?
    modifies rt
    ensures rt.Valid() && rt.State() == ProviderStep(old(rt.State()), fiber).0
    ensures var context := Read(rt.fibers[fiber].kind.fields, "_context");
      context != Null && context != Undefined ==> Hooks.UseContext(rt, context) == Ok(Read(rt.fibers[fiber].props, "value"))
  {
    var f := rt.fibers[fiber];
    var context := Read(f.kind.fields, "_context");
    rt.contextValues := rt.contextValues[context := Read(f.props, "value")];
  }

  /** `updateFunctionComponent` before the call: the fiber becomes `wipFiber`, the hook index 0, its hook list empty. */
  method StartFunctionComponent(rt: Runtime, fiber: nat)
    requires rt.Valid() && fiber < |rt.fibers|
    modifies rt
    ensures rt.Valid()
    ensures rt.State() == old(rt.State()).(fibers := old(rt.fibers)[fiber := old(rt.fibers)[fiber].(hooks := Some([]))],
                                          wipFiber := Some(fiber), hookIndex := 0)
  {
    FiberTouchOk(rt.fibers, |rt.hooks|, fiber, rt.fibers[fiber].(hooks := Some([])));
    rt.SetWipFiber(fiber);
    rt.SetHookIndex(0);
    rt.fibers := rt.fibers[fiber := rt.fibers[fiber].(hooks := Some([]))];
  }

  /** Giving a host fiber its node keeps the shared variables consistent. */
  lemma HostStepOk(s: Shared, fiber: nat)
    requires SharedOk(s) && fiber < |s.fibers|
    ensures SharedOk(HostStep(s, fiber).0)
  {
    var f := s.fibers[fiber];
    if f.dom.None? {
      var made := CreateDom(s.document, f.kind, f.props);
      if f.kind.Str? {
        CreateDomFresh(s.document, f.kind, f.props);
      }
      FiberTouchOk(s.fibers, |s.hooks|, fiber, f.(dom := made.1));
    }
  }

  /** `if (!fiber.dom) fiber.dom = createDom(fiber)` in `updateHostComponent`. */
  method EnsureHostDom(rt: Runtime, fiber: nat)
    requires rt.Valid() && fiber < |rt.fibers|
    modifies rt
    ensures rt.Valid() && rt.State() == HostStep(old(rt.State()), fiber).0
  {
    HostStepOk(rt.State(), fiber);
    var f := rt.fibers[fiber];
    if f.dom.None? {
      var made := CreateDom(rt.document, f.kind, f.props);
      rt.document := made.0;
      rt.fibers := rt.fibers[fiber := f.(dom := made.1)];
    }
  }

  /**
   * The update step `performUnitOfWork` picks for the fiber's type
   * (`updateContextProvider`, `updateFragmentComponent`,
   * `updateFunctionComponent` or `updateHostComponent`) up to its call of
   * `reconcileChildren`, whose argument it returns (`None`: no call).
   */
  method BeginWork(rt: Runtime, fiber: nat, call: (Value, seq<Value>) -> Value) returns (children: Option<Value>)
    requires rt.Valid() && fiber < |rt.fibers|
    modifies rt
    ensures rt.Valid() && (rt.State(), children) == Begin(old(rt.State()), fiber, call)
  {
    ghost var s := rt.State();
    var f := rt.fibers[fiber];
    if Truthy(f.kind) && f.kind.Obj? && Read(f.kind.fields, "$$typeof") == Sym("react.provider") {
      SetProviderValue(rt, fiber);
      var c := Read(f.props, "children");
      children := if c.Undefined? then None else Some(c);
    } else if f.kind == CREATE_FRAGMENT_FN {
      children := Some(Read(f.props, "children"));
    } else if f.kind.Fn? {
      StartFunctionComponent(rt, fiber);
      children := Some(call(f.kind, [Obj(f.props)]));
    } else {
      EnsureHostDom(rt, fiber);
      var c := Read(f.props, "children");
      children := if c.Undefined? then None else Some(c);
    }
  }

  /**
   * `performUnitOfWork(fiber)`: the update step for the fiber's type with
   * its reconciliation, then the next unit: the fiber's child if it has one,
   * else the sibling of the fiber or of its nearest ancestor that has one,
   * else null.
   */
  method PerformUnitOfWork(rt: Runtime, fiber: nat, ghost olds: seq<nat>, call: (Value, seq<Value>) -> Value)
    returns (next: Option<nat>)
    requires rt.Valid() && fiber < |rt.fibers| && UnitReady(rt.State(), fiber, olds, call)
    modifies rt
    ensures rt.Valid() && rt.State() == Performed(old(rt.State()), fiber, olds, call)
    ensures ParentsBelow(rt.fibers) && fiber < |rt.fibers| && next == NextUnit(rt.fibers, fiber)
  {
    var children := BeginWork(rt, fiber, call);
    if children.Some? {
      var fs, ds := ReconcileChildren(rt.fibers, rt.deletions, |rt.hooks|, fiber, children.value, olds);
      rt.SetWorld(fs, ds);
    }
    ArenaParentsBelow(rt.fibers, |rt.hooks|);
    next := FindNext(rt.fibers, fiber);
  }

  /** The search at the end of `performUnitOfWork` for the next fiber to work on. */
  method FindNext(fs: seq<Fiber>, fiber: nat) returns (next: Option<nat>)
    requires ParentsBelow(fs) && fiber < |fs|
    ensures next == NextUnit(fs, fiber)
  {
    if fs[fiber].child.Some? {
      return fs[fiber].child;
    }
    var nextFiber: Option<nat> := Some(fiber);
    while nextFiber.Some?
      invariant nextFiber.Some? ==> nextFiber.value < |fs| && Climb(fs, nextFiber.value) == Climb(fs, fiber)
      invariant nextFiber.None? ==> Climb(fs, fiber).None?
      decreases if nextFiber.Some? then nextFiber.value + 1 else 0
    {
      var h := fs[nextFiber.value];
      if h.sibling.Some? {
        return h.sibling;
      }
      nextFiber := h.parent;
    }
    return None;
  }

  /**
   * The shared variables after `render(element, container)`: a new root
   * fiber of the container's node name, with the element as its only child
   * and the container as its node, paired with the current root through
   * `alternate` both ways, becomes the work-in-progress root and the next
   * unit of work.
   */
  function Rendered(s: Shared, element: Value, container: nat, nodeName: Value): Shared
    requires InArena(s.fibers, s.currentRoot)
  {
    var n := |s.fibers|;
    var root := CreateFiber(nodeName, [("children", Arr([element]))], Some(container), Null).(alternate := s.currentRoot);
    var fs := s.fibers + [root];
    s.(fibers := if s.currentRoot.Some? then fs[s.currentRoot.value := fs[s.currentRoot.value].(alternate := Some(n))] else fs,
       wipRoot := Some(n), nextUnitOfWork := Some(n))
  }

  /** What `render` sets up, and that nothing else changes. */
  lemma RenderedRoot(s: Shared, element: Value, container: nat, nodeName: Value)
    requires SharedOk(s)
    ensures var r := Rendered(s, element, container, nodeName); var n := |s.fibers|;
      SharedOk(r) && |r.fibers| == n + 1 && r.wipRoot == Some(n) && r.nextUnitOfWork == Some(n)
      && r.fibers[n].kind == nodeName && r.fibers[n].dom == Some(container) && r.fibers[n].ref == Null
      && Read(r.fibers[n].props, "children") == Arr([element])
      && r.fibers[n].parent.None? && r.fibers[n].child.None? && r.fibers[n].sibling.None?
      && r.fibers[n].effectTag.None? && r.fibers[n].hooks.None?
      && r.fibers[n].alternate == s.currentRoot
      && (s.currentRoot.Some? ==> r.fibers[s.currentRoot.value] == s.fibers[s.currentRoot.value].(alternate := Some(n)))
      && (forall i :: 0 <= i < n && Some(i) != s.currentRoot ==> r.fibers[i] == s.fibers[i])
      && r == s.(fibers := r.fibers, wipRoot := Some(n), nextUnitOfWork := Some(n))
  {
    var r := Rendered(s, element, container, nodeName);
    forall i | 0 <= i < |r.fibers| ensures FiberOk(r.fibers, |r.hooks|, i) {
      if i < |s.fibers| {
        assert FiberOk(s.fibers, |s.hooks|, i);
      }
    }
  }

  /** `render(element, container)`, the container's `nodeName` being `nodeName`; the work loop is scheduled. */
  method Render(rt: Runtime, element: Value, container: nat, nodeName: Value)
    requires rt.Valid()
    modifies rt, rt.queue
    ensures rt.Valid() && rt.State() == Rendered(old(rt.State()), element, container, nodeName)
    ensures rt.queue.Snapshot() == Scheduler.Schedule(old(rt.queue.Snapshot()), WorkLoop).0
  {
    ghost var s := rt.State();
    RenderedRoot(s, element, container, nodeName);
    var n := |rt.fibers|;
    var newFiber := CreateFiber(nodeName, [("children", Arr([element]))], Some(container), Null);
    newFiber := newFiber.(alternate := rt.currentRoot);
    var fs := rt.fibers + [newFiber];
    if rt.currentRoot.Some? {
      fs := fs[rt.currentRoot.value := fs[rt.currentRoot.value].(alternate := Some(n))];
    }
    rt.fibers := fs;
    rt.SetWipRoot(Some(n));
    rt.SetNextUnitOfWork(Some(n));
    assert rt.State() == Rendered(s, element, container, nodeName);
    var _ := rt.queue.ScheduleWork(WorkLoop);
  }
}
