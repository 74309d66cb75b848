/**
 * The commit phase of core/src/reconcile.ts: `commitWork` and the
 * `commitDeletion` family write the finished fibers to the host document,
 * `setRef` hands nodes to refs, the three hook walks (`runLayoutEffects`,
 * `runEffects`, `storeEffectWorkId`) run and tag effect hooks, and
 * `commitRoot` puts them in order and then reschedules the updates queued
 * meanwhile.
 *
 * `commitWork` and the walks follow `child` and `sibling` links, which an
 * updated fiber copies from the fiber it replaces and which nothing forces
 * to be acyclic; they take a `fuel` bound on the depth of the recursion.
 */
module Commit {
  import opened Wrappers
  import opened JsValues
  import opened Host
  import opened Fibers
  import PropsDiff
  import Scheduler

  /** `setRef(ref, value)`: a function ref is called, an object ref gets `current`, any other ref is ignored. */
  function SetRefOps(ref: Value, value: Value): (r: seq<HostOp>)
    ensures |r| <= 1
    ensures r == [] <==> TypeOf(ref) != "function" && (TypeOf(ref) != "object" || ref == Null)
  {
    if TypeOf(ref) == "function" then [CallRef(ref, value)]
    else if ref != Null && TypeOf(ref) == "object" then [AssignCurrent(ref, value)]
    else []
  }

  /** `if (ref) setRef(ref, value)` */
  function RefIfSet(ref: Value, value: Value): seq<HostOp> {
    if Truthy(ref) then SetRefOps(ref, value) else []
  }

  /** The truthiness test in front of each `setRef` changes nothing: a falsy ref is never a function or an object. */
  lemma RefGuardRedundant(ref: Value, value: Value)
    ensures RefIfSet(ref, value) == SetRefOps(ref, value)
  {
  }

  /**
   * The loop at the head of `commitWork`: from `x` up the parent links, the
   * first fiber that has a node; `None` when the links run out first.
   */
  function DomParentFiber(fs: seq<Fiber>, x: Option<nat>): (r: Option<nat>)
    requires ParentsBelow(fs) && InArena(fs, x)
    ensures r.Some? ==> r.value < |fs| && fs[r.value].dom.Some?
    decreases if x.Some? then x.value + 1 else 0
  {
    if x.None? then None
    else if fs[x.value].dom.Some? then x
    else DomParentFiber(fs, fs[x.value].parent)
  }

  /** Every node a fiber holds is one the document created. */
  predicate DomsKnown(fs: seq<Fiber>, d: Document) {
    forall i :: 0 <= i < |fs| && fs[i].dom.Some? ==> fs[i].dom.value < d.nodeCount
  }

  /** The links every walk follows name fibers of the arena. */
  predicate Linked(fs: seq<Fiber>) {
    ParentsBelow(fs)
    && forall i :: 0 <= i < |fs| ==>
         (InArena(fs, fs[i].parent) && InArena(fs, fs[i].child) && InArena(fs, fs[i].sibling) && InArena(fs, fs[i].alternate))
  }

  lemma ArenaLinked(fs: seq<Fiber>, hc: nat)
    requires ArenaOk(fs, hc)
    ensures Linked(fs)
  {
    ArenaParentsBelow(fs, hc);
    forall i | 0 <= i < |fs|
      ensures InArena(fs, fs[i].parent) && InArena(fs, fs[i].child) && InArena(fs, fs[i].sibling) && InArena(fs, fs[i].alternate)
    {
      assert FiberOk(fs, hc, i);
    }
  }

  /**
   * `commitDeletionSingle(fiber, domParent)`: the fiber's ref is set to null,
   * then its node is removed from `parent` if it is attached at all.
   */
  function DeleteSingle(d: Document, f: Fiber, parent: nat): (r: Document)
    requires f.dom.Some?
    ensures !Attached(r, f.dom.value)
    ensures r.log == d.log + RefIfSet(f.ref, Null) + (if Attached(d, f.dom.value) then [RemoveChild(parent, f.dom.value)] else [])
    ensures forall n :: n != f.dom.value ==> (Attached(r, n) <==> Attached(d, n))
    ensures r.nodeCount == d.nodeCount && (WellFormed(d) ==> WellFormed(r))
  {
    var d1 := Emit(d, RefIfSet(f.ref, Null));
    if Attached(d1, f.dom.value) then Remove(d1, parent, f.dom.value) else d1
  }

  /**
   * `commitDeletionRecursive(fiber, domParent)`: a fiber with a node loses
   * it, one without descends to its child; either way the walk then goes on
   * to the fiber's sibling.
   */
  function DeletionWalk(fs: seq<Fiber>, d: Document, x: nat, parent: nat, fuel: nat): (r: Document)
    requires Linked(fs) && x < |fs|
    ensures |d.log| <= |r.log| && r.log[..|d.log|] == d.log
    ensures r.nodeCount == d.nodeCount && (WellFormed(d) ==> WellFormed(r))
    decreases fuel
  {
    if fuel == 0 then d
    else
      var f := fs[x];
      var d1 := if f.dom.Some? then DeleteSingle(d, f, parent)
                else if f.child.Some? then DeletionWalk(fs, d, f.child.value, parent, fuel - 1)
                else d;
      if f.sibling.Some? then
        var r := DeletionWalk(fs, d1, f.sibling.value, parent, fuel - 1);
        assert r.log[..|d.log|] == r.log[..|d1.log|][..|d.log|];
        r
      else d1
  }

  /** `commitDeletion(fiber, domParent)` */
  function CommitDeletion(fs: seq<Fiber>, d: Document, x: nat, parent: nat, fuel: nat): (r: Document)
    requires Linked(fs) && x < |fs|
    ensures |d.log| <= |r.log| && r.log[..|d.log|] == d.log
    ensures r.nodeCount == d.nodeCount && (WellFormed(d) ==> WellFormed(r))
  {
    if fs[x].dom.Some? then DeleteSingle(d, fs[x], parent) else DeletionWalk(fs, d, x, parent, fuel)
  }

  /**
   * As written, deleting a fiber without a node also deletes the nodes of
   * the siblings that follow it, which are not part of what was deleted: a
   * node-less fiber with no child, followed by a sibling whose node is
   * attached, takes that node out of the document.
   */
  lemma DeletionReachesSiblings(fs: seq<Fiber>, d: Document, x: nat, parent: nat, fuel: nat)
    requires Linked(fs) && x < |fs| && 2 <= fuel
    requires fs[x].dom.None? && fs[x].child.None? && fs[x].sibling.Some?
    requires fs[fs[x].sibling.value].dom.Some? && Attached(d, fs[fs[x].sibling.value].dom.value)
    ensures var node := fs[fs[x].sibling.value].dom.value; var r := CommitDeletion(fs, d, x, parent, fuel);
      !Attached(r, node) && RemoveChild(parent, node) in r.log
  {
    var y := fs[x].sibling.value;
    var node := fs[y].dom.value;
    var d1 := DeleteSingle(d, fs[y], parent);
    assert d1.log[|d1.log| - 1] == RemoveChild(parent, node);
    assert CommitDeletion(fs, d, x, parent, fuel) == DeletionWalk(fs, d, y, parent, fuel - 1);
    if fs[y].sibling.Some? {
      var r := DeletionWalk(fs, d1, fs[y].sibling.value, parent, fuel - 2);
      DeletionWalkKeepsDetached(fs, d1, fs[y].sibling.value, parent, fuel - 2, node);
      assert r.log[..|d1.log|] == d1.log;
      assert r.log[|d1.log| - 1] == d1.log[|d1.log| - 1];
    }
  }

  /** A deletion walk never attaches a node. */
  lemma {:induction false} DeletionWalkKeepsDetached(fs: seq<Fiber>, d: Document, x: nat, parent: nat, fuel: nat, node: nat)
    requires Linked(fs) && x < |fs| && !Attached(d, node)
    ensures !Attached(DeletionWalk(fs, d, x, parent, fuel), node)
    decreases fuel
  {
    if fuel > 0 {
      var f := fs[x];
      var d1 := if f.dom.Some? then DeleteSingle(d, f, parent)
                else if f.child.Some? then DeletionWalk(fs, d, f.child.value, parent, fuel - 1)
                else d;
      if f.dom.None? && f.child.Some? {
        DeletionWalkKeepsDetached(fs, d, f.child.value, parent, fuel - 1, node);
      }
      if f.sibling.Some? {
        DeletionWalkKeepsDetached(fs, d1, f.sibling.value, parent, fuel - 1, node);
      }
    }
  }

  /**
   * `commitWork` on one fiber, before it recurses: `(document, false)` when
   * it throws, which it does when no ancestor has a node (`domParentFiber!`)
   * and when an updated fiber with a node has no alternate
   * (`fiber.alternate!.props`).
   */
  function CommitFiber(fs: seq<Fiber>, d: Document, x: nat, fuel: nat): (r: (Document, bool))
    requires Linked(fs) && x < |fs|
    ensures |d.log| <= |r.0.log| && r.0.log[..|d.log|] == d.log
    ensures !r.1 ==> r.0 == d
    ensures r.0.nodeCount == d.nodeCount && (WellFormed(d) && DomsKnown(fs, d) ==> WellFormed(r.0))
  {
    var f := fs[x];
    var domParentFiber := DomParentFiber(fs, f.parent);
    if domParentFiber.None? then (d, false)
    else
      var parent := fs[domParentFiber.value].dom.value;
      if f.effectTag == Some(Placement) && f.dom.Some? then
        (Emit(Append(d, parent, f.dom.value), RefIfSet(f.ref, Node(f.dom.value))), true)
      else if f.effectTag == Some(Update) && f.dom.Some? then
        if f.alternate.None? then (d, false)
        else
          var alt := fs[f.alternate.value];
          var d1 := PropsDiff.UpdateDom(d, f.dom.value, alt.props, f.props);
          (Emit(d1, if f.ref != alt.ref then RefIfSet(alt.ref, Null) + RefIfSet(f.ref, Node(f.dom.value)) else []), true)
      else if f.effectTag == Some(Deletion) then
        (CommitDeletion(fs, d, x, parent, fuel), true)
      else
        (d, true)
  }

  /**
   * `commitWork(fiber)`: the fiber, then its child's subtree, then its
   * sibling's, stopping at the first throw (`false`).
   */
  function CommitWork(fs: seq<Fiber>, d: Document, x: Option<nat>, fuel: nat): (r: (Document, bool))
    requires Linked(fs) && InArena(fs, x)
    ensures |d.log| <= |r.0.log| && r.0.log[..|d.log|] == d.log
    ensures r.0.nodeCount == d.nodeCount && (WellFormed(d) && DomsKnown(fs, d) ==> WellFormed(r.0))
    decreases fuel
  {
    if x.None? || fuel == 0 then (d, true)
    else
      var f := fs[x.value];
      var (d1, ok1) := CommitFiber(fs, d, x.value, fuel);
      if !ok1 then (d1, false)
      else
        var (d2, ok2) := CommitWork(fs, d1, f.child, fuel - 1);
        assert d2.log[..|d.log|] == d2.log[..|d1.log|][..|d.log|];
        if !ok2 then (d2, false)
        else
          var r := CommitWork(fs, d2, f.sibling, fuel - 1);
          assert r.0.log[..|d.log|] == r.0.log[..|d2.log|][..|d.log|];
          r
  }

  /** The node a fiber's tree hangs under: that of its nearest ancestor with a node. */
  function HostParent(fs: seq<Fiber>, x: nat): Option<nat>
    requires Linked(fs) && x < |fs|
  {
    var p := DomParentFiber(fs, fs[x].parent);
    if p.Some? then fs[p.value].dom else None
  }

  /**
   * A placed fiber with a node has it appended to the host parent and then
   * hands it to its ref.
   */
  lemma PlacementCommitted(fs: seq<Fiber>, d: Document, x: nat, fuel: nat)
    requires Linked(fs) && x < |fs| && fs[x].effectTag == Some(Placement) && fs[x].dom.Some? && HostParent(fs, x).Some?
    ensures var (r, ok) := CommitFiber(fs, d, x, fuel); var node := fs[x].dom.value; var parent := HostParent(fs, x).value;
      ok && Attached(r, node) && r.parentOf[node] == parent
      && r.log == d.log + [AppendChild(parent, node)] + SetRefOps(fs[x].ref, Node(node))
  {
  }

  /**
   * An updated fiber with a node has its props diffed against its
   * alternate's, in place; when the ref changed, the old ref is set to null
   * before the new ref gets the node.
   */
  lemma UpdateCommitted(fs: seq<Fiber>, d: Document, x: nat, fuel: nat)
    requires Linked(fs) && x < |fs| && fs[x].effectTag == Some(Update) && fs[x].dom.Some? && HostParent(fs, x).Some?
    requires fs[x].alternate.Some?
    ensures var (r, ok) := CommitFiber(fs, d, x, fuel); var node := fs[x].dom.value; var alt := fs[fs[x].alternate.value];
      var diff := PropsDiff.UpdateDom(d, node, alt.props, fs[x].props);
      ok && r.parentOf == d.parentOf
      && r.log == diff.log + (if fs[x].ref == alt.ref then [] else SetRefOps(alt.ref, Null) + SetRefOps(fs[x].ref, Node(node)))
  {
    var f := fs[x];
    var node := f.dom.value;
    var alt := fs[f.alternate.value];
    var d1 := PropsDiff.UpdateDom(d, node, alt.props, f.props);
    RefGuardRedundant(alt.ref, Null);
    RefGuardRedundant(f.ref, Node(node));
    var ops := if f.ref != alt.ref then RefIfSet(alt.ref, Null) + RefIfSet(f.ref, Node(node)) else [];
    assert CommitFiber(fs, d, x, fuel) == (Emit(d1, ops), true);
  }

  /** `commitWork` throws exactly when no ancestor has a node, or an updated fiber with a node has no alternate. */
  lemma CommitFiberThrows(fs: seq<Fiber>, d: Document, x: nat, fuel: nat)
    requires Linked(fs) && x < |fs|
    ensures !CommitFiber(fs, d, x, fuel).1 <==>
      HostParent(fs, x).None? || (fs[x].effectTag == Some(Update) && fs[x].dom.Some? && fs[x].alternate.None?)
  {
  }

  /** A fiber without a tag changes nothing. */
  lemma UntaggedCommitted(fs: seq<Fiber>, d: Document, x: nat, fuel: nat)
    requires Linked(fs) && x < |fs| && fs[x].effectTag.None? && HostParent(fs, x).Some?
    ensures CommitFiber(fs, d, x, fuel) == (d, true)
  {
  }

  /** Which hook walk runs: `runLayoutEffects`, `runEffects`, or `storeEffectWorkId(_, workId)`. */
  datatype Phase = LayoutPhase | EffectPhase | StorePhase(workId: nat)

  /** Two hooks of the same kind, that is, with the same `tag`. */
  predicate SameKind(a: Hook, b: Hook) {
    a.EffectHook? == b.EffectHook? && a.LayoutEffectHook? == b.LayoutEffectHook?
    && a.ReducerHook? == b.ReducerHook? && a.ImperativeHandleHook? == b.ImperativeHandleHook?
    && a.IdHook? == b.IdHook? && a.MemoHook? == b.MemoHook? && a.CallbackHook? == b.CallbackHook?
  }

  /** Hooks of the same kind carry the same `tag`. */
  lemma SameKindSameTag(a: Hook, b: Hook)
    requires SameKind(a, b)
    ensures HookTag(a) == HookTag(b)
  {
  }

  /** The hooks a walk acts on: layout effects and imperative handles, or effects. */
  predicate Targets(phase: Phase, h: Hook) {
    if phase.LayoutPhase? then h.LayoutEffectHook? || h.ImperativeHandleHook? else h.EffectHook?
  }

  /** How an imperative handle reaches its ref: a function ref is called, any other non-null ref gets `current`. */
  function HandleOps(ref: Value, value: Value): (r: seq<HostOp>)
    ensures |r| <= 1 && (r == [] <==> ref == Null)
  {
    if TypeOf(ref) == "function" then [CallRef(ref, value)]
    else if ref != Null then [AssignCurrent(ref, value)]
    else []
  }

  /** `if (hook.cleanup) hook.cleanup()` */
  function CleanupOps(cleanup: Value): seq<HostOp> {
    if Truthy(cleanup) then [Call(cleanup)] else []
  }

  /** The cleanup kept after an effect returned `result`: only a function replaces the old one. */
  function NextCleanup(cleanup: Value, result: Value): (r: Value)
    ensures r == result || r == cleanup
    ensures TypeOf(r) == "function" <==> TypeOf(result) == "function" || TypeOf(cleanup) == "function"
  {
    if TypeOf(result) == "function" then result else cleanup
  }

  /**
   * Calling a layout effect: a component's own effect is called and its
   * result returned; the closure `useImperativeHandle` registers calls
   * `create`, hands the value to the ref and returns nothing.
   */
  function RunEffect(e: Effect, call: (Value, seq<Value>) -> Value): (r: (seq<HostOp>, Value))
    ensures e.UserEffect? ==> r.0 == [Call(e.fn)]
    ensures e.ImperativeHandleEffect? ==> r.1 == Undefined && 1 <= |r.0| && r.0[0] == Call(e.create)
  {
    match e
    case UserEffect(fn) => ([Call(fn)], call(fn, []))
    case ImperativeHandleEffect(ref, create) => ([Call(create)] + HandleOps(ref, call(create, [])), Undefined)
  }

  /**
   * The body of the `forEach` of one walk, on one hook: the hook as it is
   * left, and the host calls made.
   */
  function HookStep(phase: Phase, h: Hook, call: (Value, seq<Value>) -> Value): (r: (Hook, seq<HostOp>))
    ensures SameKind(r.0, h)
    ensures !Targets(phase, h) ==> r == (h, [])
    ensures phase.StorePhase? ==> r.1 == []
    ensures phase.StorePhase? && h.EffectHook? ==> r.0 == EffectHook(h.effect, h.cleanup, h.deps, Some(phase.workId))
    ensures phase.EffectPhase? && h.EffectHook? ==>
      r.0.workId.None? && r.0.effect == h.effect && r.0.deps == h.deps && Call(h.effect) in r.1
  {
    if phase.LayoutPhase? && h.LayoutEffectHook? then
      var (ops, result) := RunEffect(h.layoutEffect, call);
      (LayoutEffectHook(h.layoutEffect, NextCleanup(h.cleanup, result), h.deps), CleanupOps(h.cleanup) + ops)
    else if phase.LayoutPhase? && h.ImperativeHandleHook? then
      (h, [Call(h.create)] + HandleOps(h.ref, call(h.create, [])))
    else if phase.EffectPhase? && h.EffectHook? then
      var result := call(h.effect, []);
      (EffectHook(h.effect, NextCleanup(h.cleanup, result), h.deps, None), CleanupOps(h.cleanup) + [Call(h.effect)])
    else if phase.StorePhase? && h.EffectHook? then
      (EffectHook(h.effect, h.cleanup, h.deps, Some(phase.workId)), [])
    else
      (h, [])
  }

  /** `fiber.hooks.forEach(...)` for the hook handles `ids`, first to last. */
  function HooksStep(phase: Phase, hooks: seq<Hook>, ids: seq<nat>, call: (Value, seq<Value>) -> Value): (r: (seq<Hook>, seq<HostOp>))
    requires forall k :: 0 <= k < |ids| ==> ids[k] < |hooks|
    ensures |r.0| == |hooks|
    decreases |ids|
  {
    if ids == [] then (hooks, [])
    else
      var (h, ops) := HookStep(phase, hooks[ids[0]], call);
      var (hs, more) := HooksStep(phase, hooks[ids[0] := h], ids[1..], call);
      (hs, ops + more)
  }

  /**
   * A walk over a hook list keeps every hook's kind, leaves alone the hooks
   * it does not visit or does not act on, and stores work ids silently.
   */
  lemma {:induction false} HooksStepKeeps(phase: Phase, hooks: seq<Hook>, ids: seq<nat>, call: (Value, seq<Value>) -> Value)
    requires forall k :: 0 <= k < |ids| ==> ids[k] < |hooks|
    ensures var r := HooksStep(phase, hooks, ids, call);
      (forall i :: 0 <= i < |hooks| ==> SameKind(r.0[i], hooks[i]))
      && (forall i :: 0 <= i < |hooks| && (i !in ids || !Targets(phase, hooks[i])) ==> r.0[i] == hooks[i])
      && (phase.StorePhase? ==> r.1 == [])
    decreases |ids|
  {
    if ids != [] {
      var (h, ops) := HookStep(phase, hooks[ids[0]], call);
      var hooks1 := hooks[ids[0] := h];
      HooksStepKeeps(phase, hooks1, ids[1..], call);
      var r := HooksStep(phase, hooks, ids, call);
      forall i | 0 <= i < |hooks| && (i !in ids || !Targets(phase, hooks[i]))
        ensures r.0[i] == hooks[i]
      {
        assert i !in ids[1..] || !Targets(phase, hooks1[i]);
      }
    }
  }

  /**
   * One walk from fiber `x`: its hooks, then its child's subtree, then its
   * sibling's.
   */
  function PhaseWalk(phase: Phase, fs: seq<Fiber>, hooks: seq<Hook>, x: Option<nat>, fuel: nat, call: (Value, seq<Value>) -> Value): (r: (seq<Hook>, seq<HostOp>))
    requires ArenaOk(fs, |hooks|) && InArena(fs, x)
    ensures |r.0| == |hooks|
    ensures forall i :: 0 <= i < |hooks| ==> SameKind(r.0[i], hooks[i])
    ensures forall i :: 0 <= i < |hooks| && !Targets(phase, hooks[i]) ==> r.0[i] == hooks[i]
    ensures phase.StorePhase? ==> r.1 == []
    decreases fuel
  {
    if x.None? || fuel == 0 then (hooks, [])
    else
      var f := fs[x.value];
      assert FiberOk(fs, |hooks|, x.value);
      var (h1, ops1) := if f.hooks.Some? then HooksStepKeeps(phase, hooks, f.hooks.value, call); HooksStep(phase, hooks, f.hooks.value, call) else (hooks, []);
      var (h2, ops2) := PhaseWalk(phase, fs, h1, f.child, fuel - 1, call);
      var (h3, ops3) := PhaseWalk(phase, fs, h2, f.sibling, fuel - 1, call);
      (h3, ops1 + ops2 + ops3)
  }

  /**
   * `storeEffectWorkId` tags every effect hook of the list with the work id
   * and leaves every other hook as it was.
   */
  lemma {:induction false} StoreTagsEffects(hooks: seq<Hook>, ids: seq<nat>, id: nat, call: (Value, seq<Value>) -> Value)
    requires forall k :: 0 <= k < |ids| ==> ids[k] < |hooks|
    ensures var r := HooksStep(StorePhase(id), hooks, ids, call).0;
      forall k :: 0 <= k < |ids| && hooks[ids[k]].EffectHook? ==> r[ids[k]] == EffectHook(hooks[ids[k]].effect, hooks[ids[k]].cleanup, hooks[ids[k]].deps, Some(id))
    decreases |ids|
  {
    if ids != [] {
      var h := HookStep(StorePhase(id), hooks[ids[0]], call).0;
      var hooks1 := hooks[ids[0] := h];
      StoreTagsEffects(hooks1, ids[1..], id, call);
      HooksStepKeeps(StorePhase(id), hooks1, ids[1..], call);
      var r := HooksStep(StorePhase(id), hooks, ids, call).0;
      assert r == HooksStep(StorePhase(id), hooks1, ids[1..], call).0;
      forall k | 0 <= k < |ids| && hooks[ids[k]].EffectHook?
        ensures r[ids[k]] == EffectHook(hooks[ids[k]].effect, hooks[ids[k]].cleanup, hooks[ids[k]].deps, Some(id))
      {
        if ids[k] in ids[1..] {
          var j :| 0 <= j < |ids[1..]| && ids[1..][j] == ids[k];
          assert hooks1[ids[k]].EffectHook?;
        }
      }
    }
  }

  /**
   * `runEffects` leaves every effect hook of the list without a work id,
   * its effect and deps as they were.
   */
  lemma {:induction false} EffectsClearWorkIds(hooks: seq<Hook>, ids: seq<nat>, call: (Value, seq<Value>) -> Value)
    requires forall k :: 0 <= k < |ids| ==> ids[k] < |hooks|
    ensures var r := HooksStep(EffectPhase, hooks, ids, call).0;
      forall k :: 0 <= k < |ids| && hooks[ids[k]].EffectHook? ==>
        r[ids[k]].EffectHook? && r[ids[k]].workId.None? && r[ids[k]].effect == hooks[ids[k]].effect && r[ids[k]].deps == hooks[ids[k]].deps
    decreases |ids|
  {
    if ids != [] {
      var h := HookStep(EffectPhase, hooks[ids[0]], call).0;
      var hooks1 := hooks[ids[0] := h];
      EffectsClearWorkIds(hooks1, ids[1..], call);
      HooksStepKeeps(EffectPhase, hooks1, ids[1..], call);
      var r := HooksStep(EffectPhase, hooks, ids, call).0;
      assert r == HooksStep(EffectPhase, hooks1, ids[1..], call).0;
      forall k | 0 <= k < |ids| && hooks[ids[k]].EffectHook?
        ensures r[ids[k]].EffectHook? && r[ids[k]].workId.None? && r[ids[k]].effect == hooks[ids[k]].effect && r[ids[k]].deps == hooks[ids[k]].deps
      {
        if ids[k] in ids[1..] {
          var j :| 0 <= j < |ids[1..]| && ids[1..][j] == ids[k];
          assert hooks1[ids[k]].EffectHook?;
        }
      }
    }
  }

  /** `runEffects` calls the effect of every effect hook of the list, whatever its deps. */
  lemma {:induction false} EffectsAllRun(hooks: seq<Hook>, ids: seq<nat>, call: (Value, seq<Value>) -> Value)
    requires forall k :: 0 <= k < |ids| ==> ids[k] < |hooks|
    ensures var ops := HooksStep(EffectPhase, hooks, ids, call).1;
      forall k :: 0 <= k < |ids| && hooks[ids[k]].EffectHook? ==> Call(hooks[ids[k]].effect) in ops
    decreases |ids|
  {
    if ids != [] {
      var (h, ops0) := HookStep(EffectPhase, hooks[ids[0]], call);
      var hooks1 := hooks[ids[0] := h];
      EffectsAllRun(hooks1, ids[1..], call);
      var ops := HooksStep(EffectPhase, hooks, ids, call).1;
      var more := HooksStep(EffectPhase, hooks1, ids[1..], call).1;
      assert ops == ops0 + more;
      forall k | 0 <= k < |ids| && hooks[ids[k]].EffectHook?
        ensures Call(hooks[ids[k]].effect) in ops
      {
        if k == 0 {
          assert ops[|ops0| - 1] == Call(hooks[ids[0]].effect);
        } else {
          assert ids[1..][k - 1] == ids[k];
          assert hooks1[ids[k]].effect == hooks[ids[k]].effect;
          assert Call(hooks1[ids[1..][k - 1]].effect) in more;
        }
      }
    }
  }

  /**
   * An effect that returns something other than a function leaves the
   * previous cleanup in place, so the next run of the effects calls that
   * cleanup again.
   */
  lemma StaleCleanupKept(h: Hook, call: (Value, seq<Value>) -> Value)
    requires h.EffectHook? && Truthy(h.cleanup) && TypeOf(call(h.effect, [])) != "function"
    ensures var (h1, ops1) := HookStep(EffectPhase, h, call);
      h1.cleanup == h.cleanup && ops1[0] == Call(h.cleanup)
      && HookStep(EffectPhase, h1, call).1[0] == Call(h.cleanup)
  {
  }

  /** A layout effect's cleanup runs before the effect itself, and the effect is run whatever its deps. */
  lemma LayoutCleanupFirst(h: Hook, deps: Value, call: (Value, seq<Value>) -> Value)
    requires h.LayoutEffectHook? && Truthy(h.cleanup) && h.layoutEffect.UserEffect?
    ensures HookStep(LayoutPhase, h, call).1 == [Call(h.cleanup), Call(h.layoutEffect.fn)]
    ensures HookStep(LayoutPhase, LayoutEffectHook(h.layoutEffect, h.cleanup, deps), call).1 == HookStep(LayoutPhase, h, call).1
  {
  }

  /** Peeling the hook at position `i` off a walk over the handles `ids[i..]`. */
  lemma HooksStepAt(phase: Phase, hooks: seq<Hook>, ids: seq<nat>, i: nat, call: (Value, seq<Value>) -> Value)
    requires i < |ids| && forall k :: 0 <= k < |ids| ==> ids[k] < |hooks|
    ensures var step := HookStep(phase, hooks[ids[i]], call);
      var rest := HooksStep(phase, hooks[ids[i] := step.0], ids[i + 1..], call);
      HooksStep(phase, hooks, ids[i..], call) == (rest.0, step.1 + rest.1)
  {
    assert ids[i..][1..] == ids[i + 1..];
  }

  lemma OpsAssoc(a: seq<HostOp>, b: seq<HostOp>, c: seq<HostOp>)
    ensures (a + b) + c == a + (b + c)
  {
  }

  /** The `forEach` loop of a walk over the hook handles `ids`, on a copy of the hooks. */
  method StepHooks(phase: Phase, hooks: seq<Hook>, ids: seq<nat>, call: (Value, seq<Value>) -> Value)
    returns (hs: seq<Hook>, ops: seq<HostOp>)
    requires forall k :: 0 <= k < |ids| ==> ids[k] < |hooks|
    ensures (hs, ops) == HooksStep(phase, hooks, ids, call)
  {
    ghost var r := HooksStep(phase, hooks, ids, call);
    hs := hooks;
    ops := [];
    var i := 0;
    assert ids[i..] == ids;
    while i < |ids|
      invariant 0 <= i <= |ids| && |hs| == |hooks|
      invariant r.0 == HooksStep(phase, hs, ids[i..], call).0
      invariant r.1 == ops + HooksStep(phase, hs, ids[i..], call).1
    {
      var step := HookStep(phase, hs[ids[i]], call);
      HooksStepAt(phase, hs, ids, i, call);
      ghost var rest := HooksStep(phase, hs[ids[i] := step.0], ids[i + 1..], call).1;
      OpsAssoc(ops, step.1, rest);
      hs := hs[ids[i] := step.0];
      ops := ops + step.1;
      i := i + 1;
    }
    assert ids[i..] == [];
    assert ops + [] == ops;
  }

  /** `fiber.hooks.forEach(...)` on the runtime's hooks, the host calls going to its document. */
  method RunHooks(rt: Runtime, phase: Phase, ids: seq<nat>, call: (Value, seq<Value>) -> Value)
    requires forall k :: 0 <= k < |ids| ==> ids[k] < |rt.hooks|
    modifies rt
    ensures var (hs, ops) := HooksStep(phase, old(rt.hooks), ids, call);
      rt.State() == old(rt.State()).(hooks := hs, document := Emit(old(rt.document), ops))
  {
    var hs, ops := StepHooks(phase, rt.hooks, ids, call);
    rt.hooks := hs;
    rt.document := Emit(rt.document, ops);
  }

  /** One walk from fiber `x`, on a copy of the hooks; the host calls made are returned in order. */
  method WalkHooks(phase: Phase, fs: seq<Fiber>, hooks: seq<Hook>, x: Option<nat>, fuel: nat, call: (Value, seq<Value>) -> Value)
    returns (hs: seq<Hook>, ops: seq<HostOp>)
    requires ArenaOk(fs, |hooks|) && InArena(fs, x)
    ensures (hs, ops) == PhaseWalk(phase, fs, hooks, x, fuel, call)
    decreases fuel
  {
    if x.None? || fuel == 0 {
      return hooks, [];
    }
    var f := fs[x.value];
    assert FiberOk(fs, |hooks|, x.value);
    var ops1: seq<HostOp> := [];
    hs := hooks;
    if f.hooks.Some? {
      hs, ops1 := StepHooks(phase, hooks, f.hooks.value, call);
    }
    var ops2, ops3;
    hs, ops2 := WalkHooks(phase, fs, hs, f.child, fuel - 1, call);
    hs, ops3 := WalkHooks(phase, fs, hs, f.sibling, fuel - 1, call);
    ops := ops1 + ops2 + ops3;
  }

  /** A walk from `x` on the runtime's hooks, the host calls going to its document. */
  method Walk(rt: Runtime, phase: Phase, x: Option<nat>, fuel: nat, call: (Value, seq<Value>) -> Value)
    requires rt.Valid() && InArena(rt.fibers, x)
    modifies rt
    ensures rt.Valid()
    ensures var (hs, ops) := PhaseWalk(phase, old(rt.fibers), old(rt.hooks), x, fuel, call);
      rt.State() == old(rt.State()).(hooks := hs, document := Emit(old(rt.document), ops))
  {
    var hs, ops := WalkHooks(phase, rt.fibers, rt.hooks, x, fuel, call);
    rt.hooks := hs;
    rt.document := Emit(rt.document, ops);
  }

  /** `runLayoutEffects(root)` */
  method RunLayoutEffects(rt: Runtime, root: nat, fuel: nat, call: (Value, seq<Value>) -> Value)
    requires rt.Valid() && root < |rt.fibers|
    modifies rt
    ensures rt.Valid()
    ensures var (hs, ops) := PhaseWalk(LayoutPhase, old(rt.fibers), old(rt.hooks), Some(root), fuel, call);
      rt.State() == old(rt.State()).(hooks := hs, document := Emit(old(rt.document), ops))
  {
    Walk(rt, LayoutPhase, Some(root), fuel, call);
  }

  /** `runEffects(root)`, the job `commitRoot` schedules. */
  method RunEffects(rt: Runtime, root: nat, fuel: nat, call: (Value, seq<Value>) -> Value)
    requires rt.Valid() && root < |rt.fibers|
    modifies rt
    ensures rt.Valid()
    ensures var (hs, ops) := PhaseWalk(EffectPhase, old(rt.fibers), old(rt.hooks), Some(root), fuel, call);
      rt.State() == old(rt.State()).(hooks := hs, document := Emit(old(rt.document), ops))
  {
    Walk(rt, EffectPhase, Some(root), fuel, call);
  }

  /** `storeEffectWorkId(root, workId)`: the document is not touched. */
  method StoreEffectWorkId(rt: Runtime, root: nat, workId: nat, fuel: nat)
    requires rt.Valid() && root < |rt.fibers|
    modifies rt
    ensures rt.Valid()
    ensures rt.State() == old(rt.State()).(hooks := PhaseWalk(StorePhase(workId), old(rt.fibers), old(rt.hooks), Some(root), fuel, NoCall).0)
  {
    Walk(rt, StorePhase(workId), Some(root), fuel, NoCall);
    assert rt.document.log == old(rt.document.log) + [];
  }

  /** The store walk calls nothing; any stand-in for the calls will do. */
  function NoCall(f: Value, args: seq<Value>): Value {
    Undefined
  }

  /**
   * One turn of the drain loop at the end of `commitRoot`, on the arena and
   * the pending list: the head of `pendingUpdates` goes to `scheduleUpdate`,
   * which (the commit being over) appends a request fiber for it and queues
   * that in turn.
   */
  function DrainStep(fs: seq<Fiber>, pending: seq<nat>): (r: (seq<Fiber>, seq<nat>))
    requires AllInArena(fs, pending) && pending != []
    ensures AllInArena(r.0, r.1) && |r.0| == |fs| + 1 && r.1 == pending[1..] + [|fs|]
  {
    (UpdateRequest(fs, pending[0]), pending[1..] + [|fs|])
  }

  /** The turn is `scheduleUpdate` on the head, once it is off the list and no commit is running. */
  lemma DrainStepSchedules(s: Shared)
    requires !s.isCommitting && AllInArena(s.fibers, s.pendingUpdates) && s.pendingUpdates != []
    ensures var (fs, pending) := DrainStep(s.fibers, s.pendingUpdates);
      ScheduledUpdate(s.(pendingUpdates := s.pendingUpdates[1..]), s.pendingUpdates[0]) == s.(fibers := fs, pendingUpdates := pending)
  {
  }

  /** `n` turns of the drain loop; it stops early only when the list runs empty. */
  function DrainSteps(fs: seq<Fiber>, pending: seq<nat>, n: nat): (r: (seq<Fiber>, seq<nat>))
    requires AllInArena(fs, pending)
    ensures AllInArena(r.0, r.1) && |fs| <= |r.0|
    decreases n
  {
    if n == 0 || pending == [] then (fs, pending)
    else
      var (fs1, pending1) := DrainStep(fs, pending);
      DrainSteps(fs1, pending1, n - 1)
  }

  /**
   * As written, the drain loop never ends once anything is pending:
   * `scheduleUpdate` queues a new request fiber for each one taken off, so
   * after any number of turns the list is exactly as long as before and
   * `pendingUpdates.length > 0` still holds.
   */
  lemma {:induction false} DrainNeverEmpties(fs: seq<Fiber>, pending: seq<nat>, n: nat)
    requires pending != [] && AllInArena(fs, pending)
    ensures |DrainSteps(fs, pending, n).1| == |pending| > 0
    decreases n
  {
    if n > 0 {
      var (fs1, pending1) := DrainStep(fs, pending);
      DrainNeverEmpties(fs1, pending1, n - 1);
    }
  }

  /**
   * `m` turns of the drain, `m` at most the number pending: the first `m`
   * fibers are taken off and one request fiber per turn is appended to the
   * arena and queued.
   */
  lemma {:induction false} DrainQueue(fs: seq<Fiber>, pending: seq<nat>, m: nat)
    requires AllInArena(fs, pending) && m <= |pending|
    ensures var r := DrainSteps(fs, pending, m);
      |r.0| == |fs| + m && r.1 == pending[m..] + seq(m, k => |fs| + k)
    decreases m
  {
    var n := |fs|;
    if m == 0 {
      assert pending[0..] == pending;
    } else {
      var (fs1, pending1) := DrainStep(fs, pending);
      DrainQueue(fs1, pending1, m - 1);
      assert pending1[m - 1..] == pending[m..] + [n];
      assert [n] + seq(m - 1, k => n + 1 + k) == seq(m, k => n + k);
    }
  }

  /** In `m` turns of the drain, the old fibers that were not among the first `m` pending are unchanged. */
  lemma {:induction false} DrainKeepsOthers(fs: seq<Fiber>, pending: seq<nat>, m: nat)
    requires AllInArena(fs, pending) && m <= |pending|
    ensures var r := DrainSteps(fs, pending, m);
      forall i :: 0 <= i < |fs| && i !in pending[..m] ==> r.0[i] == fs[i]
    decreases m
  {
    if m > 0 {
      var (fs1, pending1) := DrainStep(fs, pending);
      UpdateRequestLinks(fs, pending[0]);
      DrainKeepsOthers(fs1, pending1, m - 1);
      var q := pending1[..m - 1];
      forall j | 0 <= j < |q| ensures q[j] == pending[..m][j + 1] {
        assert q[j] == pending[j + 1];
      }
      assert pending[0] == pending[..m][0];
    }
  }

  /** Fiber `i` is a request fiber made for fiber `target`: tagged Update, with `target` as its alternate. */
  predicate RequestFor(fs: seq<Fiber>, i: nat, target: nat) {
    i < |fs| && fs[i].alternate == Some(target) && fs[i].effectTag == Some(Update)
  }

  /**
   * In `m` turns of the drain, the request fiber appended at turn `k` is
   * tagged Update and has the `k`-th pending fiber as its alternate.
   */
  lemma {:induction false} DrainRequestFibers(fs: seq<Fiber>, pending: seq<nat>, m: nat)
    requires AllInArena(fs, pending) && m <= |pending|
    ensures var r := DrainSteps(fs, pending, m);
      |r.0| == |fs| + m
      && forall k :: 0 <= k < m ==> RequestFor(r.0, |fs| + k, pending[k])
    decreases m
  {
    if m > 0 {
      var n := |fs|;
      var (fs1, pending1) := DrainStep(fs, pending);
      assert fs1[n].alternate == Some(pending[0]) && fs1[n].effectTag == Some(Update);
      DrainRequestFibers(fs1, pending1, m - 1);
      DrainKeepsOthers(fs1, pending1, m - 1);
      var r := DrainSteps(fs1, pending1, m - 1);
      var q := pending1[..m - 1];
      forall j | 0 <= j < |q| ensures q[j] < n {
        assert q[j] == pending[j + 1];
      }
      assert r.0[n + 0] == fs1[n];
      forall k | 0 < k < m
        ensures RequestFor(r.0, n + k, pending[k])
      {
        assert pending1[k - 1] == pending[k];
        assert r.0[n + 1 + (k - 1)] == r.0[n + k];
      }
    }
  }

  /**
   * With the number of turns fixed to what was pending when the loop
   * started, the drain ends, and each fiber that was pending has had
   * exactly one update requested for it, in order.
   */
  lemma DrainedRequests(fs: seq<Fiber>, pending: seq<nat>)
    requires AllInArena(fs, pending)
    ensures var r := DrainSteps(fs, pending, |pending|);
      |r.0| == |fs| + |pending|
      && r.1 == seq(|pending|, k => |fs| + k)
      && (forall k :: 0 <= k < |pending| ==> RequestFor(r.0, |fs| + k, pending[k]))
  {
    var r := DrainSteps(fs, pending, |pending|);
    DrainQueue(fs, pending, |pending|);
    DrainRequestFibers(fs, pending, |pending|);
    assert pending[|pending|..] == [];
    assert r.1 == seq(|pending|, k => |fs| + k);
  }

  /** `n` requests for the imported work loop, as `scheduleUpdate` makes them outside a commit. */
  function Requests(n: nat): (r: seq<Job>)
    ensures |r| == n && forall k :: 0 <= k < n ==> r[k] == ImportedWorkLoop
  {
    seq(n, _ => ImportedWorkLoop)
  }

  /** One turn of the drain loop: `scheduleUpdate(pendingUpdates.shift()!)`. */
  method DrainOne(rt: Runtime)
    requires rt.Valid() && !rt.isCommitting && rt.pendingUpdates != []
    modifies rt, rt.queue
    ensures rt.Valid()
    ensures var (fs, pending) := DrainStep(old(rt.fibers), old(rt.pendingUpdates));
      rt.State() == old(rt.State()).(fibers := fs, pendingUpdates := pending)
    ensures rt.queue.Snapshot() == Scheduler.Schedule(old(rt.queue.Snapshot()), ImportedWorkLoop).0
  {
    DrainStepSchedules(rt.State());
    var update := rt.pendingUpdates[0];
    rt.pendingUpdates := rt.pendingUpdates[1..];
    rt.ScheduleUpdate(update);
  }

  /**
   * The drain loop at the end of `commitRoot`, run for as many turns as
   * there were updates pending when it started, so that it ends.
   */
  method DrainPending(rt: Runtime)
    requires rt.Valid() && !rt.isCommitting
    modifies rt, rt.queue
    ensures rt.Valid()
    ensures var (fs, pending) := DrainSteps(old(rt.fibers), old(rt.pendingUpdates), |old(rt.pendingUpdates)|);
      rt.State() == old(rt.State()).(fibers := fs, pendingUpdates := pending)
    ensures rt.queue.Snapshot() == Scheduler.ScheduleAll(old(rt.queue.Snapshot()), Requests(|old(rt.pendingUpdates)|)).0
  {
    ghost var s0 := rt.State();
    ghost var q0 := rt.queue.Snapshot();
    var n := |rt.pendingUpdates|;
    var i := 0;
    while i < n
      invariant 0 <= i <= n && rt.Valid() && !rt.isCommitting && |rt.pendingUpdates| == n
      invariant DrainSteps(s0.fibers, s0.pendingUpdates, n) == DrainSteps(rt.fibers, rt.pendingUpdates, n - i)
      invariant rt.State() == s0.(fibers := rt.fibers, pendingUpdates := rt.pendingUpdates)
      invariant rt.queue.Snapshot() == Scheduler.ScheduleAll(q0, Requests(i)).0
    {
      ghost var step := DrainStep(rt.fibers, rt.pendingUpdates);
      assert DrainSteps(rt.fibers, rt.pendingUpdates, n - i) == DrainSteps(step.0, step.1, n - i - 1);
      DrainOne(rt);
      Scheduler.ScheduleAllSnoc(q0, Requests(i), ImportedWorkLoop);
      assert Requests(i + 1) == Requests(i) + [ImportedWorkLoop];
      i := i + 1;
    }
  }

  /**
   * `deletions.forEach(commitWork)`, stopping at the first throw, with each
   * deleted fiber committed on its own: its subtree and its siblings are not
   * visited (see `DeletedChildReattached` for what visiting them does).
   */
  function CommitDeletions(fs: seq<Fiber>, d: Document, dels: seq<nat>, fuel: nat): (r: (Document, bool))
    requires Linked(fs) && AllInArena(fs, dels)
    ensures |d.log| <= |r.0.log| && r.0.log[..|d.log|] == d.log
    ensures r.0.nodeCount == d.nodeCount && (WellFormed(d) && DomsKnown(fs, d) ==> WellFormed(r.0))
    decreases |dels|
  {
    if dels == [] then (d, true)
    else
      var (d1, ok) := CommitFiber(fs, d, dels[0], fuel);
      if !ok then (d1, false)
      else
        var r := CommitDeletions(fs, d1, dels[1..], fuel);
        assert r.0.log[..|d.log|] == r.0.log[..|d1.log|][..|d.log|];
        r
  }

  /** The `forEach` over the deletions, on a copy of the document. */
  method CommitEach(fs: seq<Fiber>, d: Document, dels: seq<nat>, fuel: nat) returns (r: Document, ok: bool)
    requires Linked(fs) && AllInArena(fs, dels)
    ensures (r, ok) == CommitDeletions(fs, d, dels, fuel)
  {
    r := d;
    var i := 0;
    while i < |dels|
      invariant 0 <= i <= |dels|
      invariant CommitDeletions(fs, d, dels, fuel) == CommitDeletions(fs, r, dels[i..], fuel)
    {
      assert dels[i..][1..] == dels[i + 1..];
      var step := CommitFiber(fs, r, dels[i], fuel);
      if !step.1 {
        return step.0, false;
      }
      r := step.0;
      i := i + 1;
    }
    ok := true;
  }

  /**
   * The host part of `commitRoot`: the deletions, then the new tree below the
   * root; `false` when a `commitWork` throws.
   */
  function HostCommitted(s: Shared, fuel: nat): (r: (Document, bool))
    requires SharedOk(s) && s.wipRoot.Some?
    ensures |s.document.log| <= |r.0.log| && r.0.log[..|s.document.log|] == s.document.log
    ensures r.0.nodeCount == s.document.nodeCount
    ensures DomsKnown(s.fibers, s.document) ==> WellFormed(r.0)
  {
    ArenaLinked(s.fibers, |s.hooks|);
    var root := s.wipRoot.value;
    assert FiberOk(s.fibers, |s.hooks|, root);
    var (d1, ok1) := CommitDeletions(s.fibers, s.document, s.deletions, fuel);
    if !ok1 then (d1, false)
    else
      var r := CommitWork(s.fibers, d1, s.fibers[root].child, fuel);
      assert r.0.log[..|s.document.log|] == r.0.log[..|d1.log|][..|s.document.log|];
      r
  }

  /**
   * The rest of `commitRoot`, once the host is written: the layout effects
   * run, the effects are scheduled under `workId` and their hooks tagged with
   * it, the finished root becomes the current root, there is no root in
   * progress, the commit is over, and the pending updates are drained.
   */
  function Finished(s: Shared, workId: nat, fuel: nat, call: (Value, seq<Value>) -> Value): (r: Shared)
    requires ArenaOk(s.fibers, |s.hooks|) && s.wipRoot.Some? && s.wipRoot.value < |s.fibers|
    requires AllInArena(s.fibers, s.pendingUpdates)
  {
    var root := s.wipRoot.value;
    var (hs1, ops) := PhaseWalk(LayoutPhase, s.fibers, s.hooks, Some(root), fuel, call);
    var hs2 := PhaseWalk(StorePhase(workId), s.fibers, hs1, Some(root), fuel, NoCall).0;
    var (fs, pending) := DrainSteps(s.fibers, s.pendingUpdates, |s.pendingUpdates|);
    s.(fibers := fs, hooks := hs2, document := Emit(s.document, ops), currentRoot := Some(root), wipRoot := None,
       isCommitting := false, pendingUpdates := pending)
  }

  /**
   * `commitRoot()` when the effects job gets the id `workId`: the shared
   * variables afterwards, and `false` when it throws, which leaves
   * `isCommitting` set.
   */
  function Committed(s: Shared, workId: nat, fuel: nat, call: (Value, seq<Value>) -> Value): (r: (Shared, bool))
    requires SharedOk(s) && s.wipRoot.Some?
  {
    var (d, ok) := HostCommitted(s, fuel);
    var s1 := s.(isCommitting := true, document := d);
    if !ok then (s1, false) else (Finished(s1, workId, fuel, call), true)
  }

  /** The host part of `commitRoot` on the runtime. */
  method CommitHost(rt: Runtime, fuel: nat) returns (ok: bool)
    requires rt.Valid() && rt.wipRoot.Some? && DomsKnown(rt.fibers, rt.document)
    modifies rt
    ensures rt.Valid()
    ensures (rt.document, ok) == HostCommitted(old(rt.State()), fuel)
    ensures rt.State() == old(rt.State()).(document := rt.document)
  {
    ArenaLinked(rt.fibers, |rt.hooks|);
    var root := rt.wipRoot.value;
    assert FiberOk(rt.fibers, |rt.hooks|, root);
    var d;
    d, ok := CommitEach(rt.fibers, rt.document, rt.deletions, fuel);
    if ok {
      var step := CommitWork(rt.fibers, d, rt.fibers[root].child, fuel);
      d, ok := step.0, step.1;
    }
    rt.document := d;
  }

  /** The rest of `commitRoot` on the runtime, once the host is written. */
  method FinishCommit(rt: Runtime, fuel: nat, call: (Value, seq<Value>) -> Value)
    requires rt.Valid() && rt.wipRoot.Some?
    modifies rt, rt.queue
    ensures rt.Valid()
    ensures rt.State() == Finished(old(rt.State()), old(rt.queue.nextWorkId), fuel, call)
    ensures rt.queue.Snapshot() ==
      Scheduler.ScheduleAll(Scheduler.Schedule(old(rt.queue.Snapshot()), Job.RunEffects(old(rt.wipRoot).value)).0,
        Requests(|old(rt.pendingUpdates)|)).0
  {
    var root := rt.wipRoot.value;
    RunLayoutEffects(rt, root, fuel, call);
    var workId := rt.queue.ScheduleWork(Job.RunEffects(root));
    StoreEffectWorkId(rt, root, workId, fuel);
    rt.SetCurrentRoot(Some(root));
    rt.SetWipRoot(None);
    rt.isCommitting := false;
    DrainPending(rt);
  }

  /**
   * `commitRoot()`. Every fiber's node is one the document created. The
   * effects job is scheduled, then one imported work loop per update that
   * was pending; a throw leaves the scheduler as it was.
   */
  method CommitRoot(rt: Runtime, fuel: nat, call: (Value, seq<Value>) -> Value) returns (ok: bool)
    requires rt.Valid() && rt.wipRoot.Some? && DomsKnown(rt.fibers, rt.document)
    modifies rt, rt.queue
    ensures rt.Valid()
    ensures (rt.State(), ok) == Committed(old(rt.State()), old(rt.queue.nextWorkId), fuel, call)
    ensures ok ==> (rt.queue.Snapshot() ==
      Scheduler.ScheduleAll(Scheduler.Schedule(old(rt.queue.Snapshot()), Job.RunEffects(old(rt.wipRoot).value)).0,
        Requests(|old(rt.pendingUpdates)|)).0)
    ensures !ok ==> rt.queue.Snapshot() == old(rt.queue.Snapshot())
  {
    rt.isCommitting := true;
    ok := CommitHost(rt, fuel);
    if ok {
      FinishCommit(rt, fuel, call);
    }
  }

  /**
   * A commit that completes makes the finished root the current root,
   * leaves no root in progress, ends the commit, keeps the deletion list
   * (it is never cleared), and leaves one request fiber per update that was
   * pending, queued in order.
   */
  lemma CommitSwapsRoots(s: Shared, workId: nat, fuel: nat, call: (Value, seq<Value>) -> Value)
    requires SharedOk(s) && s.wipRoot.Some?
    requires Committed(s, workId, fuel, call).1
    ensures var r := Committed(s, workId, fuel, call).0; var n := |s.fibers|; var p := s.pendingUpdates;
      r.currentRoot == s.wipRoot && r.wipRoot.None? && !r.isCommitting && r.deletions == s.deletions
      && |r.fibers| == n + |p| && r.pendingUpdates == seq(|p|, k => n + k)
      && (forall k :: 0 <= k < |p| ==> RequestFor(r.fibers, n + k, p[k]))
  {
    DrainedRequests(s.fibers, s.pendingUpdates);
  }

  /**
   * A commit that throws leaves `isCommitting` set and the root in
   * progress in place, so every later `scheduleUpdate` only queues its
   * fiber and never schedules a render.
   */
  lemma FailedCommitStuck(s: Shared, workId: nat, fuel: nat, call: (Value, seq<Value>) -> Value, fiber: nat)
    requires SharedOk(s) && s.wipRoot.Some? && fiber < |s.fibers|
    requires !Committed(s, workId, fuel, call).1
    ensures var r := Committed(s, workId, fuel, call).0;
      r.isCommitting && r.wipRoot == s.wipRoot && r.currentRoot == s.currentRoot && r.hooks == s.hooks
      && ScheduledUpdate(r, fiber) == r.(pendingUpdates := r.pendingUpdates + [fiber])
  {
  }

  /**
   * The host calls of a completed commit come in order: those of the
   * deletions, then those of the new tree, then those of the layout
   * effects; tagging the effects makes none.
   */
  lemma CommitOrder(s: Shared, workId: nat, fuel: nat, call: (Value, seq<Value>) -> Value)
    requires SharedOk(s) && s.wipRoot.Some?
    requires Committed(s, workId, fuel, call).1
    ensures ArenaOk(s.fibers, |s.hooks|) && Linked(s.fibers)
    ensures var r := Committed(s, workId, fuel, call).0; var host := HostCommitted(s, fuel).0;
      var deleted := CommitDeletions(s.fibers, s.document, s.deletions, fuel).0;
      |deleted.log| <= |host.log| && host.log[..|deleted.log|] == deleted.log
      && r.document.log == host.log + PhaseWalk(LayoutPhase, s.fibers, s.hooks, s.wipRoot, fuel, call).1
  {
    ArenaLinked(s.fibers, |s.hooks|);
    var root := s.wipRoot.value;
    assert FiberOk(s.fibers, |s.hooks|, root);
    var deleted := CommitDeletions(s.fibers, s.document, s.deletions, fuel).0;
    var host := HostCommitted(s, fuel).0;
    assert host == CommitWork(s.fibers, deleted, s.fibers[root].child, fuel).0;
  }

  /** A store walk leaves every hook as it was or tags it with the work id, never anything else. */
  lemma {:induction false} StoreWalkTags(fs: seq<Fiber>, hooks: seq<Hook>, x: Option<nat>, fuel: nat, workId: nat)
    requires ArenaOk(fs, |hooks|) && InArena(fs, x)
    ensures var r := PhaseWalk(StorePhase(workId), fs, hooks, x, fuel, NoCall).0;
      forall i :: 0 <= i < |hooks| ==> r[i] == hooks[i] || (hooks[i].EffectHook? && r[i] == EffectHook(hooks[i].effect, hooks[i].cleanup, hooks[i].deps, Some(workId)))
    decreases fuel
  {
    if x.Some? && fuel > 0 {
      var f := fs[x.value];
      assert FiberOk(fs, |hooks|, x.value);
      var h1 := hooks;
      if f.hooks.Some? {
        h1 := HooksStep(StorePhase(workId), hooks, f.hooks.value, NoCall).0;
        HooksStepKeeps(StorePhase(workId), hooks, f.hooks.value, NoCall);
        StoreTagsEffects(hooks, f.hooks.value, workId, NoCall);
        forall i | 0 <= i < |hooks|
          ensures h1[i] == hooks[i] || (hooks[i].EffectHook? && h1[i] == EffectHook(hooks[i].effect, hooks[i].cleanup, hooks[i].deps, Some(workId)))
        {
          if i in f.hooks.value && hooks[i].EffectHook? {
            var k :| 0 <= k < |f.hooks.value| && f.hooks.value[k] == i;
          }
        }
      }
      var h2 := PhaseWalk(StorePhase(workId), fs, h1, f.child, fuel - 1, NoCall).0;
      StoreWalkTags(fs, h1, f.child, fuel - 1, workId);
      StoreWalkTags(fs, h2, f.sibling, fuel - 1, workId);
    }
  }

  /** A deletion, whether of a fiber with a node or without, never attaches a node. */
  lemma CommitDeletionOnlyDetaches(fs: seq<Fiber>, d: Document, x: nat, parent: nat, fuel: nat)
    requires Linked(fs) && x < |fs|
    ensures forall n :: Attached(CommitDeletion(fs, d, x, parent, fuel), n) ==> Attached(d, n)
  {
    if fs[x].dom.None? {
      forall n | !Attached(d, n)
        ensures !Attached(DeletionWalk(fs, d, x, parent, fuel), n)
      {
        DeletionWalkKeepsDetached(fs, d, x, parent, fuel, n);
      }
    }
  }

  /**
   * As written, `commitWork` on a deleted fiber goes on into the deleted
   * fiber's child and sibling and replays the tags they got at the last
   * commit. Deleting a component without a node (fiber 1) whose child
   * (fiber 2) was placed at the last commit removes the child's node and
   * then appends it again, so it stays on screen; committing the deleted
   * fiber on its own removes it.
   */
  lemma DeletedChildReattached()
    ensures var fs := [Fiber(Str("div"), [], Null, Some(0), None, Some(1), None, None, None, None),
                       Fiber(Fn(0), [], Null, None, Some(0), Some(2), None, None, Some(Deletion), None),
                       Fiber(Str("p"), [], Null, Some(1), Some(1), None, None, None, Some(Placement), None)];
      var d := Document(map[1 := 0], {}, 2, []);
      Linked(fs) && Attached(d, 1)
      && CommitWork(fs, d, Some(1), 3) == (Document(map[1 := 0], {}, 2, [RemoveChild(0, 1), AppendChild(0, 1)]), true)
      && CommitDeletions(fs, d, [1], 3) == (Document(map[], {}, 2, [RemoveChild(0, 1)]), true)
  {
    var fs := ReattachFibers();
    var d := Document(map[1 := 0], {}, 2, []);
    var gone := Document(map[], {}, 2, [RemoveChild(0, 1)]);
    var back := Document(map[1 := 0], {}, 2, [RemoveChild(0, 1), AppendChild(0, 1)]);
    DeletedComponentRemovesChild();
    PlacedChildReplayed();
    assert CommitWork(fs, d, Some(1), 3) == CommitWork(fs, gone, Some(2), 2);
    assert CommitDeletions(fs, d, [1], 3) == CommitDeletions(fs, gone, [], 3);
  }

  /** The fibers of `DeletedChildReattached`: a `div`, a deleted component under it, and the component's placed `p`. */
  function ReattachFibers(): (fs: seq<Fiber>)
    ensures Linked(fs) && |fs| == 3
  {
    [Fiber(Str("div"), [], Null, Some(0), None, Some(1), None, None, None, None),
     Fiber(Fn(0), [], Null, None, Some(0), Some(2), None, None, Some(Deletion), None),
     Fiber(Str("p"), [], Null, Some(1), Some(1), None, None, None, Some(Placement), None)]
  }

  /** Deleting the node-less component removes its child's node from the `div`. */
  lemma DeletedComponentRemovesChild()
    ensures CommitFiber(ReattachFibers(), Document(map[1 := 0], {}, 2, []), 1, 3)
      == (Document(map[], {}, 2, [RemoveChild(0, 1)]), true)
  {
    var fs := ReattachFibers();
    var d := Document(map[1 := 0], {}, 2, []);
    assert DomParentFiber(fs, Some(0)) == Some(0);
    assert DeletionWalk(fs, d, 2, 0, 2) == Document(map[], {}, 2, [RemoveChild(0, 1)]);
  }

  /** Replaying the child's `Placement` tag appends its node to the `div` again. */
  lemma PlacedChildReplayed()
    ensures CommitWork(ReattachFibers(), Document(map[], {}, 2, [RemoveChild(0, 1)]), Some(2), 2)
      == (Document(map[1 := 0], {}, 2, [RemoveChild(0, 1), AppendChild(0, 1)]), true)
  {
    var fs := ReattachFibers();
    var gone := Document(map[], {}, 2, [RemoveChild(0, 1)]);
    var back := Document(map[1 := 0], {}, 2, [RemoveChild(0, 1), AppendChild(0, 1)]);
    assert DomParentFiber(fs, Some(1)) == Some(0);
    assert RefIfSet(Null, Node(1)) == [];
    assert Append(gone, 0, 1) == back;
    assert Emit(back, []) == back;
    assert CommitFiber(fs, gone, 2, 2) == (back, true);
  }

  /**
   * Committing the deletions one fiber at a time only ever takes nodes out
   * of the document.
   */
  lemma {:induction false} DeletionsOnlyDetach(fs: seq<Fiber>, d: Document, dels: seq<nat>, fuel: nat)
    requires Linked(fs) && AllInArena(fs, dels)
    requires forall k :: 0 <= k < |dels| ==> fs[dels[k]].effectTag == Some(Deletion)
    ensures forall n :: Attached(CommitDeletions(fs, d, dels, fuel).0, n) ==> Attached(d, n)
    decreases |dels|
  {
    if dels != [] {
      var x := dels[0];
      var (d1, ok) := CommitFiber(fs, d, x, fuel);
      var p := DomParentFiber(fs, fs[x].parent);
      if p.Some? {
        CommitDeletionOnlyDetaches(fs, d, x, fs[p.value].dom.value, fuel);
      }
      if ok {
        DeletionsOnlyDetach(fs, d1, dels[1..], fuel);
      }
    }
  }
}
