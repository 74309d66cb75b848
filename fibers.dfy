/**
 * Fibers and the renderer's shared state (core/src/fiber.ts).
 *
 * Fibers live in an arena: a fiber is named by its index in `fibers`, and
 * the source's object references `parent`, `child`, `sibling` and
 * `alternate` are optional indices. A spread copy `{...old}` is a new index.
 * Hook records live in an arena of their own, so a hook reused across
 * renders is the same index in both fibers' `hooks` lists.
 *
 * `Runtime` gathers the module variables the renderer shares: those of
 * fiber.ts, `isCommitting` and `pendingUpdates` of reconcile.ts,
 * `globalIdCounter` of hooks.ts, the current value of each context, the
 * document, and the scheduler's queue.
 */
module Fibers {
  import opened Wrappers
  import opened JsValues
  import opened Host
  import Scheduler

  /** The effect tags. */
  datatype Tag = Placement | Update | Deletion

  /** The string each tag constant holds. */
  function TagName(t: Tag): string {
    match t
    case Placement => "PLACEMENT"
    case Update => "UPDATE"
    case Deletion => "DELETION"
  }

  /** The three tag constants are distinct strings, so comparing tags by string is comparing tags. */
  lemma TagNamesDistinct(a: Tag, b: Tag)
    ensures TagName(a) == TagName(b) <==> a == b
  {
    if a != b {
      assert TagName(a)[0] != TagName(b)[0];
    }
  }

  /**
   * The effect of a layout-effect hook: a component's own function, or the
   * closure `useImperativeHandle` registers, which calls `create` and hands
   * the result to `ref`.
   */
  datatype Effect = UserEffect(fn: Value) | ImperativeHandleEffect(ref: Value, create: Value)

  /** A hook record (`AnyHook`); `Undefined` stands for an absent cleanup, deps or ref. */
  datatype Hook =
    | EffectHook(effect: Value, cleanup: Value, deps: Value, workId: Option<nat>)
    | LayoutEffectHook(layoutEffect: Effect, cleanup: Value, deps: Value)
    | ReducerHook(state: Value)
    | ImperativeHandleHook(ref: Value, create: Value, deps: Value)
    | IdHook(id: string)
    | MemoHook(memoizedValue: Value, deps: Value)
    | CallbackHook(callback: Value, deps: Value)
    | RefHook(current: Value)

  /** The `tag` string of each kind of hook. */
  function HookTag(h: Hook): string {
    match h
    case EffectHook(_, _, _, _) => "effect"
    case LayoutEffectHook(_, _, _) => "layout-effect"
    case ReducerHook(_) => "reducer"
    case ImperativeHandleHook(_, _, _) => "imperative-handle"
    case IdHook(_) => "id"
    case MemoHook(_, _) => "memo"
    case CallbackHook(_, _) => "callback"
    case RefHook(_) => "ref"
  }

  datatype Fiber = Fiber(
    kind: Value,                // `type`
    props: Props,
    ref: Value,
    dom: Option<nat>,
    parent: Option<nat>,
    child: Option<nat>,
    sibling: Option<nat>,
    alternate: Option<nat>,
    effectTag: Option<Tag>,
    hooks: Option<seq<nat>>)

  /** `createFiber(type, props, dom, ref)`: a fiber linked to nothing, with no tag and no hooks. */
  function CreateFiber(kind: Value, props: Props, dom: Option<nat>, ref: Value): (f: Fiber)
    ensures f.kind == kind && f.props == props && f.dom == dom && f.ref == ref
    ensures f.parent.None? && f.child.None? && f.sibling.None? && f.alternate.None?
    ensures f.effectTag.None? && f.hooks.None?
  {
    Fiber(kind, props, ref, dom, None, None, None, None, None, None)
  }

  /**
   * What the scheduler is asked to run: the work loop of reconcile.ts, the
   * effects of a committed root, or the `workLoop` binding fiber.ts imports
   * from reconcile.ts, which reconcile.ts does not export.
   */
  datatype Job = WorkLoop | RunEffects(root: nat) | ImportedWorkLoop

  /** Whether `x` names a fiber of `fs`. */
  predicate InArena(fs: seq<Fiber>, x: Option<nat>) {
    x.None? || x.value < |fs|
  }

  /**
   * A fiber's links name fibers of the arena and its hooks name hooks of
   * the hook arena; its parent was created before it.
   */
  predicate FiberOk(fs: seq<Fiber>, hookCount: nat, i: nat)
    requires i < |fs|
  {
    var f := fs[i];
    InArena(fs, f.parent) && InArena(fs, f.child) && InArena(fs, f.sibling) && InArena(fs, f.alternate)
    && (f.parent.Some? ==> f.parent.value < i)
    && (f.hooks.Some? ==> forall k :: 0 <= k < |f.hooks.value| ==> f.hooks.value[k] < hookCount)
  }

  predicate ArenaOk(fs: seq<Fiber>, hookCount: nat) {
    forall i :: 0 <= i < |fs| ==> FiberOk(fs, hookCount, i)
  }

  /** Every parent was created before its child. */
  predicate ParentsBelow(fs: seq<Fiber>) {
    forall i :: 0 <= i < |fs| && fs[i].parent.Some? ==> fs[i].parent.value < i
  }

  lemma ArenaParentsBelow(fs: seq<Fiber>, hc: nat)
    requires ArenaOk(fs, hc)
    ensures ParentsBelow(fs)
  {
    forall i | 0 <= i < |fs| && fs[i].parent.Some? ensures fs[i].parent.value < i {
      assert FiberOk(fs, hc, i);
    }
  }

  predicate AllInArena(fs: seq<Fiber>, xs: seq<nat>) {
    forall k :: 0 <= k < |xs| ==> xs[k] < |fs|
  }

  /** All shared variables at one moment. */
  datatype Shared = Shared(
    fibers: seq<Fiber>,
    hooks: seq<Hook>,
    wipRoot: Option<nat>,
    currentRoot: Option<nat>,
    nextUnitOfWork: Option<nat>,
    deletions: seq<nat>,
    wipFiber: Option<nat>,
    hookIndex: int,
    isCommitting: bool,
    pendingUpdates: seq<nat>,
    globalIdCounter: nat,
    contextValues: map<Value, Value>,
    document: Document)

  /** The initial values of the module variables, over the document `d`. */
  function InitialShared(d: Document): Shared {
    Shared([], [], None, None, None, [], None, 0, false, [], 0, map[], d)
  }

  /** The shared variables are consistent: every handle names an existing fiber or hook. */
  predicate SharedOk(s: Shared) {
    ArenaOk(s.fibers, |s.hooks|)
    && InArena(s.fibers, s.wipRoot) && InArena(s.fibers, s.currentRoot)
    && InArena(s.fibers, s.nextUnitOfWork) && InArena(s.fibers, s.wipFiber)
    && AllInArena(s.fibers, s.deletions) && AllInArena(s.fibers, s.pendingUpdates)
    && WellFormed(s.document)
  }

  class Runtime {
    var fibers: seq<Fiber>
    var hooks: seq<Hook>
    var wipRoot: Option<nat>
    var currentRoot: Option<nat>
    var nextUnitOfWork: Option<nat>
    var deletions: seq<nat>
    var wipFiber: Option<nat>
    var hookIndex: int
    var isCommitting: bool
    var pendingUpdates: seq<nat>
    var globalIdCounter: nat
    var contextValues: map<Value, Value>
    var document: Document
    const queue: Scheduler.Queue<Job>

    function State(): Shared
      reads this
    {
      Shared(fibers, hooks, wipRoot, currentRoot, nextUnitOfWork, deletions, wipFiber, hookIndex,
        isCommitting, pendingUpdates, globalIdCounter, contextValues, document)
    }

    ghost predicate Valid()
      reads this, queue
    {
      SharedOk(State()) && queue.Valid()
    }

    /** The module variables at load time, over the document `d`, with a fresh scheduler. */
    constructor (d: Document)
      requires WellFormed(d)
      ensures Valid() && fresh(queue)
      ensures State() == InitialShared(d)
      ensures queue.Snapshot() == Scheduler.Initial()
    {
      fibers := [];
      hooks := [];
      wipRoot := None;
      currentRoot := None;
      nextUnitOfWork := None;
      deletions := [];
      wipFiber := None;
      hookIndex := 0;
      isCommitting := false;
      pendingUpdates := [];
      globalIdCounter := 0;
      contextValues := map[];
      document := d;
      queue := new Scheduler.Queue<Job>();
    }

    /** `setNextUnitOfWork(fiber)` */
    method SetNextUnitOfWork(fiber: Option<nat>)
      modifies this
      ensures State() == old(State()).(nextUnitOfWork := fiber)
    {
      nextUnitOfWork := fiber;
    }

    /** `setCurrentRoot(fiber)` */
    method SetCurrentRoot(fiber: Option<nat>)
      modifies this
      ensures State() == old(State()).(currentRoot := fiber)
    {
      currentRoot := fiber;
    }

    /** `setWipRoot(fiber)` */
    method SetWipRoot(fiber: Option<nat>)
      modifies this
      ensures State() == old(State()).(wipRoot := fiber)
    {
      wipRoot := fiber;
    }

    /** `setWipFiber(fiber)` */
    method SetWipFiber(fiber: nat)
      modifies this
      ensures State() == old(State()).(wipFiber := Some(fiber))
    {
      wipFiber := Some(fiber);
    }

    /** `setHookIndex(index)` */
    method SetHookIndex(index: int)
      modifies this
      ensures State() == old(State()).(hookIndex := index)
    {
      hookIndex := index;
    }

    /**
     * Installs a new arena and deletion list, as the reconciler and the
     * commit phase leave them; the arena may only grow.
     */
    method SetWorld(fs: seq<Fiber>, ds: seq<nat>)
      requires Valid() && |fibers| <= |fs| && ArenaOk(fs, |hooks|) && AllInArena(fs, ds)
      modifies this
      ensures Valid()
      ensures State() == old(State()).(fibers := fs, deletions := ds)
    {
      fibers := fs;
      deletions := ds;
    }

    /** Appends a fiber to the arena; its handle is returned. */
    method Alloc(f: Fiber) returns (h: nat)
      modifies this
      ensures h == |old(fibers)| && fibers == old(fibers) + [f]
      ensures State() == old(State()).(fibers := old(fibers) + [f])
    {
      h := |fibers|;
      fibers := fibers + [f];
    }

    /**
     * `scheduleUpdate(fiber)`. While committing, the fiber itself is queued
     * in `pendingUpdates`. Otherwise a new fiber with the same type, props
     * and dom is tagged Update, linked to `fiber` by `alternate` both ways,
     * queued in `pendingUpdates`, and the imported `workLoop` is scheduled.
     */
    method ScheduleUpdate(fiber: nat)
      requires Valid() && fiber < |fibers|
      modifies this, queue
      ensures Valid()
      ensures State() == ScheduledUpdate(old(State()), fiber)
      ensures old(isCommitting) ==> unchanged(queue)
      ensures !old(isCommitting) ==>
        queue.Snapshot() == Scheduler.Schedule(old(queue.Snapshot()), ImportedWorkLoop).0
    {
      ScheduledUpdateOk(State(), fiber);
      if isCommitting {
        pendingUpdates := pendingUpdates + [fiber];
      } else {
        var f := fibers[fiber];
        var w := CreateFiber(f.kind, f.props, f.dom, Null);
        w := w.(alternate := Some(fiber));
        w := w.(effectTag := Some(Update));
        var wip := Alloc(w);
        pendingUpdates := pendingUpdates + [wip];
        fibers := fibers[fiber := fibers[fiber].(alternate := Some(wip))];
        assert fibers == UpdateRequest(old(fibers), fiber);
        var _ := queue.ScheduleWork(ImportedWorkLoop);
      }
    }
  }

  /** The shared variables after `scheduleUpdate(fiber)`. */
  function ScheduledUpdate(s: Shared, fiber: nat): Shared
    requires fiber < |s.fibers|
  {
    if s.isCommitting then s.(pendingUpdates := s.pendingUpdates + [fiber])
    else s.(fibers := UpdateRequest(s.fibers, fiber), pendingUpdates := s.pendingUpdates + [|s.fibers|])
  }

  /** The arena after `scheduleUpdate(fiber)` outside a commit: the request fiber is the last one. */
  function UpdateRequest(fs: seq<Fiber>, fiber: nat): seq<Fiber>
    requires fiber < |fs|
  {
    var f := fs[fiber];
    var w := |fs|;
    fs[fiber := f.(alternate := Some(w))]
      + [CreateFiber(f.kind, f.props, f.dom, Null).(alternate := Some(fiber), effectTag := Some(Update))]
  }

  /**
   * The request fiber copies type, props and dom, has no ref, parent, child,
   * sibling or hooks, is tagged Update, and is the alternate of the fiber it
   * was made for, which is its alternate in turn; no other fiber changes.
   */
  lemma UpdateRequestLinks(fs: seq<Fiber>, fiber: nat)
    requires fiber < |fs|
    ensures var r := UpdateRequest(fs, fiber); var w := |fs|;
      |r| == w + 1
      && r[w].kind == fs[fiber].kind && r[w].props == fs[fiber].props && r[w].dom == fs[fiber].dom
      && r[w].ref == Null && r[w].effectTag == Some(Update)
      && r[w].parent.None? && r[w].child.None? && r[w].sibling.None? && r[w].hooks.None?
      && r[w].alternate == Some(fiber) && r[fiber].alternate == Some(w)
      && r[fiber] == fs[fiber].(alternate := Some(w))
      && (forall i :: 0 <= i < w && i != fiber ==> r[i] == fs[i])
  {
  }

  /** The request fiber keeps the arena consistent. */
  lemma UpdateRequestOk(fs: seq<Fiber>, hookCount: nat, fiber: nat)
    requires fiber < |fs| && ArenaOk(fs, hookCount)
    ensures ArenaOk(UpdateRequest(fs, fiber), hookCount)
  {
    var r := UpdateRequest(fs, fiber);
    forall i | 0 <= i < |r| ensures FiberOk(r, hookCount, i) {
      if i < |fs| {
        assert FiberOk(fs, hookCount, i);
      }
    }
  }

  /** Queueing an update keeps every handle in range. */
  lemma ScheduledUpdateOk(s: Shared, fiber: nat)
    requires SharedOk(s) && fiber < |s.fibers|
    ensures SharedOk(ScheduledUpdate(s, fiber))
  {
    if !s.isCommitting {
      UpdateRequestOk(s.fibers, |s.hooks|, fiber);
    }
  }
}
