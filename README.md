# untitled-framework core, modelled in Dafny

This project models the core of a small React-like renderer written in
TypeScript, and proves properties of the model. The model covers:

- the element factory `createElement`, the `Children` helpers and the
  fragment marker;
- the flat-instruction JSX encoder of `framework/jsx.ts`, which turns JSX
  calls into `[marker, [1, type, key, …], …children…, [2, type]]` arrays;
- the fiber record, the module variables of `fiber.ts` and their setters,
  and `scheduleUpdate`;
- the hook-cursor protocol (`baseHook`) and every hook built on it;
- the render phase: `render`, `performUnitOfWork` and its walk to the next
  unit of work, and the positional child reconciler
  (`reconcileChildren` / `reconcileChildrenArray`);
- the commit phase: `commitRoot`, `commitWork`, `commitDeletion*`,
  `setRef`, the prop and style diff of `updateDomElement`, and the three
  hook walks `runLayoutEffects`, `runEffects` and `storeEffectWorkId`;
- the FIFO scheduler with id-based cancellation;
- the time-budget yield clock.

How the model is built:

- **Fibers live in an arena.** A `seq<Fiber>` is indexed by handle.
  `parent`, `child`, `sibling` and `alternate` are `Option<nat>` handles.
  Hooks live in a second arena, so a hook that a later render reuses is
  the same handle: the same object, as in the source.
- **One class holds the module state.** `Fibers.Runtime` holds the
  variables of `fiber.ts` (`wipRoot`, `currentRoot`, `nextUnitOfWork`,
  `deletions`, `wipFiber`, `hookIndex`). It also holds `isCommitting` and
  `pendingUpdates` from `reconcile.ts`, `globalIdCounter` from `hooks.ts`,
  the contexts' current values, and the document. Its scheduler is a
  `Scheduler.Queue` object.
- **Each step has a pure partner.** The methods that change this state are
  proved against functions that give the new state (`BaseHookStep`,
  `ScheduledUpdate`, `Arr`, `Committed`, …). The lemmas state what the
  source promises about those functions.
- **The DOM is abstract.** `Host.Document` records which node hangs under
  which, which nodes are text nodes, how many nodes exist, and an ordered
  log of host calls (`HostOp`): append, remove, set property or attribute,
  add or remove listener, set style, and calls of user code such as
  effects, cleanups and refs.
- **JavaScript arrays of the JSX encoder live in a heap.** `Jsx.Heap`
  holds every array's contents by handle, and a value is a scalar or a
  handle (`Jsx.Item`). So an array child that `pushChild` empties with
  `shift` is empty for everyone who holds it, and a new array takes the
  next free handle.
- **Calls into user code are opaque.** Component functions, reducers,
  effects, `init`, factories and `create` are reached through a parameter
  `call: (Value, seq<Value>) -> Value`.

JavaScript values are `JsValues.Value`: undefined, null, booleans,
integers, strings, symbols, functions (by identity), objects with ordered
own keys, arrays and elements.

## Model

| member | source | states |
|---|---|---|
| Fragments.IsFragment | core/src/fragment.ts:10-16 | true exactly for an element (a non-null object) whose `type` is the `react.fragment` symbol |
| Fragments.CreateFragment | core/src/fragment.ts:7-9 | whatever the props, the result is the bare fragment symbol, which is itself not a fragment |
| Fragments.CreateFragmentIgnoresProps | core/src/fragment.ts:7-9 | any two props give the same result, the `react.fragment` symbol |
| Fragments.FragmentMarkerCases | core/src/fragment.ts:5-16 | `null`, `undefined` and `Fragment` are not fragments; an element is one exactly when its type is `Fragment` |
| Children.Only | core/src/children.ts:18-24 | succeeds exactly when `count` is 1, returning the sole child, and otherwise throws "Children.only() expects only one child." |
| Children.Map | core/src/children.ts:6-8 | as many results as `count`, the i-th being `fn(toArray(children)[i], i)`: order kept, index passed |
| Children.ForEach | core/src/children.ts:10-12 | the calls made are `(child, index)` for each child of `toArray`, in order |
| Children.FlatAppend | core/src/children.ts:30 | one-level flattening distributes over concatenation |
| Children.ToArrayOneLevel | core/src/children.ts:26-31 | `toArray` of an array replaces each array item by its own items (one level only) and keeps every other item, null and undefined included |
| Children.ToArrayNoFiltering | core/src/children.ts:26-31 | with no nested array, `toArray` returns the children unchanged and `count` is their number |
| Children.ToArrayOfSingle | core/src/children.ts:14-31 | null/undefined give no children and count 0; any other single value is one child, and `only` returns it |
| Elements.OwnPropsGet | core/src/element.ts:53-60 | a copied prop reads as in config except that `key`, `ref`, `__self` and `__source` are absent |
| Elements.CopyOwnProps | core/src/element.ts:53-60 | the copy loop yields exactly the non-reserved own props, in key order |
| Elements.CopyChildren | core/src/element.ts:68-71 | the copied child array equals the rest arguments, in order |
| Elements.PutKeepsPrefix | core/src/element.ts:58 | assigning a prop keeps the existing keys as the first keys, in order |
| Elements.ApplyDefaults | core/src/element.ts:78-82 | a default fills a prop only when it reads as undefined; all other props are kept, and the key order is extended |
| Elements.WithChildren | core/src/element.ts:64-73 | one rest argument becomes `props.children`, several become an array of them in order, none leaves `children` as config gave it |
| Elements.BuildProps | core/src/element.ts:35-83 | every prop is as `FinalProp` says: own config props, then children, then defaults (only for function types with `defaultProps`) |
| Elements.CreateElement | core/src/element.ts:30-97 | throws the TypeError of `'' + config.key` exactly when the key is or holds a symbol; otherwise: type kept; key is `'' + config.key` when that is not undefined, else null; ref, `_self` and `_source` are the config values or null; props as `BuildProps` |
| Jsx.PushChildStep | framework/jsx.ts:34-60 | the tree is only appended to, never with a marker; a scalar child other than null, undefined and `false` allocates one text array, and an array child is emptied; every other array is unchanged, and a throw changes nothing |
| Jsx.EachStep | framework/jsx.ts:67 | the `forEach` only appends to the tree, keeps the heap closed and the tree unreferenced, and changes only the tree and the arrays `arr` holds |
| Jsx.PushChildrenStep | framework/jsx.ts:62-72 | pushing children only appends to the tree and keeps the heap closed and the tree unreferenced |
| Jsx.Collect | framework/jsx.ts:91-110 | the reduce only allocates: the old arrays are kept, `acc` is the first new array, and `evs` is a later one |
| Jsx.Opened | framework/jsx.ts:88-125 | the tree is made at the next handle and holds the marker, then `open`, the last array made |
| Jsx.Heap.Alloc | framework/jsx.ts:8 | an array literal is a new array at the next handle; no existing array changes |
| Jsx.Heap.CreateTree | framework/jsx.ts:6-9 | a new tree holds only the marker |
| Jsx.Heap.Drain | framework/jsx.ts:47-59 | the `shift` loop moves the child's items, minus markers and in order, onto the tree, and leaves the child empty; nothing else changes |
| Jsx.Heap.PushChild | framework/jsx.ts:34-60 | the new heap and the thrown TypeError are as `PushChildStep` gives them |
| Jsx.Heap.PushChildren | framework/jsx.ts:62-72 | the `forEach` reads each index when it reaches it, and the new heap and the throw are as `PushChildrenStep` gives them |
| Jsx.Heap.CollectAttrs | framework/jsx.ts:91-110 | the props reduce, in place, yields `acc`, `evs` and `uniq` as `Collect` gives them |
| Jsx.Heap.BuildHostTree | framework/jsx.ts:88-130 | the host tree and the heap are as `HostTreeStep` gives them |
| Jsx.Heap.Jsx | framework/jsx.ts:74-131 | the result and the heap are as `JsxStep` gives them |
| Jsx.Heap.Fragment | framework/jsx.ts:11-15 | the result and the heap are as `FragmentStep` gives them |
| Jsx.DropMarkersHasNone | framework/jsx.ts:52-53 | a drained array contributes no tree marker |
| Jsx.DropMarkersKeeps | framework/jsx.ts:47-59 | items with no marker pass a drain unchanged |
| Jsx.DropMarkersEmpty | framework/jsx.ts:47-59 | a drain adds nothing exactly when every item is a marker |
| Jsx.PushChildIdempotent | framework/jsx.ts:47-59 | an array child is empty after its push, so pushing it again changes nothing |
| Jsx.ChildAddsNothing | framework/jsx.ts:34-60 | a child leaves the tree as it was exactly when it is null, undefined, `false`, a symbol (which throws) or an array of markers only |
| Jsx.TreeSplices | framework/jsx.ts:47-59 | a tree pushed as an array child loses its marker, splices the rest in verbatim and is left empty |
| Jsx.EachDrains | framework/jsx.ts:67 | once the `forEach` finishes without a throw, every array child it was given is empty |
| Jsx.SharedChildOnce | framework/jsx.ts:67 | over `[t, t]`, the first push empties `t`, so its items reach the tree once and `t` is left empty |
| Jsx.JsxSharedChildOnce | framework/jsx.ts:74-131 | `jsx(type, {children: [t, t]})` gives `[marker, open, …t's items minus markers…, close]` and leaves `t` empty |
| Jsx.ChildrenFrame | framework/jsx.ts:62-72 | pushing children leaves alone every array they cannot reach, other than the tree |
| Jsx.CollectLayout | framework/jsx.ts:91-110 | after the reduce, `acc` holds the prop list, `uniq` is the key, and `evs` exists exactly when there are events and holds their entries, in order |
| Jsx.OpenedLayout | framework/jsx.ts:118-125 | `open` is `[1, type, uniq]`, then the prop list when there are props, then the events list when there are events |
| Jsx.IsOpenFrame | framework/jsx.ts:118-127 | `open` and what it holds are not changed by pushing the children or the close |
| Jsx.CloseShape | framework/jsx.ts:125-127 | pushing `[2, type]` onto a tree that grew from `[marker, open]` gives a host tree |
| Jsx.HostTreeShape | framework/jsx.ts:88-130 | a host element's tree, when nothing throws, is the marker, `open`, the children's instructions and `[2, type]`, with the marker nowhere else |
| Jsx.JsxHostShape | framework/jsx.ts:74-131 | a non-function `jsx` call that does not throw returns such a tree |
| Jsx.ComponentCallMakesNoTree | framework/jsx.ts:82-86 | a function type returns the call `type(props \|\| {}, children)` and makes no tree; only a primitive child is wrapped in a new array |
| Jsx.OneChildOpened | framework/jsx.ts:88-125 | with `children` as the only prop, the new arrays are the tree, an empty `acc` and `[1, type, undefined, acc]` |
| Jsx.HostSharedChildOnce | framework/jsx.ts:88-130 | the host-tree step of `JsxSharedChildOnce` |
| Jsx.PrimitiveChildIsText | framework/jsx.ts:75-80 | a string, number or boolean `children` prop is wrapped in an array and becomes one `[4, String(value)]` instruction, except `false`, which adds nothing |
| Jsx.FragmentBuildsTree | framework/jsx.ts:11-15 | `Fragment` returns a new tree: the marker, then only its children's instructions |
| Jsx.TreeChildShowsMarker | framework/jsx.ts:78 | as written, a tree passed as the only child is walked item by item, so its marker becomes the text instruction `[4, "~ad.tree~"]` |
| Jsx.HostTreeChildShowsMarker | framework/jsx.ts:88-130 | the host-tree step of `TreeChildShowsMarker` |
| Jsx.IntendedTreeChildSplices | framework/jsx.ts:78 | with the `isTree(children)` test in force, a tree passed as the only child splices in without its marker and is left empty |
| Jsx.HostWrappedTreeSplices | framework/jsx.ts:88-130 | the host-tree step of `IntendedTreeChildSplices` |
| Jsx.UniqIsKey | framework/jsx.ts:98-99 | with unique keys, `uniq` is the `key` prop (undefined when there is none) |
| Jsx.PropListPairs | framework/jsx.ts:102-107 | the prop list alternates names and values: each name is a plain prop (not an event, `key` or `children`) followed by its value |
| Jsx.PropListComplete | framework/jsx.ts:91-110 | every plain prop occurs in the list as its name followed by its value |
| Jsx.EventSource | framework/jsx.ts:21-31 | every event entry is `[1, lowercased name, handler]` for a prop matching `/^on[A-Z]/` |
| Jsx.EventsSound | framework/jsx.ts:94-97 | every entry of the events list comes from an event prop |
| Jsx.EventsComplete | framework/jsx.ts:94-97 | every event prop has its entry, so the list is empty exactly when no prop is an event |
| Fibers.TagNamesDistinct | core/src/fiber.ts:11-13 | the three tag strings are equal only for the same tag |
| Fibers.CreateFiber | core/src/fiber.ts:42-60 | type, props, dom and ref as given; parent, child, sibling, alternate, effectTag and hooks all null |
| Fibers.Runtime.constructor | core/src/fiber.ts:29-34 | all roots, the next unit and `wipFiber` null, `deletions` empty, `hookIndex` 0, not committing, nothing pending, a fresh scheduler |
| Fibers.Runtime.SetNextUnitOfWork | core/src/fiber.ts:76-78 | assigns `nextUnitOfWork` and nothing else |
| Fibers.Runtime.SetCurrentRoot | core/src/fiber.ts:80-82 | assigns `currentRoot` and nothing else |
| Fibers.Runtime.SetWipRoot | core/src/fiber.ts:84-86 | assigns `wipRoot` and nothing else |
| Fibers.Runtime.SetWipFiber | core/src/fiber.ts:88-90 | assigns `wipFiber` and nothing else |
| Fibers.Runtime.SetHookIndex | core/src/fiber.ts:92-94 | assigns `hookIndex` and nothing else |
| Fibers.Runtime.ScheduleUpdate | core/src/fiber.ts:62-74 | while committing, only queues the fiber itself and schedules nothing; otherwise appends a request fiber, queues it, and schedules one work-loop job |
| Fibers.UpdateRequestLinks | core/src/fiber.ts:65-70 | the request fiber copies type, props and dom, has no ref, links or hooks, is tagged Update, and is linked as `alternate` both ways; no other fiber changes |
| Fibers.UpdateRequestOk | core/src/fiber.ts:65-70 | the request fiber keeps every handle in range |
| Fibers.ScheduledUpdateOk | core/src/fiber.ts:62-74 | queueing an update keeps the shared state consistent |
| Hooks.BaseHookAdvances | core/src/hooks.ts:59-68 | `hookIndex` advances by exactly one; the returned hook is appended to `wipFiber.hooks`; no other fiber or variable changes |
| Hooks.BaseHookReusesWhateverTag | core/src/hooks.ts:60-62 | an old hook in the slot is returned as the very same record, whatever kind `createHook` would build: kinds are never compared |
| Hooks.BaseHookCreatesWhenMissing | core/src/hooks.ts:60-62 | without an old hook, the made record is appended to the hook arena and returned |
| Hooks.BaseHookOk | core/src/hooks.ts:59-68 | `baseHook` keeps every handle in range |
| Hooks.BaseHook | core/src/hooks.ts:59-68 | the runtime's state and the hook returned are those of `BaseHookStep` |
| Hooks.SetStateReducerCases | core/src/hooks.ts:72-74 | a function action is applied to the previous state; any other action replaces it |
| Hooks.ReducerStartState | core/src/hooks.ts:83-87 | a new slot starts from `init(initialState)` if `init` is given, else `initialState`; a reused slot keeps its state |
| Hooks.UseReducer | core/src/hooks.ts:78-98 | takes one slot by `baseHook` and returns that slot's state |
| Hooks.UseState | core/src/hooks.ts:71-75 | is `useReducer` with the set-state reducer and no `init` |
| Hooks.DispatchEffect | core/src/hooks.ts:89-95 | when the reducer returns the current state, nothing changes; otherwise the hook holds the new state and an update is queued for the fiber that is `wipFiber` when `dispatch` runs |
| Hooks.Dispatch | core/src/hooks.ts:89-95 | the runtime's state is `DispatchStep`; the scheduler is untouched when nothing changed or a commit is running |
| Hooks.UseEffect | core/src/hooks.ts:101-109 | takes one slot; a new slot records effect and deps with no cleanup and no work id |
| Hooks.UseLayoutEffect | core/src/hooks.ts:112-119 | takes one slot; a new slot records effect and deps with no cleanup |
| Hooks.ImperativeHandleTakesTwoSlots | core/src/hooks.ts:122-142 | the cursor advances by two and two hooks are appended after the existing ones |
| Hooks.UseImperativeHandle | core/src/hooks.ts:122-142 | an imperative-handle slot, then a layout-effect slot whose effect hands `create()` to the ref |
| Hooks.IdsDistinct | core/src/hooks.ts:150 | the ids `:r<n>:` made from different counter values differ |
| Hooks.UseId | core/src/hooks.ts:145-152 | a new slot gets `:r<counter>:` and increments the counter; a reused slot returns its old id and leaves the counter alone |
| Hooks.UseMemo | core/src/hooks.ts:155-164 | returns the memoized value of the slot, computed by the factory only when the slot is new |
| Hooks.UseCallback | core/src/hooks.ts:167-176 | returns the callback of the slot, the first render's one when reused |
| Hooks.UseRef | core/src/hooks.ts:179-187 | the hook record itself is the ref object, starting at `initialValue` |
| Hooks.UseContext | core/src/hooks.ts:189-191 | reads `context._currentValue` without taking a hook slot, and throws a TypeError exactly when the context is `null` or `undefined` |
| Hooks.ReadContext | core/src/hooks.ts:189-191 | reading `_currentValue` throws exactly on `null` or `undefined` |
| Hooks.FirstRenderValuesKept | core/src/hooks.ts:60-62 | for a reused slot, `useMemo`, `useCallback` and `useEffect` give the same result whatever factory, callback, effect or deps are passed: deps are never compared |
| Host.Append | core/src/reconcile.ts:401 | the child hangs under the parent, no other node's attachment changes, and the call is logged |
| Host.Remove | core/src/reconcile.ts:437 | the child is detached, no other node's attachment changes, and the call is logged |
| Host.NewNodeIsFresh | core/src/reconcile.ts:199-202 | a created node is new and detached, and is a text node exactly when one was asked for |
| Work.UnitKindOf | core/src/reconcile.ts:54-62 | provider first, then the `createFragment` function, then other functions, then host: each case with its type test |
| Work.CreateDom | core/src/reconcile.ts:197-219 | a node is created exactly for a string type, as the next node and after the logged writes of its props against `{}`; any other type creates nothing |
| Work.CreateDomFresh | core/src/reconcile.ts:197-205 | the node `createDom` makes is new and detached, and is a text node exactly for `'TEXT_ELEMENT'` |
| Work.ClimbFinds | core/src/reconcile.ts:67-73 | a fiber found by the climb is the sibling of the nearest ancestor-or-self that has one |
| Work.ClimbNone | core/src/reconcile.ts:67-74 | when the climb finds nothing, no ancestor-or-self has a sibling |
| Work.SetProviderValue | core/src/reconcile.ts:87-88 | the provider's context takes `props.value` as its current value, and `useContext` of that context then returns it |
| Work.ProvidedValueRead | core/src/reconcile.ts:85-88 | after a provider runs, `useContext` of its context reads the provider's `props.value`, and every other context reads as before |
| Work.OtherProvidersKeepValue | core/src/reconcile.ts:85-88 | any run of providers of other contexts leaves what `useContext(c)` reads unchanged |
| Work.NoProviderReadsOwnValue | core/src/hooks.ts:189-191 | with no provider of it, `useContext(context)` reads the `_currentValue` the context was created with |
| Work.StartFunctionComponent | core/src/reconcile.ts:78-80 | the fiber becomes `wipFiber` with hook index 0 and an empty hook list; nothing else changes |
| Work.HostStepOk | core/src/reconcile.ts:95-98 | giving a host fiber its node keeps the shared state consistent |
| Work.EnsureHostDom | core/src/reconcile.ts:96-98 | a host fiber without a node gets one from `createDom` |
| Work.BeginWork | core/src/reconcile.ts:53-62 | the update step for the fiber's type, up to the children it hands to `reconcileChildren` |
| Work.PerformUnitOfWork | core/src/reconcile.ts:53-75 | the update step with its reconciliation, then the next unit: the child, else the sibling of the fiber or of its nearest ancestor that has one, else null |
| Work.FindNext | core/src/reconcile.ts:64-74 | the search loop returns `NextUnit`: the child, else what the climb finds |
| Work.RenderedRoot | core/src/reconcile.ts:27-36 | a new root fiber of the container's node name holds the element as its only child and the container as its node, is paired with the current root through `alternate` both ways, and becomes the root in progress and the next unit; nothing else changes |
| Work.Render | core/src/reconcile.ts:27-39 | the state is `Rendered` and one work-loop job is scheduled |
| Reconcile.FragmentKidIsFragment | core/src/reconcile.ts:137 | among handled children, the fragment case is `isFragment` |
| Reconcile.Delete | core/src/reconcile.ts:158-159 | the fiber is tagged Deletion and appended to `deletions` |
| Reconcile.DeleteRest | core/src/reconcile.ts:188-192 | every remaining old fiber is appended to `deletions`, in chain order |
| Reconcile.DeleteRestTags | core/src/reconcile.ts:188-192 | the trailing loop tags exactly the rest of the chain Deletion and no other fiber |
| Reconcile.Slot | core/src/reconcile.ts:141-179 | one slot appends exactly one fiber, whose handle it returns |
| Reconcile.SlotLinks | core/src/reconcile.ts:171-179 | the new fiber becomes `returnFiber.child` at index 0, and `prevSibling.sibling` after that |
| Reconcile.SlotDeletions | core/src/reconcile.ts:155-160 | a slot deletes the old fiber at its position exactly when the types differ |
| Reconcile.SlotNewFiber | core/src/reconcile.ts:141-171 | the appended fiber is as `SlotMade` says: an Update copy of the old fiber (keeping dom, hooks, and the old `child` and `sibling` links) when types match, else a Placement fiber with no dom and no links |
| Reconcile.SlotOlds | core/src/reconcile.ts:141-179 | a slot keeps the type, dom and hooks of every old fiber |
| Reconcile.ArrSiblings | core/src/reconcile.ts:123-195 | `reconcileChildrenArray` never rewrites the sibling link of a fiber that existed before it |
| Reconcile.ArrFramed | core/src/reconcile.ts:123-195 | existing fibers change only in the return fiber's `child`, sibling links, and the Deletion tag of old fibers |
| Reconcile.LoopIsSlotLoop | core/src/reconcile.ts:133-185 | with no fragment child, every pass of the loop is a slot |
| Reconcile.SlotLoopChain | core/src/reconcile.ts:173-179 | the new fibers are chained by `sibling` in index order |
| Reconcile.SlotLoopChild | core/src/reconcile.ts:173-174 | the return fiber's child becomes the first new fiber when the loop starts at index 0 with children, and is otherwise kept |
| Reconcile.SlotLoopDeletions | core/src/reconcile.ts:155-192 | the deletions are the mismatched old fibers in slot order, then the old fibers past the last child |
| Reconcile.SlotLoopSlots | core/src/reconcile.ts:133-185 | one fiber per child, in child order, each as `SlotMade` says |
| Reconcile.NoFragmentArr | core/src/reconcile.ts:123-195 | with no fragment child: one new fiber per child as `SlotMade` says, chained in order, the first becoming the child (an empty list keeps the old child), and deletions as mismatches then leftovers; each new fiber keeps the `child` it was made with (an Update copy: the old fiber's), and so does the last one's `sibling` |
| Reconcile.SlotLoopCopies | core/src/reconcile.ts:141-185 | the fiber made for a child ends the loop with the `child` it was copied with; the last one also keeps its copied `sibling`, since no later slot links past it |
| Reconcile.StaleSiblingIsDeleted | core/src/reconcile.ts:146-195 | with more old fibers than children and an Update in the last slot, the last new fiber's `sibling` is the next old fiber, which the trailing loop deletes |
| Reconcile.ReconcileNothing | core/src/reconcile.ts:112-114 | reconciling null makes no fiber, keeps the child link, and deletes and tags exactly the whole old chain, in order |
| Reconcile.FragmentPartialSplice | core/src/reconcile.ts:137-139 | a fragment child reconciles its children from index 0 against the old chain at its position: a non-empty fragment resets the return fiber's child, its trailing loop deletes every old fiber past its own children, and `prevSibling` is unchanged |
| Reconcile.DeleteRestOk | core/src/reconcile.ts:188-192 | the trailing loop keeps every handle in range |
| Reconcile.PlaceChild | core/src/reconcile.ts:141-179 | the loop body for a non-fragment child computes `Slot` and keeps handles in range |
| Reconcile.DeleteRemaining | core/src/reconcile.ts:188-192 | the trailing loop computes `DeleteRest` of the rest of the chain |
| Reconcile.ReconcileOne | core/src/reconcile.ts:133-185 | one pass of the loop advances `oldFiber` along the chain and leaves the rest of the loop's result unchanged |
| Reconcile.ReconcileChildrenArray | core/src/reconcile.ts:123-195 | the result is `Arr` of the old chain and the children, and the returned fiber is the return fiber's child |
| Reconcile.ReconcileChildren | core/src/reconcile.ts:111-121 | null/undefined become no children, an array its items, anything else a one-child list, against the alternate's old chain |
| Commit.SetRefOps | core/src/reconcile.ts:305-311 | a function ref is called, a non-null object ref gets `current`, and any other ref gets nothing |
| Commit.RefGuardRedundant | core/src/reconcile.ts:400-438 | the truthiness guard before each `setRef` changes nothing |
| Commit.DomParentFiber | core/src/reconcile.ts:394-397 | the loop finds an ancestor that has a node, if any |
| Commit.DeleteSingle | core/src/reconcile.ts:432-438 | the ref is set to null before the node is removed, and removal happens only if the node is attached; other nodes are untouched |
| Commit.DeletionWalk | core/src/reconcile.ts:440-450 | the walk only extends the log and keeps the document well formed |
| Commit.CommitDeletion | core/src/reconcile.ts:423-430 | the deletion only extends the log and keeps the document well formed |
| Commit.DeletionReachesSiblings | core/src/reconcile.ts:440-449 | as written, deleting a node-less, childless fiber removes the attached node of its next sibling |
| Commit.DeletionWalkKeepsDetached | core/src/reconcile.ts:440-450 | a deletion walk never attaches a node |
| Commit.CommitDeletionOnlyDetaches | core/src/reconcile.ts:423-450 | any node attached after a deletion was attached before it |
| Commit.CommitFiber | core/src/reconcile.ts:389-417 | a throw leaves the document as it was; otherwise the log is only extended |
| Commit.CommitWork | core/src/reconcile.ts:389-421 | the fiber, its child's subtree and its sibling's, stopping at the first throw; the log is only extended |
| Commit.PlacementCommitted | core/src/reconcile.ts:400-404 | a placed fiber's node is appended to the host parent, then handed to its ref |
| Commit.UpdateCommitted | core/src/reconcile.ts:405-414 | an updated fiber's props are diffed against its alternate's; when the ref changed, the old ref is nulled before the new ref gets the node |
| Commit.CommitFiberThrows | core/src/reconcile.ts:394-406 | `commitWork` throws exactly when no ancestor has a node, or an updated fiber with a node has no alternate |
| Commit.UntaggedCommitted | core/src/reconcile.ts:400-417 | a fiber without a tag changes nothing |
| Commit.SameKindSameTag | core/src/hooks.ts:6-56 | hooks of the same kind carry the same `tag` |
| Commit.HandleOps | core/src/reconcile.ts:479-483 | a function ref is called; any other non-null ref gets `current` |
| Commit.NextCleanup | core/src/reconcile.ts:474-476 | only a function result replaces the stored cleanup |
| Commit.RunEffect | core/src/reconcile.ts:473-483 | a user effect is called; the imperative-handle closure calls `create` and returns nothing |
| Commit.HookStep | core/src/reconcile.ts:468-522 | one hook in one walk: the kind is kept; hooks a walk does not target are untouched; the store walk only tags effect hooks with the work id and calls nothing |
| Commit.HooksStepKeeps | core/src/reconcile.ts:468-522 | a walk over a hook list keeps kinds, leaves unvisited and untargeted hooks alone, and stores ids silently |
| Commit.PhaseWalk | core/src/reconcile.ts:464-527 | a walk keeps every hook's kind and leaves untargeted hooks untouched; the store walk makes no host call |
| Commit.StoreTagsEffects | core/src/reconcile.ts:518-522 | every effect hook of the list gets the work id; other hooks are unchanged |
| Commit.EffectsClearWorkIds | core/src/reconcile.ts:496-507 | after `runEffects`, every effect hook has no work id and keeps its effect and deps |
| Commit.EffectsAllRun | core/src/reconcile.ts:496-507 | `runEffects` calls every effect, whatever its deps |
| Commit.StaleCleanupKept | core/src/reconcile.ts:498-504 | an effect returning a non-function leaves the old cleanup, which the next run calls again |
| Commit.LayoutCleanupFirst | core/src/reconcile.ts:469-476 | a layout effect's cleanup runs before the effect, and the effect runs whatever the deps |
| Commit.StepHooks | core/src/reconcile.ts:468-522 | the `forEach` loop computes `HooksStep` |
| Commit.RunHooks | core/src/reconcile.ts:468-522 | on the runtime: hooks replaced and calls logged as `HooksStep` says |
| Commit.WalkHooks | core/src/reconcile.ts:464-527 | the recursive walk computes `PhaseWalk` |
| Commit.Walk | core/src/reconcile.ts:464-527 | on the runtime: hooks and log as `PhaseWalk` says |
| Commit.RunLayoutEffects | core/src/reconcile.ts:464-490 | the layout walk from the root |
| Commit.RunEffects | core/src/reconcile.ts:492-512 | the effect walk from the root |
| Commit.StoreEffectWorkId | core/src/reconcile.ts:514-527 | only the hooks change, as the store walk says; the document is untouched |
| Commit.DrainStep | core/src/reconcile.ts:384-385 | one turn takes the head off and appends a new request fiber, which is queued at the tail |
| Commit.DrainStepSchedules | core/src/reconcile.ts:384-385 | that turn is `scheduleUpdate` on the head once it is off the list |
| Commit.DrainNeverEmpties | core/src/reconcile.ts:383-386 | as written, the pending list keeps its length after any number of turns, so the loop never ends |
| Commit.DrainQueue | core/src/reconcile.ts:383-386 | after `m` turns the first `m` entries are gone and one request fiber per turn has been appended and queued |
| Commit.DrainKeepsOthers | core/src/reconcile.ts:383-386 | the drain changes no old fiber other than those taken off |
| Commit.DrainRequestFibers | core/src/reconcile.ts:383-386 | the request fiber of turn `k` is tagged Update and has the `k`-th pending fiber as its alternate |
| Commit.DrainedRequests | core/src/reconcile.ts:383-386 | bounded by the number pending at its start, the drain ends, and each pending fiber has exactly one request, in order |
| Commit.DrainOne | core/src/reconcile.ts:384-385 | one turn on the runtime, scheduling one work-loop job |
| Commit.DrainPending | core/src/reconcile.ts:383-386 | the bounded drain on the runtime: state as `DrainSteps` says, and one job scheduled per pending update |
| Commit.CommitDeletions | core/src/reconcile.ts:367 | the deletions in order, stopping at the first throw; the log is only extended |
| Commit.CommitEach | core/src/reconcile.ts:367 | the loop computes `CommitDeletions` |
| Commit.HostCommitted | core/src/reconcile.ts:367-368 | deletions, then the new tree; the log is only extended and the document stays well formed |
| Commit.CommitHost | core/src/reconcile.ts:366-368 | on the runtime: the document as `HostCommitted` says, nothing else changed |
| Commit.FinishCommit | core/src/reconcile.ts:370-386 | layout effects, the effects job scheduled and its id stored, roots swapped, commit ended, updates drained |
| Commit.CommitRoot | core/src/reconcile.ts:365-387 | the state is `Committed`; on success the effects job and one work loop per pending update are scheduled, and a throw leaves the scheduler as it was |
| Commit.CommitSwapsRoots | core/src/reconcile.ts:372-386 | after a completed commit the finished root is current, no root is in progress, the commit is over, `deletions` is kept, and one request per pending update is queued in order |
| Commit.FailedCommitStuck | core/src/reconcile.ts:365-406 | a commit that throws leaves `isCommitting` set, so any later `scheduleUpdate` only queues its fiber |
| Commit.CommitOrder | core/src/reconcile.ts:366-370 | the deletions' calls come first, then the new tree's, then the layout effects' |
| Commit.StoreWalkTags | core/src/reconcile.ts:514-527 | each hook stays as it was or is an effect hook tagged with the work id |
| Commit.DeletedChildReattached | core/src/reconcile.ts:367-420 | a concrete arena where deleting a node-less component re-appends its child's node, while committing the deleted fiber on its own removes it |
| Commit.DeletionsOnlyDetach | core/src/reconcile.ts:367-417 | committing the deletions one fiber at a time only takes nodes out of the document |
| PropsDiff.UpdateDom | core/src/reconcile.ts:223-235 | the tree is untouched; the calls are appended to the log |
| PropsDiff.PassMember | core/src/reconcile.ts:239-274 | a call of a pass is a call for one of its keys |
| PropsDiff.RemoveListenersExactly | core/src/reconcile.ts:239-245 | a listener is removed exactly for each `on…` key of `prev` that `next` lacks or changes, with the event type lowercased minus `on` |
| PropsDiff.AddListenersExactly | core/src/reconcile.ts:268-274 | a listener is added exactly for each `on…` key of `next` whose handler is new or changed |
| PropsDiff.ClearPropertiesExactly | core/src/reconcile.ts:248-253 | a property is set to `''` exactly when it is in `prev` and missing from `next`; `children` and listeners never are |
| PropsDiff.SetPropertiesExactly | core/src/reconcile.ts:256-265 | a property is written exactly when its value changed: as an attribute for `data-`/`aria-` names, as a property otherwise |
| PropsDiff.StyleWritesExactly | core/src/reconcile.ts:289-360 | a changed style value is written; numbers get `px` unless unitless, and `--` keys go through `setProperty` |
| PropsDiff.StyleOpsExactly | core/src/reconcile.ts:277-303 | with `style` on either side, the style calls are exactly `style[k] = ''` for each old style key the new style lacks and a write for each new style key whose value changed; without `style`, none |
| PropsDiff.ClearStyleMember | core/src/reconcile.ts:282-286 | the clearing loop sets `style[k] = ''` exactly for the old style keys the new style lacks |
| PropsDiff.SetStyleMember | core/src/reconcile.ts:289-301 | the writing loop writes exactly the new style keys whose value changed, each with its converted value |
| PropsDiff.KeyOpsInPass | core/src/reconcile.ts:239-274 | a call made for one key of a pass is among the pass's calls |
| PropsDiff.DiffMember | core/src/reconcile.ts:237-303 | a call of the diff is a call of one of its five passes |
| PropsDiff.PassWritesNoStyle | core/src/reconcile.ts:239-274 | only the style passes write styles |
| PropsDiff.StyleUntouchedWithoutStyle | core/src/reconcile.ts:277 | without `style` on either side, no style call is made |
| PropsDiff.KeyOpsSame | core/src/reconcile.ts:460-462 | a key with the same value on both sides gives no call |
| PropsDiff.PassSelfEmpty | core/src/reconcile.ts:239-301 | a pass from an object to itself makes no call |
| PropsDiff.DiffSelfIsEmpty | core/src/reconcile.ts:237-303 | diffing props against themselves makes no call |
| PropsDiff.FirstDiffOnlyWrites | core/src/reconcile.ts:204 | a new node's first diff removes and clears nothing: it only writes |
| Scheduler.ScheduleAll | core/src/scheduler.ts:35-43 | one id per `scheduleWork` call |
| Scheduler.Without | core/src/scheduler.ts:46 | the filter keeps exactly the entries of other ids |
| Scheduler.WithoutKeepsOrder | core/src/scheduler.ts:46 | filtering keeps ids increasing and issued |
| Scheduler.WithoutIncreasing | core/src/scheduler.ts:46 | filtering keeps the queue's id order |
| Scheduler.StepKeepsInv | core/src/scheduler.ts:17-59 | every operation keeps ids increasing and issued, and `pending` set whenever work is queued |
| Scheduler.ScheduleAllKeepsInv | core/src/scheduler.ts:35-43 | `scheduleWork` calls append at the tail with consecutive ids |
| Scheduler.IdsAreConsecutive | core/src/scheduler.ts:10-36 | successive calls hand out n, n+1, n+2, … (1, 2, 3, … from the start) |
| Scheduler.RunsInFifoOrder | core/src/scheduler.ts:20-37 | `n` run steps run exactly the first `n` queued entries, in order |
| Scheduler.CancelledNeverRuns | core/src/scheduler.ts:45-50 | an issued id that is no longer queued is never run by any later history |
| Scheduler.CancelRemovesExactly | core/src/scheduler.ts:45-50 | `cancelWork` removes exactly that id's entries, keeps the rest in order, and clears `pending` when the queue empties |
| Scheduler.StepSettlesPending | core/src/scheduler.ts:20-28 | after a run step, `pending` holds exactly when work remains; exactly one message is posted when work remains and none otherwise, since callbacks scheduled during the run find `pending` set |
| Scheduler.ScheduleAllWhilePending | core/src/scheduler.ts:35-41 | while a message is pending, `scheduleWork` posts nothing and `pending` stays set |
| Scheduler.ScheduleAllPosts | core/src/scheduler.ts:38-41 | scheduling sets `pending` and never takes back a post |
| Scheduler.ForeignMessageIgnored | core/src/scheduler.ts:18 | a message from another source or with other data changes nothing and runs nothing |
| Scheduler.Queue.constructor | core/src/scheduler.ts:9-11 | no work, next id 1, not pending |
| Scheduler.Queue.ScheduleWork | core/src/scheduler.ts:35-43 | appends at the tail with the next id, returns that id, and posts only on the not-pending to pending transition |
| Scheduler.Queue.HandleMessage | core/src/scheduler.ts:17-30 | the run step as `Step` gives it |
| Scheduler.Queue.ScheduleWorkRaw | core/src/scheduler.ts:35-43 | `scheduleWork` called from inside a running callback |
| Scheduler.Queue.CancelWork | core/src/scheduler.ts:45-50 | the state after `cancelWork` is `Cancel` |
| Scheduler.Queue.CancelAllWork | core/src/scheduler.ts:52-55 | empties the queue and clears `pending`, keeping the next id |
| Scheduler.Queue.IsPending | core/src/scheduler.ts:57-59 | returns `pending` |
| YieldClock.Answers | core/src/yield.ts:5-18 | one answer per clock reading |
| YieldClock.FirstYieldAtDeadline | core/src/yield.ts:1-18 | in a fresh run, a call yields exactly when 5 ms have passed since the run's first reading, and every earlier call says no |
| YieldClock.KeptStartFrom | core/src/yield.ts:6-17 | while no call yields, the start stays at the run's first reading |
| YieldClock.YieldRestartsBudget | core/src/yield.ts:12-14 | a yes resets the start, so the next call begins a fresh budget |
| YieldClock.Clock.constructor | core/src/yield.ts:3 | the start time is 0 |
| YieldClock.Clock.ShouldYield | core/src/yield.ts:5-18 | yields exactly when now minus the start (recorded first if 0) is at least 5; a yes resets the start to 0, a no keeps it |
| YieldClock.Clock.ResetYieldTime | core/src/yield.ts:21-23 | the start time is 0 |

## Left out

- DOM calls are not made. `Host.Document` records the tree shape and an ordered log of the calls instead. `Date.now`, `window.postMessage`, the message listener and `requestIdleCallback` are host I/O. Clock readings and message deliveries are parameters.
- `workLoop` (core/src/reconcile.ts:41-51) is not a member. It runs `performUnitOfWork` while `shouldYield` says no, then polls through `requestIdleCallback`. Its pieces are modelled: `Work.PerformUnitOfWork`, `YieldClock.Clock.ShouldYield` and `Commit.CommitRoot`.
- User code (components, reducers, effects, cleanups, `init`, factories, `create`, function refs) is an opaque total function `call`. An exception thrown by user code is not modelled.
- Hooks called from inside a component are not modelled. `call` cannot reach the runtime, so the hooks are modelled as methods on the runtime.
- core/src/context.ts, core/src/ref.ts, core/src/jsx-runtime.ts, core/src/index.ts, core/src/dom.ts, core/src/dom/index.ts, core/src/dom/client.ts, framework/index.ts and the demo are not part of this model. `useContext` reads a map of the contexts' current values, and `Hooks.UseContext` takes no hook slot.
- JsValues.Keys, Elements.CopyOwnProps, Jsx.Collect, Jsx.Heap.CollectAttrs, PropsDiff.PassOps, PropsDiff.RemoveListeners, PropsDiff.ClearProperties, PropsDiff.SetProperties, PropsDiff.AddListeners, PropsDiff.StyleOps, PropsDiff.DiffProps: `Object.keys` and `for…in` list integer-like keys (such as `"1"`) first, in ascending numeric order, and then the other keys in insertion order. The model keeps insertion order for every key and does not move integer-like keys to the front. For `jsx('div', {title: 'a', 1: 'b'})` the prop list in `open` is `["title", "a", "1", "b"]` in the model and `["1", "b", "title", "a"]` in the source. The host calls of a props diff come in the same way in a different order. Which props are copied, which entries the lists hold and which calls a diff makes are the same; only their order differs when an integer-like key is present.
- Commit.HandleOps, Commit.RunEffect, Commit.RunLayoutEffects, Commit.CommitRoot: an imperative handle whose ref is `undefined`, a string, a number or a boolean makes `ref.current = value` throw a TypeError in module code (the `useImperativeHandle` closure, core/src/hooks.ts:136-139, and the layout walk, core/src/reconcile.ts:477-483, test only for `null`). The source then stops inside `runLayoutEffects`, so `commitRoot` schedules no effects job and leaves `isCommitting` set. The model logs `AssignCurrent(ref, value)` for such a ref and the commit goes on and reports success. Only `Ref` objects and functions, the types the hook accepts, are modelled faithfully.
- Work.SetProviderValue: a provider type without `_context` makes the source throw on the assignment. The model stores the value under `undefined` instead.
- Floating-point numbers are not modelled: values are integers. So are `===` on objects and arrays: values compare structurally, except functions, which compare by identity. Prototype properties and getters are not modelled either: objects are lists of own keys in insertion order.
- PropsDiff: a non-object `style` value is read as having no keys.
- Commit.DeleteSingle: `removeChild` throwing `NotFoundError` for a node attached elsewhere is not modelled. The node is detached from wherever it hangs.
- Hooks.Dispatch requires the hook to still be a reducer hook. A reused hook of another kind gains a `state` field in the source, and that is not modelled.
- Reconcile.ReconcileChildrenArray requires every child to be a string, a number or an element, and a fragment's children to be walkable. `null` and booleans among the children throw at the `.type` read or on the next unit of work. Non-array children of a fragment other than strings (functions, plain objects with a `length`) count as no children.
- Reconcile.ReconcileChildrenArray takes the old sibling chain as a precondition (`IsChain`). Its finiteness is assumed of the caller, not proved.
- Commit.CommitWork, Commit.PhaseWalk and Commit.DeletionWalk take a `fuel` bound, because a fiber's copied `child`/`sibling` links may be stale and nothing in the source rules out a cycle. When the fuel runs out, the walk stops.
- Commit.CommitRoot requires that every fiber's node was created by the document (`DomsKnown`). This holds for every node `createDom` makes.
- Commit.CommitDeletions models the corrected behaviour: each deleted fiber is committed on its own (see Findings). The as-written recursion is captured by `Commit.DeletedChildReattached`.
- Commit.DrainPending models the corrected, bounded drain (see Findings). The as-written loop is captured by `Commit.DrainNeverEmpties`.
- Commit.DeletionReachesSiblings captures, as written, that `commitDeletionRecursive` also removes the nodes of a node-less deleted fiber's later siblings. The model keeps that behaviour.
- JsValues.ToJsString, Elements.CreateElement, Jsx.Heap.PushChild: a function converts to the string "function", not to its source text, which the model does not hold. A symbol, or an array holding one, throws the TypeError as in the source.
- JsValues.AsciiLower, Jsx.EventEntry, Jsx.EventSource, PropsDiff.RemoveListenersExactly, PropsDiff.AddListenersExactly: `toLowerCase` is modelled on ASCII letters only. Other letters are kept as they are, where JavaScript would fold them by Unicode case mapping.
- Commit.CommitRoot, Commit.HostCommitted, Commit.CommitHost, Commit.CommitEach, Commit.FinishCommit, Commit.CommitSwapsRoots: these rest on the corrected `Commit.CommitDeletions` and the bounded `Commit.DrainPending` (see Findings). They do not model the as-written re-attachment of a deleted subtree's children or the drain loop that never empties.
- Jsx.Heap.PushChild and Jsx.Heap.PushChildren require the child not to be the tree itself: `pushChild(tree, tree)` shifts each item and pushes it back, and never ends. `jsx` and `Fragment` always push into a tree they just made, so they never meet this case.
- Jsx.Heap.Jsx and Jsx.Heap.Fragment require every handle in the heap and in the props to be a live array (`Closed`, `AttrsIn`). This is what JavaScript references are.
- Jsx: `isPID` and `isBlessedString` sit behind `false &&` in the source and are never taken; they are not modelled. The `key`, `__self` and `__source` arguments of `jsx` are not read.
- The `workLoop` that fiber.ts imports from reconcile.ts (core/src/fiber.ts:7) is not exported there. The model schedules it as a distinct job, `ImportedWorkLoop`.

## Findings

| source | as written | input that shows it | evidently intended | confidence | as-written member | corrected member |
|---|---|---|---|---|---|---|
| core/src/reconcile.ts:383-386 | each turn of the drain loop shifts one fiber and calls `scheduleUpdate`, which outside a commit (core/src/fiber.ts:65-69) pushes a new request fiber onto `pendingUpdates` | any `scheduleUpdate` made outside a commit leaves one entry pending; the next `commitRoot` drains it and pushes another, forever | each update pending at the end of a commit is scheduled once and the loop ends | not executed | Commit.DrainNeverEmpties | Commit.DrainPending |
| framework/jsx.ts:78 | `false && isTree(children)` never wraps a tree passed as the only `children`, so `pushChildren` runs the `forEach` of framework/jsx.ts:67 over the tree's own items as if they were children; `isTree` is defined nowhere in the repository, so the test cannot simply be switched on | `jsx('div', {children: jsx('b', {})})`: the child tree's marker becomes the text instruction `[4, "~ad.tree~"]`, and each of its instruction arrays (its `open`, its `[2, "b"]`) is an array child that the `shift` loop drains into the parent as loose values, leaving it empty | a tree given alone splices in as a tree inside a `children` array already does (framework/jsx.ts:64-67 with the loop at 47-59): the marker is skipped and the instruction arrays are pushed whole. This intent is read from that multi-child path, not from the guard; the `false &&` guards beside it (`isPID`, `isBlessedString`) may be features switched off on purpose | low, not executed | Jsx.TreeChildShowsMarker | Jsx.IntendedTreeChildSplices |
| core/src/reconcile.ts:367-420 | `deletions.forEach(commitWork)` commits each deleted fiber and then recurses into its child and sibling, replaying the tags they kept from the last commit | a deleted component without a node whose child was placed at the last commit: the child's node is removed and then appended again | a deleted subtree leaves the document and nothing is re-attached | not executed | Commit.DeletedChildReattached | Commit.DeletionsOnlyDetach |
