/**
 * The positional child reconciler of core/src/reconcile.ts
 * (`reconcileChildren`, `reconcileChildrenArray`).
 *
 * The old children are the sibling chain that starts at the alternate's
 * first child; `olds` lists it. The new children are walked in lockstep
 * with it: each slot either updates a copy of the old fiber, or deletes
 * the old fiber and places a new one. A fragment child reconciles its own
 * children against the remaining old chain, from scratch.
 */
module Reconcile {
  import opened Wrappers
  import opened JsValues
  import opened Fragments
  import opened Fibers

  /** The type of text fibers. */
  const TEXT_ELEMENT: Value := Str("TEXT_ELEMENT")

  /** `typeof child === 'string' || typeof child === 'number'` */
  predicate IsText(v: Value) {
    v.Str? || v.Num?
  }

  /**
   * The children a fragment's loop walks: an array's items, a string's
   * characters, and nothing for any other value (whose `length` is undefined).
   */
  function FragmentKids(v: Value): (r: seq<Value>)
    ensures ItemsSize(r) <= Size(v)
  {
    match v
    case Arr(items) => items
    case Str(s) =>
      var r := seq(|s|, i requires 0 <= i < |s| => Str([s[i]]));
      CharsSize(r);
      r
    case _ => []
  }

  /** Characters cost one each. */
  lemma {:induction false} CharsSize(r: seq<Value>)
    requires forall i :: 0 <= i < |r| ==> r[i].Str? && |r[i].s| == 1
    ensures ItemsSize(r) == |r|
    decreases |r|
  {
    if r != [] {
      CharsSize(r[1..]);
    }
  }

  /** `newChild.props.children` of a fragment element. */
  function FragmentChildren(e: Element): Value {
    Read(e.props, "children")
  }

  /**
   * A fragment's children the loop can walk: `null`/`undefined` make it
   * throw, and a function or plain object would report a `length` this
   * model does not follow.
   */
  predicate WalkableFragmentChildren(c: Value) {
    c.Arr? || c.Str? || c.Num? || c.Bool? || c.Sym? || c.El?
  }

  lemma FragmentKidsSmaller(e: Element)
    ensures ItemsSize(FragmentKids(FragmentChildren(e))) < Size(El(e))
  {
    ReadSize(e.props, "children");
  }

  /**
   * A child the reconciler handles: a string, a number or an element; a
   * fragment element's own children are walkable and handled in turn.
   * Other values make the source throw, here or on the next unit of work.
   */
  predicate KidOk(v: Value)
    decreases Size(v), 1
  {
    (v.Str? || v.Num? || v.El?)
    && (FragmentKid(v) ==>
          WalkableFragmentChildren(FragmentChildren(v.e))
          && (FragmentKidsSmaller(v.e); Reconcilable(FragmentKids(FragmentChildren(v.e)))))
  }

  /** A fragment element among the children: the loop recurses into its children. */
  predicate FragmentKid(v: Value) {
    v.El? && v.e.kind == FRAGMENT_TYPE
  }

  /** Among the children, `FragmentKid` is `isFragment`. */
  lemma FragmentKidIsFragment(v: Value)
    requires v.Str? || v.Num? || v.El?
    ensures FragmentKid(v) <==> IsFragment(v)
  {
  }

  predicate Reconcilable(kids: seq<Value>)
    decreases ItemsSize(kids), 2
  {
    kids == [] || (KidOk(kids[0]) && Reconcilable(kids[1..]))
  }

  lemma {:induction false} ReconcilableAt(kids: seq<Value>, i: nat)
    requires Reconcilable(kids) && i < |kids|
    ensures KidOk(kids[i]) && Reconcilable(kids[i + 1..])
    decreases i
  {
    if i > 0 {
      ReconcilableAt(kids[1..], i - 1);
      assert kids[1..][i - 1] == kids[i];
      assert kids[1..][i..] == kids[i + 1..];
    }
  }

  /** The fibers and the deletion list the reconciler changes. */
  datatype World = World(fibers: seq<Fiber>, deletions: seq<nat>)

  /** The old fiber at position `i` of the chain, or null past its end. */
  function OldAt(olds: seq<nat>, i: nat): Option<nat> {
    if i < |olds| then Some(olds[i]) else None
  }

  /** The chain from position `i` on. */
  function OldsFrom(olds: seq<nat>, i: nat): seq<nat> {
    if i < |olds| then olds[i..] else []
  }

  predicate AllBelow(xs: seq<nat>, n: nat) {
    forall k :: 0 <= k < |xs| ==> xs[k] < n
  }

  /** `sameType`: an old fiber exists and its type fits the child. */
  predicate SameType(fs: seq<Fiber>, prior: Option<nat>, kid: Value)
    requires prior.Some? ==> prior.value < |fs|
  {
    prior.Some?
    && ((IsText(kid) && fs[prior.value].kind == TEXT_ELEMENT) || (!IsText(kid) && fs[prior.value].kind == TypeField(kid)))
  }

  /** The props a slot's fiber gets: `{ nodeValue }` for text, the element's props otherwise. */
  function KidProps(kid: Value): Props {
    if IsText(kid) then [("nodeValue", kid)] else if kid.El? then kid.e.props else []
  }

  /** `(newChild as ReactElement).ref`: a string or number has no `ref`. */
  function KidRef(kid: Value): Value {
    if kid.El? then kid.e.ref else Undefined
  }

  /** The fiber a slot makes, with its parent set and before any sibling is linked to it. */
  function NewFiber(fs: seq<Fiber>, ret: nat, prior: Option<nat>, kid: Value): Fiber
    requires prior.Some? ==> prior.value < |fs|
  {
    if SameType(fs, prior, kid) then
      fs[prior.value].(props := KidProps(kid), ref := KidRef(kid), alternate := prior, effectTag := Some(Update),
                     parent := Some(ret))
    else if IsText(kid) then
      CreateFiber(TEXT_ELEMENT, KidProps(kid), None, Null).(effectTag := Some(Placement), parent := Some(ret))
    else
      CreateFiber(TypeField(kid), KidProps(kid), None, Null).(ref := KidRef(kid), effectTag := Some(Placement),
                                                             parent := Some(ret))
  }

  /** Tags fiber `x` Deletion and pushes it on `deletions`. */
  function Delete(w: World, x: nat): (r: World)
    requires x < |w.fibers|
    ensures |r.fibers| == |w.fibers| && r.deletions == w.deletions + [x] && r.fibers[x].effectTag == Some(Deletion)
  {
    World(w.fibers[x := w.fibers[x].(effectTag := Some(Deletion))], w.deletions + [x])
  }

  /** Links fiber `n` as `returnFiber.child` (index 0) or as `prevSibling.sibling` (when there is one). */
  function Link(fs: seq<Fiber>, ret: nat, i: nat, prev: Option<nat>, n: nat): (r: seq<Fiber>)
    requires ret < |fs| && (prev.Some? ==> prev.value < |fs|)
    ensures |r| == |fs|
  {
    if i == 0 then fs[ret := fs[ret].(child := Some(n))]
    else if prev.Some? then fs[prev.value := fs[prev.value].(sibling := Some(n))]
    else fs
  }

  /**
   * One non-fragment slot at index `i`: a mismatched old fiber is tagged
   * and queued for deletion, the new fiber is appended, and it becomes
   * `returnFiber.child` (index 0) or the previous fiber's sibling.
   */
  function Slot(w: World, ret: nat, prior: Option<nat>, kid: Value, i: nat, prev: Option<nat>): (r: (World, nat))
    requires ret < |w.fibers| && (prior.Some? ==> prior.value < |w.fibers|) && (prev.Some? ==> prev.value < |w.fibers|)
    ensures r.1 == |w.fibers| && |r.0.fibers| == |w.fibers| + 1
  {
    var w1 := if !SameType(w.fibers, prior, kid) && prior.Some? then Delete(w, prior.value) else w;
    var n := |w1.fibers|;
    (World(Link(w1.fibers + [NewFiber(w.fibers, ret, prior, kid)], ret, i, prev, n), w1.deletions), n)
  }

  /** The trailing loop: every remaining old fiber is tagged and queued for deletion, in chain order. */
  function DeleteRest(w: World, rest: seq<nat>): (r: World)
    requires AllBelow(rest, |w.fibers|)
    ensures |r.fibers| == |w.fibers| && r.deletions == w.deletions + rest
    decreases |rest|
  {
    if rest == [] then w else DeleteRest(Delete(w, rest[0]), rest[1..])
  }

  /** `reconcileChildrenArray(returnFiber, olds[0], kids)` */
  function Arr(w: World, ret: nat, olds: seq<nat>, kids: seq<Value>): (r: World)
    requires ret < |w.fibers| && AllBelow(olds, |w.fibers|) && Reconcilable(kids)
    ensures |r.fibers| >= |w.fibers|
    decreases ItemsSize(kids), 3
  {
    assert kids[0..] == kids;
    Loop(w, ret, olds, kids, 0, None)
  }

  /** The `for` loop of `reconcileChildrenArray` from index `i`, `prev` being `prevSibling`, then the trailing loop. */
  function Loop(w: World, ret: nat, olds: seq<nat>, kids: seq<Value>, i: nat, prev: Option<nat>): (r: World)
    requires ret < |w.fibers| && AllBelow(olds, |w.fibers|) && Reconcilable(kids) && i <= |kids|
    requires prev.Some? ==> prev.value < |w.fibers|
    ensures |r.fibers| >= |w.fibers|
    decreases ItemsSize(kids[i..]), 2
  {
    if i == |kids| then DeleteRest(w, OldsFrom(olds, i))
    else
      var s := Step(w, ret, olds, kids, i, prev);
      ItemsSizeSplit(kids, i);
      Loop(s.0, ret, olds, kids, i + 1, s.1)
  }

  /**
   * One pass of the loop body at index `i`: the new fibers and deletions,
   * and the new `prevSibling`. A fragment child reconciles its own children
   * against the old chain from `oldFiber` on and leaves `prevSibling` as it
   * was; any other child takes a slot.
   */
  function Step(w: World, ret: nat, olds: seq<nat>, kids: seq<Value>, i: nat, prev: Option<nat>): (r: (World, Option<nat>))
    requires ret < |w.fibers| && AllBelow(olds, |w.fibers|) && Reconcilable(kids) && i < |kids|
    requires prev.Some? ==> prev.value < |w.fibers|
    ensures |r.0.fibers| >= |w.fibers| && (r.1.Some? ==> r.1.value < |r.0.fibers|)
    decreases ItemsSize(kids[i..]), 1
  {
    var kid := kids[i];
    if FragmentKid(kid) then
      ReconcilableAt(kids, i);
      ItemsSizeSplit(kids, i);
      FragmentKidsSmaller(kid.e);
      (Arr(w, ret, OldsFrom(olds, i), FragmentKids(FragmentChildren(kid.e))), prev)
    else
      var s := Slot(w, ret, OldAt(olds, i), kid, i, prev);
      (s.0, Some(s.1))
  }

  /** `olds` is the sibling chain that starts at `first`. */
  predicate IsChain(fs: seq<Fiber>, first: Option<nat>, olds: seq<nat>) {
    AllBelow(olds, |fs|) && first == OldAt(olds, 0)
    && forall k :: 0 <= k < |olds| ==> fs[olds[k]].sibling == OldAt(olds, k + 1)
  }

  lemma ChainFrom(fs: seq<Fiber>, first: Option<nat>, olds: seq<nat>, i: nat)
    requires IsChain(fs, first, olds)
    ensures IsChain(fs, OldAt(olds, i), OldsFrom(olds, i))
  {
    var rest := OldsFrom(olds, i);
    if i < |olds| {
      forall k | 0 <= k < |rest| ensures fs[rest[k]].sibling == OldAt(rest, k + 1) {
        assert rest[k] == olds[i + k];
      }
    }
  }

  /** A chain below `base` survives any change that keeps the sibling links there, except perhaps at `skip` past it. */
  lemma ChainKept(fs: seq<Fiber>, gs: seq<Fiber>, first: Option<nat>, olds: seq<nat>, base: nat, skip: Option<nat>)
    requires IsChain(fs, first, olds) && AllBelow(olds, base) && |fs| <= |gs| && (skip.Some? ==> base <= skip.value)
    requires forall x :: 0 <= x < |fs| && skip != Some(x) ==> gs[x].sibling == fs[x].sibling
    ensures IsChain(gs, first, olds)
  {
    forall k | 0 <= k < |olds| ensures gs[olds[k]].sibling == OldAt(olds, k + 1) {
      assert olds[k] < base;
    }
  }

  /** Queuing a deletion keeps every link in range. */
  lemma DeleteOk(w: World, x: nat, hc: nat)
    requires x < |w.fibers| && ArenaOk(w.fibers, hc) && AllInArena(w.fibers, w.deletions)
    ensures ArenaOk(Delete(w, x).fibers, hc) && AllInArena(Delete(w, x).fibers, Delete(w, x).deletions)
  {
    var gs := Delete(w, x).fibers;
    forall y | 0 <= y < |gs| ensures FiberOk(gs, hc, y) {
      assert FiberOk(w.fibers, hc, y);
    }
  }

  /** The fiber a slot appends has its links in range. */
  lemma NewFiberOk(fs: seq<Fiber>, gs: seq<Fiber>, ret: nat, prior: Option<nat>, kid: Value, hc: nat)
    requires ret < |fs| && (prior.Some? ==> prior.value < |fs|) && ArenaOk(fs, hc)
    requires |gs| == |fs| && ArenaOk(gs, hc)
    ensures ArenaOk(gs + [NewFiber(fs, ret, prior, kid)], hc)
  {
    var hs := gs + [NewFiber(fs, ret, prior, kid)];
    forall y | 0 <= y < |hs| ensures FiberOk(hs, hc, y) {
      if y < |gs| {
        assert FiberOk(gs, hc, y);
      } else if SameType(fs, prior, kid) {
        assert FiberOk(fs, hc, prior.value);
      }
    }
  }

  /** Linking a fiber in range keeps every link in range. */
  lemma LinkOk(fs: seq<Fiber>, ret: nat, i: nat, prev: Option<nat>, n: nat, hc: nat)
    requires ret < |fs| && (prev.Some? ==> prev.value < |fs|) && n < |fs| && ArenaOk(fs, hc)
    ensures ArenaOk(Link(fs, ret, i, prev, n), hc)
  {
    var gs := Link(fs, ret, i, prev, n);
    forall y | 0 <= y < |gs| ensures FiberOk(gs, hc, y) {
      assert FiberOk(fs, hc, y);
    }
  }

  /** A slot keeps every link in range. */
  lemma SlotOk(w: World, ret: nat, prior: Option<nat>, kid: Value, i: nat, prev: Option<nat>, hc: nat)
    requires ret < |w.fibers| && (prior.Some? ==> prior.value < |w.fibers|) && (prev.Some? ==> prev.value < |w.fibers|)
    requires ArenaOk(w.fibers, hc) && AllInArena(w.fibers, w.deletions)
    ensures var r := Slot(w, ret, prior, kid, i, prev).0; ArenaOk(r.fibers, hc) && AllInArena(r.fibers, r.deletions)
  {
    var w1 := if !SameType(w.fibers, prior, kid) && prior.Some? then Delete(w, prior.value) else w;
    if !SameType(w.fibers, prior, kid) && prior.Some? {
      DeleteOk(w, prior.value, hc);
    }
    NewFiberOk(w.fibers, w1.fibers, ret, prior, kid, hc);
    LinkOk(w1.fibers + [NewFiber(w.fibers, ret, prior, kid)], ret, i, prev, |w1.fibers|, hc);
  }

  /** `reconcileChildrenArray` never rewrites the sibling link of a fiber that existed before it. */
  lemma {:induction false} ArrSiblings(w: World, ret: nat, olds: seq<nat>, kids: seq<Value>)
    requires ret < |w.fibers| && AllBelow(olds, |w.fibers|) && Reconcilable(kids)
    ensures forall x :: 0 <= x < |w.fibers| ==> Arr(w, ret, olds, kids).fibers[x].sibling == w.fibers[x].sibling
    decreases ItemsSize(kids), 3
  {
    assert kids[0..] == kids;
    LoopSiblings(w, ret, olds, kids, 0, None);
  }

  /** From index `i`, only `prevSibling`'s sibling link among the existing fibers may change. */
  lemma {:induction false} LoopSiblings(w: World, ret: nat, olds: seq<nat>, kids: seq<Value>, i: nat, prev: Option<nat>)
    requires ret < |w.fibers| && AllBelow(olds, |w.fibers|) && Reconcilable(kids) && i <= |kids|
    requires prev.Some? ==> prev.value < |w.fibers|
    ensures forall x :: 0 <= x < |w.fibers| && prev != Some(x) ==>
      Loop(w, ret, olds, kids, i, prev).fibers[x].sibling == w.fibers[x].sibling
    decreases ItemsSize(kids[i..]), 2
  {
    if i == |kids| {
      DeleteRestSiblings(w, OldsFrom(olds, i));
    } else {
      var s := Step(w, ret, olds, kids, i, prev);
      ItemsSizeSplit(kids, i);
      StepSiblings(w, ret, olds, kids, i, prev);
      LoopSiblings(s.0, ret, olds, kids, i + 1, s.1);
    }
  }

  /** A pass of the loop body rewrites no existing sibling link but `prevSibling`'s, and leaves `prevSibling` new or as it was. */
  lemma {:induction false} StepSiblings(w: World, ret: nat, olds: seq<nat>, kids: seq<Value>, i: nat, prev: Option<nat>)
    requires ret < |w.fibers| && AllBelow(olds, |w.fibers|) && Reconcilable(kids) && i < |kids|
    requires prev.Some? ==> prev.value < |w.fibers|
    ensures var s := Step(w, ret, olds, kids, i, prev);
      (forall x :: 0 <= x < |w.fibers| && prev != Some(x) ==> s.0.fibers[x].sibling == w.fibers[x].sibling)
      && (s.1 == prev || s.1 == Some(|w.fibers|))
    decreases ItemsSize(kids[i..]), 1
  {
    if FragmentKid(kids[i]) {
      ReconcilableAt(kids, i);
      ItemsSizeSplit(kids, i);
      FragmentKidsSmaller(kids[i].e);
      ArrSiblings(w, ret, OldsFrom(olds, i), FragmentKids(FragmentChildren(kids[i].e)));
    } else {
      SlotSiblings(w, ret, OldAt(olds, i), kids[i], i, prev);
    }
  }

  lemma SlotSiblings(w: World, ret: nat, prior: Option<nat>, kid: Value, i: nat, prev: Option<nat>)
    requires ret < |w.fibers| && (prior.Some? ==> prior.value < |w.fibers|) && (prev.Some? ==> prev.value < |w.fibers|)
    ensures forall x :: 0 <= x < |w.fibers| && prev != Some(x) ==> Slot(w, ret, prior, kid, i, prev).0.fibers[x].sibling == w.fibers[x].sibling
  {
  }

  /** Deleting the old fibers past the last child rewrites no sibling link. */
  lemma {:induction false} DeleteRestSiblings(w: World, rest: seq<nat>)
    requires AllBelow(rest, |w.fibers|)
    ensures forall x :: 0 <= x < |w.fibers| ==> DeleteRest(w, rest).fibers[x].sibling == w.fibers[x].sibling
    decreases |rest|
  {
    if rest != [] {
      DeleteRestSiblings(Delete(w, rest[0]), rest[1..]);
    }
  }

  /**
   * What reconciling may change in a fiber that already existed: its
   * `child` (only the return fiber's), its `sibling` and, for an old
   * fiber, its tag, which becomes Deletion. Everything else is kept.
   */
  predicate FiberKept(a: Fiber, b: Fiber, childMayChange: bool, mayBeDeleted: bool) {
    b.kind == a.kind && b.props == a.props && b.ref == a.ref && b.dom == a.dom
    && b.parent == a.parent && b.alternate == a.alternate && b.hooks == a.hooks
    && (!childMayChange ==> b.child == a.child)
    && (b.effectTag == a.effectTag || (mayBeDeleted && b.effectTag == Some(Deletion)))
  }

  predicate Framed(w: World, r: World, ret: nat, olds: seq<nat>) {
    |w.fibers| <= |r.fibers|
    && forall x :: 0 <= x < |w.fibers| ==> FiberKept(w.fibers[x], r.fibers[x], x == ret, x in olds)
  }

  lemma FramedTrans(w1: World, w2: World, w3: World, ret: nat, olds: seq<nat>)
    requires Framed(w1, w2, ret, olds) && Framed(w2, w3, ret, olds)
    ensures Framed(w1, w3, ret, olds)
  {
    forall x | 0 <= x < |w1.fibers| ensures FiberKept(w1.fibers[x], w3.fibers[x], x == ret, x in olds) {
      assert FiberKept(w1.fibers[x], w2.fibers[x], x == ret, x in olds);
      assert FiberKept(w2.fibers[x], w3.fibers[x], x == ret, x in olds);
    }
  }

  lemma FramedSuffix(w: World, r: World, ret: nat, olds: seq<nat>, i: nat)
    requires Framed(w, r, ret, OldsFrom(olds, i))
    ensures Framed(w, r, ret, olds)
  {
    forall x | 0 <= x < |w.fibers| ensures FiberKept(w.fibers[x], r.fibers[x], x == ret, x in olds) {
      if x in OldsFrom(olds, i) {
        var k :| 0 <= k < |OldsFrom(olds, i)| && OldsFrom(olds, i)[k] == x;
        assert olds[i + k] == x;
      }
      assert FiberKept(w.fibers[x], r.fibers[x], x == ret, x in OldsFrom(olds, i));
    }
  }

  lemma {:induction false} DeleteRestFramed(w: World, ret: nat, olds: seq<nat>, rest: seq<nat>)
    requires AllBelow(rest, |w.fibers|) && forall k :: 0 <= k < |rest| ==> rest[k] in olds
    ensures Framed(w, DeleteRest(w, rest), ret, olds)
    decreases |rest|
  {
    if rest != [] {
      var w1 := Delete(w, rest[0]);
      assert Framed(w, w1, ret, olds);
      DeleteRestFramed(w1, ret, olds, rest[1..]);
      FramedTrans(w, w1, DeleteRest(w, rest), ret, olds);
    }
  }

  lemma SlotFramed(w: World, ret: nat, prior: Option<nat>, kid: Value, i: nat, prev: Option<nat>, olds: seq<nat>)
    requires ret < |w.fibers| && (prior.Some? ==> prior.value < |w.fibers| && prior.value in olds)
    requires prev.Some? ==> prev.value < |w.fibers|
    ensures Framed(w, Slot(w, ret, prior, kid, i, prev).0, ret, olds)
  {
  }

  /** `reconcileChildrenArray` changes existing fibers only as `FiberKept` allows. */
  lemma {:induction false} ArrFramed(w: World, ret: nat, olds: seq<nat>, kids: seq<Value>)
    requires ret < |w.fibers| && AllBelow(olds, |w.fibers|) && Reconcilable(kids)
    ensures Framed(w, Arr(w, ret, olds, kids), ret, olds)
    decreases ItemsSize(kids), 3
  {
    assert kids[0..] == kids;
    LoopFramed(w, ret, olds, kids, 0, None);
  }

  lemma {:induction false} LoopFramed(w: World, ret: nat, olds: seq<nat>, kids: seq<Value>, i: nat, prev: Option<nat>)
    requires ret < |w.fibers| && AllBelow(olds, |w.fibers|) && Reconcilable(kids) && i <= |kids|
    requires prev.Some? ==> prev.value < |w.fibers|
    ensures Framed(w, Loop(w, ret, olds, kids, i, prev), ret, olds)
    decreases ItemsSize(kids[i..]), 2
  {
    if i == |kids| {
      var rest := OldsFrom(olds, i);
      forall k | 0 <= k < |rest| ensures rest[k] in olds {
        assert rest[k] == olds[i + k];
      }
      DeleteRestFramed(w, ret, olds, rest);
    } else {
      var s := Step(w, ret, olds, kids, i, prev);
      ItemsSizeSplit(kids, i);
      StepFramed(w, ret, olds, kids, i, prev);
      LoopFramed(s.0, ret, olds, kids, i + 1, s.1);
      FramedTrans(w, s.0, Loop(s.0, ret, olds, kids, i + 1, s.1), ret, olds);
    }
  }

  lemma {:induction false} StepFramed(w: World, ret: nat, olds: seq<nat>, kids: seq<Value>, i: nat, prev: Option<nat>)
    requires ret < |w.fibers| && AllBelow(olds, |w.fibers|) && Reconcilable(kids) && i < |kids|
    requires prev.Some? ==> prev.value < |w.fibers|
    ensures Framed(w, Step(w, ret, olds, kids, i, prev).0, ret, olds)
    decreases ItemsSize(kids[i..]), 1
  {
    if FragmentKid(kids[i]) {
      ReconcilableAt(kids, i);
      ItemsSizeSplit(kids, i);
      FragmentKidsSmaller(kids[i].e);
      var inner := FragmentKids(FragmentChildren(kids[i].e));
      ArrFramed(w, ret, OldsFrom(olds, i), inner);
      FramedSuffix(w, Arr(w, ret, OldsFrom(olds, i), inner), ret, olds, i);
    } else {
      SlotFramed(w, ret, OldAt(olds, i), kids[i], i, prev, olds);
    }
  }

  /** One pass of the loop body for a child that is not a fragment: one fiber is appended and the loop goes on. */
  lemma SlotStep(w: World, ret: nat, olds: seq<nat>, kids: seq<Value>, i: nat, prev: Option<nat>) returns (w1: World, n: nat)
    requires ret < |w.fibers| && AllBelow(olds, |w.fibers|) && Reconcilable(kids) && i < |kids| && !FragmentKid(kids[i])
    requires prev.Some? ==> prev.value < |w.fibers|
    ensures w1 == Slot(w, ret, OldAt(olds, i), kids[i], i, prev).0
    ensures n == |w.fibers| && |w1.fibers| == n + 1
    ensures Loop(w, ret, olds, kids, i, prev) == Loop(w1, ret, olds, kids, i + 1, Some(n))
  {
    w1, n := Slot(w, ret, OldAt(olds, i), kids[i], i, prev).0, |w.fibers|;
    assert Step(w, ret, olds, kids, i, prev) == (w1, Some(n));
    ItemsSizeSplit(kids, i);
  }

  /** The fiber a slot appends, with the links it starts with: an Update copy still points at the old fiber's child and sibling. */
  lemma SlotNewFiber(w: World, ret: nat, prior: Option<nat>, kid: Value, i: nat, prev: Option<nat>)
    requires ret < |w.fibers| && (prior.Some? ==> prior.value < |w.fibers|) && (prev.Some? ==> prev.value < |w.fibers|)
    ensures var f := Slot(w, ret, prior, kid, i, prev).0.fibers[|w.fibers|];
      SlotFiber(w.fibers, ret, prior, kid, f)
      && f.child == CopiedChild(w.fibers, prior, kid) && f.sibling == CopiedSibling(w.fibers, prior, kid)
  {
  }

  /** How a slot links its fiber: as the return fiber's child at index 0, as `prevSibling`'s sibling past it. */
  lemma SlotLinks(w: World, ret: nat, prior: Option<nat>, kid: Value, i: nat, prev: Option<nat>)
    requires ret < |w.fibers| && (prior.Some? ==> prior.value < |w.fibers|) && (prev.Some? ==> prev.value < |w.fibers|)
    ensures var w1 := Slot(w, ret, prior, kid, i, prev).0; var n := |w.fibers|;
      w1.fibers[ret].child == (if i == 0 then Some(n) else w.fibers[ret].child)
      && (i > 0 && prev.Some? ==> w1.fibers[prev.value].sibling == Some(n))
  {
  }

  /** What a slot adds to the deletions. */
  lemma SlotDeletions(w: World, ret: nat, prior: Option<nat>, kid: Value, i: nat, prev: Option<nat>)
    requires ret < |w.fibers| && (prior.Some? ==> prior.value < |w.fibers|) && (prev.Some? ==> prev.value < |w.fibers|)
    ensures Slot(w, ret, prior, kid, i, prev).0.deletions == w.deletions + Mismatch(w.fibers, prior, kid)
  {
  }

  /** A slot keeps the type, dom and hooks of every old fiber. */
  lemma SlotOlds(w: World, ret: nat, prior: Option<nat>, kid: Value, i: nat, prev: Option<nat>, olds: seq<nat>)
    requires ret < |w.fibers| && (prior.Some? ==> prior.value < |w.fibers|) && (prev.Some? ==> prev.value < |w.fibers|)
    ensures OldsKept(w.fibers, Slot(w, ret, prior, kid, i, prev).0.fibers, olds)
  {
  }

  /** The deletions of one slot joined to those of the slots after it. */
  lemma DeletionsJoin(ds: seq<nat>, m: seq<nat>, after: seq<nat>, rest: seq<nat>, rd: seq<nat>, all: seq<nat>)
    requires rd == ds + m + after + rest && all == m + after
    ensures rd == ds + all + rest
  {
    assert ds + m + after == ds + all;
  }

  /** No child is a fragment. */
  predicate NoFragments(kids: seq<Value>) {
    forall j :: 0 <= j < |kids| ==> !FragmentKid(kids[j])
  }

  /** The type a slot's fiber has: `'TEXT_ELEMENT'` for text, the element's type otherwise. */
  function KidKind(kid: Value): Value {
    if IsText(kid) then TEXT_ELEMENT else TypeField(kid)
  }

  /**
   * The fiber a slot for `kid` makes, `prior` being the old fiber at its
   * position and `child`, `sibling` its links: an Update copy of the old
   * fiber when the types match (keeping its dom and hooks), a new Placement
   * fiber with no dom otherwise; its parent is the return fiber in both cases.
   */
  function SlotMade(fs: seq<Fiber>, ret: nat, prior: Option<nat>, kid: Value, child: Option<nat>, sibling: Option<nat>): Fiber
    requires prior.Some? ==> prior.value < |fs|
  {
    var same := SameType(fs, prior, kid);
    Fiber(KidKind(kid), KidProps(kid), if same || !IsText(kid) then KidRef(kid) else Null,
          if same then fs[prior.value].dom else None, Some(ret), child, sibling,
          if same then prior else None, Some(if same then Update else Placement),
          if same then fs[prior.value].hooks else None)
  }

  /** `f` is the fiber a slot for `kid` makes, whatever its links. */
  predicate SlotFiber(fs: seq<Fiber>, ret: nat, prior: Option<nat>, kid: Value, f: Fiber)
    requires prior.Some? ==> prior.value < |fs|
  {
    f == SlotMade(fs, ret, prior, kid, f.child, f.sibling)
  }

  /** The `child` a slot's fiber starts with: an Update copy keeps the old fiber's (`...oldFiber`), a Placement fiber has none. */
  function CopiedChild(fs: seq<Fiber>, prior: Option<nat>, kid: Value): Option<nat>
    requires prior.Some? ==> prior.value < |fs|
  {
    if SameType(fs, prior, kid) then fs[prior.value].child else None
  }

  /** The `sibling` a slot's fiber starts with, likewise copied from the old fiber for an Update. */
  function CopiedSibling(fs: seq<Fiber>, prior: Option<nat>, kid: Value): Option<nat>
    requires prior.Some? ==> prior.value < |fs|
  {
    if SameType(fs, prior, kid) then fs[prior.value].sibling else None
  }

  /** The old fiber a slot deletes: the one at its position, when the types differ. */
  function Mismatch(fs: seq<Fiber>, prior: Option<nat>, kid: Value): seq<nat>
    requires prior.Some? ==> prior.value < |fs|
  {
    if prior.Some? && !SameType(fs, prior, kid) then [prior.value] else []
  }

  /** The old fibers deleted by the slots from `i` on, in order. */
  function Mismatched(fs: seq<Fiber>, olds: seq<nat>, kids: seq<Value>, i: nat): seq<nat>
    requires AllBelow(olds, |fs|)
    decreases |kids| - i
  {
    if i >= |kids| then [] else Mismatch(fs, OldAt(olds, i), kids[i]) + Mismatched(fs, olds, kids, i + 1)
  }

  /** `gs` keeps the type, dom and hooks `fs` gives the old fibers: all that `SlotFiber` and `Mismatch` read of them. */
  predicate OldsKept(fs: seq<Fiber>, gs: seq<Fiber>, olds: seq<nat>) {
    |fs| <= |gs|
    && forall k {:trigger fs[olds[k]]} :: 0 <= k < |olds| && olds[k] < |fs| ==>
         gs[olds[k]].kind == fs[olds[k]].kind && gs[olds[k]].dom == fs[olds[k]].dom && gs[olds[k]].hooks == fs[olds[k]].hooks
  }

  lemma OldsKeptTrans(fs: seq<Fiber>, gs: seq<Fiber>, hs: seq<Fiber>, olds: seq<nat>)
    requires OldsKept(fs, gs, olds) && OldsKept(gs, hs, olds)
    ensures OldsKept(fs, hs, olds)
  {
  }

  /** A slot's fiber and deletion read the same from any arena that keeps the old fibers. */
  lemma SlotFiberBasis(fs: seq<Fiber>, gs: seq<Fiber>, ret: nat, olds: seq<nat>, i: nat, kid: Value, f: Fiber)
    requires AllBelow(olds, |fs|) && OldsKept(fs, gs, olds)
    ensures SlotFiber(gs, ret, OldAt(olds, i), kid, f) == SlotFiber(fs, ret, OldAt(olds, i), kid, f)
    ensures Mismatch(gs, OldAt(olds, i), kid) == Mismatch(fs, OldAt(olds, i), kid)
  {
  }

  /** The fibers appended for the children from `i` on are chained by `sibling` in index order. */
  predicate ChainAfter(w: World, r: World, kids: seq<Value>, i: nat) {
    |r.fibers| == |w.fibers| + |kids| - i
    && forall x :: |w.fibers| <= x < |r.fibers| - 1 ==> r.fibers[x].sibling == Some(x + 1)
  }

  lemma ChainCons(w: World, w1: World, r: World, kids: seq<Value>, i: nat)
    requires i < |kids| && |w1.fibers| == |w.fibers| + 1
    requires ChainAfter(w1, r, kids, i + 1)
    requires i + 1 < |kids| ==> r.fibers[|w.fibers|].sibling == Some(|w1.fibers|)
    ensures ChainAfter(w, r, kids, i)
  {
  }

  /**
   * The loop of `reconcileChildrenArray` over children none of which is a
   * fragment: slot after slot, then the trailing loop. `LoopIsSlotLoop`
   * shows `Loop` is this whenever `NoFragments` holds.
   */
  function SlotLoop(w: World, ret: nat, olds: seq<nat>, kids: seq<Value>, i: nat, prev: Option<nat>): (r: World)
    requires ret < |w.fibers| && AllBelow(olds, |w.fibers|) && i <= |kids| && (prev.Some? ==> prev.value < |w.fibers|)
    ensures |r.fibers| == |w.fibers| + |kids| - i
    decreases |kids| - i, 1
  {
    if i == |kids| then DeleteRest(w, OldsFrom(olds, i)) else SlotLoopStep(w, ret, olds, kids, i, prev)
  }

  /** One pass of the slot loop's body at index `i`, then the rest of the loop. */
  function SlotLoopStep(w: World, ret: nat, olds: seq<nat>, kids: seq<Value>, i: nat, prev: Option<nat>): (r: World)
    requires ret < |w.fibers| && AllBelow(olds, |w.fibers|) && i < |kids| && (prev.Some? ==> prev.value < |w.fibers|)
    ensures |r.fibers| == |w.fibers| + |kids| - i
    decreases |kids| - i, 0
  {
    var s := Slot(w, ret, OldAt(olds, i), kids[i], i, prev);
    SlotLoop(s.0, ret, olds, kids, i + 1, Some(s.1))
  }

  /** With no fragment among the children, every pass of the loop body is a slot. */
  lemma {:induction false} LoopIsSlotLoop(w: World, ret: nat, olds: seq<nat>, kids: seq<Value>, i: nat, prev: Option<nat>)
    requires ret < |w.fibers| && AllBelow(olds, |w.fibers|) && Reconcilable(kids) && NoFragments(kids) && i <= |kids|
    requires prev.Some? ==> prev.value < |w.fibers|
    ensures Loop(w, ret, olds, kids, i, prev) == SlotLoop(w, ret, olds, kids, i, prev)
    decreases |kids| - i
  {
    if i < |kids| {
      var w1, n := SlotStep(w, ret, olds, kids, i, prev);
      assert SlotLoop(w, ret, olds, kids, i, prev) == SlotLoop(w1, ret, olds, kids, i + 1, Some(n));
      LoopIsSlotLoop(w1, ret, olds, kids, i + 1, Some(n));
    }
  }

  /** The trailing loop changes an existing fiber only by tagging it Deletion, and only when it is one of `rest`. */
  lemma {:induction false} DeleteRestKeeps(w: World, rest: seq<nat>, x: nat)
    requires AllBelow(rest, |w.fibers|) && x < |w.fibers|
    ensures var f := DeleteRest(w, rest).fibers[x];
      FiberKept(w.fibers[x], f, false, x in rest) && f.sibling == w.fibers[x].sibling
    decreases |rest|
  {
    if rest != [] {
      DeleteRestKeeps(Delete(w, rest[0]), rest[1..], x);
      assert rest == [rest[0]] + rest[1..];
    }
  }

  /** Fiber `x` keeps through the slot loop all that `FiberKept` says, and its sibling link unless it is `prev`. */
  lemma {:induction false} SlotLoopKeeps(w: World, ret: nat, olds: seq<nat>, kids: seq<Value>, i: nat, prev: Option<nat>, x: nat)
    requires ret < |w.fibers| && AllBelow(olds, |w.fibers|) && i <= |kids| && (prev.Some? ==> prev.value < |w.fibers|)
    requires x < |w.fibers|
    ensures var f := SlotLoop(w, ret, olds, kids, i, prev).fibers[x];
      FiberKept(w.fibers[x], f, x == ret, x in olds) && (prev != Some(x) ==> f.sibling == w.fibers[x].sibling)
    decreases |kids| - i
  {
    if i == |kids| {
      var rest := OldsFrom(olds, i);
      DeleteRestKeeps(w, rest, x);
      if x in rest {
        var k :| 0 <= k < |rest| && rest[k] == x;
        assert olds[i + k] == x;
      }
    } else {
      var s := Slot(w, ret, OldAt(olds, i), kids[i], i, prev);
      SlotFramed(w, ret, OldAt(olds, i), kids[i], i, prev, olds);
      SlotSiblings(w, ret, OldAt(olds, i), kids[i], i, prev);
      SlotLoopKeeps(s.0, ret, olds, kids, i + 1, Some(s.1), x);
    }
  }

  /** One slot read against an arena `fs` whose old fibers `w` keeps: the fiber it appends and the deletion it adds. */
  lemma SlotRead(fs: seq<Fiber>, w: World, ret: nat, olds: seq<nat>, kids: seq<Value>, i: nat, prev: Option<nat>) returns (w1: World)
    requires ret < |w.fibers| && AllBelow(olds, |fs|) && OldsKept(fs, w.fibers, olds) && i < |kids|
    requires prev.Some? ==> prev.value < |w.fibers|
    ensures w1 == Slot(w, ret, OldAt(olds, i), kids[i], i, prev).0 && OldsKept(fs, w1.fibers, olds)
    ensures SlotFiber(fs, ret, OldAt(olds, i), kids[i], w1.fibers[|w.fibers|])
    ensures w1.deletions == w.deletions + Mismatch(fs, OldAt(olds, i), kids[i])
  {
    w1 := Slot(w, ret, OldAt(olds, i), kids[i], i, prev).0;
    SlotNewFiber(w, ret, OldAt(olds, i), kids[i], i, prev);
    SlotDeletions(w, ret, OldAt(olds, i), kids[i], i, prev);
    SlotOlds(w, ret, OldAt(olds, i), kids[i], i, prev, olds);
    OldsKeptTrans(fs, w.fibers, w1.fibers, olds);
    SlotFiberBasis(fs, w.fibers, ret, olds, i, kids[i], w1.fibers[|w.fibers|]);
  }

  /** The first fiber the slot loop appends is, in the end, as `SlotFiber` says for child `i`. */
  lemma SlotLoopFirst(fs: seq<Fiber>, w: World, ret: nat, olds: seq<nat>, kids: seq<Value>, i: nat, prev: Option<nat>, r: World)
    requires SlotLoopState(fs, w, ret, olds, kids, i, prev) && i < |kids| && r == SlotLoop(w, ret, olds, kids, i, prev)
    ensures SlotFiber(fs, ret, OldAt(olds, i), kids[i], r.fibers[|w.fibers|])
  {
    var n := |w.fibers|;
    var w1 := SlotRead(fs, w, ret, olds, kids, i, prev);
    SlotLoopKeeps(w1, ret, olds, kids, i + 1, Some(n), n);
    assert n !in olds;
    SlotFiberKept(fs, ret, OldAt(olds, i), kids[i], w1.fibers[n], r.fibers[n]);
  }

  /** A slot's fiber stays one through changes that keep all but its links. */
  lemma SlotFiberKept(fs: seq<Fiber>, ret: nat, prior: Option<nat>, kid: Value, f: Fiber, g: Fiber)
    requires prior.Some? ==> prior.value < |fs|
    requires SlotFiber(fs, ret, prior, kid, f) && FiberKept(f, g, false, false)
    ensures SlotFiber(fs, ret, prior, kid, g)
  {
  }

  /** The slot loop at index `i` may run, and the old fibers still read as the arena `fs` has them. */
  predicate SlotLoopState(fs: seq<Fiber>, w: World, ret: nat, olds: seq<nat>, kids: seq<Value>, i: nat, prev: Option<nat>) {
    match w
    case World(fibers, _) =>
      ret < |fibers| && AllBelow(olds, |fs|) && OldsKept(fs, fibers, olds) && i <= |kids| && (prev.Some? ==> prev.value < |fibers|)
  }

  /** One step of the slot loop, as the inductions over it need it: the next world still keeps the old fibers. */
  lemma SlotLoopNext(fs: seq<Fiber>, w: World, ret: nat, olds: seq<nat>, kids: seq<Value>, i: nat, prev: Option<nat>) returns (w1: World)
    requires SlotLoopState(fs, w, ret, olds, kids, i, prev) && i < |kids|
    ensures w1 == Slot(w, ret, OldAt(olds, i), kids[i], i, prev).0
    ensures |w1.fibers| == |w.fibers| + 1 && SlotLoopState(fs, w1, ret, olds, kids, i + 1, Some(|w.fibers|))
    ensures SlotLoop(w, ret, olds, kids, i, prev) == SlotLoop(w1, ret, olds, kids, i + 1, Some(|w.fibers|))
  {
    w1 := Slot(w, ret, OldAt(olds, i), kids[i], i, prev).0;
    SlotOlds(w, ret, OldAt(olds, i), kids[i], i, prev, olds);
    OldsKeptTrans(fs, w.fibers, w1.fibers, olds);
  }

  /** The fiber the slot loop appends for child `j` sits at index `x`, `j - i` past its first, and is as `SlotFiber` says. */
  lemma {:induction false} SlotLoopSlot(fs: seq<Fiber>, w: World, ret: nat, olds: seq<nat>, kids: seq<Value>, i: nat, prev: Option<nat>, r: World, j: nat, x: nat)
    requires SlotLoopState(fs, w, ret, olds, kids, i, prev) && i <= j < |kids| && r == SlotLoop(w, ret, olds, kids, i, prev)
    requires x == |w.fibers| + j - i
    ensures x < |r.fibers| && r.fibers[x] == SlotMade(fs, ret, OldAt(olds, j), kids[j], r.fibers[x].child, r.fibers[x].sibling)
    decreases j - i
  {
    if j == i {
      SlotLoopFirst(fs, w, ret, olds, kids, i, prev, r);
    } else {
      var w1 := SlotLoopNext(fs, w, ret, olds, kids, i, prev);
      SlotLoopSlot(fs, w1, ret, olds, kids, i + 1, Some(|w.fibers|), r, j, x);
    }
  }

  /** `fibers` gives the old fibers the `child` and `sibling` links `fs` gives them. */
  predicate LinksKept(fs: seq<Fiber>, fibers: seq<Fiber>, olds: seq<nat>) {
    |fs| <= |fibers|
    && forall k {:trigger fs[olds[k]]} :: 0 <= k < |olds| && olds[k] < |fs| ==>
         fibers[olds[k]].child == fs[olds[k]].child && fibers[olds[k]].sibling == fs[olds[k]].sibling
  }

  /**
   * The fiber the slot loop appends for child `j` ends with the `child` it
   * was made with, and so does the last one's `sibling`: no later slot links
   * past it.
   */
  lemma {:induction false} SlotLoopCopies(fs: seq<Fiber>, w: World, ret: nat, olds: seq<nat>, kids: seq<Value>, i: nat, prev: Option<nat>, r: World, j: nat, x: nat)
    requires SlotLoopState(fs, w, ret, olds, kids, i, prev) && LinksKept(fs, w.fibers, olds) && ret !in olds
    requires (prev.Some? ==> prev.value !in olds) && i <= j < |kids| && r == SlotLoop(w, ret, olds, kids, i, prev)
    requires x == |w.fibers| + j - i
    ensures x < |r.fibers| && r.fibers[x].child == CopiedChild(fs, OldAt(olds, j), kids[j])
    ensures j == |kids| - 1 ==> r.fibers[x].sibling == CopiedSibling(fs, OldAt(olds, j), kids[j])
    decreases j - i
  {
    if j == i {
      SlotLoopCopiesFirst(fs, w, ret, olds, kids, i, prev, r);
    } else {
      var w1 := SlotLoopNext(fs, w, ret, olds, kids, i, prev);
      SlotKeepsLinks(fs, w, ret, olds, kids, i, prev);
      SlotLoopCopies(fs, w1, ret, olds, kids, i + 1, Some(|w.fibers|), r, j, x);
    }
  }

  /** The first fiber the slot loop appends keeps the links it was made with; so does its `sibling` when it is the last. */
  lemma SlotLoopCopiesFirst(fs: seq<Fiber>, w: World, ret: nat, olds: seq<nat>, kids: seq<Value>, i: nat, prev: Option<nat>, r: World)
    requires SlotLoopState(fs, w, ret, olds, kids, i, prev) && LinksKept(fs, w.fibers, olds) && ret !in olds
    requires (prev.Some? ==> prev.value !in olds) && i < |kids| && r == SlotLoop(w, ret, olds, kids, i, prev)
    ensures |w.fibers| < |r.fibers| && r.fibers[|w.fibers|].child == CopiedChild(fs, OldAt(olds, i), kids[i])
    ensures i == |kids| - 1 ==> r.fibers[|w.fibers|].sibling == CopiedSibling(fs, OldAt(olds, i), kids[i])
  {
    var n := |w.fibers|;
    var w1 := SlotLoopNext(fs, w, ret, olds, kids, i, prev);
    SlotNewFiber(w, ret, OldAt(olds, i), kids[i], i, prev);
    if i < |olds| {
      assert w.fibers[olds[i]].kind == fs[olds[i]].kind;
    }
    SlotLoopKeeps(w1, ret, olds, kids, i + 1, Some(n), n);
    if i == |kids| - 1 {
      DeleteRestKeeps(w1, OldsFrom(olds, i + 1), n);
    }
  }

  /** One slot leaves the old fibers' links as they were, and appends a fiber that is not an old one. */
  lemma SlotKeepsLinks(fs: seq<Fiber>, w: World, ret: nat, olds: seq<nat>, kids: seq<Value>, i: nat, prev: Option<nat>)
    requires SlotLoopState(fs, w, ret, olds, kids, i, prev) && LinksKept(fs, w.fibers, olds) && ret !in olds
    requires (prev.Some? ==> prev.value !in olds) && i < |kids|
    ensures |w.fibers| !in olds && LinksKept(fs, Slot(w, ret, OldAt(olds, i), kids[i], i, prev).0.fibers, olds)
  {
    var n := |w.fibers|;
    var w1 := SlotLoopNext(fs, w, ret, olds, kids, i, prev);
    SlotNewFiber(w, ret, OldAt(olds, i), kids[i], i, prev);
    assert n !in olds by {
      forall k | 0 <= k < |olds| ensures olds[k] != n {
        assert olds[k] < |fs|;
      }
    }
    assert LinksKept(fs, w1.fibers, olds) by {
      forall k | 0 <= k < |olds| && olds[k] < |fs|
        ensures w1.fibers[olds[k]].child == fs[olds[k]].child && w1.fibers[olds[k]].sibling == fs[olds[k]].sibling
      {
        assert olds[k] != ret && Some(olds[k]) != prev;
        assert w1.fibers[olds[k]].child == w.fibers[olds[k]].child;
      }
    }
  }

  /** The fibers the slot loop appends are chained by `sibling` in index order. */
  lemma {:induction false} SlotLoopChain(w: World, ret: nat, olds: seq<nat>, kids: seq<Value>, i: nat, prev: Option<nat>, r: World)
    requires ret < |w.fibers| && AllBelow(olds, |w.fibers|) && i <= |kids| && (prev.Some? ==> prev.value < |w.fibers|)
    requires r == SlotLoop(w, ret, olds, kids, i, prev)
    ensures ChainAfter(w, r, kids, i)
    decreases |kids| - i
  {
    if i < |kids| {
      var n := |w.fibers|;
      var w1 := Slot(w, ret, OldAt(olds, i), kids[i], i, prev).0;
      SlotLoopChain(w1, ret, olds, kids, i + 1, Some(n), r);
      if i + 1 < |kids| {
        SlotLoopPrevLink(w1, ret, olds, kids, i + 1, Some(n), r);
      }
      ChainCons(w, w1, r, kids, i);
    }
  }

  /** The return fiber's child after the slot loop: the first fiber it appends when it starts at the first child, the old child otherwise. */
  lemma {:induction false} SlotLoopChild(w: World, ret: nat, olds: seq<nat>, kids: seq<Value>, i: nat, prev: Option<nat>, r: World)
    requires ret < |w.fibers| && AllBelow(olds, |w.fibers|) && i <= |kids| && (prev.Some? ==> prev.value < |w.fibers|)
    requires r == SlotLoop(w, ret, olds, kids, i, prev)
    ensures r.fibers[ret].child == if i == 0 < |kids| then Some(|w.fibers|) else w.fibers[ret].child
    decreases |kids| - i
  {
    if i == |kids| {
      DeleteRestKeeps(w, OldsFrom(olds, i), ret);
    } else {
      var w1 := Slot(w, ret, OldAt(olds, i), kids[i], i, prev).0;
      SlotLinks(w, ret, OldAt(olds, i), kids[i], i, prev);
      SlotLoopChild(w1, ret, olds, kids, i + 1, Some(|w.fibers|), r);
    }
  }

  /** Past the first child, the slot loop links `prevSibling` to the first fiber it appends, for good. */
  lemma SlotLoopPrevLink(w: World, ret: nat, olds: seq<nat>, kids: seq<Value>, i: nat, prev: Option<nat>, r: World)
    requires ret < |w.fibers| && AllBelow(olds, |w.fibers|) && 0 < i < |kids| && prev.Some? && prev.value < |w.fibers|
    requires r == SlotLoop(w, ret, olds, kids, i, prev)
    ensures r.fibers[prev.value].sibling == Some(|w.fibers|)
  {
    var n := |w.fibers|;
    var w1 := Slot(w, ret, OldAt(olds, i), kids[i], i, prev).0;
    SlotLinks(w, ret, OldAt(olds, i), kids[i], i, prev);
    SlotLoopKeeps(w1, ret, olds, kids, i + 1, Some(n), prev.value);
  }

  /** The deletions: each mismatched old fiber in slot order, then every old fiber past the last child. */
  lemma {:induction false} SlotLoopDeletions(fs: seq<Fiber>, w: World, ret: nat, olds: seq<nat>, kids: seq<Value>, i: nat, prev: Option<nat>, r: World)
    requires ret < |w.fibers| && AllBelow(olds, |fs|) && OldsKept(fs, w.fibers, olds) && i <= |kids|
    requires (prev.Some? ==> prev.value < |w.fibers|) && r == SlotLoop(w, ret, olds, kids, i, prev)
    ensures r.deletions == w.deletions + Mismatched(fs, olds, kids, i) + OldsFrom(olds, |kids|)
    decreases |kids| - i
  {
    if i < |kids| {
      var w1 := SlotRead(fs, w, ret, olds, kids, i, prev);
      SlotLoopDeletions(fs, w1, ret, olds, kids, i + 1, Some(|w.fibers|), r);
      DeletionsJoin(w.deletions, Mismatch(fs, OldAt(olds, i), kids[i]), Mismatched(fs, olds, kids, i + 1),
                    OldsFrom(olds, |kids|), r.deletions, Mismatched(fs, olds, kids, i));
    }
  }

  /**
   * `reconcileChildrenArray` over children with no fragment: the new fibers
   * are appended in child order as `SlotFiber` says, chained by `sibling`,
   * the first becomes the return fiber's child (an empty list keeps the old
   * child), and the deletions are the mismatched old fibers in order
   * followed by the old fibers past the end of the list.
   */
  lemma NoFragmentArr(w: World, ret: nat, olds: seq<nat>, kids: seq<Value>)
    requires ret < |w.fibers| && AllBelow(olds, |w.fibers|) && Reconcilable(kids) && NoFragments(kids)
    ensures var r := Arr(w, ret, olds, kids); var N := |w.fibers|;
      |r.fibers| == N + |kids|
      && (forall j :: 0 <= j < |kids| ==> SlotFiber(w.fibers, ret, OldAt(olds, j), kids[j], r.fibers[N + j]))
      && (forall x :: N <= x < |r.fibers| - 1 ==> r.fibers[x].sibling == Some(x + 1))
      && r.fibers[ret].child == (if kids == [] then w.fibers[ret].child else Some(N))
      && r.deletions == w.deletions + Mismatched(w.fibers, olds, kids, 0) + OldsFrom(olds, |kids|)
    ensures var r := Arr(w, ret, olds, kids); var N := |w.fibers|;
      ret !in olds ==>
        (forall j :: 0 <= j < |kids| ==> r.fibers[N + j].child == CopiedChild(w.fibers, OldAt(olds, j), kids[j]))
        && (kids != [] ==> r.fibers[N + |kids| - 1].sibling == CopiedSibling(w.fibers, OldAt(olds, |kids| - 1), kids[|kids| - 1]))
  {
    var r := NoFragmentArrFibers(w, ret, olds, kids);
    if ret !in olds {
      assert SlotLoopState(w.fibers, w, ret, olds, kids, 0, None);
      forall j | 0 <= j < |kids|
        ensures r.fibers[|w.fibers| + j].child == CopiedChild(w.fibers, OldAt(olds, j), kids[j])
        ensures j == |kids| - 1 ==> r.fibers[|w.fibers| + j].sibling == CopiedSibling(w.fibers, OldAt(olds, j), kids[j])
      {
        SlotLoopCopies(w.fibers, w, ret, olds, kids, 0, None, r, j, |w.fibers| + j);
      }
    }
    SlotLoopChain(w, ret, olds, kids, 0, None, r);
    SlotLoopChild(w, ret, olds, kids, 0, None, r);
    SlotLoopDeletions(w.fibers, w, ret, olds, kids, 0, None, r);
  }

  /**
   * With more old fibers than children and an Update in the last slot, the
   * last new fiber's `sibling` still points at the old fiber after its own,
   * which the trailing loop queues for deletion.
   */
  lemma StaleSiblingIsDeleted(w: World, ret: nat, olds: seq<nat>, kids: seq<Value>)
    requires ret < |w.fibers| && IsChain(w.fibers, OldAt(olds, 0), olds) && ret !in olds
    requires Reconcilable(kids) && NoFragments(kids) && 0 < |kids| < |olds|
    requires SameType(w.fibers, OldAt(olds, |kids| - 1), kids[|kids| - 1])
    ensures var r := Arr(w, ret, olds, kids);
      |r.fibers| == |w.fibers| + |kids|
      && r.fibers[|w.fibers| + |kids| - 1].sibling == Some(olds[|kids|]) && olds[|kids|] in r.deletions
  {
    NoFragmentArr(w, ret, olds, kids);
    var r := Arr(w, ret, olds, kids);
    assert OldsFrom(olds, |kids|)[0] == olds[|kids|];
    assert r.deletions[|r.deletions| - |OldsFrom(olds, |kids|)|] == olds[|kids|];
  }

  lemma NoFragmentArrFibers(w: World, ret: nat, olds: seq<nat>, kids: seq<Value>) returns (r: World)
    requires ret < |w.fibers| && AllBelow(olds, |w.fibers|) && Reconcilable(kids) && NoFragments(kids)
    ensures r == Arr(w, ret, olds, kids) && r == SlotLoop(w, ret, olds, kids, 0, None)
    ensures var N := |w.fibers|;
      |r.fibers| == N + |kids|
      && (forall j :: 0 <= j < |kids| ==> SlotFiber(w.fibers, ret, OldAt(olds, j), kids[j], r.fibers[N + j]))
  {
    assert kids[0..] == kids;
    LoopIsSlotLoop(w, ret, olds, kids, 0, None);
    r := SlotLoop(w, ret, olds, kids, 0, None);
    SlotLoopSlots(w, ret, olds, kids, r);
  }

  /** The slot loop from the first child appends one fiber per child, in child order, each as `SlotFiber` says. */
  lemma SlotLoopSlots(w: World, ret: nat, olds: seq<nat>, kids: seq<Value>, r: World)
    requires ret < |w.fibers| && AllBelow(olds, |w.fibers|) && r == SlotLoop(w, ret, olds, kids, 0, None)
    ensures forall j :: 0 <= j < |kids| ==> SlotFiber(w.fibers, ret, OldAt(olds, j), kids[j], r.fibers[|w.fibers| + j])
  {
    assert SlotLoopState(w.fibers, w, ret, olds, kids, 0, None);
    forall j | 0 <= j < |kids| ensures SlotFiber(w.fibers, ret, OldAt(olds, j), kids[j], r.fibers[|w.fibers| + j]) {
      SlotLoopSlot(w.fibers, w, ret, olds, kids, 0, None, r, j, |w.fibers| + j);
    }
  }


  /**
   * The body of the `reconcileChildrenArray` loop for a child that is not a
   * fragment: one slot, returning the new fiber's handle.
   */
  method PlaceChild(fibers: seq<Fiber>, deletions: seq<nat>, ghost hc: nat, ret: nat, oldFiber: Option<nat>,
                    newChild: Value, index: nat, prevSibling: Option<nat>)
    returns (fs: seq<Fiber>, ds: seq<nat>, n: nat)
    requires ArenaOk(fibers, hc) && AllInArena(fibers, deletions) && ret < |fibers| && !IsFragment(newChild) && KidOk(newChild)
    requires (oldFiber.Some? ==> oldFiber.value < |fibers|) && (prevSibling.Some? ==> prevSibling.value < |fibers|)
    ensures (World(fs, ds), n) == Slot(World(fibers, deletions), ret, oldFiber, newChild, index, prevSibling)
    ensures ArenaOk(fs, hc) && AllInArena(fs, ds)
  {
    ghost var wb := World(fibers, deletions);
    fs, ds := fibers, deletions;
    var isTextElement := newChild.Str? || newChild.Num?;
    var sameType := oldFiber.Some? &&
      ((isTextElement && fs[oldFiber.value].kind == TEXT_ELEMENT)
       || (!isTextElement && fs[oldFiber.value].kind == newChild.e.kind));
    assert sameType == SameType(fibers, oldFiber, newChild);
    var newFiber: Fiber;
    if sameType {
      var props := if isTextElement then [("nodeValue", newChild)] else newChild.e.props;
      var ref := if newChild.El? then newChild.e.ref else Undefined;
      newFiber := fs[oldFiber.value].(props := props, ref := ref, alternate := oldFiber, effectTag := Some(Update));
    } else {
      if oldFiber.Some? {
        DeleteOk(wb, oldFiber.value, hc);
        fs := fs[oldFiber.value := fs[oldFiber.value].(effectTag := Some(Deletion))];
        ds := ds + [oldFiber.value];
      }
      if isTextElement {
        newFiber := CreateFiber(TEXT_ELEMENT, [("nodeValue", newChild)], None, Null);
      } else {
        newFiber := CreateFiber(newChild.e.kind, newChild.e.props, None, Null);
        newFiber := newFiber.(ref := newChild.e.ref);
      }
      newFiber := newFiber.(effectTag := Some(Placement));
    }
    newFiber := newFiber.(parent := Some(ret));
    assert newFiber == NewFiber(fibers, ret, oldFiber, newChild);
    assert World(fs, ds) == if !sameType && oldFiber.Some? then Delete(wb, oldFiber.value) else wb;
    NewFiberOk(fibers, fs, ret, oldFiber, newChild, hc);
    n := |fs|;
    fs := fs + [newFiber];
    LinkOk(fs, ret, index, prevSibling, n, hc);
    if index == 0 {
      fs := fs[ret := fs[ret].(child := Some(n))];
    } else if prevSibling.Some? {
      fs := fs[prevSibling.value := fs[prevSibling.value].(sibling := Some(n))];
    }
  }

  /** The trailing loop of `reconcileChildrenArray`: the rest of the old chain, from `oldFiber` on, is deleted. */
  method DeleteRemaining(fibers: seq<Fiber>, deletions: seq<nat>, ghost hc: nat, first: Option<nat>, ghost olds: seq<nat>,
                         oldFiber: Option<nat>, ghost p: nat)
    returns (fs: seq<Fiber>, ds: seq<nat>)
    requires ArenaOk(fibers, hc) && AllInArena(fibers, deletions) && IsChain(fibers, first, olds) && oldFiber == OldAt(olds, p)
    ensures World(fs, ds) == DeleteRest(World(fibers, deletions), OldsFrom(olds, p))
    ensures ArenaOk(fs, hc) && AllInArena(fs, ds)
  {
    fs, ds := fibers, deletions;
    var cursor := oldFiber;
    ghost var q := p;
    ChainRestBelow(fs, first, olds, q);
    while cursor.Some?
      invariant cursor == OldAt(olds, q) && IsChain(fs, first, olds) && AllBelow(OldsFrom(olds, q), |fs|)
      invariant DeleteRest(World(fs, ds), OldsFrom(olds, q)) == DeleteRest(World(fibers, deletions), OldsFrom(olds, p))
      decreases |olds| - q
    {
      var x := cursor.value;
      DeleteNext(fs, ds, first, olds, q);
      fs, ds := fs[x := fs[x].(effectTag := Some(Deletion))], ds + [x];
      cursor := fs[x].sibling;
      q := q + 1;
    }
    assert OldsFrom(olds, q) == [];
    DeleteRestOk(World(fibers, deletions), OldsFrom(olds, p), hc);
  }

  /** One pass of the trailing loop: the chain survives the deletion, and the rest of the loop deletes the rest of the chain. */
  lemma DeleteNext(fs: seq<Fiber>, ds: seq<nat>, first: Option<nat>, olds: seq<nat>, q: nat)
    requires IsChain(fs, first, olds) && q < |olds|
    ensures var x := olds[q]; var w1 := Delete(World(fs, ds), x);
      w1 == World(fs[x := fs[x].(effectTag := Some(Deletion))], ds + [x])
      && IsChain(w1.fibers, first, olds) && w1.fibers[x].sibling == OldAt(olds, q + 1)
      && AllBelow(OldsFrom(olds, q + 1), |w1.fibers|)
      && DeleteRest(World(fs, ds), OldsFrom(olds, q)) == DeleteRest(w1, OldsFrom(olds, q + 1))
  {
    ChainRestBelow(fs, first, olds, q);
    ChainRestBelow(fs, first, olds, q + 1);
    assert OldsFrom(olds, q)[1..] == OldsFrom(olds, q + 1);
  }

  /** The rest of a chain holds fibers of the arena. */
  lemma ChainRestBelow(fs: seq<Fiber>, first: Option<nat>, olds: seq<nat>, q: nat)
    requires IsChain(fs, first, olds)
    ensures AllBelow(OldsFrom(olds, q), |fs|)
  {
    if q < |olds| {
      forall k | 0 <= k < |olds| - q ensures OldsFrom(olds, q)[k] < |fs| {
        assert OldsFrom(olds, q)[k] == olds[q + k];
      }
    }
  }

  /** Deleting the rest of the old chain keeps every link in range. */
  lemma {:induction false} DeleteRestOk(w: World, rest: seq<nat>, hc: nat)
    requires AllBelow(rest, |w.fibers|) && ArenaOk(w.fibers, hc) && AllInArena(w.fibers, w.deletions)
    ensures ArenaOk(DeleteRest(w, rest).fibers, hc) && AllInArena(DeleteRest(w, rest).fibers, DeleteRest(w, rest).deletions)
    decreases |rest|
  {
    if rest != [] {
      DeleteOk(w, rest[0], hc);
      DeleteRestOk(Delete(w, rest[0]), rest[1..], hc);
    }
  }

  /**
   * One pass of the `reconcileChildrenArray` loop at `index`: a fragment
   * child recurses on the rest of the old chain, any other child takes a
   * slot; then `oldFiber` moves to its sibling. `base` bounds the old chain
   * from above and the fibers made in this call from below.
   */
  method ReconcileOne(fibers: seq<Fiber>, deletions: seq<nat>, ghost hc: nat, ret: nat, first: Option<nat>,
                      kids: seq<Value>, ghost olds: seq<nat>, ghost base: nat, index: nat,
                      oldFiber: Option<nat>, prevSibling: Option<nat>)
    returns (fs: seq<Fiber>, ds: seq<nat>, nextOld: Option<nat>, prev: Option<nat>)
    requires ArenaOk(fibers, hc) && AllInArena(fibers, deletions) && ret < |fibers| && base <= |fibers|
    requires IsChain(fibers, first, olds) && AllBelow(olds, base) && Reconcilable(kids) && index < |kids|
    requires oldFiber == OldAt(olds, index) && (prevSibling.Some? ==> base <= prevSibling.value < |fibers|)
    ensures ArenaOk(fs, hc) && AllInArena(fs, ds) && |fibers| <= |fs| && IsChain(fs, first, olds)
    ensures nextOld == OldAt(olds, index + 1) && (prev.Some? ==> base <= prev.value < |fs|)
    ensures Loop(World(fs, ds), ret, olds, kids, index + 1, prev) == Loop(World(fibers, deletions), ret, olds, kids, index, prevSibling)
    decreases ItemsSize(kids[index..]), 0
  {
    ghost var wb := World(fibers, deletions);
    var newChild := kids[index];
    ReconcilableAt(kids, index);
    ItemsSizeSplit(kids, index);
    FragmentKidIsFragment(newChild);
    if IsFragment(newChild) {
      FragmentKidsSmaller(newChild.e);
      ChainFrom(fibers, first, olds, index);
      ghost var inner := FragmentKids(FragmentChildren(newChild.e));
      var ignored;
      fs, ds, ignored := ReconcileChildrenArray(fibers, deletions, hc, ret, oldFiber, FragmentKids(FragmentChildren(newChild.e)),
                                                OldsFrom(olds, index));
      ArrSiblings(wb, ret, OldsFrom(olds, index), inner);
      prev := prevSibling;
    } else {
      var n;
      fs, ds, n := PlaceChild(fibers, deletions, hc, ret, oldFiber, newChild, index, prevSibling);
      SlotSiblings(wb, ret, oldFiber, newChild, index, prevSibling);
      prev := Some(n);
    }
    ChainKept(fibers, fs, first, olds, base, prevSibling);
    nextOld := if oldFiber.Some? then fs[oldFiber.value].sibling else None;
  }

  /**
   * `reconcileChildrenArray(returnFiber, currentFirstChild, newChildren)`
   * on the arena `fibers` and the deletion list `deletions`, `olds` being
   * the chain from `currentFirstChild`.
   */
  method ReconcileChildrenArray(fibers: seq<Fiber>, deletions: seq<nat>, ghost hc: nat, ret: nat, first: Option<nat>,
                                kids: seq<Value>, ghost olds: seq<nat>)
    returns (fs: seq<Fiber>, ds: seq<nat>, child: Option<nat>)
    requires ArenaOk(fibers, hc) && AllInArena(fibers, deletions) && ret < |fibers|
    requires IsChain(fibers, first, olds) && Reconcilable(kids)
    ensures World(fs, ds) == Arr(World(fibers, deletions), ret, olds, kids)
    ensures ArenaOk(fs, hc) && AllInArena(fs, ds) && ret < |fs| && child == fs[ret].child
    decreases ItemsSize(kids), 1
  {
    fs, ds := fibers, deletions;
    var index := 0;
    var oldFiber := first;
    var prevSibling: Option<nat> := None;
    assert kids[0..] == kids;
    while index < |kids|
      invariant 0 <= index <= |kids|
      invariant ArenaOk(fs, hc) && AllInArena(fs, ds) && |fibers| <= |fs| && IsChain(fs, first, olds)
      invariant prevSibling.Some? ==> |fibers| <= prevSibling.value < |fs|
      invariant oldFiber == OldAt(olds, index)
      invariant Loop(World(fs, ds), ret, olds, kids, index, prevSibling) == Arr(World(fibers, deletions), ret, olds, kids)
      decreases |kids| - index
    {
      ItemsSizeSuffix(kids, index);
      fs, ds, oldFiber, prevSibling := ReconcileOne(fs, ds, hc, ret, first, kids, olds, |fibers|, index, oldFiber, prevSibling);
      index := index + 1;
    }
    fs, ds := DeleteRemaining(fs, ds, hc, first, olds, oldFiber, index);
    child := fs[ret].child;
  }

  /**
   * The children `reconcileChildren` hands to the array reconciler: none for
   * `null`/`undefined`, an array's own items, and any other value alone.
   */
  function ChildList(elements: Value): seq<Value> {
    if IsNullish(elements) then [] else if elements.Arr? then elements.items else [elements]
  }

  /** `wipFiber.alternate?.child || null`: the first old child, if the fiber has an alternate. */
  function FirstOld(fs: seq<Fiber>, wip: nat): Option<nat>
    requires wip < |fs|
  {
    var alt := fs[wip].alternate;
    if alt.Some? && alt.value < |fs| then fs[alt.value].child else None
  }

  /**
   * Reconciling `null` (or `undefined`) creates no fiber, keeps the return
   * fiber's child link as it was, and deletes the whole old chain in order.
   */
  lemma ReconcileNothing(w: World, ret: nat, olds: seq<nat>)
    requires ret < |w.fibers| && AllBelow(olds, |w.fibers|)
    ensures var r := Arr(w, ret, olds, ChildList(Null));
      |r.fibers| == |w.fibers| && r.fibers[ret].child == w.fibers[ret].child
      && r.deletions == w.deletions + olds
      && forall x :: 0 <= x < |w.fibers| ==> r.fibers[x].effectTag == if x in olds then Some(Deletion) else w.fibers[x].effectTag
  {
    var kids := ChildList(Null);
    assert Reconcilable(kids) && NoFragments(kids);
    NoFragmentArr(w, ret, olds, kids);
    assert Mismatched(w.fibers, olds, kids, 0) == [] && OldsFrom(olds, 0) == olds;
    var r := Arr(w, ret, olds, kids);
    assert kids[0..] == kids;
    assert r == DeleteRest(w, olds);
    forall x | 0 <= x < |w.fibers|
      ensures r.fibers[x].effectTag == if x in olds then Some(Deletion) else w.fibers[x].effectTag
    {
      DeleteRestKeeps(w, olds, x);
      DeleteRestTags(w, olds, x);
    }
  }

  /** The trailing loop tags exactly the fibers of the rest of the chain. */
  lemma {:induction false} DeleteRestTags(w: World, rest: seq<nat>, x: nat)
    requires AllBelow(rest, |w.fibers|) && x < |w.fibers|
    ensures DeleteRest(w, rest).fibers[x].effectTag == if x in rest then Some(Deletion) else w.fibers[x].effectTag
    decreases |rest|
  {
    if rest != [] {
      var w1 := Delete(w, rest[0]);
      DeleteRestTags(w1, rest[1..], x);
      assert x in rest <==> x == rest[0] || x in rest[1..];
    }
  }

  /**
   * A fragment child at index `i` only partly splices its children into the
   * list: the recursive call starts its own index at 0, so a non-empty
   * fragment makes its first fiber the return fiber's child whatever came
   * before it, and its trailing loop deletes every old fiber past the
   * fragment's children, although the outer loop goes on with the old chain
   * one step further. `prevSibling` is left as it was.
   */
  lemma FragmentPartialSplice(w: World, ret: nat, olds: seq<nat>, kids: seq<Value>, i: nat, prev: Option<nat>)
    requires ret < |w.fibers| && AllBelow(olds, |w.fibers|) && Reconcilable(kids) && i < |kids|
    requires prev.Some? ==> prev.value < |w.fibers|
    requires FragmentKid(kids[i]) && NoFragments(FragmentKids(FragmentChildren(kids[i].e)))
    ensures var inner := FragmentKids(FragmentChildren(kids[i].e)); var (r, p) := Step(w, ret, olds, kids, i, prev);
      p == prev
      && |r.fibers| == |w.fibers| + |inner|
      && r.fibers[ret].child == (if inner == [] then w.fibers[ret].child else Some(|w.fibers|))
      && r.deletions == w.deletions + Mismatched(w.fibers, OldsFrom(olds, i), inner, 0) + OldsFrom(olds, i + |inner|)
  {
    var inner := FragmentKids(FragmentChildren(kids[i].e));
    ReconcilableAt(kids, i);
    assert AllBelow(OldsFrom(olds, i), |w.fibers|);
    NoFragmentArr(w, ret, OldsFrom(olds, i), inner);
    assert OldsFrom(OldsFrom(olds, i), |inner|) == OldsFrom(olds, i + |inner|);
  }

  /**
   * `reconcileChildren(wipFiber, elements)`: the elements as a list, against
   * the old chain that starts at the alternate's first child.
   */
  method ReconcileChildren(fibers: seq<Fiber>, deletions: seq<nat>, ghost hc: nat, wip: nat, elements: Value,
                           ghost olds: seq<nat>)
    returns (fs: seq<Fiber>, ds: seq<nat>)
    requires ArenaOk(fibers, hc) && AllInArena(fibers, deletions) && wip < |fibers|
    requires IsChain(fibers, FirstOld(fibers, wip), olds) && Reconcilable(ChildList(elements))
    ensures World(fs, ds) == Arr(World(fibers, deletions), wip, olds, ChildList(elements))
    ensures ArenaOk(fs, hc) && AllInArena(fs, ds) && |fibers| <= |fs|
  {
    assert FiberOk(fibers, hc, wip);
    var alt := fibers[wip].alternate;
    var first := if alt.Some? then fibers[alt.value].child else None;
    var kids: seq<Value>;
    if elements.Null? || elements.Undefined? {
      kids := [];
    } else if elements.Arr? {
      kids := elements.items;
    } else {
      kids := [elements];
    }
    var child;
    fs, ds, child := ReconcileChildrenArray(fibers, deletions, hc, wip, first, kids, olds);
  }
}
