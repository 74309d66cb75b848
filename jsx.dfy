/**
 * The flat-instruction JSX encoder of framework/jsx.ts. A JSX call becomes a
 * tree: an array that starts with the tree marker and holds instructions
 * `[1, type, key, props?, events?]` (open), `[4, text]` (text) and
 * `[2, type]` (close).
 *
 * Every JavaScript array is a mutable object shared by whoever holds it, and
 * `pushChild` empties an array child in place with `shift`. So arrays live in
 * a `Heap`, indexed by handle, and values hold handles to them; a new array
 * takes the next free handle.
 */
module Jsx {
  import opened Wrappers
  import opened JsValues

  /** Any value but an array. */
  type Scalar = v: Value | !v.Arr? witness Undefined

  /** A value as the encoder sees it: a scalar, or a handle to an array. */
  datatype Item = Prim(v: Scalar) | Ref(id: nat)

  /** The contents of every array, by handle. */
  type Arrays = seq<seq<Item>>

  /** A props object whose values may be arrays. */
  type Attrs = Fields<Item>

  /** The heap after a push, and the message of the TypeError it threw, if any. */
  datatype Outcome = Outcome(heap: Arrays, thrown: Option<string>)

  /** The heap after a call, and what it returned or threw. */
  datatype Run<T> = Run(heap: Arrays, result: Result<T>)

  /** The first item of every tree. */
  const TREE_MARKER: Item := Prim(Str("~ad.tree~"))

  /** `isTreeSymbol(item)` */
  predicate IsTreeSymbol(item: Item) {
    item == TREE_MARKER
  }

  /** `isPrimitive(type)`, on the result of `typeof`. */
  predicate IsPrimitive(t: string) {
    t == "string" || t == "number" || t == "boolean"
  }

  /** `typeof x` */
  function TypeOfItem(x: Item): string {
    if x.Ref? then "object" else TypeOf(x.v)
  }

  /** `x` is a scalar or the handle of an array of `h`. */
  predicate InHeap(h: Arrays, x: Item) {
    x.Ref? ==> x.id < |h|
  }

  /** Every handle held by an array of `h` is one of its arrays. */
  predicate Closed(h: Arrays) {
    forall a, k :: 0 <= a < |h| && 0 <= k < |h[a]| ==> InHeap(h, h[a][k])
  }

  /** No array of `h` holds the handle `t`. */
  predicate Unreferenced(h: Arrays, t: nat) {
    forall a, k :: 0 <= a < |h| && 0 <= k < |h[a]| ==> h[a][k] != Ref(t)
  }

  /** `a.push(x)` */
  function Push(h: Arrays, a: nat, x: Item): Arrays
    requires a < |h|
  {
    h[a := h[a] + [x]]
  }

  /** The contents of a finished tree: the marker first and nowhere else. */
  predicate IsTree(xs: seq<Item>) {
    |xs| >= 1 && IsTreeSymbol(xs[0]) && forall k :: 1 <= k < |xs| ==> !IsTreeSymbol(xs[k])
  }

  /** `h2` only appends to array `t`, and appends no marker; every array of `h` is still there. */
  predicate Grows(h: Arrays, h2: Arrays, t: nat)
    requires t < |h|
  {
    |h2| >= |h| && |h2[t]| >= |h[t]| && h2[t][..|h[t]|] == h[t]
    && forall k :: |h[t]| <= k < |h2[t]| ==> !IsTreeSymbol(h2[t][k])
  }

  /** The items a drained array child contributes: everything except tree markers, in order. */
  function DropMarkers(xs: seq<Item>): (r: seq<Item>)
    ensures |r| <= |xs|
    decreases |xs|
  {
    if xs == [] then []
    else (if IsTreeSymbol(xs[0]) then [] else [xs[0]]) + DropMarkers(xs[1..])
  }

  /** The text instruction `[4, s]`. */
  function TextItems(s: string): seq<Item> {
    [Prim(Num(4)), Prim(Str(s))]
  }

  /**
   * `pushChild(tree, child)`: a scalar other than null, undefined and false
   * becomes a new text instruction, or throws when `child + ''` does; an
   * array child is emptied into the tree, markers dropped.
   */
  function PushChildStep(h: Arrays, tree: nat, child: Item): (o: Outcome)
    requires tree < |h| && InHeap(h, child) && child != Ref(tree)
    ensures Grows(h, o.heap, tree)
    ensures forall a :: 0 <= a < |h| && a != tree && child != Ref(a) ==> o.heap[a] == h[a]
    ensures forall a :: 0 <= a < |h| && a != tree && h[a] == [] ==> o.heap[a] == []
    ensures o.thrown.Some? ==> o.heap == h
    ensures Closed(h) ==> Closed(o.heap)
    ensures Unreferenced(h, tree) ==> Unreferenced(o.heap, tree)
  {
    match child
    case Prim(v) =>
      if IsNullish(v) || v == Bool(false) then Outcome(h, None)
      else
        var s := ToJsString(v);
        if s.Throws? then Outcome(h, Some(s.message))
        else Outcome(Push(h + [TextItems(s.value)], tree, Ref(|h|)), None)
    case Ref(a) =>
      DropMarkersHasNone(h[a]);
      DropMarkersFrom(h[a]);
      Outcome(h[tree := h[tree] + DropMarkers(h[a])][a := []], None)
  }

  /**
   * The `forEach` of `pushChildren` over array `arr`, from index `i` of the
   * `len` it had at the start. Each index is read when it is reached; an index
   * a drain has removed is skipped; a throw ends the walk.
   */
  function EachStep(h: Arrays, tree: nat, arr: nat, i: nat, len: nat): (o: Outcome)
    requires tree < |h| && arr < |h| && arr != tree && Closed(h) && Unreferenced(h, tree)
    ensures Grows(h, o.heap, tree) && Closed(o.heap) && Unreferenced(o.heap, tree)
    ensures forall a :: 0 <= a < |h| && a != tree && Ref(a) !in h[arr] ==> o.heap[a] == h[a]
    ensures forall a :: 0 <= a < |h| && a != tree && h[a] == [] ==> o.heap[a] == []
    decreases len - i
  {
    if i >= len then Outcome(h, None)
    else if i >= |h[arr]| then EachStep(h, tree, arr, i + 1, len)
    else
      var o := PushChildStep(h, tree, h[arr][i]);
      if o.thrown.Some? then o
      else
        assert o.heap[arr] == h[arr] || o.heap[arr] == [];
        EachStep(o.heap, tree, arr, i + 1, len)
  }

  /** `pushChildren(tree, children)`: each item of an array, a lone object, or nothing. */
  function PushChildrenStep(h: Arrays, tree: nat, children: Item): (o: Outcome)
    requires tree < |h| && InHeap(h, children) && children != Ref(tree)
    requires Closed(h) && Unreferenced(h, tree)
    ensures Grows(h, o.heap, tree) && Closed(o.heap) && Unreferenced(o.heap, tree)
  {
    if children.Ref? then EachStep(h, tree, children.id, 0, |h[children.id]|)
    else if TypeOfItem(children) == "object" then PushChildStep(h, tree, children)
    else Outcome(h, None)
  }

  /** The attribute names `/^on[A-Z]/` accepts. */
  predicate IsEventName(name: string) {
    |name| >= 3 && name[0] == 'o' && name[1] == 'n' && IsUpper(name[2])
  }

  /** The contents of an event entry: `[1, lowercased name, handler]`. */
  function EventEntry(name: string, value: Item): seq<Item> {
    [Prim(Num(1)), Prim(Str(AsciiLower(name))), value]
  }

  /** `signal(tagName, attrName, attrValue, attrs)`: the entry of an event attribute, else nothing. */
  function Signal(name: string, value: Item): Option<seq<Item>> {
    if IsEventName(name) then Some(EventEntry(name, value)) else None
  }

  /** Whether a props entry goes into the alternating name/value list. */
  predicate IsPlainAttr(name: string) {
    !IsEventName(name) && name != "key" && name != "children"
  }

  /** The name/value list the props reduce builds. */
  function PropList(p: Attrs): seq<Item>
    decreases |p|
  {
    if p == [] then []
    else
      var last := p[|p| - 1];
      PropList(p[..|p| - 1]) + (if IsPlainAttr(last.0) then [Prim(Str(last.0)), last.1] else [])
  }

  /** The contents of the event entries the props reduce makes, in key order. */
  function Events(p: Attrs): seq<seq<Item>>
    decreases |p|
  {
    if p == [] then []
    else
      var last := p[|p| - 1];
      Events(p[..|p| - 1]) + (if IsEventName(last.0) then [EventEntry(last.0, last.1)] else [])
  }

  /** The `uniq` the props reduce leaves: the value of the last `key` entry. */
  function Uniq(p: Attrs): Item
    decreases |p|
  {
    if p == [] then Prim(Undefined)
    else if p[|p| - 1].0 == "key" then p[|p| - 1].1
    else Uniq(p[..|p| - 1])
  }

  /** `p[name]`, undefined when absent. */
  function Lookup(p: Attrs, name: string): Item {
    Get(p, name).GetOr(Prim(Undefined))
  }

  /** Every value of `p` is a scalar or an array of `h`. */
  predicate AttrsIn(h: Arrays, p: Attrs) {
    forall j :: 0 <= j < |p| ==> InHeap(h, p[j].1)
  }

  /** Where the props reduce leaves things: the heap, `acc`, `evs` once made, and `uniq`. */
  datatype Collected = Collected(heap: Arrays, acc: nat, evs: Option<nat>, uniq: Item)

  /**
   * The props reduce of `jsx` over the keys of `p`, in order: `acc` is a new
   * array; each event attribute makes a new entry and pushes it onto `evs`,
   * which the first one makes.
   */
  function Collect(h: Arrays, p: Attrs): (c: Collected)
    ensures |h| < |c.heap| && c.heap[..|h|] == h && c.acc == |h|
    ensures c.evs.Some? ==> |h| < c.evs.value < |c.heap|
    decreases |p|
  {
    if p == [] then Collected(h + [[]], |h|, None, Prim(Undefined))
    else
      var c := Collect(h, p[..|p| - 1]);
      var key := p[|p| - 1].0;
      var value := p[|p| - 1].1;
      if IsEventName(key) then
        var entry := |c.heap|;
        var h1 := c.heap + [EventEntry(key, value)];
        var evs := if c.evs.Some? then c.evs.value else |h1|;
        var h2 := if c.evs.Some? then h1 else h1 + [[]];
        Collected(Push(h2, evs, Ref(entry)), c.acc, Some(evs), c.uniq)
      else if key == "key" then Collected(c.heap, c.acc, c.evs, value)
      else if key == "children" then c
      else Collected(c.heap[c.acc := c.heap[c.acc] + [Prim(Str(key)), value]], c.acc, c.evs, c.uniq)
  }

  /** The open instruction `[1, type, uniq]`, then the prop list and the events list when there are any. */
  function OpenItems(kind: Scalar, acc: Option<nat>, evs: Option<nat>, uniq: Item): seq<Item> {
    [Prim(Num(1)), Prim(kind), uniq]
      + (if acc.Some? then [Ref(acc.value)] else [])
      + (if evs.Some? then [Ref(evs.value)] else [])
  }

  /**
   * The heap once `jsx` has made the tree (handle `|h|`), run the props
   * reduce, built `open` and pushed it onto the tree.
   */
  function Opened(h: Arrays, kind: Scalar, props: Option<Attrs>): (h2: Arrays)
    ensures |h2| > |h| + 1 && h2[..|h|] == h
    ensures h2[|h|] == [TREE_MARKER, Ref(|h2| - 1)]
  {
    var h1 := h + [[TREE_MARKER]];
    if props.None? then
      Push(h1 + [OpenItems(kind, None, None, Prim(Undefined))], |h|, Ref(|h1|))
    else
      var c := Collect(h1, props.value);
      assert c.heap[|h|] == h1[|h|];
      Push(c.heap + [OpenItems(kind, Some(c.acc), c.evs, c.uniq)], |h|, Ref(|c.heap|))
  }

  /** `children` as lines 75-80 leave it: `props?.children`, put in a new array when primitive. */
  function WrapChildren(h: Arrays, props: Option<Attrs>): (Arrays, Item) {
    var c := if props.Some? then Lookup(props.value, "children") else Prim(Undefined);
    if IsPrimitive(TypeOfItem(c)) then (h + [[c]], Ref(|h|)) else (h, c)
  }

  /** What `jsx` returns: a component's call `type(props || {}, children)`, or the handle of a host tree. */
  datatype JsxResult =
    | ComponentCall(component: Scalar, props: Attrs, children: Item)
    | HostTree(tree: nat)

  /** Lines 88-130: a host element's tree, built at handle `|h|` around its children. */
  function HostTreeStep(h: Arrays, kind: Scalar, props: Option<Attrs>, children: Item): Run<JsxResult>
    requires Closed(h) && (props.Some? ==> AttrsIn(h, props.value)) && InHeap(h, children)
  {
    var h2 := Opened(h, kind, props);
    OpenedReady(h, kind, props);
    var o := PushChildrenStep(h2, |h|, children);
    if o.thrown.Some? then Run(o.heap, Throws(o.thrown.value))
    else Run(Push(o.heap + [[Prim(Num(2)), Prim(kind)]], |h|, Ref(|o.heap|)), Ok(HostTree(|h|)))
  }

  /** `jsx(type, props, key, __self, __source)`; the last three arguments are not read. */
  function JsxStep(h: Arrays, kind: Scalar, props: Option<Attrs>): Run<JsxResult>
    requires Closed(h) && (props.Some? ==> AttrsIn(h, props.value))
  {
    var w := WrapChildren(h, props);
    WrapChildrenIn(h, props);
    if TypeOf(kind) == "function" then Run(w.0, Ok(ComponentCall(kind, props.GetOr([]), w.1)))
    else HostTreeStep(w.0, kind, props, w.1)
  }

  /** `Fragment(_p, children)`: a new tree (handle `|h|`) holding only the children's instructions. */
  function FragmentStep(h: Arrays, children: Item): Run<nat>
    requires Closed(h) && InHeap(h, children)
  {
    AllocFresh(h, [TREE_MARKER]);
    var o := PushChildrenStep(h + [[TREE_MARKER]], |h|, children);
    if o.thrown.Some? then Run(o.heap, Throws(o.thrown.value)) else Run(o.heap, Ok(|h|))
  }

  /** A new array holding only values of `h` is unreferenced, and the heap stays closed. */
  lemma AllocFresh(h: Arrays, xs: seq<Item>)
    requires Closed(h) && forall k :: 0 <= k < |xs| ==> InHeap(h, xs[k])
    ensures Closed(h + [xs]) && Unreferenced(h + [xs], |h|)
  {
  }

  /** `children` is a value of `h`, or a new array holding one. */
  lemma WrapChildrenIn(h: Arrays, props: Option<Attrs>)
    requires Closed(h) && (props.Some? ==> AttrsIn(h, props.value))
    ensures var w := WrapChildren(h, props);
      Closed(w.0) && InHeap(w.0, w.1) && w.0[..|h|] == h && (props.Some? ==> AttrsIn(w.0, props.value))
  {
    if props.Some? {
      LookupIn(h, props.value, "children");
    }
  }

  lemma {:induction false} LookupIn(h: Arrays, p: Attrs, name: string)
    requires AttrsIn(h, p)
    ensures InHeap(h, Lookup(p, name))
    decreases |p|
  {
    if p != [] && p[0].0 != name {
      LookupIn(h, p[1..], name);
    }
  }

  /** A new array of values of `h` other than `t` keeps `h` closed and `t` unreferenced. */
  lemma AllocKeeps(h: Arrays, xs: seq<Item>, t: nat)
    requires Closed(h) && t < |h| && Unreferenced(h, t)
    requires forall k :: 0 <= k < |xs| ==> InHeap(h, xs[k]) && xs[k] != Ref(t)
    ensures Closed(h + [xs]) && Unreferenced(h + [xs], t)
  {
  }

  /** Appending values of `h` other than `t` to an array keeps `h` closed and `t` unreferenced. */
  lemma ExtendKeeps(h: Arrays, a: nat, xs: seq<Item>, t: nat)
    requires Closed(h) && a < |h| && Unreferenced(h, t)
    requires forall k :: 0 <= k < |xs| ==> InHeap(h, xs[k]) && xs[k] != Ref(t)
    ensures Closed(h[a := h[a] + xs]) && Unreferenced(h[a := h[a] + xs], t)
  {
    var h2 := h[a := h[a] + xs];
    forall b, k | 0 <= b < |h2| && 0 <= k < |h2[b]| ensures InHeap(h2, h2[b][k]) && h2[b][k] != Ref(t) {
      if b == a && k >= |h[a]| {
        assert h2[b][k] == xs[k - |h[a]|];
      }
    }
  }

  /** The props reduce keeps the heap closed, and makes no handle to an array the props do not hold. */
  lemma {:induction false} CollectKeeps(h: Arrays, p: Attrs, t: nat)
    requires Closed(h) && AttrsIn(h, p) && t < |h| && Unreferenced(h, t)
    requires forall j :: 0 <= j < |p| ==> p[j].1 != Ref(t)
    ensures Closed(Collect(h, p).heap) && Unreferenced(Collect(h, p).heap, t)
    ensures InHeap(h, Collect(h, p).uniq) && Collect(h, p).uniq != Ref(t)
    decreases |p|
  {
    if p == [] {
      AllocKeeps(h, [], t);
    } else {
      var init := p[..|p| - 1];
      assert forall j :: 0 <= j < |init| ==> init[j] == p[j];
      CollectKeeps(h, init, t);
      var c := Collect(h, init);
      var key := p[|p| - 1].0;
      var value := p[|p| - 1].1;
      assert InHeap(h, value) && value != Ref(t);
      if IsEventName(key) {
        var h1 := c.heap + [EventEntry(key, value)];
        AllocKeeps(c.heap, EventEntry(key, value), t);
        if c.evs.Some? {
          ExtendKeeps(h1, c.evs.value, [Ref(|c.heap|)], t);
        } else {
          AllocKeeps(h1, [], t);
          ExtendKeeps(h1 + [[]], |h1|, [Ref(|c.heap|)], t);
        }
      } else if key != "key" && key != "children" {
        ExtendKeeps(c.heap, c.acc, [Prim(Str(key)), value], t);
      }
    }
  }

  /** After the tree and `open` are made, the heap is closed and nothing holds the tree. */
  lemma OpenedReady(h: Arrays, kind: Scalar, props: Option<Attrs>)
    requires Closed(h) && (props.Some? ==> AttrsIn(h, props.value))
    ensures Closed(Opened(h, kind, props)) && Unreferenced(Opened(h, kind, props), |h|)
  {
    var h1 := h + [[TREE_MARKER]];
    AllocFresh(h, [TREE_MARKER]);
    if props.None? {
      var open := OpenItems(kind, None, None, Prim(Undefined));
      AllocKeeps(h1, open, |h|);
      ExtendKeeps(h1 + [open], |h|, [Ref(|h1|)], |h|);
    } else {
      CollectKeeps(h1, props.value, |h|);
      var c := Collect(h1, props.value);
      var open := OpenItems(kind, Some(c.acc), c.evs, c.uniq);
      AllocKeeps(c.heap, open, |h|);
      ExtendKeeps(c.heap + [open], |h|, [Ref(|c.heap|)], |h|);
    }
  }

  /** Arrays are JavaScript's heap objects; each method changes them in place. */
  class Heap {
    var arrays: Arrays

    /** An array literal: a new array holding `xs`. */
    method Alloc(xs: seq<Item>) returns (a: nat)
      modifies this
      ensures arrays == old(arrays) + [xs] && a == |old(arrays)|
    {
      a := |arrays|;
      arrays := arrays + [xs];
    }

    /** `createTree()` */
    method CreateTree() returns (tree: nat)
      modifies this
      ensures arrays == old(arrays) + [[TREE_MARKER]] && tree == |old(arrays)|
    {
      tree := Alloc([TREE_MARKER]);
    }

    /** The `shift` loop of `pushChild`: array `a` is emptied into `tree`, markers dropped. */
    method Drain(tree: nat, a: nat)
      requires tree < |arrays| && a < |arrays| && a != tree
      modifies this
      ensures arrays == old(arrays)[tree := old(arrays)[tree] + DropMarkers(old(arrays)[a])][a := []]
    {
      while |arrays[a]| > 0
        invariant |arrays| == |old(arrays)|
        invariant arrays[tree] + DropMarkers(arrays[a]) == old(arrays)[tree] + DropMarkers(old(arrays)[a])
        invariant forall b :: 0 <= b < |arrays| && b != tree && b != a ==> arrays[b] == old(arrays)[b]
        decreases |arrays[a]|
      {
        var item := arrays[a][0];
        var rest := arrays[a][1..];
        assert DropMarkers(arrays[a]) == (if IsTreeSymbol(item) then [] else [item]) + DropMarkers(rest);
        arrays := arrays[a := rest];
        if !IsTreeSymbol(item) {
          ghost var before := arrays[tree];
          arrays := arrays[tree := arrays[tree] + [item]];
          assert arrays[tree] + DropMarkers(rest) == before + ([item] + DropMarkers(rest));
        }
      }
      assert arrays[tree] == old(arrays)[tree] + DropMarkers(old(arrays)[a]);
    }

    /** `pushChild(tree, child)` */
    method PushChild(tree: nat, child: Item) returns (thrown: Option<string>)
      requires tree < |arrays| && InHeap(arrays, child) && child != Ref(tree)
      modifies this
      ensures Outcome(arrays, thrown) == PushChildStep(old(arrays), tree, child)
    {
      thrown := None;
      if child.Prim? && !IsNullish(child.v) {
        if child.v != Bool(false) {
          var s := ToJsString(child.v);
          if s.Throws? {
            return Some(s.message);
          }
          var text := Alloc(TextItems(s.value));
          arrays := Push(arrays, tree, Ref(text));
        }
        return;
      }
      if child.Ref? {
        Drain(tree, child.id);
      }
    }

    /** `pushChildren(tree, children)` */
    method PushChildren(tree: nat, children: Item) returns (thrown: Option<string>)
      requires tree < |arrays| && InHeap(arrays, children) && children != Ref(tree)
      requires Closed(arrays) && Unreferenced(arrays, tree)
      modifies this
      ensures Outcome(arrays, thrown) == PushChildrenStep(old(arrays), tree, children)
    {
      thrown := None;
      if children.Ref? {
        var arr := children.id;
        var len := |arrays[arr]|;
        var i := 0;
        while i < len
          invariant i <= len && thrown.None?
          invariant tree < |arrays| && arr < |arrays| && Closed(arrays) && Unreferenced(arrays, tree)
          invariant EachStep(arrays, tree, arr, i, len) == EachStep(old(arrays), tree, arr, 0, len)
        {
          if i < |arrays[arr]| {
            thrown := PushChild(tree, arrays[arr][i]);
            if thrown.Some? {
              return;
            }
          }
          i := i + 1;
        }
      } else if TypeOfItem(children) == "object" {
        thrown := PushChild(tree, children);
      }
    }

    /** The props reduce of `jsx`. */
    method CollectAttrs(p: Attrs) returns (acc: nat, evs: Option<nat>, uniq: Item)
      modifies this
      ensures Collected(arrays, acc, evs, uniq) == Collect(old(arrays), p)
    {
      acc := Alloc([]);
      evs := None;
      uniq := Prim(Undefined);
      var i := 0;
      while i < |p|
        invariant 0 <= i <= |p|
        invariant Collected(arrays, acc, evs, uniq) == Collect(old(arrays), p[..i])
      {
        assert p[..i + 1][..i] == p[..i];
        var key := p[i].0;
        var value := p[i].1;
        var eventInfo := Signal(key, value);
        if eventInfo.Some? {
          var entry := Alloc(eventInfo.value);
          if evs.None? {
            var list := Alloc([]);
            evs := Some(list);
          }
          arrays := Push(arrays, evs.value, Ref(entry));
        } else if key == "key" {
          uniq := value;
        } else if key != "children" {
          arrays := arrays[acc := arrays[acc] + [Prim(Str(key)), value]];
        }
        i := i + 1;
      }
      assert p[..i] == p;
    }

    /** Lines 88-130 of `jsx`: the tree of a host element. */
    method BuildHostTree(kind: Scalar, props: Option<Attrs>, children: Item) returns (r: Result<JsxResult>)
      requires Closed(arrays) && (props.Some? ==> AttrsIn(arrays, props.value)) && InHeap(arrays, children)
      modifies this
      ensures Run(arrays, r) == HostTreeStep(old(arrays), kind, props, children)
    {
      var tree := CreateTree();
      var uniq := Prim(Undefined);
      var acc: Option<nat> := None;
      var evs: Option<nat> := None;
      if props.Some? {
        var list;
        list, evs, uniq := CollectAttrs(props.value);
        acc := Some(list);
      }
      var open := Alloc([Prim(Num(1)), Prim(kind), uniq]);
      if acc.Some? {
        arrays := Push(arrays, open, Ref(acc.value));
      }
      if evs.Some? {
        arrays := Push(arrays, open, Ref(evs.value));
      }
      assert arrays[open] == OpenItems(kind, acc, evs, uniq);
      arrays := Push(arrays, tree, Ref(open));
      assert arrays == Opened(old(arrays), kind, props);
      OpenedReady(old(arrays), kind, props);
      var thrown := PushChildren(tree, children);
      if thrown.Some? {
        return Throws(thrown.value);
      }
      var close := Alloc([Prim(Num(2)), Prim(kind)]);
      arrays := Push(arrays, tree, Ref(close));
      r := Ok(HostTree(tree));
    }

    /** `jsx(type, props, key, __self, __source)` */
    method Jsx(kind: Scalar, props: Option<Attrs>) returns (r: Result<JsxResult>)
      requires Closed(arrays) && (props.Some? ==> AttrsIn(arrays, props.value))
      modifies this
      ensures Run(arrays, r) == JsxStep(old(arrays), kind, props)
    {
      var children := if props.Some? then Lookup(props.value, "children") else Prim(Undefined);
      if IsPrimitive(TypeOfItem(children)) {
        var wrapper := Alloc([children]);
        children := Ref(wrapper);
      }
      WrapChildrenIn(old(arrays), props);
      if TypeOf(kind) == "function" {
        return Ok(ComponentCall(kind, props.GetOr([]), children));
      }
      r := BuildHostTree(kind, props, children);
    }

    /** `Fragment(_p, children)` */
    method Fragment(children: Item) returns (r: Result<nat>)
      requires Closed(arrays) && InHeap(arrays, children)
      modifies this
      ensures Run(arrays, r) == FragmentStep(old(arrays), children)
    {
      var tree := CreateTree();
      AllocFresh(old(arrays), [TREE_MARKER]);
      var thrown := PushChildren(tree, children);
      r := if thrown.Some? then Throws(thrown.value) else Ok(tree);
    }
  }

  /** No item a drain contributes is a marker. */
  lemma {:induction false} DropMarkersHasNone(xs: seq<Item>)
    ensures forall i :: 0 <= i < |DropMarkers(xs)| ==> !IsTreeSymbol(DropMarkers(xs)[i])
    decreases |xs|
  {
    if xs != [] {
      DropMarkersHasNone(xs[1..]);
    }
  }

  /** Every item a drain contributes is an item of the drained array. */
  lemma {:induction false} DropMarkersFrom(xs: seq<Item>)
    ensures forall i :: 0 <= i < |DropMarkers(xs)| ==> DropMarkers(xs)[i] in xs
    decreases |xs|
  {
    if xs != [] {
      DropMarkersFrom(xs[1..]);
    }
  }

  /** Items free of markers pass a drain unchanged. */
  lemma {:induction false} DropMarkersKeeps(xs: seq<Item>)
    requires forall i :: 0 <= i < |xs| ==> !IsTreeSymbol(xs[i])
    ensures DropMarkers(xs) == xs
    decreases |xs|
  {
    if xs != [] {
      DropMarkersKeeps(xs[1..]);
    }
  }

  /** A drain adds nothing exactly when every item is a marker. */
  lemma {:induction false} DropMarkersEmpty(xs: seq<Item>)
    ensures DropMarkers(xs) == [] <==> forall i :: 0 <= i < |xs| ==> IsTreeSymbol(xs[i])
    decreases |xs|
  {
    if xs != [] {
      DropMarkersEmpty(xs[1..]);
      assert forall i :: 1 <= i < |xs| ==> xs[i] == xs[1..][i - 1];
    }
  }

  /** Pushing the same array child again adds nothing: the first push emptied it. */
  lemma PushChildIdempotent(h: Arrays, tree: nat, a: nat)
    requires tree < |h| && a < |h| && a != tree
    ensures PushChildStep(h, tree, Ref(a)).heap[a] == []
    ensures PushChildStep(PushChildStep(h, tree, Ref(a)).heap, tree, Ref(a)) == PushChildStep(h, tree, Ref(a))
  {
    var h1 := PushChildStep(h, tree, Ref(a)).heap;
    assert h1[tree] + DropMarkers(h1[a]) == h1[tree];
    assert h1[tree := h1[tree]][a := []] == h1;
  }

  /**
   * A child leaves the tree as it was exactly when it is null, undefined,
   * false, a symbol (which throws), or an array of markers only.
   */
  lemma ChildAddsNothing(h: Arrays, tree: nat, child: Item)
    requires tree < |h| && InHeap(h, child) && child != Ref(tree)
    ensures PushChildStep(h, tree, child).heap[tree] == h[tree] <==>
      (child.Prim? && (IsNullish(child.v) || child.v == Bool(false) || child.v.Sym?))
      || (child.Ref? && forall i :: 0 <= i < |h[child.id]| ==> IsTreeSymbol(h[child.id][i]))
  {
    if child.Ref? {
      DropMarkersEmpty(h[child.id]);
      var o := PushChildStep(h, tree, child);
      assert o.heap[tree] == h[tree] + DropMarkers(h[child.id]);
      if o.heap[tree] == h[tree] {
        assert |DropMarkers(h[child.id])| == 0;
      }
    } else if !IsNullish(child.v) && child.v != Bool(false) && !child.v.Sym? {
      assert |PushChildStep(h, tree, child).heap[tree]| == |h[tree]| + 1;
    }
  }

  /** A tree pushed as an array child loses its marker, splices the rest in verbatim and is left empty. */
  lemma TreeSplices(h: Arrays, tree: nat, t: nat)
    requires tree < |h| && t < |h| && t != tree && IsTree(h[t])
    ensures PushChildStep(h, tree, Ref(t)) == Outcome(h[tree := h[tree] + h[t][1..]][t := []], None)
  {
    assert forall i :: 0 <= i < |h[t][1..]| ==> h[t][1..][i] == h[t][i + 1];
    DropMarkersKeeps(h[t][1..]);
    assert DropMarkers(h[t]) == DropMarkers(h[t][1..]);
  }

  /** The `forEach` over `arr` can walk onto `tree`, and `arr` does not hold itself. */
  predicate WalkReady(h: Arrays, tree: nat, arr: nat) {
    tree < |h| && arr < |h| && arr != tree && Closed(h) && Unreferenced(h, tree) && Ref(arr) !in h[arr]
  }

  /** One step of the `forEach`: the child at index `i` is pushed, then the walk goes on from `i + 1`. */
  lemma EachStepOnce(h: Arrays, tree: nat, arr: nat, i: nat, len: nat)
    requires WalkReady(h, tree, arr) && i < len <= |h[arr]|
    ensures var o1 := PushChildStep(h, tree, h[arr][i]);
      o1.heap[arr] == h[arr] && WalkReady(o1.heap, tree, arr)
      && (h[arr][i].Ref? ==> h[arr][i].id != tree && h[arr][i].id < |o1.heap| && o1.heap[h[arr][i].id] == [])
      && EachStep(h, tree, arr, i, len) == (if o1.thrown.Some? then o1 else EachStep(o1.heap, tree, arr, i + 1, len))
  {
  }

  /**
   * When the `forEach` over `arr` finishes, every array child it was given is
   * empty, provided `arr` does not hold itself.
   */
  lemma EachDrains(h: Arrays, tree: nat, arr: nat, i: nat, len: nat)
    requires WalkReady(h, tree, arr) && len <= |h[arr]|
    ensures var o := EachStep(h, tree, arr, i, len);
      o.thrown.None? ==> forall k :: i <= k < len && h[arr][k].Ref? ==> o.heap[h[arr][k].id] == []
  {
    forall k | i <= k < len && h[arr][k].Ref?
      ensures EachStep(h, tree, arr, i, len).thrown.None? ==> EachStep(h, tree, arr, i, len).heap[h[arr][k].id] == []
    {
      DrainedAt(h, tree, arr, i, len, k);
    }
  }

  /** The array child at index `k` is empty once the `forEach` has walked from `i <= k` to the end. */
  lemma {:induction false} DrainedAt(h: Arrays, tree: nat, arr: nat, i: nat, len: nat, k: nat)
    requires WalkReady(h, tree, arr) && i <= k < len <= |h[arr]| && h[arr][k].Ref?
    ensures var o := EachStep(h, tree, arr, i, len);
      o.thrown.None? ==> h[arr][k].id < |o.heap| && o.heap[h[arr][k].id] == []
    decreases k - i
  {
    EachStepOnce(h, tree, arr, i, len);
    var o1 := PushChildStep(h, tree, h[arr][i]);
    if o1.thrown.None? && i < k {
      DrainedAt(o1.heap, tree, arr, i + 1, len, k);
    }
  }

  /** The `forEach` over `[t, t]` empties `t` once: its items appear once. */
  lemma SharedChildOnce(h: Arrays, tree: nat, arr: nat, t: nat)
    requires tree < |h| && arr < |h| && t < |h| && arr != tree && t != tree && t != arr
    requires Closed(h) && Unreferenced(h, tree) && h[arr] == [Ref(t), Ref(t)]
    ensures EachStep(h, tree, arr, 0, 2) == Outcome(h[tree := h[tree] + DropMarkers(h[t])][t := []], None)
  {
    var o1 := PushChildStep(h, tree, Ref(t));
    PushChildIdempotent(h, tree, t);
    assert o1.heap[arr] == h[arr];
    assert EachStep(o1.heap, tree, arr, 2, 2) == Outcome(o1.heap, None);
  }

  /** Arrays below handle `n` hold only handles below `n`. */
  predicate ClosedBelow(h: Arrays, n: nat)
    requires n <= |h|
  {
    forall a, k :: 0 <= a < n && 0 <= k < |h[a]| ==> h[a][k].Ref? ==> h[a][k].id < n
  }

  /** A heap that extends a closed heap `h` is closed below `|h|`. */
  lemma PrefixClosedBelow(h: Arrays, h2: Arrays)
    requires Closed(h) && |h| <= |h2| && h2[..|h|] == h
    ensures ClosedBelow(h2, |h|)
  {
    forall a, k | 0 <= a < |h| && 0 <= k < |h2[a]| ensures h2[a][k].Ref? ==> h2[a][k].id < |h| {
      assert h2[a] == h[a];
      assert InHeap(h, h[a][k]);
    }
  }

  /** Pushing children held below `n` leaves every other array from `n` on as it was. */
  lemma ChildrenFrame(h: Arrays, tree: nat, children: Item, n: nat)
    requires tree < |h| && InHeap(h, children) && children != Ref(tree) && Closed(h) && Unreferenced(h, tree)
    requires n <= |h| && ClosedBelow(h, n) && (children.Ref? ==> children.id < n)
    ensures forall a :: n <= a < |h| && a != tree ==> PushChildrenStep(h, tree, children).heap[a] == h[a]
  {
    if children.Ref? {
      forall a | n <= a < |h| && a != tree ensures Ref(a) !in h[children.id] {
        forall k | 0 <= k < |h[children.id]| ensures h[children.id][k] != Ref(a) {
          assert h[children.id][k].Ref? ==> h[children.id][k].id < n;
        }
      }
    }
  }

  /**
   * `list` holds, in order, handles at or above `lo` of arrays with the
   * contents `entries`, none of them `acc` or `evs`.
   */
  predicate EntriesAre(h: Arrays, list: seq<Item>, entries: seq<seq<Item>>, acc: nat, evs: nat, lo: nat) {
    |list| == |entries|
    && forall j :: 0 <= j < |list| ==>
      list[j].Ref? && lo <= list[j].id < |h| && list[j].id != acc && list[j].id != evs && h[list[j].id] == entries[j]
  }

  /**
   * The props reduce leaves the prop list in `acc`, the key in `uniq`, and
   * the event entries, in order, in `evs`, which exists exactly when there is one.
   */
  lemma {:induction false} CollectLayout(h: Arrays, p: Attrs)
    ensures var c := Collect(h, p);
      c.heap[c.acc] == PropList(p) && c.uniq == Uniq(p)
      && (c.evs.Some? <==> Events(p) != [])
      && (c.evs.Some? ==> EntriesAre(c.heap, c.heap[c.evs.value], Events(p), c.acc, c.evs.value, |h|))
    decreases |p|
  {
    if p != [] {
      var init := p[..|p| - 1];
      CollectLayout(h, init);
      var c := Collect(h, init);
      var key := p[|p| - 1].0;
      var value := p[|p| - 1].1;
      if IsEventName(key) {
        var entry := |c.heap|;
        var h1 := c.heap + [EventEntry(key, value)];
        var evs := if c.evs.Some? then c.evs.value else |h1|;
        var h2 := if c.evs.Some? then h1 else h1 + [[]];
        var h3 := Push(h2, evs, Ref(entry));
        assert Events(p) == Events(init) + [EventEntry(key, value)];
        assert h3[evs] == h2[evs] + [Ref(entry)];
        if c.evs.Some? {
          assert EntriesAre(h3, h3[evs], Events(p), c.acc, evs, |h|) by {
            forall j | 0 <= j < |h3[evs]| - 1 ensures h3[h3[evs][j].id] == Events(p)[j] {
              assert h3[evs][j] == c.heap[evs][j];
            }
          }
        } else {
          assert h3[evs] == [Ref(entry)];
        }
      }
    }
  }

  /** Array `o` holds `[1, kind, uniq]`, then the prop list when there are props, then the events list when there are events. */
  predicate IsOpen(h: Arrays, o: nat, kind: Scalar, props: Option<Attrs>)
    requires o < |h|
  {
    var xs := h[o];
    |xs| >= 3 && xs[..3] == [Prim(Num(1)), Prim(kind), if props.Some? then Uniq(props.value) else Prim(Undefined)]
    && (props.None? ==> |xs| == 3)
    && (props.Some? ==>
      |xs| == (if Events(props.value) == [] then 4 else 5)
      && xs[3].Ref? && xs[3].id < |h| && h[xs[3].id] == PropList(props.value)
      && (|xs| == 5 ==> xs[4].Ref? && xs[4].id < |h| && EntriesAre(h, h[xs[4].id], Events(props.value), xs[3].id, xs[4].id, 0)))
  }

  /** Every array `open` refers to lies above handle `n`. */
  predicate OpenAbove(h: Arrays, o: nat, kind: Scalar, props: Option<Attrs>, n: nat)
    requires o < |h| && IsOpen(h, o, kind, props)
  {
    props.Some? ==>
      n < h[o][3].id
      && (|h[o]| == 5 ==> n < h[o][4].id && forall j :: 0 <= j < |h[h[o][4].id]| ==> n < h[h[o][4].id][j].id)
  }

  /** After the tree and `open` are made, `open` is as `IsOpen` says, and refers only to arrays made since. */
  lemma OpenedLayout(h: Arrays, kind: Scalar, props: Option<Attrs>)
    ensures var h2 := Opened(h, kind, props);
      IsOpen(h2, |h2| - 1, kind, props) && OpenAbove(h2, |h2| - 1, kind, props, |h|)
  {
    var h1 := h + [[TREE_MARKER]];
    if props.Some? {
      CollectLayout(h1, props.value);
      var c := Collect(h1, props.value);
      var h2 := Opened(h, kind, props);
      assert h2 == Push(c.heap + [OpenItems(kind, Some(c.acc), c.evs, c.uniq)], |h|, Ref(|c.heap|));
      assert h2[c.acc] == c.heap[c.acc];
      if c.evs.Some? {
        var list := c.heap[c.evs.value];
        assert h2[c.evs.value] == list;
        forall j | 0 <= j < |list| ensures h2[list[j].id] == c.heap[list[j].id] {
        }
      }
    }
  }

  /** `IsOpen` survives any change that leaves the arrays made after handle `n` alone. */
  lemma IsOpenFrame(h: Arrays, h2: Arrays, o: nat, kind: Scalar, props: Option<Attrs>, n: nat)
    requires n < o < |h| <= |h2| && IsOpen(h, o, kind, props) && OpenAbove(h, o, kind, props, n)
    requires forall a :: n < a < |h| ==> h2[a] == h[a]
    ensures IsOpen(h2, o, kind, props)
  {
    assert h2[o] == h[o];
    if props.Some? && |h[o]| == 5 {
      var list := h[h[o][4].id];
      assert h2[h[o][4].id] == list;
      forall j | 0 <= j < |list| ensures h2[list[j].id] == h[list[j].id] {
        assert n < list[j].id;
      }
    }
  }

  /** Array `t` is a host tree of `kind`: the marker, `open` (as `IsOpen` says), the children's instructions, and `[2, kind]`. */
  predicate IsHostTree(h: Arrays, t: nat, kind: Scalar, props: Option<Attrs>)
    requires t < |h|
  {
    var xs := h[t];
    IsTree(xs) && |xs| >= 3
    && xs[1].Ref? && xs[1].id < |h| && IsOpen(h, xs[1].id, kind, props)
    && xs[|xs| - 1].Ref? && xs[|xs| - 1].id < |h| && h[xs[|xs| - 1].id] == [Prim(Num(2)), Prim(kind)]
  }

  /** Pushing the close instruction onto a tree that grew from `[marker, open]` finishes a host tree. */
  lemma CloseShape(h2: Arrays, h: Arrays, tree: nat, open: nat, kind: Scalar, props: Option<Attrs>)
    requires tree < open < |h2| <= |h| && h2[tree] == [TREE_MARKER, Ref(open)] && Grows(h2, h, tree)
    requires IsOpen(h2, open, kind, props) && OpenAbove(h2, open, kind, props, tree)
    requires forall a :: tree < a < |h2| ==> h[a] == h2[a]
    ensures IsHostTree(Push(h + [[Prim(Num(2)), Prim(kind)]], tree, Ref(|h|)), tree, kind, props)
  {
    var h3 := Push(h + [[Prim(Num(2)), Prim(kind)]], tree, Ref(|h|));
    assert forall a :: tree < a < |h2| ==> h3[a] == h2[a];
    IsOpenFrame(h2, h3, open, kind, props, tree);
    var xs := h3[tree];
    assert xs == h[tree] + [Ref(|h|)];
    assert xs[..2] == h2[tree];
    assert IsTree(xs) by {
      forall k | 1 <= k < |xs| ensures !IsTreeSymbol(xs[k]) {
        if 2 <= k < |xs| - 1 {
          assert xs[k] == h[tree][k];
        }
      }
    }
  }

  /** The host tree at handle `|h|`, if nothing throws, is as `IsHostTree` says. */
  lemma HostTreeShape(h: Arrays, kind: Scalar, props: Option<Attrs>, children: Item)
    requires Closed(h) && (props.Some? ==> AttrsIn(h, props.value)) && InHeap(h, children)
    ensures var r := HostTreeStep(h, kind, props, children);
      r.result.Ok? ==> (r.result == Ok(HostTree(|h|)) && |h| < |r.heap| && IsHostTree(r.heap, |h|, kind, props))
  {
    ChildrenThenClose(h, kind, props, children);
    var o := PushChildrenStep(Opened(h, kind, props), |h|, children);
    if o.thrown.None? {
      var h3 := Push(o.heap + [[Prim(Num(2)), Prim(kind)]], |h|, Ref(|o.heap|));
      assert HostTreeStep(h, kind, props, children) == Run(h3, Ok(HostTree(|h|)));
    }
  }

  /** The steps of `HostTreeShape` before the result: the children, then the close, finish a host tree. */
  lemma ChildrenThenClose(h: Arrays, kind: Scalar, props: Option<Attrs>, children: Item)
    requires Closed(h) && (props.Some? ==> AttrsIn(h, props.value)) && InHeap(h, children)
    ensures Closed(Opened(h, kind, props)) && Unreferenced(Opened(h, kind, props), |h|)
    ensures var o := PushChildrenStep(Opened(h, kind, props), |h|, children);
      o.thrown.None? ==> IsHostTree(Push(o.heap + [[Prim(Num(2)), Prim(kind)]], |h|, Ref(|o.heap|)), |h|, kind, props)
  {
    var h2 := Opened(h, kind, props);
    OpenedReady(h, kind, props);
    OpenedLayout(h, kind, props);
    OpenedChildrenFrame(h, kind, props, children);
    var o := PushChildrenStep(h2, |h|, children);
    if o.thrown.None? {
      CloseShape(h2, o.heap, |h|, |h2| - 1, kind, props);
    }
  }

  /** Pushing the children leaves the arrays the props reduce and `open` made as they were. */
  lemma OpenedChildrenFrame(h: Arrays, kind: Scalar, props: Option<Attrs>, children: Item)
    requires Closed(h) && (props.Some? ==> AttrsIn(h, props.value)) && InHeap(h, children)
    ensures Closed(Opened(h, kind, props)) && Unreferenced(Opened(h, kind, props), |h|)
    ensures var h2 := Opened(h, kind, props);
      forall a :: |h| < a < |h2| ==> PushChildrenStep(h2, |h|, children).heap[a] == h2[a]
  {
    var h2 := Opened(h, kind, props);
    OpenedReady(h, kind, props);
    PrefixClosedBelow(h, h2);
    ChildrenFrame(h2, |h|, children, |h|);
  }

  /**
   * A host `jsx` call that does not throw returns a tree: the marker, `open`
   * (as `IsOpen` says), the children's instructions and `[2, type]`.
   */
  lemma JsxHostShape(h: Arrays, kind: Scalar, props: Option<Attrs>)
    requires Closed(h) && (props.Some? ==> AttrsIn(h, props.value)) && TypeOf(kind) != "function"
    ensures var r := JsxStep(h, kind, props);
      r.result.Ok? ==> (r.result.value.HostTree? && r.result.value.tree < |r.heap|
        && IsHostTree(r.heap, r.result.value.tree, kind, props))
  {
    WrapChildrenIn(h, props);
    var w := WrapChildren(h, props);
    HostTreeShape(w.0, kind, props, w.1);
  }

  /** A function type makes no tree: `jsx` returns the call `type(props || {}, children)` and only wraps a primitive child. */
  lemma ComponentCallMakesNoTree(h: Arrays, kind: Scalar, props: Option<Attrs>)
    requires Closed(h) && (props.Some? ==> AttrsIn(h, props.value)) && TypeOf(kind) == "function"
    ensures var r := JsxStep(h, kind, props);
      r.result.Ok? && r.result.value.ComponentCall? && r.result.value.component == kind
      && r.result.value.props == props.GetOr([])
      && r.heap[..|h|] == h && |r.heap| <= |h| + 1
      && (|r.heap| == |h| + 1 ==> r.result.value.children == Ref(|h|) && |r.heap[|h|]| == 1)
  {
  }

  /** The heap once `jsx` has made the tree for props holding only `children`. */
  lemma OneChildOpened(h: Arrays, kind: Scalar, x: Item)
    ensures Opened(h, kind, Some([("children", x)]))
      == h + [[TREE_MARKER, Ref(|h| + 2)], [], OpenItems(kind, Some(|h| + 1), None, Prim(Undefined))]
  {
    var p: Attrs := [("children", x)];
    var h1 := h + [[TREE_MARKER]];
    assert p[..0] == [];
    assert Collect(h1, p) == Collected(h1 + [[]], |h| + 1, None, Prim(Undefined));
  }

  /**
   * `jsx(kind, {children: [t, t]})`: the first push empties the shared array
   * `t`, so its instructions appear once, and `t` is left empty.
   */
  lemma JsxSharedChildOnce(h: Arrays, kind: Scalar, arr: nat, t: nat)
    requires Closed(h) && arr < |h| && t < |h| && t != arr && h[arr] == [Ref(t), Ref(t)]
    requires TypeOf(kind) != "function"
    ensures var r := JsxStep(h, kind, Some([("children", Ref(arr))]));
      r.result == Ok(HostTree(|h|))
      && r.heap[|h|] == [TREE_MARKER, Ref(|h| + 2)] + DropMarkers(h[t]) + [Ref(|h| + 3)]
      && r.heap[t] == []
  {
    var p: Attrs := [("children", Ref(arr))];
    assert AttrsIn(h, p);
    assert Lookup(p, "children") == Ref(arr);
    assert WrapChildren(h, Some(p)) == (h, Ref(arr));
    assert JsxStep(h, kind, Some(p)) == HostTreeStep(h, kind, Some(p), Ref(arr));
    HostSharedChildOnce(h, kind, arr, t);
  }

  /** The host-tree half of `JsxSharedChildOnce`. */
  lemma HostSharedChildOnce(h: Arrays, kind: Scalar, arr: nat, t: nat)
    requires Closed(h) && arr < |h| && t < |h| && t != arr && h[arr] == [Ref(t), Ref(t)]
    ensures var r := HostTreeStep(h, kind, Some([("children", Ref(arr))]), Ref(arr));
      r.result == Ok(HostTree(|h|))
      && r.heap[|h|] == [TREE_MARKER, Ref(|h| + 2)] + DropMarkers(h[t]) + [Ref(|h| + 3)]
      && r.heap[t] == []
  {
    var p: Attrs := [("children", Ref(arr))];
    OneChildOpened(h, kind, Ref(arr));
    var h2 := Opened(h, kind, Some(p));
    OpenedReady(h, kind, Some(p));
    assert h2[arr] == h[arr] && h2[t] == h[t] && h2[|h|] == [TREE_MARKER, Ref(|h| + 2)];
    SharedChildOnce(h2, |h|, arr, t);
  }

  /** A string, number or boolean `children` prop becomes one text instruction `[4, String(value)]`, except `false`. */
  lemma PrimitiveChildIsText(h: Arrays, kind: Scalar, p: Attrs)
    requires Closed(h) && AttrsIn(h, p) && TypeOf(kind) != "function"
    requires Lookup(p, "children").Prim? && IsPrimitive(TypeOf(Lookup(p, "children").v))
    ensures TextTree(JsxStep(h, kind, Some(p)), |h| + 1, Lookup(p, "children").v)
  {
    var c := Lookup(p, "children");
    var h1 := h + [[c]];
    WrapChildrenIn(h, Some(p));
    assert WrapChildren(h, Some(p)) == (h1, Ref(|h|));
    assert JsxStep(h, kind, Some(p)) == HostTreeStep(h1, kind, Some(p), Ref(|h|));
    HostPrimitiveChild(h1, kind, p, |h|, c.v);
  }

  /** The tree `tree` holds the marker, `open`, the text of `v` (none for `false`) and the close instruction. */
  predicate TextTree(r: Run<JsxResult>, tree: nat, v: Scalar) {
    r.result == Ok(HostTree(tree)) && tree < |r.heap|
    && |r.heap[tree]| == (if v == Bool(false) then 3 else 4)
    && (v != Bool(false) ==>
      r.heap[tree][2].Ref? && r.heap[tree][2].id < |r.heap|
      && ToJsString(v).Ok? && r.heap[r.heap[tree][2].id] == TextItems(ToJsString(v).value))
  }

  /** The host-tree half of `PrimitiveChildIsText`: the wrapped children array `w` is `[v]`. */
  lemma HostPrimitiveChild(h: Arrays, kind: Scalar, p: Attrs, w: nat, v: Scalar)
    requires Closed(h) && AttrsIn(h, p) && w < |h| && h[w] == [Prim(v)] && IsPrimitive(TypeOf(v))
    ensures TextTree(HostTreeStep(h, kind, Some(p), Ref(w)), |h|, v)
  {
    var h2 := Opened(h, kind, Some(p));
    OpenedReady(h, kind, Some(p));
    assert h2[w] == [Prim(v)];
    var o1 := PushChildStep(h2, |h|, Prim(v));
    assert EachStep(o1.heap, |h|, w, 1, 1) == Outcome(o1.heap, None);
    assert PushChildrenStep(h2, |h|, Ref(w)) == o1;
    assert HostTreeStep(h, kind, Some(p), Ref(w))
      == Run(Push(o1.heap + [[Prim(Num(2)), Prim(kind)]], |h|, Ref(|o1.heap|)), Ok(HostTree(|h|)));
  }

  /** `Fragment` returns a tree: the marker, then only its children's instructions. */
  lemma FragmentBuildsTree(h: Arrays, children: Item)
    requires Closed(h) && InHeap(h, children)
    ensures var r := FragmentStep(h, children);
      r.result.Ok? ==> r.result.value == |h| && IsTree(r.heap[|h|])
  {
    AllocFresh(h, [TREE_MARKER]);
  }

  /** `isTree(x)`: an array whose first item is the marker. */
  predicate IsTreeRef(h: Arrays, x: Item) {
    x.Ref? && x.id < |h| && |h[x.id]| >= 1 && IsTreeSymbol(h[x.id][0])
  }

  /**
   * As written, a tree passed as the only child (`jsx('div', {children:
   * jsx('b', {})})`) is not wrapped, so the `forEach` walks the tree itself:
   * its marker becomes the text instruction `[4, "~ad.tree~"]`, and its
   * instruction arrays are drained into the new tree as loose values.
   */
  lemma TreeChildShowsMarker(h: Arrays, kind: Scalar, t: nat)
    requires Closed(h) && IsTreeRef(h, Ref(t)) && TypeOf(kind) != "function"
    ensures var r := JsxStep(h, kind, Some([("children", Ref(t))]));
      |r.heap| > |h| + 3 && |r.heap[|h|]| >= 3
      && r.heap[|h|][2] == Ref(|h| + 3) && r.heap[|h| + 3] == TextItems("~ad.tree~")
  {
    var p: Attrs := [("children", Ref(t))];
    assert AttrsIn(h, p);
    assert Lookup(p, "children") == Ref(t);
    assert WrapChildren(h, Some(p)) == (h, Ref(t));
    assert JsxStep(h, kind, Some(p)) == HostTreeStep(h, kind, Some(p), Ref(t));
    HostTreeChildShowsMarker(h, kind, t);
  }

  /** The host-tree half of `TreeChildShowsMarker`. */
  lemma HostTreeChildShowsMarker(h: Arrays, kind: Scalar, t: nat)
    requires Closed(h) && IsTreeRef(h, Ref(t))
    ensures var r := HostTreeStep(h, kind, Some([("children", Ref(t))]), Ref(t));
      |r.heap| > |h| + 3 && |r.heap[|h|]| >= 3
      && r.heap[|h|][2] == Ref(|h| + 3) && r.heap[|h| + 3] == TextItems("~ad.tree~")
  {
    var p: Attrs := [("children", Ref(t))];
    OneChildOpened(h, kind, Ref(t));
    var h2 := Opened(h, kind, Some(p));
    OpenedReady(h, kind, Some(p));
    assert h2[t] == h[t] && h2[|h|] == [TREE_MARKER, Ref(|h| + 2)];
    EachShowsMarker(h2, |h|, t);
    var o := PushChildrenStep(h2, |h|, Ref(t));
    var r := HostTreeStep(h, kind, Some(p), Ref(t));
    assert r.heap == o.heap || r.heap == Push(o.heap + [[Prim(Num(2)), Prim(kind)]], |h|, Ref(|o.heap|));
  }

  /** Walking a tree's own items onto a tree `[marker, open]`: its marker comes first, as a text instruction. */
  lemma EachShowsMarker(h: Arrays, tree: nat, t: nat)
    requires tree < |h| && t < |h| && t != tree && Closed(h) && Unreferenced(h, tree)
    requires |h[tree]| == 2 && IsTreeRef(h, Ref(t))
    ensures var o := PushChildrenStep(h, tree, Ref(t));
      |o.heap| > |h| && |o.heap[tree]| >= 3 && o.heap[tree][2] == Ref(|h|) && o.heap[|h|] == TextItems("~ad.tree~")
  {
    var o1 := PushChildStep(h, tree, TREE_MARKER);
    assert o1.heap[tree] == h[tree] + [Ref(|h|)];
    assert o1.heap[t] == h[t];
    assert Ref(|h|) !in o1.heap[t] by {
      forall k | 0 <= k < |h[t]| ensures h[t][k] != Ref(|h|) {
        assert InHeap(h, h[t][k]);
      }
    }
    var o := EachStep(o1.heap, tree, t, 1, |h[t]|);
    assert EachStep(h, tree, t, 0, |h[t]|) == (if o1.thrown.Some? then o1 else o);
  }

  /** `children` as line 78 means it: a tree, like a primitive, is put in a new array. */
  function IntendedWrapChildren(h: Arrays, props: Option<Attrs>): (Arrays, Item) {
    var c := if props.Some? then Lookup(props.value, "children") else Prim(Undefined);
    if IsTreeRef(h, c) || IsPrimitive(TypeOfItem(c)) then (h + [[c]], Ref(|h|)) else (h, c)
  }

  /** `jsx` with the `isTree(children)` test of line 78 in force. */
  function IntendedJsxStep(h: Arrays, kind: Scalar, props: Option<Attrs>): Run<JsxResult>
    requires Closed(h) && (props.Some? ==> AttrsIn(h, props.value))
  {
    var w := IntendedWrapChildren(h, props);
    IntendedWrapChildrenIn(h, props);
    if TypeOf(kind) == "function" then Run(w.0, Ok(ComponentCall(kind, props.GetOr([]), w.1)))
    else HostTreeStep(w.0, kind, props, w.1)
  }

  /** With the tree test in force, a tree passed as the only child splices in without its marker. */
  lemma IntendedTreeChildSplices(h: Arrays, kind: Scalar, t: nat)
    requires Closed(h) && t < |h| && IsTree(h[t]) && TypeOf(kind) != "function"
    ensures SplicedTree(IntendedJsxStep(h, kind, Some([("children", Ref(t))])), |h| + 1, h[t][1..], t)
  {
    IntendedWrapsTree(h, kind, t);
    HostWrappedTreeSplices(h, kind, t);
  }

  /**
   * `r` returned the host tree at handle `tree`, which is `[marker, open]`,
   * then `items`, then the close (`open` and the close being the arrays two
   * and three past it), and left array `t` empty.
   */
  predicate SplicedTree(r: Run<JsxResult>, tree: nat, items: seq<Item>, t: nat) {
    r.result == Ok(HostTree(tree)) && tree < |r.heap| && t < |r.heap|
    && r.heap[tree] == [TREE_MARKER, Ref(tree + 2)] + items + [Ref(tree + 3)] && r.heap[t] == []
  }

  /** `children` as the intended test leaves it: a value of `h`, or a new array holding one. */
  lemma IntendedWrapChildrenIn(h: Arrays, props: Option<Attrs>)
    requires Closed(h) && (props.Some? ==> AttrsIn(h, props.value))
    ensures var w := IntendedWrapChildren(h, props);
      Closed(w.0) && InHeap(w.0, w.1) && w.0[..|h|] == h && (props.Some? ==> AttrsIn(w.0, props.value))
  {
    if props.Some? {
      LookupIn(h, props.value, "children");
    }
  }

  /** With the tree test in force, a lone tree child is wrapped in a new array before the host tree is built. */
  lemma IntendedWrapsTree(h: Arrays, kind: Scalar, t: nat)
    requires Closed(h) && t < |h| && IsTree(h[t]) && TypeOf(kind) != "function"
    ensures Closed(h + [[Ref(t)]]) && AttrsIn(h + [[Ref(t)]], [("children", Ref(t))])
    ensures IntendedJsxStep(h, kind, Some([("children", Ref(t))]))
      == HostTreeStep(h + [[Ref(t)]], kind, Some([("children", Ref(t))]), Ref(|h|))
  {
    var p: Attrs := [("children", Ref(t))];
    assert AttrsIn(h, p);
    assert Lookup(p, "children") == Ref(t);
    assert IsTreeRef(h, Ref(t));
    AllocFresh(h, [Ref(t)]);
  }

  /** The host-tree half of `IntendedTreeChildSplices`: the children are a new array `[t]` at handle `|h|`. */
  lemma HostWrappedTreeSplices(h: Arrays, kind: Scalar, t: nat)
    requires Closed(h) && t < |h| && IsTree(h[t])
    ensures Closed(h + [[Ref(t)]]) && AttrsIn(h + [[Ref(t)]], [("children", Ref(t))])
    ensures SplicedTree(HostTreeStep(h + [[Ref(t)]], kind, Some([("children", Ref(t))]), Ref(|h|)), |h| + 1, h[t][1..], t)
  {
    var p: Attrs := [("children", Ref(t))];
    var h0 := h + [[Ref(t)]];
    AllocFresh(h, [Ref(t)]);
    assert AttrsIn(h0, p);
    var w := |h|;
    OneChildOpened(h0, kind, Ref(t));
    var h2 := Opened(h0, kind, Some(p));
    OpenedReady(h0, kind, Some(p));
    assert h2[w] == [Ref(t)] && h2[t] == h[t] && h2[|h0|] == [TREE_MARKER, Ref(|h0| + 2)];
    TreeSplices(h2, |h0|, t);
    var o1 := PushChildStep(h2, |h0|, Ref(t));
    assert o1.heap[w] == [Ref(t)];
    assert EachStep(o1.heap, |h0|, w, 1, 1) == Outcome(o1.heap, None);
    assert PushChildrenStep(h2, |h0|, Ref(w)) == o1;
  }

  /** With unique keys, `uniq` is the `key` prop (undefined when there is none). */
  lemma {:induction false} UniqIsKey(p: Attrs)
    requires UniqueKeys(p)
    ensures Uniq(p) == Lookup(p, "key")
    decreases |p|
  {
    if p != [] {
      var init := p[..|p| - 1];
      var last := p[|p| - 1];
      assert p == init + [last];
      assert UniqueKeys(init);
      GetSnoc(init, last, "key");
      if last.0 == "key" {
        forall k | 0 <= k < |init| ensures init[k].0 != "key" {
          assert init[k] == p[k];
        }
        assert !Has(init, "key");
      } else {
        UniqIsKey(init);
      }
    }
  }

  /** The prop list alternates names and values: each name is a plain prop and is followed by its value. */
  lemma {:induction false} PropListPairs(p: Attrs)
    requires UniqueKeys(p)
    ensures |PropList(p)| % 2 == 0
    ensures forall i :: 0 <= i < |PropList(p)| && i % 2 == 0 ==>
      PropList(p)[i].Prim? && PropList(p)[i].v.Str? && IsPlainAttr(PropList(p)[i].v.s)
      && Get(p, PropList(p)[i].v.s) == Some(PropList(p)[i + 1])
    decreases |p|
  {
    if p != [] {
      var init := p[..|p| - 1];
      var last := p[|p| - 1];
      assert p == init + [last];
      assert UniqueKeys(init);
      PropListPairs(init);
      var l := PropList(init);
      forall i | 0 <= i < |PropList(p)| && i % 2 == 0
        ensures PropList(p)[i].Prim? && PropList(p)[i].v.Str? && IsPlainAttr(PropList(p)[i].v.s)
          && Get(p, PropList(p)[i].v.s) == Some(PropList(p)[i + 1])
      {
        if i < |l| {
          GetSnoc(init, last, l[i].v.s);
        } else {
          forall k | 0 <= k < |init| ensures init[k].0 != last.0 {
            assert init[k] == p[k];
          }
          assert !Has(init, last.0);
          GetSnoc(init, last, last.0);
        }
      }
    }
  }

  /** `name` is followed by `value` somewhere in the list `l`. */
  predicate HasPair(l: seq<Item>, name: string, value: Item) {
    exists i :: 0 <= i < |l| - 1 && l[i] == Prim(Str(name)) && l[i + 1] == value
  }

  /** Every plain prop is in the list, as a name followed by its value. */
  lemma {:induction false} PropListComplete(p: Attrs)
    ensures forall j :: 0 <= j < |p| && IsPlainAttr(p[j].0) ==> HasPair(PropList(p), p[j].0, p[j].1)
    decreases |p|
  {
    if p != [] {
      var init := p[..|p| - 1];
      PropListComplete(init);
      forall j | 0 <= j < |p| && IsPlainAttr(p[j].0) ensures HasPair(PropList(p), p[j].0, p[j].1) {
        if j < |init| {
          assert init[j] == p[j];
          var i :| 0 <= i < |PropList(init)| - 1 && PropList(init)[i] == Prim(Str(init[j].0)) && PropList(init)[i + 1] == init[j].1;
          assert PropList(p)[i] == PropList(init)[i];
          assert PropList(p)[i + 1] == PropList(init)[i + 1];
        } else {
          var i := |PropList(init)|;
          assert PropList(p)[i] == Prim(Str(p[j].0));
          assert PropList(p)[i + 1] == p[j].1;
        }
      }
    }
  }

  /** Every event entry is `[1, name lowercased, handler]` for an event prop; `j` is that prop's index. */
  lemma {:induction false} EventSource(p: Attrs, i: nat) returns (j: nat)
    requires i < |Events(p)|
    ensures j < |p| && IsEventName(p[j].0)
    ensures Events(p)[i] == EventEntry(p[j].0, p[j].1)
    decreases |p|
  {
    var init := p[..|p| - 1];
    var last := p[|p| - 1];
    assert Events(p) == Events(init) + (if IsEventName(last.0) then [EventEntry(last.0, last.1)] else []);
    if i < |Events(init)| {
      j := EventSource(init, i);
      assert init[j] == p[j];
    } else {
      j := |p| - 1;
    }
  }

  /** `e` is the entry of some event prop of `p`. */
  predicate IsEventEntryOf(p: Attrs, e: seq<Item>) {
    exists j :: 0 <= j < |p| && IsEventName(p[j].0) && e == EventEntry(p[j].0, p[j].1)
  }

  lemma EventsSound(p: Attrs)
    ensures forall i :: 0 <= i < |Events(p)| ==> IsEventEntryOf(p, Events(p)[i])
  {
    forall i | 0 <= i < |Events(p)| ensures IsEventEntryOf(p, Events(p)[i]) {
      var j := EventSource(p, i);
    }
  }

  /** Every event prop has its entry; so there are entries exactly when some prop is an event. */
  lemma {:induction false} EventsComplete(p: Attrs)
    ensures forall j :: 0 <= j < |p| && IsEventName(p[j].0) ==> EventEntry(p[j].0, p[j].1) in Events(p)
    ensures Events(p) == [] <==> forall j :: 0 <= j < |p| ==> !IsEventName(p[j].0)
    decreases |p|
  {
    if p != [] {
      var init := p[..|p| - 1];
      EventsComplete(init);
      forall j | 0 <= j < |p| && IsEventName(p[j].0)
        ensures EventEntry(p[j].0, p[j].1) in Events(p)
      {
        if j < |init| {
          assert init[j] == p[j];
        }
      }
      if Events(p) != [] {
        var j := EventSource(p, 0);
      }
    }
  }
}
