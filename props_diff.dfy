/**
 * The host-property diff of core/src/reconcile.ts (`updateDom`,
 * `updateDomElement`, `updateDomText`): the calls made on a node to bring
 * it from `prevProps` to `nextProps`, as an ordered list of host
 * operations. Keys are visited in `Object.keys` / `for…in` order.
 */
module PropsDiff {
  import opened JsValues
  import opened Host

  /** `isEvent(key)` */
  predicate IsEvent(key: string) {
    StartsWith(key, "on")
  }

  /** `isProperty(key)` */
  predicate IsProperty(key: string) {
    key != "children" && !IsEvent(key)
  }

  /** `isNew(prev, next)(key)`: the two objects disagree on `key` (a missing key reads as undefined). */
  predicate IsNew(prev: Props, next: Props, key: string) {
    Read(prev, key) != Read(next, key)
  }

  /** `name.toLowerCase().substring(2)` */
  function EventType(name: string): string {
    if |name| >= 2 then AsciiLower(name)[2..] else ""
  }

  /** The keys listed in `isUnitlessNumber`, in source order. */
  const UNITLESS_KEYS: seq<string> := [
    "animationIterationCount", "borderImageOutset", "borderImageSlice", "borderImageWidth",
    "boxFlex", "boxFlexGroup", "boxOrdinalGroup", "columnCount", "flex", "flexGrow",
    "flexPositive", "flexShrink", "flexNegative", "flexOrder", "gridArea", "gridRow",
    "gridRowEnd", "gridRowSpan", "gridRowStart", "gridColumn", "gridColumnEnd",
    "gridColumnSpan", "gridColumnStart", "fontWeight", "lineClamp", "lineHeight", "opacity",
    "order", "orphans", "tabSize", "widows", "zIndex", "zoom", "fillOpacity", "floodOpacity",
    "stopOpacity", "strokeDasharray", "strokeDashoffset", "strokeMiterlimit", "strokeOpacity",
    "strokeWidth"
  ]

  /** `isUnitlessNumber[key]` */
  predicate IsUnitlessNumber(key: string) {
    Listed(UNITLESS_KEYS, key)
  }

  /** `key` is one of `keys`, looked up one entry at a time. */
  predicate Listed(keys: seq<string>, key: string)
    decreases |keys|
  {
    keys != [] && (keys[0] == key || Listed(keys[1..], key))
  }

  /** The passes of the diff that visit keys one by one. */
  datatype Pass = RemoveListenerPass | ClearPropertyPass | SetPropertyPass | AddListenerPass
                | ClearStylePass | SetStylePass

  /** How one new or changed property is written: `data-` and `aria-` names as attributes. */
  function PropertyOp(node: nat, key: string, value: Value): HostOp {
    if StartsWith(key, "data-") || StartsWith(key, "aria-") then SetAttribute(node, key, value)
    else SetProperty(node, key, value)
  }

  /** A style value as written: a number gets "px" unless its key is unitless. */
  function StyleValue(key: string, v: Value): Value {
    if v.Num? && !IsUnitlessNumber(key) then Str(IntToString(v.n) + "px") else v
  }

  /** How one changed style key is written: custom properties (`--x`) through `setProperty`. */
  function StyleOp(node: nat, key: string, value: Value): HostOp {
    if StartsWith(key, "--") then SetStyleProperty(node, key, value) else SetStyle(node, key, value)
  }

  /**
   * The calls one pass makes for key `k`, going from `a` to `b` (the props
   * objects, or for the style passes the style objects).
   */
  function KeyOps(pass: Pass, node: nat, a: Props, b: Props, k: string): seq<HostOp> {
    match pass
    case RemoveListenerPass =>
      if IsEvent(k) && (!Has(b, k) || IsNew(a, b, k)) then [RemoveEventListener(node, EventType(k), Read(a, k))] else []
    case ClearPropertyPass =>
      if IsProperty(k) && !Has(b, k) then [SetProperty(node, k, Str(""))] else []
    case SetPropertyPass =>
      if IsProperty(k) && IsNew(a, b, k) then [PropertyOp(node, k, Read(b, k))] else []
    case AddListenerPass =>
      if IsEvent(k) && IsNew(a, b, k) then [AddEventListener(node, EventType(k), Read(b, k))] else []
    case ClearStylePass =>
      if !Has(b, k) then [SetStyle(node, k, Str(""))] else []
    case SetStylePass =>
      if Read(a, k) != Read(b, k) then [StyleOp(node, k, StyleValue(k, Read(b, k)))] else []
  }

  /** A pass over `keys` in order (`filter` then `forEach`, or a `for…in` loop). */
  function PassOps(pass: Pass, node: nat, a: Props, b: Props, keys: seq<string>): seq<HostOp>
    decreases |keys|
  {
    if keys == [] then [] else KeyOps(pass, node, a, b, keys[0]) + PassOps(pass, node, a, b, keys[1..])
  }

  lemma {:induction false} PassMember(pass: Pass, node: nat, a: Props, b: Props, keys: seq<string>, op: HostOp)
    ensures op in PassOps(pass, node, a, b, keys) <==> exists k :: k in keys && op in KeyOps(pass, node, a, b, k)
    decreases |keys|
  {
    if keys != [] {
      PassMember(pass, node, a, b, keys[1..], op);
      if op in KeyOps(pass, node, a, b, keys[0]) {
        assert keys[0] in keys;
      }
      if exists k :: k in keys && op in KeyOps(pass, node, a, b, k) {
        var k :| k in keys && op in KeyOps(pass, node, a, b, k);
        if k != keys[0] {
          assert k in keys[1..];
        }
      }
    }
  }

  /** A call made for one key of a pass is a call of the whole pass. */
  lemma {:induction false} KeyOpsInPass(pass: Pass, node: nat, a: Props, b: Props, keys: seq<string>, k: string, op: HostOp)
    requires k in keys && op in KeyOps(pass, node, a, b, k)
    ensures op in PassOps(pass, node, a, b, keys)
    decreases |keys|
  {
    if keys[0] != k {
      assert k in keys[1..];
      KeyOpsInPass(pass, node, a, b, keys[1..], k, op);
    }
  }

  lemma {:induction false} PassEmpty(pass: Pass, node: nat, a: Props, b: Props, keys: seq<string>)
    requires forall k :: k in keys ==> KeyOps(pass, node, a, b, k) == []
    ensures PassOps(pass, node, a, b, keys) == []
    decreases |keys|
  {
    if keys != [] {
      assert keys[0] in keys;
      PassEmpty(pass, node, a, b, keys[1..]);
    }
  }

  /** Listeners of `prev` that `next` drops or replaces are removed. */
  function RemoveListeners(node: nat, prev: Props, next: Props): seq<HostOp> {
    PassOps(RemoveListenerPass, node, prev, next, Keys(prev))
  }

  /** Properties of `prev` missing from `next` are set to the empty string. */
  function ClearProperties(node: nat, prev: Props, next: Props): seq<HostOp> {
    PassOps(ClearPropertyPass, node, prev, next, Keys(prev))
  }

  /** New or changed properties of `next` are written. */
  function SetProperties(node: nat, prev: Props, next: Props): seq<HostOp> {
    PassOps(SetPropertyPass, node, prev, next, Keys(next))
  }

  /** New or changed listeners of `next` are added. */
  function AddListeners(node: nat, prev: Props, next: Props): seq<HostOp> {
    PassOps(AddListenerPass, node, prev, next, Keys(next))
  }

  /** `props.style || {}`: the style object's own keys, or none. */
  function StyleOf(props: Props): Props {
    var v := Read(props, "style");
    if Truthy(v) && v.Obj? then v.fields else []
  }

  /** The style pass: removed style keys cleared, then new or changed ones written. */
  function StyleOps(node: nat, prev: Props, next: Props): seq<HostOp> {
    if Has(prev, "style") || Has(next, "style") then
      var ps := StyleOf(prev);
      var ns := StyleOf(next);
      PassOps(ClearStylePass, node, ps, ns, Keys(ps)) + PassOps(SetStylePass, node, ps, ns, Keys(ns))
    else []
  }

  /** `updateDomElement(dom, prevProps, nextProps)`: the five passes in source order. */
  function DiffProps(node: nat, prev: Props, next: Props): seq<HostOp> {
    RemoveListeners(node, prev, next) + ClearProperties(node, prev, next) + SetProperties(node, prev, next)
    + AddListeners(node, prev, next) + StyleOps(node, prev, next)
  }

  /** `updateDom(dom, prevProps, nextProps)`: a text node only takes `nodeValue`. */
  function UpdateDom(d: Document, node: nat, prev: Props, next: Props): (r: Document)
    ensures r.parentOf == d.parentOf && r.textNodes == d.textNodes && r.nodeCount == d.nodeCount
    ensures |d.log| <= |r.log| && r.log[..|d.log|] == d.log
  {
    if node in d.textNodes then Emit(d, [SetNodeValue(node, Read(next, "nodeValue"))])
    else Emit(d, DiffProps(node, prev, next))
  }

  /**
   * A listener is removed exactly for each `on…` key of `prev` that `next`
   * lacks or binds to a different handler, with the lowercased name minus
   * `on` as event type and the old handler.
   */
  lemma RemoveListenersExactly(node: nat, prev: Props, next: Props, op: HostOp)
    ensures op in RemoveListeners(node, prev, next) <==>
      exists k :: k in Keys(prev) && IsEvent(k) && (!Has(next, k) || IsNew(prev, next, k))
        && op == RemoveEventListener(node, AsciiLower(k)[2..], Read(prev, k))
  {
    PassMember(RemoveListenerPass, node, prev, next, Keys(prev), op);
  }

  /** A listener is added exactly for each `on…` key of `next` whose handler is new or changed. */
  lemma AddListenersExactly(node: nat, prev: Props, next: Props, op: HostOp)
    ensures op in AddListeners(node, prev, next) <==>
      exists k :: k in Keys(next) && IsEvent(k) && IsNew(prev, next, k)
        && op == AddEventListener(node, AsciiLower(k)[2..], Read(next, k))
  {
    PassMember(AddListenerPass, node, prev, next, Keys(next), op);
  }

  /** A property is cleared exactly when it is in `prev` but not in `next`; `children` and listeners never are. */
  lemma ClearPropertiesExactly(node: nat, prev: Props, next: Props, op: HostOp)
    ensures op in ClearProperties(node, prev, next) <==>
      exists k :: k in Keys(prev) && k != "children" && !IsEvent(k) && !Has(next, k)
        && op == SetProperty(node, k, Str(""))
  {
    PassMember(ClearPropertyPass, node, prev, next, Keys(prev), op);
  }

  /**
   * A property is written exactly when `next` gives it a value different
   * from `prev`'s, as an attribute for `data-`/`aria-` names and as a
   * property otherwise.
   */
  lemma SetPropertiesExactly(node: nat, prev: Props, next: Props, op: HostOp)
    ensures op in SetProperties(node, prev, next) <==>
      exists k :: k in Keys(next) && k != "children" && !IsEvent(k) && Read(prev, k) != Read(next, k)
        && op == (if StartsWith(k, "data-") || StartsWith(k, "aria-") then SetAttribute(node, k, Read(next, k))
                  else SetProperty(node, k, Read(next, k)))
  {
    PassMember(SetPropertyPass, node, prev, next, Keys(next), op);
  }

  /**
   * Style keys of `next` whose value changed are written; a number gets
   * "px" appended unless its key is unitless, and a `--` key goes through
   * `setProperty`.
   */
  lemma StyleWritesExactly(node: nat, prev: Props, next: Props, key: string)
    requires Has(prev, "style") || Has(next, "style")
    requires key in Keys(StyleOf(next)) && Read(StyleOf(prev), key) != Read(StyleOf(next), key)
    ensures var v := Read(StyleOf(next), key);
      (v.Num? && !IsUnitlessNumber(key) ==> StyleOp(node, key, Str(IntToString(v.n) + "px")) in StyleOps(node, prev, next))
      && (!v.Num? || IsUnitlessNumber(key) ==> StyleOp(node, key, v) in StyleOps(node, prev, next))
    ensures forall v :: StyleOp(node, key, v).SetStyleProperty? <==> StartsWith(key, "--")
  {
    var ps := StyleOf(prev);
    var ns := StyleOf(next);
    SetStyleWrites(node, ps, ns, key);
    assert StyleOps(node, prev, next)
      == PassOps(ClearStylePass, node, ps, ns, Keys(ps)) + PassOps(SetStylePass, node, ps, ns, Keys(ns));
  }

  /**
   * The style pass makes exactly these calls, and only when `prev` or `next`
   * has a `style` key: `style[k] = ''` for each key of the old style the new
   * one lacks, and a write of the new value for each key of the new style
   * whose value changed.
   */
  lemma StyleOpsExactly(node: nat, prev: Props, next: Props, op: HostOp)
    ensures op in StyleOps(node, prev, next) <==>
      (Has(prev, "style") || Has(next, "style"))
      && ((exists k :: k in Keys(StyleOf(prev)) && !Has(StyleOf(next), k) && op == SetStyle(node, k, Str("")))
          || (exists k :: k in Keys(StyleOf(next)) && Read(StyleOf(prev), k) != Read(StyleOf(next), k)
                && op == StyleOp(node, k, StyleValue(k, Read(StyleOf(next), k)))))
  {
    if Has(prev, "style") || Has(next, "style") {
      var ps := StyleOf(prev);
      var ns := StyleOf(next);
      ClearStyleMember(node, ps, ns, op);
      SetStyleMember(node, ps, ns, op);
      assert StyleOps(node, prev, next)
        == PassOps(ClearStylePass, node, ps, ns, Keys(ps)) + PassOps(SetStylePass, node, ps, ns, Keys(ns));
    }
  }

  /** The clearing style pass sets `style[k] = ''` exactly for the keys of `ps` that `ns` lacks. */
  lemma ClearStyleMember(node: nat, ps: Props, ns: Props, op: HostOp)
    ensures op in PassOps(ClearStylePass, node, ps, ns, Keys(ps)) <==>
      exists k :: k in Keys(ps) && !Has(ns, k) && op == SetStyle(node, k, Str(""))
  {
    PassMember(ClearStylePass, node, ps, ns, Keys(ps), op);
    if exists k :: k in Keys(ps) && !Has(ns, k) && op == SetStyle(node, k, Str("")) {
      var k :| k in Keys(ps) && !Has(ns, k) && op == SetStyle(node, k, Str(""));
      assert op in KeyOps(ClearStylePass, node, ps, ns, k);
    }
  }

  /** The writing style pass writes exactly the keys of `ns` whose value differs from `ps`'s. */
  lemma SetStyleMember(node: nat, ps: Props, ns: Props, op: HostOp)
    ensures op in PassOps(SetStylePass, node, ps, ns, Keys(ns)) <==>
      exists k :: k in Keys(ns) && Read(ps, k) != Read(ns, k) && op == StyleOp(node, k, StyleValue(k, Read(ns, k)))
  {
    if op in PassOps(SetStylePass, node, ps, ns, Keys(ns)) {
      SetStyleWritten(node, ps, ns, op);
    }
    forall k | k in Keys(ns) && Read(ps, k) != Read(ns, k)
      ensures StyleOp(node, k, StyleValue(k, Read(ns, k))) in PassOps(SetStylePass, node, ps, ns, Keys(ns))
    {
      SetStyleWrites(node, ps, ns, k);
    }
  }

  /** Each call of the writing style pass writes a changed key of `ns`. */
  lemma SetStyleWritten(node: nat, ps: Props, ns: Props, op: HostOp)
    requires op in PassOps(SetStylePass, node, ps, ns, Keys(ns))
    ensures exists k :: k in Keys(ns) && Read(ps, k) != Read(ns, k) && op == StyleOp(node, k, StyleValue(k, Read(ns, k)))
  {
    PassMember(SetStylePass, node, ps, ns, Keys(ns), op);
    var k :| k in Keys(ns) && op in KeyOps(SetStylePass, node, ps, ns, k);
    assert Read(ps, k) != Read(ns, k);
  }

  /** Each changed key of `ns` is written by the writing style pass. */
  lemma SetStyleWrites(node: nat, ps: Props, ns: Props, k: string)
    requires k in Keys(ns) && Read(ps, k) != Read(ns, k)
    ensures StyleOp(node, k, StyleValue(k, Read(ns, k))) in PassOps(SetStylePass, node, ps, ns, Keys(ns))
  {
    var op := StyleOp(node, k, StyleValue(k, Read(ns, k)));
    assert KeyOps(SetStylePass, node, ps, ns, k) == [op];
    KeyOpsInPass(SetStylePass, node, ps, ns, Keys(ns), k, op);
  }

  /** A call of the diff is a call of one of its passes. */
  lemma DiffMember(node: nat, prev: Props, next: Props, op: HostOp)
    ensures op in DiffProps(node, prev, next) <==>
      op in RemoveListeners(node, prev, next) || op in ClearProperties(node, prev, next)
      || op in SetProperties(node, prev, next) || op in AddListeners(node, prev, next)
      || op in StyleOps(node, prev, next)
  {
  }

  /** Only the style passes write styles. */
  lemma {:induction false} PassWritesNoStyle(pass: Pass, node: nat, a: Props, b: Props, keys: seq<string>)
    requires !pass.ClearStylePass? && !pass.SetStylePass?
    ensures forall op :: op in PassOps(pass, node, a, b, keys) ==> !op.SetStyle? && !op.SetStyleProperty?
    decreases |keys|
  {
    if keys != [] {
      PassWritesNoStyle(pass, node, a, b, keys[1..]);
      assert PassOps(pass, node, a, b, keys) == KeyOps(pass, node, a, b, keys[0]) + PassOps(pass, node, a, b, keys[1..]);
    }
  }

  /** Without a `style` key on either side, no style call is made. */
  lemma StyleUntouchedWithoutStyle(node: nat, prev: Props, next: Props)
    requires !Has(prev, "style") && !Has(next, "style")
    ensures forall op :: op in DiffProps(node, prev, next) ==> !op.SetStyle? && !op.SetStyleProperty?
  {
    PassWritesNoStyle(RemoveListenerPass, node, prev, next, Keys(prev));
    PassWritesNoStyle(ClearPropertyPass, node, prev, next, Keys(prev));
    PassWritesNoStyle(SetPropertyPass, node, prev, next, Keys(next));
    PassWritesNoStyle(AddListenerPass, node, prev, next, Keys(next));
    forall op | op in DiffProps(node, prev, next) ensures !op.SetStyle? && !op.SetStyleProperty? {
      DiffMember(node, prev, next, op);
    }
  }

  /** Every key of a props list is present in it. */
  lemma KeysPresent(p: Props)
    ensures forall k :: k in Keys(p) ==> Has(p, k)
  {
    forall k | k in Keys(p) ensures Has(p, k) {
      var i :| 0 <= i < |Keys(p)| && Keys(p)[i] == k;
    }
  }

  /** A key present in both sides with the same value gives no call in any pass. */
  lemma KeyOpsSame(pass: Pass, node: nat, a: Props, k: string)
    requires Has(a, k)
    ensures KeyOps(pass, node, a, a, k) == []
  {
  }

  /** A pass from an object to itself makes no call. */
  lemma PassSelfEmpty(pass: Pass, node: nat, a: Props)
    ensures PassOps(pass, node, a, a, Keys(a)) == []
  {
    KeysPresent(a);
    forall k | k in Keys(a) ensures KeyOps(pass, node, a, a, k) == [] {
      KeyOpsSame(pass, node, a, k);
    }
    PassEmpty(pass, node, a, a, Keys(a));
  }

  /** Diffing props against themselves makes no call at all. */
  lemma DiffSelfIsEmpty(node: nat, p: Props)
    ensures DiffProps(node, p, p) == []
  {
    PassSelfEmpty(RemoveListenerPass, node, p);
    PassSelfEmpty(ClearPropertyPass, node, p);
    PassSelfEmpty(SetPropertyPass, node, p);
    PassSelfEmpty(AddListenerPass, node, p);
    PassSelfEmpty(ClearStylePass, node, StyleOf(p));
    PassSelfEmpty(SetStylePass, node, StyleOf(p));
  }

  /**
   * A new node's first diff (`updateDom(dom, {}, props)`) removes and clears
   * nothing: it only writes properties, listeners and styles.
   */
  lemma FirstDiffOnlyWrites(node: nat, p: Props)
    ensures RemoveListeners(node, [], p) == [] && ClearProperties(node, [], p) == []
    ensures DiffProps(node, [], p) == SetProperties(node, [], p) + AddListeners(node, [], p) + StyleOps(node, [], p)
  {
    var e: Props := [];
    assert Keys(e) == [];
    assert RemoveListeners(node, e, p) == PassOps(RemoveListenerPass, node, e, p, []) == [];
    assert ClearProperties(node, e, p) == PassOps(ClearPropertyPass, node, e, p, []) == [];
    var writes, add, style := SetProperties(node, e, p), AddListeners(node, e, p), StyleOps(node, e, p);
    calc {
      DiffProps(node, e, p);
      [] + [] + writes + add + style;
      { assert [] + [] + writes == writes; }
      writes + add + style;
    }
  }
}
