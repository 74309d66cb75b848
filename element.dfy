/**
 * The element factory of core/src/element.ts. `config` is the config object
 * (`None` for `null`/`undefined`); `defaultProps` is the `defaultProps`
 * property of the element type (`None` when it is absent or falsy).
 */
module Elements {
  import opened Wrappers
  import opened JsValues

  /** The config keys that do not become props. */
  predicate Reserved(name: string) {
    name == "key" || name == "ref" || name == "__self" || name == "__source"
  }

  /** The own config properties that are copied into props, in key order. */
  function OwnProps(config: Props): (r: Props)
    ensures |r| <= |config|
    decreases |config|
  {
    if config == [] then []
    else if Reserved(config[|config| - 1].0) then OwnProps(config[..|config| - 1])
    else OwnProps(config[..|config| - 1]) + [config[|config| - 1]]
  }

  /** `config[name]` unless `name` is reserved. */
  lemma {:induction false} OwnPropsGet(config: Props, name: string)
    requires UniqueKeys(config)
    ensures Get(OwnProps(config), name) == if Reserved(name) then None else Get(config, name)
    decreases |config|
  {
    if config != [] {
      var init := config[..|config| - 1];
      var last := config[|config| - 1];
      assert UniqueKeys(init);
      OwnPropsGet(init, name);
      GetSnoc(init, last, name);
      if !Reserved(last.0) {
        GetSnoc(OwnProps(init), last, name);
      }
      assert config == init + [last];
    }
  }

  /** A key of a list with unique keys does not occur before its own position. */
  lemma {:induction false} OwnPropsFresh(config: Props, i: nat)
    requires UniqueKeys(config) && i < |config|
    ensures !Has(OwnProps(config[..i]), config[i].0)
  {
    var pre := config[..i];
    assert UniqueKeys(pre);
    OwnPropsGet(pre, config[i].0);
    forall k | 0 <= k < |pre| ensures pre[k].0 != config[i].0 {
      assert pre[k] == config[k];
    }
    assert !Has(pre, config[i].0);
  }

  /** The value `props.children` is given from the rest arguments, if any. */
  function ChildrenProp(children: seq<Value>): Option<Value> {
    if |children| == 1 then Some(children[0])
    else if |children| > 1 then Some(Arr(children))
    else None
  }

  /** A prop's value before default props are applied. */
  function BaseProp(config: Option<Props>, children: seq<Value>, name: string): Option<Value> {
    if name == "children" && ChildrenProp(children).Some? then ChildrenProp(children)
    else if config.Some? && !Reserved(name) then Get(config.value, name)
    else None
  }

  /** Whether default props are consulted for this element type. */
  predicate UsesDefaults(kind: Value, defaultProps: Option<Props>) {
    TypeOf(kind) == "function" && defaultProps.Some?
  }

  /** A prop's final value: a default fills it only when it is missing or undefined. */
  function FinalProp(kind: Value, config: Option<Props>, children: seq<Value>, defaultProps: Option<Props>, name: string): Option<Value> {
    var base := BaseProp(config, children, name);
    if UsesDefaults(kind, defaultProps) && base.GetOr(Undefined) == Undefined && Has(defaultProps.value, name)
    then Get(defaultProps.value, name)
    else base
  }

  /** The special field read from config: its value unless it is undefined. */
  function Special(config: Option<Props>, name: string): Option<Value> {
    if config.Some? && Read(config.value, name) != Undefined then Some(Read(config.value, name)) else None
  }

  /** The copy loop over `config`: every own, non-reserved property, in key order. */
  method CopyOwnProps(c: Props) returns (props: Props)
    requires UniqueKeys(c)
    ensures props == OwnProps(c)
    ensures forall name :: Get(props, name) == if Reserved(name) then None else Get(c, name)
  {
    props := [];
    var i := 0;
    while i < |c|
      invariant 0 <= i <= |c|
      invariant props == OwnProps(c[..i])
    {
      assert c[..i + 1] == c[..i] + [c[i]];
      assert c[..i + 1][..i] == c[..i];
      if !Reserved(c[i].0) {
        OwnPropsFresh(c, i);
        props := Put(props, c[i].0, c[i].1);
      }
      i := i + 1;
    }
    assert c[..i] == c;
    forall name ensures Get(props, name) == (if Reserved(name) then None else Get(c, name)) {
      OwnPropsGet(c, name);
    }
  }

  /** The copy loop into `childArray`. */
  method CopyChildren(children: seq<Value>) returns (childArray: seq<Value>)
    ensures childArray == children
  {
    childArray := [];
    var i := 0;
    while i < |children|
      invariant 0 <= i <= |children|
      invariant childArray == children[..i]
    {
      childArray := childArray + [children[i]];
      i := i + 1;
    }
    assert children[..i] == children;
  }

  /** `b` keeps the keys of `a`, in order, as its first keys. */
  predicate KeysPrefix(a: Props, b: Props) {
    |a| <= |b| && Keys(b)[..|a|] == Keys(a)
  }

  /** Setting a key keeps the existing keys as a prefix. */
  lemma PutKeepsPrefix(p: Props, name: string, v: Value)
    ensures KeysPrefix(p, Put(p, name, v))
  {
    var r := Put(p, name, v);
    if Get(p, name).None? {
      assert forall i :: 0 <= i < |p| ==> Keys(r)[i] == Keys(p)[i];
    }
  }

  lemma KeysPrefixTrans(a: Props, b: Props, c: Props)
    requires KeysPrefix(a, b) && KeysPrefix(b, c)
    ensures KeysPrefix(a, c)
  {
    assert forall i :: 0 <= i < |a| ==> Keys(c)[i] == Keys(b)[i] == Keys(a)[i];
  }

  /** A prop after `d` is applied as defaults: a default fills it only when it reads as undefined. */
  function Defaulted(base: Props, d: Props, name: string): Option<Value> {
    if Read(base, name) == Undefined && Has(d, name) then Get(d, name) else Get(base, name)
  }

  /** The default-props loop. */
  method ApplyDefaults(base: Props, d: Props) returns (props: Props)
    requires UniqueKeys(d)
    ensures forall name :: Get(props, name) == Defaulted(base, d, name)
    ensures KeysPrefix(base, props)
  {
    props := base;
    var j := 0;
    while j < |d|
      invariant 0 <= j <= |d|
      invariant forall name :: Get(props, name) == Defaulted(base, d[..j], name)
      invariant KeysPrefix(base, props)
    {
      var propName := d[j].0;
      assert d[..j + 1] == d[..j] + [d[j]];
      forall k | 0 <= k < j ensures d[..j][k].0 != propName {
        assert d[..j][k] == d[k];
      }
      assert !Has(d[..j], propName);
      forall name ensures Get(d[..j + 1], name) == (if name == propName then Some(d[j].1) else Get(d[..j], name)) {
        GetSnoc(d[..j], d[j], name);
      }
      assert Get(props, propName) == Get(base, propName);
      ghost var before := props;
      if Read(props, propName) == Undefined {
        props := Put(props, propName, d[j].1);
        PutKeepsPrefix(before, propName, d[j].1);
        KeysPrefixTrans(base, before, props);
      }
      forall name ensures Get(props, name) == Defaulted(base, d[..j + 1], name) {
        if name != propName {
          if Read(before, propName) == Undefined {
            PutOther(before, propName, d[j].1, name);
          }
          assert Get(d[..j + 1], name) == Get(d[..j], name);
          assert Has(d[..j + 1], name) <==> Has(d[..j], name);
          assert Get(before, name) == Defaulted(base, d[..j], name);
        } else {
          assert Get(d[..j], name).None?;
          GetSnoc(d[..j], d[j], name);
          assert Get(d[..j] + [d[j]], name) == Some(d[j].1);
          assert Get(d[..j + 1], name) == Some(d[j].1);
          assert Has(d[..j + 1], name);
        }
      }
      j := j + 1;
    }
    assert d[..j] == d;
  }

  /** A prop after the rest arguments, if any, are written to `children`. */
  function ChildrenOver(base: Props, children: seq<Value>, name: string): Option<Value> {
    if name == "children" && ChildrenProp(children).Some? then ChildrenProp(children) else Get(base, name)
  }

  /** The `props.children` assignment, when there are rest arguments. */
  method WithChildren(base: Props, children: seq<Value>) returns (props: Props)
    ensures forall name :: Get(props, name) == ChildrenOver(base, children, name)
    ensures KeysPrefix(base, props)
  {
    props := base;
    var childrenLength := |children|;
    if childrenLength == 1 {
      props := Put(base, "children", children[0]);
    } else if childrenLength > 1 {
      var childArray := CopyChildren(children);
      props := Put(base, "children", Arr(childArray));
    }
    if childrenLength >= 1 {
      var v := if childrenLength == 1 then children[0] else Arr(children);
      PutKeepsPrefix(base, "children", v);
      forall name | name != "children" ensures Get(props, name) == Get(base, name) {
        PutOther(base, "children", v, name);
      }
    }
  }

  /** The props object `createElement` builds: own config props, then `children`, then defaults. */
  method BuildProps(kind: Value, config: Option<Props>, children: seq<Value>, defaultProps: Option<Props>)
    returns (props: Props)
    requires config.Some? ==> UniqueKeys(config.value)
    requires defaultProps.Some? ==> UniqueKeys(defaultProps.value)
    ensures forall name :: Get(props, name) == FinalProp(kind, config, children, defaultProps, name)
    ensures config.Some? ==> KeysPrefix(OwnProps(config.value), props)
  {
    props := [];
    if config.Some? {
      props := CopyOwnProps(config.value);
    }
    ghost var copied := props;
    props := WithChildren(props, children);
    forall name ensures Get(props, name) == BaseProp(config, children, name) {
      assert Get(props, name) == ChildrenOver(copied, children, name);
    }
    ghost var withChildren := props;
    if TypeOf(kind) == "function" && defaultProps.Some? {
      props := ApplyDefaults(props, defaultProps.value);
      KeysPrefixTrans(copied, withChildren, props);
      forall name ensures Get(props, name) == FinalProp(kind, config, children, defaultProps, name) {
        assert Get(props, name) == Defaulted(withChildren, defaultProps.value, name);
      }
    }
  }

  /**
   * `createElement(type, config, ...children)`: the element, or the TypeError
   * `'' + config.key` throws when the key is a symbol.
   */
  method CreateElement(kind: Value, config: Option<Props>, children: seq<Value>, defaultProps: Option<Props>)
    returns (r: Result<Element>)
    requires config.Some? ==> UniqueKeys(config.value)
    requires defaultProps.Some? ==> UniqueKeys(defaultProps.value)
    ensures r.Throws? <==> Special(config, "key").Some? && HoldsSymbol(Special(config, "key").value)
    ensures r.Throws? ==> r.message == SYMBOL_TO_STRING
    ensures r.Ok? ==> r.value.kind == kind
    ensures r.Ok? ==> r.value.key == (if Special(config, "key").Some? then Some(ToJsString(Special(config, "key").value).value) else None)
    ensures r.Ok? ==> r.value.ref == Special(config, "ref").GetOr(Null)
    ensures r.Ok? ==> r.value.self == Special(config, "__self").GetOr(Null)
    ensures r.Ok? ==> r.value.source == Special(config, "__source").GetOr(Null)
    ensures r.Ok? ==> forall name :: Get(r.value.props, name) == FinalProp(kind, config, children, defaultProps, name)
    ensures r.Ok? && config.Some? ==> KeysPrefix(OwnProps(config.value), r.value.props)
  {
    var key: Option<string> := None;
    var ref := Null;
    var self := Null;
    var source := Null;
    if config.Some? {
      var c := config.value;
      if Read(c, "key") != Undefined {
        var s := ToJsString(Read(c, "key"));
        if s.Throws? {
          return Throws(s.message);
        }
        key := Some(s.value);
      }
      if Read(c, "ref") != Undefined {
        ref := Read(c, "ref");
      }
      self := if Read(c, "__self") == Undefined then Null else Read(c, "__self");
      source := if Read(c, "__source") == Undefined then Null else Read(c, "__source");
    }
    var props := BuildProps(kind, config, children, defaultProps);
    r := Ok(Element(kind, key, ref, props, self, source));
  }
}
