/**
 * The JavaScript values the renderer passes around: props objects, element
 * records, children arrays and the primitive values that end up as text.
 *
 * Objects are lists of own properties in insertion order, the order
 * `Object.keys` and `for…in` report when no key is integer-like (JavaScript
 * lists such keys first, in ascending numeric order; the model does not);
 * functions and symbols are identified by an id or a description, so `===`
 * on them is equality of these values.
 */
module JsValues {
  import opened Wrappers

  datatype Value =
    | Undefined
    | Null
    | Bool(b: bool)
    | Num(n: int)
    | Str(s: string)
    | Sym(desc: string)              // Symbol.for(desc)
    | Fn(id: nat)                    // a function, by identity
    | Arr(items: seq<Value>)
    | Obj(fields: seq<(string, Value)>)
    | El(e: Element)                 // an element record produced by createElement
    | Node(id: nat)                  // a node of the host document

  /** What `createElement` returns (core/src/element.ts). `kind` is the element's `type`. */
  datatype Element = Element(
    kind: Value,
    key: Option<string>,
    ref: Value,
    props: seq<(string, Value)>,
    self: Value,
    source: Value)

  /** An object's own properties in key order, whatever the values are. */
  type Fields<V> = seq<(string, V)>

  /** A props or config object: own properties in key order. */
  type Props = Fields<Value>

  /** `name in p` */
  predicate Has<V>(p: Fields<V>, name: string) {
    exists i :: 0 <= i < |p| && p[i].0 == name
  }

  /** `p[name]`, `None` when `name` is not an own property. */
  function Get<V>(p: Fields<V>, name: string): (r: Option<V>)
    ensures r.Some? <==> Has(p, name)
  {
    if p == [] then None
    else if p[0].0 == name then Some(p[0].1)
    else Get(p[1..], name)
  }

  /** `p[name]` as JavaScript reads it: a missing property reads as `undefined`. */
  function Read(p: Props, name: string): Value {
    Get(p, name).GetOr(Undefined)
  }

  /** Object keys are unique. */
  predicate UniqueKeys<V>(p: Fields<V>) {
    forall i, j :: 0 <= i < j < |p| ==> p[i].0 != p[j].0
  }

  /** `p[name] = v`: an existing key keeps its position, a new key goes last. */
  function Put(p: Props, name: string, v: Value): (r: Props)
    ensures Get(r, name) == Some(v)
    ensures Get(p, name).None? ==> r == p + [(name, v)]
    ensures Get(p, name).Some? ==> |r| == |p| && Keys(r) == Keys(p)
  {
    if p == [] then [(name, v)]
    else if p[0].0 == name then [(name, v)] + p[1..]
    else
      var t := Put(p[1..], name, v);
      var r := [p[0]] + t;
      assert r[0] == p[0] && r[1..] == t;
      assert Get(p, name) == Get(p[1..], name) && Get(r, name) == Get(t, name);
      assert Keys(r) == [p[0].0] + Keys(t);
      assert Get(p, name).None? ==> [p[0]] + (p[1..] + [(name, v)]) == p + [(name, v)];
      r
  }

  /** Writing one key leaves every other key's value alone. */
  lemma {:induction false} PutOther(p: Props, name: string, v: Value, k: string)
    requires k != name
    ensures Get(Put(p, name, v), k) == Get(p, k)
  {
    if p != [] && p[0].0 != name {
      PutOther(p[1..], name, v, k);
    }
  }

  /** Looking up in a list with one more property at the end. */
  lemma {:induction false} GetSnoc<V>(p: Fields<V>, last: (string, V), name: string)
    ensures Get(p + [last], name) ==
      if Get(p, name).Some? then Get(p, name) else if last.0 == name then Some(last.1) else None
    decreases |p|
  {
    if p == [] {
      assert [last][1..] == [];
    } else {
      assert (p + [last])[1..] == p[1..] + [last];
      GetSnoc(p[1..], last, name);
    }
  }

  /** `Object.keys(p)`: the keys in insertion order, integer-like keys included. */
  function Keys<V>(p: Fields<V>): (r: seq<string>)
    ensures |r| == |p|
    ensures forall i :: 0 <= i < |p| ==> r[i] == p[i].0
  {
    if p == [] then [] else [p[0].0] + Keys(p[1..])
  }

  /** `typeof v` */
  function TypeOf(v: Value): string {
    match v
    case Undefined => "undefined"
    case Null => "object"
    case Bool(_) => "boolean"
    case Num(_) => "number"
    case Str(_) => "string"
    case Sym(_) => "symbol"
    case Fn(_) => "function"
    case _ => "object"
  }

  /** JavaScript truthiness (`if (v)`). */
  predicate Truthy(v: Value) {
    match v
    case Undefined => false
    case Null => false
    case Bool(b) => b
    case Num(n) => n != 0
    case Str(s) => s != ""
    case _ => true
  }

  /** `v == null`: loose equality with null holds for null and undefined only. */
  predicate IsNullish(v: Value) {
    v.Undefined? || v.Null?
  }

  function DigitChar(d: nat): char
    requires d < 10
  {
    ('0' as int + d) as char
  }

  /** Decimal digits of a natural number, as `String(n)` writes them. */
  function NatToString(n: nat): (r: string)
    ensures |r| >= 1
    ensures forall i :: 0 <= i < |r| ==> '0' <= r[i] <= '9'
  {
    if n < 10 then [DigitChar(n)] else NatToString(n / 10) + [DigitChar(n % 10)]
  }

  function IntToString(n: int): string {
    if n < 0 then "-" + NatToString(-n) else NatToString(n)
  }

  /** The message of the TypeError that converting a symbol to a string throws. */
  const SYMBOL_TO_STRING: string := "Cannot convert a Symbol value to a string"

  /** A symbol, or an array holding one at any depth: the values whose string conversion throws. */
  predicate HoldsSymbol(v: Value)
    decreases v
  {
    match v
    case Sym(_) => true
    case Arr(items) => exists i :: 0 <= i < |items| && HoldsSymbol(items[i])
    case _ => false
  }

  /**
   * `'' + v` / `String(v)`: the TypeError for a symbol, else the string. A
   * function converts to its source text, which this model does not have; it
   * is rendered as "function".
   */
  function ToJsString(v: Value): (r: Result<string>)
    ensures r.Throws? <==> HoldsSymbol(v)
    ensures r.Throws? ==> r.message == SYMBOL_TO_STRING
    decreases v
  {
    match v
    case Undefined => Ok("undefined")
    case Null => Ok("null")
    case Bool(b) => Ok(if b then "true" else "false")
    case Num(n) => Ok(IntToString(n))
    case Str(s) => Ok(s)
    case Sym(_) => Throws(SYMBOL_TO_STRING)
    case Fn(_) => Ok("function")
    case Arr(items) => JoinItems(items)
    case Obj(_) => Ok("[object Object]")
    case El(_) => Ok("[object Object]")
    case Node(_) => Ok("[object Node]")
  }

  /** `items.join(',')`: null and undefined items become empty strings, a symbol throws. */
  function JoinItems(items: seq<Value>): (r: Result<string>)
    ensures r.Throws? <==> exists i :: 0 <= i < |items| && HoldsSymbol(items[i])
    ensures r.Throws? ==> r.message == SYMBOL_TO_STRING
    decreases items
  {
    if items == [] then Ok("")
    else
      var head := if IsNullish(items[0]) then Ok("") else ToJsString(items[0]);
      if head.Throws? then head
      else if |items| == 1 then head
      else
        var tail := JoinItems(items[1..]);
        assert forall i :: 1 <= i < |items| ==> items[i] == items[1..][i - 1];
        if tail.Throws? then tail else Ok(head.value + "," + tail.value)
  }

  /**
   * `s.toLowerCase()` restricted to ASCII letters; other letters with a
   * lower-case form are kept as they are.
   */
  function AsciiLower(s: string): (r: string)
    ensures |r| == |s|
    ensures forall i :: 0 <= i < |s| ==> r[i] == LowerChar(s[i])
  {
    if s == [] then [] else [LowerChar(s[0])] + AsciiLower(s[1..])
  }

  function LowerChar(c: char): char {
    if 'A' <= c <= 'Z' then (c as int + 32) as char else c
  }

  predicate IsUpper(c: char) {
    'A' <= c <= 'Z'
  }

  predicate StartsWith(s: string, prefix: string) {
    |prefix| <= |s| && s[..|prefix|] == prefix
  }

  /** A measure of a value's nesting, which bounds recursion through children and props. */
  function Size(v: Value): (r: nat)
    ensures r >= 1
    decreases v
  {
    match v
    case Str(s) => if |s| <= 1 then 1 else 1 + |s|
    case Arr(items) => 1 + ItemsSize(items)
    case Obj(fields) => 1 + FieldsSize(fields)
    case El(e) => 1 + Size(e.kind) + Size(e.ref) + FieldsSize(e.props) + Size(e.self) + Size(e.source)
    case _ => 1
  }

  function ItemsSize(xs: seq<Value>): nat
    decreases xs
  {
    if xs == [] then 0 else Size(xs[0]) + ItemsSize(xs[1..])
  }

  function FieldsSize(p: Props): nat
    decreases p
  {
    if p == [] then 0
    else
      var field := p[0];
      assert field.1 < field;
      Size(field.1) + FieldsSize(p[1..])
  }

  lemma {:induction false} ItemsSizeSplit(xs: seq<Value>, i: nat)
    requires i < |xs|
    ensures ItemsSize(xs[i..]) == Size(xs[i]) + ItemsSize(xs[i + 1..])
    ensures ItemsSize(xs[i + 1..]) < ItemsSize(xs[i..])
  {
    assert xs[i..][1..] == xs[i + 1..];
  }

  lemma {:induction false} ItemsSizeSuffix(xs: seq<Value>, i: nat)
    requires i <= |xs|
    ensures ItemsSize(xs[i..]) <= ItemsSize(xs)
    decreases i
  {
    if i > 0 {
      ItemsSizeSuffix(xs, i - 1);
      ItemsSizeSplit(xs, i - 1);
    }
  }

  /** A property's value is smaller than the whole object. */
  lemma {:induction false} ReadSize(p: Props, name: string)
    ensures Size(Read(p, name)) <= FieldsSize(p) || Read(p, name) == Undefined
    decreases p
  {
    if p != [] && p[0].0 != name {
      ReadSize(p[1..], name);
    }
  }
}
