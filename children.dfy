/** The `Children` helpers of core/src/children.ts, on JavaScript values. */
module Children {
  import opened Wrappers
  import opened JsValues

  /** The items one element of an array contributes to `flat()`: an array's items, else itself. */
  function Spread(x: Value): seq<Value> {
    if x.Arr? then x.items else [x]
  }

  /** `xs.flat()`: nested arrays are spliced in, one level deep. */
  function Flat(xs: seq<Value>): seq<Value>
    decreases |xs|
  {
    if xs == [] then [] else Spread(xs[0]) + Flat(xs[1..])
  }

  /** `Children.toArray(children)` */
  function ToArray(children: Value): seq<Value> {
    if IsNullish(children) then []
    else if children.Arr? then Flat(children.items)
    else [children]
  }

  /** `Children.count(children)` */
  function Count(children: Value): nat {
    |ToArray(children)|
  }

  /** `Children.only(children)`: the sole child, or the error it throws. */
  function Only(children: Value): (r: Result<Value>)
    ensures r.Ok? <==> Count(children) == 1
    ensures r.Ok? ==> r.value == ToArray(children)[0]
    ensures r.Throws? ==> r.message == "Children.only() expects only one child."
  {
    var items := ToArray(children);
    if |items| != 1 then Throws("Children.only() expects only one child.") else Ok(items[0])
  }

  /** `fn` applied to the items `xs`, the first of which sits at index `offset`. */
  function MapFrom(xs: seq<Value>, fn: (Value, nat) -> Value, offset: nat): (r: seq<Value>)
    ensures |r| == |xs|
    ensures forall i :: 0 <= i < |xs| ==> r[i] == fn(xs[i], offset + i)
    decreases |xs|
  {
    if xs == [] then [] else [fn(xs[0], offset)] + MapFrom(xs[1..], fn, offset + 1)
  }

  /** `Children.map(children, fn)`: `fn(child, index)` for each child, in order. */
  function Map(children: Value, fn: (Value, nat) -> Value): (r: seq<Value>)
    ensures |r| == Count(children)
    ensures forall i :: 0 <= i < |r| ==> r[i] == fn(ToArray(children)[i], i)
  {
    MapFrom(ToArray(children), fn, 0)
  }

  /** The calls `fn(child, index)` that `forEach` makes over `xs`, from index `offset`. */
  function CallsFrom(xs: seq<Value>, offset: nat): (r: seq<(Value, nat)>)
    ensures |r| == |xs|
    ensures forall i :: 0 <= i < |xs| ==> r[i] == (xs[i], offset + i)
    decreases |xs|
  {
    if xs == [] then [] else [(xs[0], offset)] + CallsFrom(xs[1..], offset + 1)
  }

  /** `Children.forEach(children, fn)`: the calls made, in the order made. */
  function ForEach(children: Value): (calls: seq<(Value, nat)>)
    ensures |calls| == Count(children)
    ensures forall i :: 0 <= i < |calls| ==> calls[i] == (ToArray(children)[i], i)
  {
    CallsFrom(ToArray(children), 0)
  }

  /** Flattening distributes over concatenation. */
  lemma {:induction false} FlatAppend(xs: seq<Value>, ys: seq<Value>)
    ensures Flat(xs + ys) == Flat(xs) + Flat(ys)
    decreases |xs|
  {
    if xs == [] {
      assert xs + ys == ys;
    } else {
      assert (xs + ys)[0] == xs[0];
      assert (xs + ys)[1..] == xs[1..] + ys;
      FlatAppend(xs[1..], ys);
    }
  }

  /**
   * `toArray` flattens exactly one level: an array item is replaced by its own
   * items (arrays inside it stay arrays), and any other item, null and
   * undefined included, is kept as it is.
   */
  lemma {:induction false} ToArrayOneLevel(xs: seq<Value>, i: nat)
    requires i < |xs|
    ensures ToArray(Arr(xs)) == Flat(xs[..i]) + Spread(xs[i]) + Flat(xs[i + 1..])
  {
    var before, at, after := xs[..i], [xs[i]], xs[i + 1..];
    assert xs == before + at + after;
    FlatAppend(before + at, after);
    FlatAppend(before, at);
    FlatSingle(xs[i]);
  }

  lemma FlatSingle(x: Value)
    ensures Flat([x]) == Spread(x)
  {
    assert [x][1..] == [];
  }

  /** With no array among the items, `toArray` filters nothing out: the children come back as they are. */
  lemma {:induction false} ToArrayNoFiltering(xs: seq<Value>)
    requires forall i :: 0 <= i < |xs| ==> !xs[i].Arr?
    ensures ToArray(Arr(xs)) == xs
    ensures Count(Arr(xs)) == |xs|
  {
    FlatOfPlain(xs);
  }

  lemma {:induction false} FlatOfPlain(xs: seq<Value>)
    requires forall i :: 0 <= i < |xs| ==> !xs[i].Arr?
    ensures Flat(xs) == xs
    decreases |xs|
  {
    if xs != [] {
      FlatOfPlain(xs[1..]);
    }
  }

  /** A nullish value has no children; any other single value is one child. */
  lemma ToArrayOfSingle(v: Value)
    requires !v.Arr?
    ensures IsNullish(v) ==> ToArray(v) == [] && Count(v) == 0
    ensures !IsNullish(v) ==> ToArray(v) == [v] && Count(v) == 1 && Only(v) == Ok(v)
  {
  }
}
