/** The fragment marker of core/src/fragment.ts. */
module Fragments {
  import opened Wrappers
  import opened JsValues

  /** `Symbol.for('react.fragment')` */
  const FRAGMENT_TYPE: Value := Sym("react.fragment")

  /** `Fragment` is the bare symbol itself, not an element. */
  const Fragment: Value := FRAGMENT_TYPE

  /** The `createFragment` function itself, which a fiber may have as its type. */
  const CREATE_FRAGMENT_FN: Value := Fn(0)

  /** The value of `x.type` for an object `x` (undefined when it has no such property). */
  function TypeField(v: Value): Value {
    match v
    case El(e) => e.kind
    case Obj(fields) => Read(fields, "type")
    case _ => Undefined
  }

  /** `isFragment(element)`: a non-null object whose `type` is the fragment symbol. */
  predicate IsFragment(v: Value)
    ensures IsFragment(v) <==>
      (v.El? && v.e.kind == FRAGMENT_TYPE) || (v.Obj? && Get(v.fields, "type") == Some(FRAGMENT_TYPE))
  {
    TypeOf(v) == "object" && v != Null && TypeField(v) == FRAGMENT_TYPE
  }

  /** `createFragment(props)`: whatever the props, the fragment symbol. */
  function CreateFragment(props: Value): (r: Value)
    ensures r.Sym? && !IsFragment(r)
  {
    Fragment
  }

  /** `createFragment` reads nothing of its props: any two give the same symbol, `Fragment`. */
  lemma CreateFragmentIgnoresProps(p: Value, q: Value)
    ensures CreateFragment(p) == CreateFragment(q) == Fragment == Sym("react.fragment")
  {
  }

  /**
   * `null` is not a fragment, and neither is `Fragment` itself (a symbol is not
   * an object); an element whose type is `Fragment` is one.
   */
  lemma FragmentMarkerCases(e: Element)
    ensures !IsFragment(Null) && !IsFragment(Undefined)
    ensures !IsFragment(Fragment)
    ensures IsFragment(El(e)) <==> e.kind == Fragment
  {
  }
}
