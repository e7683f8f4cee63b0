/** The JavaScript values that flow through the async hook: action payloads,
    promise settlement values and the arguments of the run function. */
module JsValues {

  /** A JavaScript value, as far as the hook can tell values apart.
      Numbers are integers plus `NaN`; `Promise` stands for a native
      promise, `Obj` for every other object (one without a `then`). */
  datatype Value =
    | Undefined
    | Null
    | Bool(b: bool)
    | Num(n: int)
    | NaN
    | Str(s: string)
    | Promise(id: nat)
    | Obj(id: nat)

  /** ToBoolean, as section 7.1.2 of ECMA-262 defines it, restricted to the
      values above: this is what `if (!x)` tests. */
  predicate Truthy(v: Value)
  {
    match v
    case Undefined => false
    case Null => false
    case Bool(b) => b
    case Num(n) => n != 0
    case NaN => false
    case Str(s) => s != ""
    case Promise(_) => true
    case Obj(_) => true
  }

  /** Whether `v.then(onFulfilled, onRejected)` can be called. */
  predicate Thenable(v: Value)
  {
    v.Promise?
  }

  /** The falsy values are exactly the six the language lists (negative zero
      and big-integer zero have no counterpart here). */
  lemma FalsyValues(v: Value)
    ensures !Truthy(v) <==> v in {Undefined, Null, Bool(false), Num(0), NaN, Str("")}
  {
  }
}
