/** The slice of JavaScript's value model that the dot-path accessor relies on:
    primitive values, objects as mutable string-keyed property tables, truthiness,
    property reads (`v[key]`) and property assignment (`v[key] = x`). */
module JsValues {

  /** A JavaScript value. Numbers are kept as reals (the accessor only ever asks
      whether a number is zero), NaN gets its own case because it is falsy. */
  datatype Value =
    | Undefined
    | Null
    | Bool(b: bool)
    | Num(x: real)
    | NaN
    | Str(s: string)
    | Ref(obj: JsObject)

  /** A JavaScript object: its own enumerable properties, updated in place. */
  class JsObject {
    var props: map<string, Value>

    constructor (props: map<string, Value>)
      ensures this.props == props
    {
      this.props := props;
    }
  }

  /** JavaScript's ToBoolean on the values modelled here: `undefined`, `null`,
      `false`, `0`, `NaN` and `""` are falsy, every other one (every object
      included) is truthy. */
  predicate Truthy(v: Value) {
    match v
    case Undefined => false
    case Null => false
    case Bool(b) => b
    case Num(x) => x != 0.0
    case NaN => false
    case Str(s) => s != ""
    case Ref(_) => true
  }

  /** Reading a property of `undefined` or `null` throws a TypeError. */
  predicate Nullish(v: Value) {
    v.Undefined? || v.Null?
  }

  /** The property read `v[key]`. A missing key reads as `undefined`; a primitive
      has no properties of its own in this model. */
  function Index(v: Value, key: string): (r: Value)
    requires !Nullish(v)
    reads if v.Ref? then {v.obj} else {}
    ensures !v.Ref? ==> r == Undefined
    ensures v.Ref? && key !in v.obj.props ==> r == Undefined
    ensures r != Undefined ==> v.Ref? && key in v.obj.props && v.obj.props[key] == r
  {
    if v.Ref? && key in v.obj.props then v.obj.props[key] else Undefined
  }

  /** The objects that the assignment `v[key] = x` may change. */
  function AssignFrame(v: Value): set<JsObject> {
    if v.Ref? then {v.obj} else {}
  }

  /** The assignment statement `target[key] = value` in sloppy mode: an object
      gets (or overwrites) its own property `key`, a primitive ignores the write. */
  method Assign(target: Value, key: string, value: Value)
    requires !Nullish(target)
    modifies AssignFrame(target)
    ensures target.Ref? ==> target.obj.props == old(target.obj.props)[key := value]
    ensures target.Ref? ==> Index(target, key) == value
  {
    if target.Ref? {
      target.obj.props := target.obj.props[key := value];
    }
  }
}
