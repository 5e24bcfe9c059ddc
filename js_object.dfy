/**
 * What reading an object literal used as a dictionary, `obj[key]`, yields for a key the object
 * does not own: the member of the object's prototype with that name when there is one,
 * otherwise `undefined`. An object literal's prototype is `Object.prototype` (ECMAScript 2024,
 * sections 20.1.3 and B.2.2).
 */
module JsObject {
  import opened Wrappers

  /** The exception a failed property read or call throws. */
  datatype Thrown = TypeError

  /**
   * The members an object inherits, by name, each with its `length`: a function's number of
   * declared parameters, or `None` for a member without a `length`.
   */
  type Prototype = map<string, Option<nat>>

  /**
   * `Object.prototype`: every member is a built-in function, except `__proto__`, whose getter
   * returns `Object.prototype` itself, an object without a `length`. All of them are truthy.
   */
  const ObjectPrototype: Prototype := map[
    "constructor" := Some(1),
    "hasOwnProperty" := Some(1),
    "isPrototypeOf" := Some(1),
    "propertyIsEnumerable" := Some(1),
    "toLocaleString" := Some(0),
    "toString" := Some(0),
    "valueOf" := Some(0),
    "__defineGetter__" := Some(2),
    "__defineSetter__" := Some(2),
    "__lookupGetter__" := Some(1),
    "__lookupSetter__" := Some(1),
    "__proto__" := None
  ]

  /**
   * `obj[name] && obj[name].length > 0` holds on an object without an own `name`: the name is
   * inherited and its `length` is positive (`undefined > 0` is false).
   */
  predicate InheritedWithLength(proto: Prototype, name: string) {
    name in proto && proto[name].Some? && proto[name].value > 0
  }
}
