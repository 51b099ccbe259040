/** What several modules share: optional values, and the names every JavaScript
    object inherits. */
module Prelude {

  datatype Option<+T> = None | Some(value: T)

  /** The functions of `Object.prototype`: reading one of these from a plain object
      gives something defined, truthy and not a number. */
  predicate InheritedFunction(name: string) {
    name in {
      "constructor", "hasOwnProperty", "isPrototypeOf", "propertyIsEnumerable", "toLocaleString", "toString", "valueOf",
      "__defineGetter__", "__defineSetter__", "__lookupGetter__", "__lookupSetter__"
    }
  }

  /** Reading it gives the prototype; assigning a string to it does nothing. */
  const PROTO: string := "__proto__"

  /** Names a plain object answers to before anything is stored in it. */
  predicate Inherited(name: string) {
    InheritedFunction(name) || name == PROTO
  }
}
