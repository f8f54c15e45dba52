/** What every plain JavaScript object inherits. A look-up of one of these names finds something truthy in an object that
    has no such property of its own. */
module ObjectPrototype {
  const FUNCTIONS: seq<seq<char>> := [
    "constructor", "hasOwnProperty", "isPrototypeOf", "propertyIsEnumerable", "toLocaleString", "toString", "valueOf",
    "__defineGetter__", "__defineSetter__", "__lookupGetter__", "__lookupSetter__"]

  const PROTO: seq<char> := "__proto__"

  /** The names of inherited functions. */
  predicate InheritsFunction(name: seq<char>) {
    name in FUNCTIONS
  }

  predicate Inherits(name: seq<char>) {
    InheritsFunction(name) || name == PROTO
  }
}
