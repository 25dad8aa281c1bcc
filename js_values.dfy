/**
 * The JavaScript values the plugin configuration can hold, as far as the
 * modelled code observes them: whether a value is null or undefined (lodash
 * isNil, default parameters), whether it is a string, what a template literal
 * `${v}` renders it as, and whether it is truthy.
 */
module JsValues {

  /** A configuration value. `Other` stands for any non-string value (a number,
      a boolean, an object, ...) by its String() rendering and its truthiness. */
  datatype JsValue =
    | Undefined
    | Null
    | Str(s: string)
    | Other(text: string, truthy: bool)

  /** lodash `isNil`: null or undefined. */
  predicate IsNil(v: JsValue)
  {
    v.Undefined? || v.Null?
  }

  /** What `${v}` produces inside a template literal. */
  function Render(v: JsValue): string
  {
    match v
    case Undefined => "undefined"
    case Null => "null"
    case Str(s) => s
    case Other(text, _) => text
  }

  /** JavaScript truthiness, as used by `a && b` in a condition. */
  predicate Truthy(v: JsValue)
  {
    match v
    case Undefined => false
    case Null => false
    case Str(s) => s != ""
    case Other(_, truthy) => truthy
  }
}
