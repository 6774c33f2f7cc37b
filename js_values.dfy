/**
 The JavaScript values that the export script reads from a post: a field is
 either a string or missing (null or undefined), and the script's `||`,
 `if (x)` and template literals treat those by JavaScript's rules.
 */
module JsValues {

  /** A field that is null or undefined (None), or that holds a value. */
  datatype Option<+T> = None | Some(value: T)

  /** JavaScript truthiness of a string field: null, undefined and "" are falsy. */
  predicate Truthy(v: Option<string>) {
    v.Some? && v.value != ""
  }

  /** `a || b`: `a` when it is truthy, otherwise `b` as it is (possibly falsy itself). */
  function Or(a: Option<string>, b: Option<string>): Option<string> {
    if Truthy(a) then a else b
  }

  /** `a || d` for a string default `d`: always a string. */
  function OrDefault(a: Option<string>, d: string): string {
    if Truthy(a) then a.value else d
  }

  /** How `${v}` renders a string field in a template literal; null renders as "null". */
  function TemplateText(v: Option<string>): string {
    match v
    case Some(s) => s
    case None => "null"
  }
}
