/**
 * The values a document holds and the JavaScript conversions the model needs:
 * truthiness, conversion to a property key / string, and `typeof`.
 */
module Values {

  datatype Option<+T> = None | Some(value: T)

  /**
   * A JavaScript value as it can appear in a document.
   * - `Num(repr)` is a number, represented by its canonical JavaScript string
   *   (`"42"`, `"0"`, `"NaN"`, `"Infinity"`), which is all the model needs of it.
   * - `Templated(template)` is an object whose `template` property is a function;
   *   the function itself is foreign code, named by `template`.
   * - `Opaque(text)` is any other object or function; `text` is its string conversion.
   */
  datatype Value =
    | Undefined
    | Null
    | Bool(b: bool)
    | Num(repr: string)
    | Str(s: string)
    | Templated(template: nat)
    | Opaque(text: string)

  /** A document: a flat mapping from property names to values. */
  type Doc = map<string, Value>

  /** Reading a property: an absent key reads as `undefined`. */
  function Get(doc: Doc, key: string): (v: Value)
    ensures key !in doc ==> v == Undefined
    ensures key in doc ==> v == doc[key]
  {
    if key in doc then doc[key] else Undefined
  }

  /** Assigning a property (`doc[key] = v`). Assigning to `__proto__` creates no own
    * property: a primitive value is ignored, and an object value replaces the
    * prototype, which the model does not represent. */
  function SetProperty(doc: Doc, key: string, v: Value): (r: Doc)
    ensures key != "__proto__" ==> r.Keys == doc.Keys + {key} && r[key] == v
    ensures key == "__proto__" ==> r.Keys == doc.Keys
    ensures forall k :: k in doc && k != key ==> r[k] == doc[k]
  {
    if key == "__proto__" then doc else doc[key := v]
  }

  /** JavaScript truthiness. */
  predicate Truthy(v: Value) {
    match v
    case Undefined => false
    case Null => false
    case Bool(b) => b
    case Num(repr) => repr != "0" && repr != "NaN"
    case Str(s) => s != ""
    case Templated(_) => true
    case Opaque(_) => true
  }

  /** String conversion, which is also the property key a value selects (`obj[v]`, `"" + v`). */
  function ToStr(v: Value): string {
    match v
    case Undefined => "undefined"
    case Null => "null"
    case Bool(b) => if b then "true" else "false"
    case Num(repr) => repr
    case Str(s) => s
    case Templated(_) => "[object Object]"
    case Opaque(text) => text
  }

  /** The `typeof` operator. */
  function TypeOf(v: Value): string {
    match v
    case Undefined => "undefined"
    case Null => "object"
    case Bool(_) => "boolean"
    case Num(_) => "number"
    case Str(_) => "string"
    case Templated(_) => "object"
    case Opaque(_) => "object"
  }
}
