/**
 * The JavaScript and Express vocabulary the rest of the model is written in:
 * optional values (a missing property or SQL NULL), JSON values with
 * JavaScript truthiness, and an Express response (status code and body).
 */
module Js {

  /** `None` is a missing property, `undefined`, `null` or SQL NULL. */
  datatype Option<T> = None | Some(value: T)

  /** A JSON value as it arrives in a request body or a stored object. */
  datatype Value =
    | Null
    | Bool(b: bool)
    | Num(n: int)
    | Str(s: string)
    | Composite   // an array or an object: always truthy

  /** JavaScript truthiness of a JSON value (NaN is not modelled). */
  predicate Truthy(v: Value)
  {
    match v
    case Null => false
    case Bool(b) => b
    case Num(n) => n != 0
    case Str(s) => s != ""
    case Composite => true
  }

  /** Truthiness of an optional string: present and non-empty. */
  predicate Given(o: Option<string>)
  {
    o.Some? && o.value != ""
  }

  /** Truthiness of an optional number: present and non-zero. */
  predicate GivenId(o: Option<int>)
  {
    o.Some? && o.value != 0
  }

  /** `o || fallback` for a string that replaces a non-null string. */
  function OrElse(o: Option<string>, fallback: string): (r: string)
    ensures Given(o) ==> r == o.value
    ensures !Given(o) ==> r == fallback
  {
    if Given(o) then o.value else fallback
  }

  /** `o || fallback` where the fallback may itself be NULL. */
  function OrElseOpt(o: Option<string>, fallback: Option<string>): (r: Option<string>)
    ensures Given(o) ==> r == o
    ensures !Given(o) ==> r == fallback
  {
    if Given(o) then o else fallback
  }

  /** `o || fallback` for a numeric id. */
  function OrElseId(o: Option<int>, fallback: int): (r: int)
    ensures GivenId(o) ==> r == o.value
    ensures !GivenId(o) ==> r == fallback
  {
    if GivenId(o) then o.value else fallback
  }

  /** `o || null`: a falsy string is stored as NULL. */
  function OrNull(o: Option<string>): (r: Option<string>)
    ensures r.Some? <==> Given(o)
    ensures r.Some? ==> r == o
  {
    if Given(o) then o else None
  }

  /**
   * What an Express handler sends: `res.status(k).json(v)` or
   * `res.status(k).send(text)`.
   */
  datatype Reply<T> =
    | Json(status: int, value: T)
    | Text(status: int, text: string)
}
