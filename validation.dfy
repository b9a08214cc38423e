/**
 * validation.js: the `validateRequired` and `validateParams` middleware. A
 * name counts as missing when its value is absent or falsy; the request is
 * either answered with 400 naming every missing field, in the order the
 * names were declared, or passed on with `next()`.
 */
module Validation {
  import opened Js
  import opened Text

  /** What the middleware does with a request. */
  datatype Outcome = Next | Respond(status: int, error: string)

  const FieldsPrefix := "Missing required fields: "
  const ParamsPrefix := "Missing required parameters: "

  /** `!source[name]`: the name is absent or its value is falsy. */
  predicate IsMissing(values: map<string, Value>, name: string)
  {
    name !in values || !Truthy(values[name])
  }

  /** `names.filter(name => !source[name])`. */
  function Missing(names: seq<string>, values: map<string, Value>): (r: seq<string>)
    ensures |r| <= |names|
    ensures forall k :: 0 <= k < |r| ==> r[k] in names && IsMissing(values, r[k])
    ensures forall i :: 0 <= i < |names| && IsMissing(values, names[i]) ==> names[i] in r
  {
    if names == [] then []
    else (if IsMissing(values, names[0]) then [names[0]] else []) + Missing(names[1..], values)
  }

  /** The filter keeps declaration order: the missing names of a prefix come first. */
  lemma {:induction false} MissingAppend(a: seq<string>, b: seq<string>, values: map<string, Value>)
    ensures Missing(a + b, values) == Missing(a, values) + Missing(b, values)
  {
    if a == [] {
      assert a + b == b;
    } else {
      assert (a + b)[0] == a[0];
      assert (a + b)[1..] == a[1..] + b;
      MissingAppend(a[1..], b, values);
    }
  }

  /**
   * The reported list is compositional: when both halves of the declared
   * names have missing fields, the message lists those of the first half,
   * then `, `, then those of the second.
   */
  lemma ReportAppend(a: seq<string>, b: seq<string>, values: map<string, Value>)
    requires Missing(a, values) != [] && Missing(b, values) != []
    ensures Join(Missing(a + b, values), ", ") == Join(Missing(a, values), ", ") + ", " + Join(Missing(b, values), ", ")
  {
    MissingAppend(a, b, values);
    JoinAppend(Missing(a, values), Missing(b, values), ", ");
  }

  /** A name whose value is truthy is never reported, even when declared twice. */
  lemma {:induction false} PresentNeverReported(names: seq<string>, values: map<string, Value>, name: string)
    requires name in values && Truthy(values[name])
    ensures name !in Missing(names, values)
  {
    if names != [] {
      PresentNeverReported(names[1..], values, name);
    }
  }

  /** The shared check: 400 with the prefix and the missing names joined by `, `, or `next()`. */
  function Check(names: seq<string>, values: map<string, Value>, prefix: string): (r: Outcome)
    ensures r.Next? <==> forall i :: 0 <= i < |names| ==> !IsMissing(values, names[i])
    ensures r.Respond? ==> r.status == 400 && r.error == prefix + Join(Missing(names, values), ", ")
  {
    var missing := Missing(names, values);
    if |missing| > 0 then Respond(400, prefix + Join(missing, ", ")) else Next
  }

  /** `validateRequired(fields)` applied to a request body. */
  function ValidateRequired(fields: seq<string>, body: map<string, Value>): (r: Outcome)
    ensures r.Next? <==> forall i :: 0 <= i < |fields| ==> !IsMissing(body, fields[i])
    ensures r.Respond? ==> r.status == 400 && r.error == FieldsPrefix + Join(Missing(fields, body), ", ")
  {
    Check(fields, body, FieldsPrefix)
  }

  /** Route parameters are strings. */
  function AsValues(params: map<string, string>): (r: map<string, Value>)
    ensures r.Keys == params.Keys
    ensures forall k :: k in r ==> r[k] == Str(params[k])
  {
    map k | k in params :: Str(params[k])
  }

  /** `validateParams(params)` applied to the route parameters: a parameter is missing when absent or empty. */
  function ValidateParams(names: seq<string>, params: map<string, string>): (r: Outcome)
    ensures r.Next? <==> forall i :: 0 <= i < |names| ==> names[i] in params && params[names[i]] != ""
    ensures r.Respond? ==> r.status == 400 && r.error == ParamsPrefix + Join(Missing(names, AsValues(params)), ", ")
  {
    Check(names, AsValues(params), ParamsPrefix)
  }

  /** An empty string and the number zero are both reported as missing. */
  lemma FalsyValuesAreMissing()
    ensures ValidateRequired(["title", "count"], map["title" := Str(""), "count" := Num(0)])
      == Respond(400, "Missing required fields: title, count")
  {
    var body := map["title" := Str(""), "count" := Num(0)];
    assert Missing(["count"], body) == ["count"];
    assert Missing(["title", "count"], body) == ["title", "count"];
  }
}
