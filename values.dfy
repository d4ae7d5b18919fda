/** Values shared by the backend and the frontend model: an Option type and
    the JSON shapes that request bodies are parsed from. */
module Values {

  datatype Option<+T> = None | Some(value: T)

  /** A JSON value as far as the request schemas look at it.  Arrays and
      nested objects are never accepted by any schema in this system, so
      their contents are not modelled. */
  datatype Json =
    | JNull
    | JBool(b: bool)
    | JNumber(n: real)
    | JString(s: string)
    | JNested

  /** A request body: a JSON object with its fields, or anything else
      (absent, an array, a scalar), which every object schema rejects. */
  datatype Body = Object(fields: map<string, Json>) | NotAnObject

  /** The string under `key`, when the body is an object holding a string there. */
  function StringField(body: Body, key: string): (r: Option<string>)
    ensures r.Some? <==> body.Object? && key in body.fields && body.fields[key].JString?
    ensures r.Some? ==> body.fields[key] == JString(r.value)
  {
    if body.Object? && key in body.fields && body.fields[key].JString?
    then Some(body.fields[key].s)
    else None
  }

  /** The boolean under `key`, when the body is an object holding a boolean there. */
  function BoolField(body: Body, key: string): (r: Option<bool>)
    ensures r.Some? <==> body.Object? && key in body.fields && body.fields[key].JBool?
    ensures r.Some? ==> body.fields[key] == JBool(r.value)
  {
    if body.Object? && key in body.fields && body.fields[key].JBool?
    then Some(body.fields[key].b)
    else None
  }

  /** A field read after it is written gives back what was written: the
      string or the boolean, and nothing for a value of another kind. */
  lemma FieldPut(m: map<string, Json>, k: string, v: Json)
    ensures StringField(Object(m[k := v]), k) == if v.JString? then Some(v.s) else None
    ensures BoolField(Object(m[k := v]), k) == if v.JBool? then Some(v.b) else None
  {
  }

  /** Writing one key leaves the reading of every other key as it was. */
  lemma FieldFrame(m: map<string, Json>, k: string, v: Json, other: string)
    requires other != k
    ensures StringField(Object(m[k := v]), other) == StringField(Object(m), other)
    ensures BoolField(Object(m[k := v]), other) == BoolField(Object(m), other)
  {
  }

  /** No field reads both as a string and as a boolean, and a body that is
      not an object has no fields of either kind. */
  lemma FieldKinds(body: Body, k: string)
    ensures !(StringField(body, k).Some? && BoolField(body, k).Some?)
    ensures body.NotAnObject? ==> StringField(body, k).None? && BoolField(body, k).None?
  {
  }
}
