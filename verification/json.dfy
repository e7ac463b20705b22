/** The decoded JSON tree the response mapper reads, with the two Python
    operations applied to it: subscripting by a string key and iteration. */
module Json {
  import opened Wrappers
  import opened Text

  /** A decoded JSON value. Numbers and booleans do not occur in the fields
      the mapper reads and are not modelled. */
  datatype Json = JNull | JStr(str: string) | JArr(items: seq<Json>) | JObj(fields: map<string, Json>)

  /** `j[key]`: the field of an object, `KeyError` when the object lacks
      it, and `TypeError` for any non-object (`None`, a string or a list
      cannot be subscripted by a string). */
  function Index(j: Json, key: string): (r: Result<Json>)
    ensures r.Success? <==> j.JObj? && key in j.fields
    ensures r.Success? ==> r.value == j.fields[key]
    ensures r.Failure? ==> r.error == (if j.JObj? then KeyError(key) else TypeError)
  {
    match j
    case JObj(fields) => if key in fields then Success(fields[key]) else Failure(KeyError(key))
    case _ => Failure(TypeError)
  }

  /** `for x in j`, at call sites that subscript every `x` by a string key.
      A list yields its items. Iterating a dictionary yields its keys and
      iterating a string yields one-character strings; subscripting either
      by a string raises `TypeError`, so a non-empty dictionary or string
      fails and an empty one yields nothing. `None` is not iterable. */
  function Elements(j: Json): (r: Result<seq<Json>>)
    ensures r.Success? <==> j.JArr? || j == JObj(map[]) || j == JStr("")
    ensures r.Success? ==> r.value == (if j.JArr? then j.items else [])
    ensures r.Failure? ==> r.error == TypeError
  {
    match j
    case JArr(items) => Success(items)
    case JObj(fields) => if fields == map[] then Success([]) else Failure(TypeError)
    case JStr(s) => if s == "" then Success([]) else Failure(TypeError)
    case JNull => Failure(TypeError)
  }

  /** Python 2's `'{}'.format(j)` into a byte-string template. The decoder
      yields `unicode` strings, so a string is written as itself when it is
      ASCII and raises `UnicodeEncodeError` otherwise; `None` is written
      `None`. The result is `None` for that error, and for a list or
      dictionary, whose `repr` is not modelled. */
  function Show(j: Json): (r: Option<string>)
    ensures r.Some? <==> (j.JStr? && IsAscii(j.str)) || j.JNull?
    ensures j.JStr? && r.Some? ==> r.value == j.str
    ensures j.JNull? ==> r == Some("None")
  {
    match j
    case JStr(s) => if IsAscii(s) then Some(s) else None
    case JNull => Some("None")
    case _ => None
  }
}
