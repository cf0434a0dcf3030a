/**
 * JSON values as Jackson hands them to the Java code: request bodies and the completion
 * endpoint's responses arrive as untyped maps and lists, and the code casts what it reads.
 */
module Json {
  import opened Wrappers

  datatype Json =
    | JNull
    | JBool(b: bool)
    | JInt(i: int)            // an integral JSON number (Integer, Long or BigInteger)
    | JReal(r: real)          // a JSON number with a fraction or exponent (Double)
    | JString(s: string)
    | JList(items: seq<Json>)
    | JObject(fields: map<string, Json>)

  /** Map.get: a missing key and a JSON null both read as null. */
  function Get(fields: map<string, Json>, key: string): (v: Json)
    ensures key !in fields ==> v == JNull
  {
    if key in fields then fields[key] else JNull
  }

  /** A `(String)` cast of a value read from a map: null stays null, a string passes,
      anything else raises ClassCastException (`Err`). */
  function AsNullableString(v: Json): (r: Result<Option<string>, string>)
    ensures r.Ok? <==> (v.JNull? || v.JString?)
    ensures v.JString? ==> r == Ok(Some(v.s))
  {
    match v
    case JNull => Ok(None)
    case JString(s) => Ok(Some(s))
    case _ => Err(CLASS_CAST)
  }

  /** Message standing in for the text of a java.lang.ClassCastException. */
  const CLASS_CAST: string := "java.lang.ClassCastException"
}
