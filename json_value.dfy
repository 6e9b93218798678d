/** The parsed JSON document as Gson's element tree holds it, and the reads the loader makes of it. */
module JsonValue {
  import opened Wrappers

  /** A JSON value. Numbers keep the literal text Gson keeps for them. */
  datatype Json =
    | JNull
    | JBool(b: bool)
    | JNumber(text: string)
    | JString(s: string)
    | JArray(elems: seq<Json>)
    | JObject(members: map<string, Json>)

  /** The exception a read of the tree ends in. */
  datatype JsonError =
    // the value is not a JSON object (fromJson to JsonObject, getAsJsonObject)
    | NotAnObject(context: string)
    // the member is absent, so the null Gson returns is dereferenced
    | MissingMember(key: string)
    // the member is present but is not an array (the cast in getAsJsonArray)
    | NotAnArray(key: string)
    // getAsString on null, on an object, or on an array without exactly one element
    | NotAString(context: string)

  /** JsonElement.getAsString: primitives give their text, a one-element array gives its element's. */
  function AsString(j: Json): Option<string>
  {
    match j
    case JString(s) => Some(s)
    case JNumber(t) => Some(t)
    case JBool(b) => Some(if b then "true" else "false")
    case JArray(es) => if |es| == 1 then AsString(es[0]) else None
    case JNull => None
    case JObject(_) => None
  }

  /** obj.get(key).getAsString() */
  function MemberString(obj: map<string, Json>, key: string): (r: Result<string, JsonError>)
    ensures r.Ok? <==> key in obj && AsString(obj[key]).Some?
    ensures r.Ok? ==> r.value == AsString(obj[key]).value
    ensures key !in obj ==> r == Err(MissingMember(key))
  {
    if key !in obj then Err(MissingMember(key))
    else match AsString(obj[key])
      case Some(s) => Ok(s)
      case None => Err(NotAString(key))
  }

  /** obj.getAsJsonArray(key), followed by a dereference of the result. */
  function MemberArray(obj: map<string, Json>, key: string): (r: Result<seq<Json>, JsonError>)
    ensures r.Ok? <==> key in obj && obj[key].JArray?
    ensures r.Ok? ==> obj[key] == JArray(r.value)
    ensures key !in obj ==> r == Err(MissingMember(key))
  {
    if key !in obj then Err(MissingMember(key))
    else if obj[key].JArray? then Ok(obj[key].elems)
    else Err(NotAnArray(key))
  }
}
