/**
 * JSON values as the caster handles them (the stream descriptions and the
 * REST bodies), with the member access and conversions of the two JSON
 * libraries the code uses: cpprest's web::json::value and jsoncpp's
 * Json::Value. Objects are maps from member names to values.
 */
module JsonValues {
  import opened Wrappers
  import opened Numerals

  datatype Json =
    | JNull
    | JBool(b: bool)
    | JInt(i: int)
    | JString(s: string)
    | JArray(items: seq<Json>)
    | JObject(members: map<string, Json>)

  /**
   * Non-const member access `v[key]` in both libraries: a null value reads
   * as an empty object and a missing member as null; any other value
   * throws.
   */
  function Member(v: Json, key: string): (r: Result<Json>)
    ensures r.Ok? <==> v.JObject? || v.JNull?
    ensures r.Ok? && v.JObject? && key in v.members ==> r.value == v.members[key]
    ensures r.Ok? && !(v.JObject? && key in v.members) ==> r.value == JNull
  {
    match v
    case JObject(m) => Ok(if key in m then m[key] else JNull)
    case JNull => Ok(JNull)
    case _ => Failure("not an object")
  }

  /** `v[key] = x`: a null value becomes an object first; any other non-object throws. */
  function WithMember(v: Json, key: string, x: Json): (r: Result<Json>)
    ensures r.Ok? <==> v.JObject? || v.JNull?
    ensures r.Ok? ==> r.value.JObject? && key in r.value.members && r.value.members[key] == x
    ensures r.Ok? && v.JObject? ==> forall k :: k in v.members && k != key ==>
              k in r.value.members && r.value.members[k] == v.members[k]
    ensures r.Ok? ==> forall k :: k in r.value.members ==> k == key || (v.JObject? && k in v.members)
  {
    match v
    case JObject(m) => Ok(JObject(m[key := x]))
    case JNull => Ok(JObject(map[key := x]))
    case _ => Failure("not an object")
  }

  /** `v[a][b]`, as the stream description is read. */
  function Member2(v: Json, a: string, b: string): (r: Result<Json>)
    ensures r.Ok? ==> Member(v, a).Ok? && Member(Member(v, a).value, b) == r
    ensures Member(v, a).Failure? ==> r.Failure?
  {
    match Member(v, a)
    case Ok(w) => Member(w, b)
    case Failure(e) => Failure(e)
  }

  /** cpprest's as_string: only a string converts. */
  function RestAsString(v: Json): (r: Result<string>)
    ensures r.Ok? <==> v.JString?
    ensures r.Ok? ==> r.value == v.s
  {
    if v.JString? then Ok(v.s) else Failure("not a string")
  }

  /** cpprest's as_integer: only a number converts. */
  function RestAsInteger(v: Json): (r: Result<int>)
    ensures r.Ok? <==> v.JInt?
    ensures r.Ok? ==> r.value == v.i
  {
    if v.JInt? then Ok(v.i) else Failure("not a number")
  }

  /**
   * jsoncpp's asString: null reads as "", booleans as "true"/"false",
   * integers in decimal; arrays and objects throw.
   */
  function JsonCppAsString(v: Json): (r: Result<string>)
    ensures r.Ok? <==> !(v.JArray? || v.JObject?)
    ensures v.JString? ==> r == Ok(v.s)
    ensures v.JNull? ==> r == Ok("")
    ensures v.JInt? ==> r == Ok(DecimalString(v.i))
  {
    match v
    case JNull => Ok("")
    case JBool(b) => Ok(if b then "true" else "false")
    case JInt(i) => Ok(DecimalString(i))
    case JString(s) => Ok(s)
    case _ => Failure("not convertible to string")
  }

  /**
   * jsoncpp's asUInt: null reads as 0 and booleans as 0/1; a negative or
   * too large integer and anything else throws.
   */
  function JsonCppAsUInt(v: Json): (r: Result<nat>)
    ensures r.Ok? ==> r.value < U32
    ensures v.JInt? ==> (r.Ok? <==> 0 <= v.i < U32) && (r.Ok? ==> r.value == v.i)
    ensures v.JNull? ==> r == Ok(0)
    ensures v.JString? || v.JArray? || v.JObject? ==> r.Failure?
  {
    match v
    case JNull => Ok(0)
    case JBool(b) => Ok(if b then 1 else 0)
    case JInt(i) => if 0 <= i < U32 then Ok(i) else Failure("out of unsigned int range")
    case _ => Failure("not convertible to unsigned int")
  }
}
