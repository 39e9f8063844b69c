/**
 JSON values as the rest of the library sees them: already parsed, with the members of an
 object looked up by name.  The two integer kinds of the JSON library (signed and unsigned)
 are one constructor, because every reader here asks only for the number.
 */
module JsonValues {

  datatype Option<+T> = None | Some(value: T)

  datatype Json =
    | JNull
    | JBool(b: bool)
    | JInt(n: int)
    | JFloat(r: real)
    | JString(s: string)
    | JArray(elems: seq<Json>)
    | JObject(members: map<string, Json>)

  /** `count(name)`: only objects have members. */
  predicate Has(j: Json, name: string) {
    j.JObject? && name in j.members
  }

  function Member(j: Json, name: string): Json {
    if Has(j, name) then j.members[name] else JNull
  }

  /** A scalar other than null. */
  predicate IsBasic(j: Json) {
    j.JBool? || j.JInt? || j.JFloat? || j.JString?
  }
}
