/** The parsed JSON document (System.Text.Json's JsonDocument/JsonElement),
    as far as the event matchers probe it. */
module Json {
  import opened Types

  /** A JSON value. An object keeps its members in document order, duplicates
      included, because property lookup depends on that order. Numbers are
      kept as integers: the matchers never look at them. */
  datatype Json =
    | JNull
    | JBool(b: bool)
    | JNumber(n: int)
    | JString(s: string)
    | JArray(items: seq<Json>)
    | JObject(members: seq<Member>)

  datatype Member = Member(name: string, value: Json)

  /** The value of the member called `name`. Names are compared ordinally
      (case-sensitively) and, when a name occurs more than once, the last
      occurrence is the one found. */
  function LastValue(members: seq<Member>, name: string): (r: Option<Json>)
    ensures r.None? <==> forall i :: 0 <= i < |members| ==> members[i].name != name
    ensures r.Some? ==>
      exists i :: 0 <= i < |members| && members[i] == Member(name, r.value) &&
        forall j :: i < j < |members| ==> members[j].name != name
  {
    if |members| == 0 then None
    else if members[|members| - 1].name == name then Some(members[|members| - 1].value)
    else LastValue(members[..|members| - 1], name)
  }

  /** JsonElement.TryGetProperty: `Ok(None)` when the object has no such
      member; asking a value that is not an object throws. */
  function TryGetProperty(e: Json, name: string): (r: Result<Option<Json>>)
    ensures r.Err? <==> !e.JObject?
    ensures r.Err? ==> r.error == InvalidOperation
    ensures r.Ok? ==> (r.value.Some? <==> exists i :: 0 <= i < |e.members| && e.members[i].name == name)
  {
    if e.JObject? then Ok(LastValue(e.members, name)) else Err(InvalidOperation)
  }
}
