/** JSON values as the backend sends and receives them, the parts of
    `JsonElement` the user-response unwrap relies on, and
    `JsonSerializer.Deserialize` reduced to what it does with `null` and with
    text that is not JSON; the binding of a JSON value to a C# type is a
    parameter. */
module Json {
  import opened Common

  /** A JSON value. Objects keep their members in document order, repeated
      names included. */
  datatype Json =
    | JNull
    | JBool(b: bool)
    | JNum(n: int)
    | JStr(s: string)
    | JArr(items: seq<Json>)
    | JObj(members: seq<(string, Json)>)

  /** The member names of an object, in order. */
  function Names(members: seq<(string, Json)>): (r: seq<string>)
    ensures |r| == |members|
    ensures forall i :: 0 <= i < |members| ==> r[i] == members[i].0
  {
    if |members| == 0 then [] else Names(members[..|members| - 1]) + [members[|members| - 1].0]
  }

  /** Whether some member is called `name`. */
  predicate HasMember(members: seq<(string, Json)>, name: string) {
    exists i :: 0 <= i < |members| && members[i].0 == name
  }

  /** The value of the member called `name`: the last one when the name is
      repeated, as `JsonElement.TryGetProperty` matches (ordinal,
      case-sensitive); see `MemberIsLast`. */
  function Member(members: seq<(string, Json)>, name: string): (r: Option<Json>)
    ensures r.None? <==> !HasMember(members, name)
  {
    if |members| == 0 then None
    else
      assert forall i :: 0 < i < |members| ==> members[i] == members[1..][i - 1];
      var r := Member(members[1..], name);
      if r.Some? then r
      else if members[0].0 == name then Some(members[0].1)
      else None
  }

  /** The member found is a member with that name, and no later member has
      it: with repeated names the last one wins. */
  lemma {:induction false} MemberIsLast(members: seq<(string, Json)>, name: string)
    requires HasMember(members, name)
    ensures exists i :: 0 <= i < |members| && members[i] == (name, Member(members, name).value)
                        && !HasMember(members[i + 1..], name)
  {
    assert forall i :: 0 < i < |members| ==> members[i] == members[1..][i - 1];
    var r := Member(members[1..], name);
    if r.Some? {
      MemberIsLast(members[1..], name);
      var i :| 0 <= i < |members| - 1 && members[1..][i] == (name, r.value)
               && !HasMember(members[1..][i + 1..], name);
      assert members[i + 2..] == members[1..][i + 1..];
      assert members[i + 1] == (name, r.value);
    } else {
      assert members[1..] == members[0 + 1..];
    }
  }

  /** `JsonElement.TryGetProperty`: throws `InvalidOperationException` unless
      the element is an object. */
  function TryGetProperty(j: Json, name: string): (r: Result<Option<Json>>)
    ensures r.Fail? <==> !j.JObj?
    ensures r.Fail? ==> r.error == InvalidOperation
    ensures r.Ok? ==> (r.value.Some? <==> HasMember(j.members, name))
  {
    if j.JObj? then Ok(Member(j.members, name)) else Fail(InvalidOperation)
  }

  /** A response body: well-formed JSON text, or anything else (an HTML
      error page, a truncated document). */
  datatype Body = Document(json: Json) | Garbled

  /** The outcome of `JsonSerializer.Deserialize<X>`: a value, `null`, or a
      `JsonException`. */
  datatype Decoded<+X> = Value(value: X) | Null | Malformed

  /** `JsonSerializer.Deserialize<X>(text)`. Text that is not JSON throws,
      the literal `null` gives null, and any other value is handed to `bind`,
      the serializer's binding to `X` (`None` when binding throws). */
  function Deserialize<X>(body: Body, bind: Json -> Option<X>): (d: Decoded<X>)
    ensures body.Garbled? ==> d.Malformed?
    ensures d.Null? <==> body == Document(JNull)
    ensures d.Value? <==> body.Document? && body.json != JNull && bind(body.json).Some?
    ensures d.Value? ==> bind(body.json) == Some(d.value)
  {
    match body
    case Garbled => Malformed
    case Document(j) =>
      if j.JNull? then Null
      else
        match bind(j)
        case Some(x) => Value(x)
        case None => Malformed
  }
}
