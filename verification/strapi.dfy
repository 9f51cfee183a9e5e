/** The REST client for the content API (Services/StrapiApiService.cs).
    Every operation is modelled as the requests it sends plus what it makes
    of the replies it gets: the transport is a `Reply` parameter, and the
    serializer's binding of JSON to a C# type is a function parameter. */
module Strapi {
  import opened Common
  import opened Json
  import opened Models
  import opened Text

  datatype Verb = Get | Post | Put | Delete

  /** The query string. `EmailFilter` is
      `filters[email][$eq]=<escaped email>&populate=*`: the exact-email filter
      also asks for every relation. */
  datatype Query = NoQuery | Populate | EmailFilter(email: string)

  /** One HTTP call: `verb /api/<resource>[/<id>][?query]` with an optional
      JSON body. */
  datatype Request = Request(verb: Verb, resource: string, id: Option<int>, query: Query, body: Option<Json>)

  /** What the transport hands back: a status and content, or an exception
      because the backend could not be reached. */
  datatype Reply = Answer(status: int, content: Body) | Unreachable

  /** The requests an operation sent, in order, and its outcome. */
  datatype Exchange<+X> = Exchange(sent: seq<Request>, result: X)

  /** `HttpResponseMessage.IsSuccessStatusCode`. */
  predicate IsSuccessStatus(status: int) {
    200 <= status <= 299
  }

  predicate Succeeded(reply: Reply) {
    reply.Answer? && IsSuccessStatus(reply.status)
  }

  /** `StrapiData<T>`: a wrapper id and the record's attributes. */
  datatype Entry<+T> = Entry(id: int, attributes: Option<T>)

  /** `StrapiResponse<T>` (the pagination metadata is not modelled). */
  datatype ListEnvelope<+T> = ListEnvelope(data: Option<seq<Entry<T>>>)

  /** `StrapiSingleResponse<T>`. */
  datatype SingleEnvelope<+T> = SingleEnvelope(data: Option<Entry<T>>)

  // ---------------------------------------------------------------------
  // Generic record operations (services, issues, statement templates,
  // statement settings, service URLs, issue comments, users)
  // ---------------------------------------------------------------------

  /** `data.Select(d => d.Attributes)`: each entry's attributes, in order. */
  function Attributes<T>(entries: seq<Entry<T>>): (r: seq<Option<T>>)
    ensures |r| == |entries|
    ensures forall i :: 0 <= i < |entries| ==> r[i] == entries[i].attributes
  {
    if |entries| == 0 then [] else [entries[0].attributes] + Attributes(entries[1..])
  }

  /** The wrapper ids play no part in list decoding: entries with the same
      attributes decode alike, and decoding respects concatenation. */
  lemma {:induction false} AttributesIgnoreIds<T>(a: seq<Entry<T>>, b: seq<Entry<T>>)
    requires |a| == |b|
    requires forall i :: 0 <= i < |a| ==> a[i].attributes == b[i].attributes
    ensures Attributes(a) == Attributes(b)
    ensures Attributes(a + b) == Attributes(a) + Attributes(b)
  {
    var ab, ra, rb := a + b, Attributes(a), Attributes(b);
    var r := Attributes(ab);
    forall i | 0 <= i < |ab| ensures r[i] == (ra + rb)[i] {
      if i < |a| {
        assert ab[i] == a[i];
      } else {
        assert ab[i] == b[i - |a|];
      }
    }
    assert r == ra + rb;
  }

  /** GET `/api/<resource>?populate=*` (GetServicesAsync and its siblings):
      throws on a failed call or a JSON error, and otherwise yields the
      attributes of every `data` entry in order, or nothing when the body is
      `null` or has no `data`. */
  function ListRecords<T>(resource: string, reply: Reply, bind: Json -> Option<ListEnvelope<T>>): (x: Exchange<Result<seq<Option<T>>>>)
    ensures x.sent == [Request(Get, resource, None, Populate, None)]
    ensures reply.Unreachable? ==> x.result == Fail(Transport)
    ensures reply.Answer? && !IsSuccessStatus(reply.status) ==> x.result == Fail(HttpRequest(reply.status))
    ensures Succeeded(reply) ==> (x.result.Fail? <==> Deserialize(reply.content, bind).Malformed?)
    ensures Succeeded(reply) && x.result.Fail? ==> x.result.error == JsonError
    ensures x.result.Ok? ==>
      Succeeded(reply) &&
      match Deserialize(reply.content, bind)
      case Value(env) => x.result.value == (if env.data.Some? then Attributes(env.data.value) else [])
      case Null => x.result.value == []
      case Malformed => false
  {
    var sent := [Request(Get, resource, None, Populate, None)];
    match reply
    case Unreachable => Exchange(sent, Fail(Transport))
    case Answer(status, content) =>
      if !IsSuccessStatus(status) then Exchange(sent, Fail(HttpRequest(status)))
      else
        match Deserialize(content, bind)
        case Malformed => Exchange(sent, Fail(JsonError))
        case Null => Exchange(sent, Ok([]))
        case Value(env) => Exchange(sent, Ok(if env.data.Some? then Attributes(env.data.value) else []))
  }

  /** `result?.Data?.Attributes`. */
  function SingleAttributes<T>(env: SingleEnvelope<T>): Option<T> {
    if env.data.Some? then env.data.value.attributes else None
  }

  /** GET `/api/<resource>/<id>?populate=*` (GetServiceAsync and its
      siblings): every non-success status, 5xx included, reads as "absent";
      only an unreachable backend or a JSON error throws. */
  function GetRecord<T>(resource: string, id: int, reply: Reply, bind: Json -> Option<SingleEnvelope<T>>): (x: Exchange<Result<Option<T>>>)
    ensures x.sent == [Request(Get, resource, Some(id), Populate, None)]
    ensures reply.Unreachable? ==> x.result == Fail(Transport)
    ensures reply.Answer? && !IsSuccessStatus(reply.status) ==> x.result == Ok(None)
    ensures reply.Answer? ==> (x.result.Fail? <==> IsSuccessStatus(reply.status) && Deserialize(reply.content, bind).Malformed?)
    ensures x.result.Fail? ==> x.result.error in {Transport, JsonError}
    ensures x.result.Ok? && x.result.value.Some? ==>
      Succeeded(reply) &&
      var d := Deserialize(reply.content, bind);
      d.Value? && d.value.data.Some? && d.value.data.value.attributes == x.result.value
    ensures Succeeded(reply) && Deserialize(reply.content, bind).Value? ==>
      x.result == Ok(SingleAttributes(Deserialize(reply.content, bind).value))
    ensures Succeeded(reply) && reply.content == Document(JNull) ==> x.result == Ok(None)
  {
    var sent := [Request(Get, resource, Some(id), Populate, None)];
    match reply
    case Unreachable => Exchange(sent, Fail(Transport))
    case Answer(status, content) =>
      if !IsSuccessStatus(status) then Exchange(sent, Ok(None))
      else
        match Deserialize(content, bind)
        case Malformed => Exchange(sent, Fail(JsonError))
        case Null => Exchange(sent, Ok(None))
        case Value(env) => Exchange(sent, Ok(SingleAttributes(env)))
  }

  /** A record stored under an id is read back by a get: whenever the
      reply's body decodes to the single envelope of an entry, the result is
      that entry's attributes, whatever the success status. */
  lemma GetRecordReadsEntry<T>(resource: string, id: int, status: int, body: Json, e: Entry<T>,
                               bind: Json -> Option<SingleEnvelope<T>>)
    requires IsSuccessStatus(status) && body != JNull
    requires bind(body) == Some(SingleEnvelope(Some(e)))
    ensures GetRecord(resource, id, Answer(status, Document(body)), bind)
            == Exchange([Request(Get, resource, Some(id), Populate, None)], Ok(e.attributes))
  {
  }

  /** The generic request envelope `{ "data": record }`. */
  function Envelope(record: Json): Json {
    JObj([("data", record)])
  }

  /** The envelope holds exactly one member, and reading its `data` gives
      the record back. */
  lemma EnvelopeRoundTrip(record: Json)
    ensures Names(Envelope(record).members) == ["data"]
    ensures TryGetProperty(Envelope(record), "data") == Ok(Some(record))
  {
    var ms := Envelope(record).members;
    assert ms[0].0 == "data";
    assert ms[1..] == [];
  }

  /** What the generic create and update make of the reply:
      `EnsureSuccessStatusCode`, then `result?.Data?.Attributes ?? record`. */
  function WriteOutcome<T>(record: T, reply: Reply, bind: Json -> Option<SingleEnvelope<T>>): (r: Result<T>)
    ensures reply.Unreachable? ==> r == Fail(Transport)
    ensures reply.Answer? && !IsSuccessStatus(reply.status) ==> r == Fail(HttpRequest(reply.status))
    ensures Succeeded(reply) ==> (r.Fail? <==> Deserialize(reply.content, bind).Malformed?)
    ensures Succeeded(reply) && r.Fail? ==> r.error == JsonError
    ensures r.Ok? ==>
      var d := Deserialize(reply.content, bind);
      if d.Value? && SingleAttributes(d.value).Some? then r.value == SingleAttributes(d.value).value
      else r.value == record
  {
    match reply
    case Unreachable => Fail(Transport)
    case Answer(status, content) =>
      if !IsSuccessStatus(status) then Fail(HttpRequest(status))
      else
        match Deserialize(content, bind)
        case Malformed => Fail(JsonError)
        case Null => Ok(record)
        case Value(env) => Ok(SingleAttributes(env).GetOr(record))
  }

  /** POST `/api/<resource>` with `{ "data": record }` (CreateServiceAsync
      and its siblings). */
  function CreateRecord<T>(resource: string, record: T, encode: T -> Json, reply: Reply,
                           bind: Json -> Option<SingleEnvelope<T>>): (x: Exchange<Result<T>>)
    ensures x.sent == [Request(Post, resource, None, NoQuery, Some(Envelope(encode(record))))]
    ensures x.result == WriteOutcome(record, reply, bind)
  {
    Exchange([Request(Post, resource, None, NoQuery, Some(Envelope(encode(record))))],
             WriteOutcome(record, reply, bind))
  }

  /** PUT `/api/<resource>/<id>` with `{ "data": record }`
      (UpdateServiceAsync and its siblings). */
  function UpdateRecord<T>(resource: string, id: int, record: T, encode: T -> Json, reply: Reply,
                           bind: Json -> Option<SingleEnvelope<T>>): (x: Exchange<Result<T>>)
    ensures x.sent == [Request(Put, resource, Some(id), NoQuery, Some(Envelope(encode(record))))]
    ensures x.result == WriteOutcome(record, reply, bind)
  {
    Exchange([Request(Put, resource, Some(id), NoQuery, Some(Envelope(encode(record))))],
             WriteOutcome(record, reply, bind))
  }

  /** DELETE `/api/<resource>/<id>`: succeeds exactly on a success status. */
  function DeleteRecord(resource: string, id: int, reply: Reply): (x: Exchange<Result<()>>)
    ensures x.sent == [Request(Delete, resource, Some(id), NoQuery, None)]
    ensures x.result.Ok? <==> Succeeded(reply)
    ensures reply.Unreachable? ==> x.result == Fail(Transport)
    ensures reply.Answer? && !IsSuccessStatus(reply.status) ==> x.result == Fail(HttpRequest(reply.status))
  {
    var sent := [Request(Delete, resource, Some(id), NoQuery, None)];
    match reply
    case Unreachable => Exchange(sent, Fail(Transport))
    case Answer(status, _) =>
      if IsSuccessStatus(status) then Exchange(sent, Ok(())) else Exchange(sent, Fail(HttpRequest(status)))
  }

  // ---------------------------------------------------------------------
  // Users
  // ---------------------------------------------------------------------

  const UsersResource := "users"

  /** The serializer's binding of a JSON object's members to a `User`;
      `None` when binding throws. */
  type UserBinder = seq<(string, Json)> -> Option<User>

  /** `Deserialize<User>` of one JSON element: null is null, an object is
      bound by `bind`, anything else throws. */
  function ReadUser(j: Json, bind: UserBinder): (d: Decoded<User>)
    ensures d.Null? <==> j.JNull?
    ensures d.Value? <==> j.JObj? && bind(j.members).Some?
    ensures d.Value? ==> bind(j.members) == Some(d.value)
  {
    Deserialize(Document(j), (v: Json) => if v.JObj? then bind(v.members) else None)
  }

  /** Binding of a JSON array's items to `List<User>`: a null item stays
      null, an object is bound by `bind`, anything else throws. */
  function UserItems(items: seq<Json>, bind: UserBinder): (r: Option<seq<Option<User>>>)
    ensures r.None? <==> exists i :: 0 <= i < |items| && ReadUser(items[i], bind).Malformed?
    ensures r.Some? ==> |r.value| == |items|
    ensures r.Some? ==> forall i :: 0 <= i < |items| ==>
      ReadUser(items[i], bind) == (if r.value[i].Some? then Value(r.value[i].value) else Null)
  {
    if |items| == 0 then Some([])
    else
      var rest := UserItems(items[1..], bind);
      assert forall i :: 1 <= i < |items| ==> items[i] == items[1..][i - 1];
      match ReadUser(items[0], bind)
      case Malformed => None
      case Null => if rest.Some? then Some([None] + rest.value) else None
      case Value(u) => if rest.Some? then Some([Some(u)] + rest.value) else None
  }

  /** `Deserialize<List<User>>(content)`: anything but an array or `null`
      throws. */
  function ReadUserList(content: Body, bind: UserBinder): (d: Decoded<seq<Option<User>>>)
    ensures content.Document? && !content.json.JArr? && !content.json.JNull? ==> d.Malformed?
    ensures d.Value? ==> content.Document? && content.json.JArr?
                         && UserItems(content.json.items, bind) == Some(d.value)
    ensures content.Document? && content.json.JArr? && UserItems(content.json.items, bind).Some? ==>
      d == Value(UserItems(content.json.items, bind).value)
    ensures content == Document(JNull) ==> d == Null
    ensures content.Garbled? ==> d == Malformed
  {
    Deserialize(content, (j: Json) => if j.JArr? then UserItems(j.items, bind) else None)
  }

  /** A nullable string as JSON. */
  function OptStr(s: Option<string>): Json {
    if s.Some? then JStr(s.value) else JNull
  }

  /** No two members share a name. */
  predicate Distinct(members: seq<(string, Json)>) {
    forall i, j :: 0 <= i < j < |members| ==> members[i].0 != members[j].0
  }

  /** In an object without repeated names every member is found. */
  lemma MemberOfDistinct(members: seq<(string, Json)>, i: nat)
    requires Distinct(members)
    requires i < |members|
    ensures Member(members, members[i].0) == Some(members[i].1)
  {
    var name := members[i].0;
    assert HasMember(members, name);
    var r := Member(members, name);
    MemberIsLast(members, name);
    var k :| 0 <= k < |members| && members[k] == (name, r.value)
             && !HasMember(members[k + 1..], name);
  }

  /** `MemberOfDistinct` for each of the first ten members. The indices are
      written out one by one so that a caller gets ten ground facts rather
      than a quantifier over `Member`, which is much cheaper to use. */
  lemma EveryMemberFound(ms: seq<(string, Json)>)
    requires Distinct(ms)
    ensures 0 < |ms| ==> Member(ms, ms[0].0) == Some(ms[0].1)
    ensures 1 < |ms| ==> Member(ms, ms[1].0) == Some(ms[1].1)
    ensures 2 < |ms| ==> Member(ms, ms[2].0) == Some(ms[2].1)
    ensures 3 < |ms| ==> Member(ms, ms[3].0) == Some(ms[3].1)
    ensures 4 < |ms| ==> Member(ms, ms[4].0) == Some(ms[4].1)
    ensures 5 < |ms| ==> Member(ms, ms[5].0) == Some(ms[5].1)
    ensures 6 < |ms| ==> Member(ms, ms[6].0) == Some(ms[6].1)
    ensures 7 < |ms| ==> Member(ms, ms[7].0) == Some(ms[7].1)
    ensures 8 < |ms| ==> Member(ms, ms[8].0) == Some(ms[8].1)
    ensures 9 < |ms| ==> Member(ms, ms[9].0) == Some(ms[9].1)
  {
    forall i | 0 <= i < |ms| && i < 10 ensures Member(ms, ms[i].0) == Some(ms[i].1) {
      MemberOfDistinct(ms, i);
    }
  }

  /** Members named by a list of distinct names, in that order, carry those
      names and no others. */
  lemma FieldsNamed(members: seq<(string, Json)>, names: seq<string>)
    requires |members| == |names|
    requires forall i :: 0 <= i < |names| ==> members[i].0 == names[i]
    requires forall i, j :: 0 <= i < j < |names| ==> names[i] != names[j]
    ensures Names(members) == names
    ensures Distinct(members)
  {
  }

  const CreateUserFields := ["username", "email", "password", "firstName", "lastName",
                             "entraId", "provider", "confirmed", "blocked", "role"]

  /** The create payload's field names are all different. */
  lemma CreateUserFieldsDistinct()
    ensures forall i, j :: 0 <= i < j < |CreateUserFields| ==> CreateUserFields[i] != CreateUserFields[j]
  {
    var f := CreateUserFields;
    assert forall i :: 0 <= i < |f| ==> |f[i]| > 0;
    assert f[0][0] == 'u' && f[1][0] == 'e' && f[2][0] == 'p' && f[3][0] == 'f' && f[4][0] == 'l';
    assert f[5][0] == 'e' && f[6][0] == 'p' && f[7][0] == 'c' && f[8][0] == 'b' && f[9][0] == 'r';
    assert f[1][1] != f[5][1] && f[2][1] != f[6][1];
  }

  /** The members of the create payload, in the order they are written. */
  function CreateUserMembers(u: User, password: string): (ms: seq<(string, Json)>)
    ensures Names(ms) == CreateUserFields && Distinct(ms)
    ensures ms[0].1 == OptStr(u.username) && ms[1].1 == OptStr(u.email) && ms[2].1 == JStr(password)
    ensures ms[3].1 == OptStr(u.firstName) && ms[4].1 == OptStr(u.lastName) && ms[5].1 == OptStr(u.entraId)
    ensures ms[6].1 == JStr("local") && ms[7].1 == JBool(true) && ms[8].1 == JBool(false) && ms[9].1 == JNum(1)
  {
    var ms := [("username", OptStr(u.username)), ("email", OptStr(u.email)),
               ("password", JStr(password)), ("firstName", OptStr(u.firstName)),
               ("lastName", OptStr(u.lastName)), ("entraId", OptStr(u.entraId)),
               ("provider", JStr("local")), ("confirmed", JBool(true)),
               ("blocked", JBool(false)), ("role", JNum(1))];
    CreateUserFieldsDistinct();
    FieldsNamed(ms, CreateUserFields);
    ms
  }

  /** The body CreateUserAsync posts to `/api/users`: a flat object (no
      `data` envelope) copying username, email and the three profile fields,
      a generated password, and fixed provider, flags and role id; the
      record's own provider and role are not sent. */
  function CreateUserPayload(u: User, password: string): (j: Json)
    ensures j.JObj? && Names(j.members) == CreateUserFields
    ensures Member(j.members, "username") == Some(OptStr(u.username))
    ensures Member(j.members, "email") == Some(OptStr(u.email))
    ensures Member(j.members, "password") == Some(JStr(password))
    ensures Member(j.members, "firstName") == Some(OptStr(u.firstName))
    ensures Member(j.members, "lastName") == Some(OptStr(u.lastName))
    ensures Member(j.members, "entraId") == Some(OptStr(u.entraId))
    ensures Member(j.members, "provider") == Some(JStr("local"))
    ensures Member(j.members, "confirmed") == Some(JBool(true))
    ensures Member(j.members, "blocked") == Some(JBool(false))
    ensures Member(j.members, "role") == Some(JNum(1))
  {
    var ms := CreateUserMembers(u, password);
    EveryMemberFound(ms);
    assert forall i :: 0 <= i < 10 ==> ms[i].0 == CreateUserFields[i];
    JObj(ms)
  }

  const UpdateUserFields := ["firstName", "lastName", "entraId", "email"]

  /** The body UpdateUserAsync puts to `/api/users/<id>`: exactly the three
      profile fields and the email, nothing else (no timestamps). */
  function UpdateUserPayload(u: User): (j: Json)
    ensures j.JObj? && Names(j.members) == UpdateUserFields
    ensures Member(j.members, "firstName") == Some(OptStr(u.firstName))
    ensures Member(j.members, "lastName") == Some(OptStr(u.lastName))
    ensures Member(j.members, "entraId") == Some(OptStr(u.entraId))
    ensures Member(j.members, "email") == Some(OptStr(u.email))
  {
    var ms := [("firstName", OptStr(u.firstName)), ("lastName", OptStr(u.lastName)),
               ("entraId", OptStr(u.entraId)), ("email", OptStr(u.email))];
    FieldsNamed(ms, UpdateUserFields);
    EveryMemberFound(ms);
    JObj(ms)
  }

  /** Neither payload depends on anything but the fields it lists: the
      record's provider, role, password, flags, id and timestamps are never
      sent. */
  lemma PayloadsIgnoreOtherFields(u: User, v: User, password: string)
    requires u.username == v.username && u.email == v.email
    requires u.firstName == v.firstName && u.lastName == v.lastName && u.entraId == v.entraId
    ensures CreateUserPayload(u, password) == CreateUserPayload(v, password)
    ensures UpdateUserPayload(u) == UpdateUserPayload(v)
  {
  }

  /** The element `k` levels down a chain of `data` members. */
  function Peel(j: Json, k: nat): Option<Json> {
    if k == 0 then Some(j)
    else
      match Peel(j, k - 1)
      case Some(JObj(ms)) => Member(ms, "data")
      case _ => None
  }

  /** `Deserialize<User>(element)`, falling back to `input` when that gives
      null or throws `JsonException`. */
  function UserOr(j: Json, input: User, bind: UserBinder): User {
    match ReadUser(j, bind)
    case Value(u) => u
    case _ => input
  }

  /** The response unwrap shared by CreateUserAsync and UpdateUserAsync,
      after a success status. It is a dispatch on structure, not a sequence
      of attempts: `data.data` when present, else `data`, else the root; the
      chosen element alone is deserialized, and when that gives null or a
      JSON error the input record is returned. Text that is not JSON also
      returns the input. Looking into a root or `data` that is not an object
      throws `InvalidOperationException`, which is not caught. */
  function UnwrapUser(content: Body, input: User, bind: UserBinder): (r: Result<User>)
    ensures content.Garbled? ==> r == Ok(input)
    ensures r.Fail? <==>
      content.Document? && (!content.json.JObj? || (Peel(content.json, 1).Some? && !Peel(content.json, 1).value.JObj?))
    ensures r.Fail? ==> r.error == InvalidOperation
    ensures content.Document? && Peel(content.json, 2).Some? ==>
      r == Ok(UserOr(Peel(content.json, 2).value, input, bind))
    ensures content.Document? && Peel(content.json, 1).Some? && Peel(content.json, 1).value.JObj?
            && Peel(content.json, 2).None? ==>
      r == Ok(UserOr(Peel(content.json, 1).value, input, bind))
    ensures content.Document? && content.json.JObj? && Peel(content.json, 1).None? ==>
      r == Ok(UserOr(content.json, input, bind))
  {
    match content
    case Garbled => Ok(input)
    case Document(root) =>
      match TryGetProperty(root, "data")
      case Fail(e) => Fail(e)
      case Ok(None) => Ok(UserOr(root, input, bind))
      case Ok(Some(data)) =>
        match TryGetProperty(data, "data")
        case Fail(e) => Fail(e)
        case Ok(Some(inner)) => Ok(UserOr(inner, input, bind))
        case Ok(None) => Ok(UserOr(data, input, bind))
  }

  /** A user record that has no `data` member of its own unwraps to the same
      user whether it arrives bare, as `{data: user}` or as
      `{data: {data: user}}`. */
  lemma ThreeShapesAgree(ms: seq<(string, Json)>, input: User, bind: UserBinder)
    requires !HasMember(ms, "data")
    ensures UnwrapUser(Document(JObj([("data", JObj([("data", JObj(ms))]))])), input, bind)
            == UnwrapUser(Document(JObj(ms)), input, bind)
    ensures UnwrapUser(Document(JObj([("data", JObj(ms))])), input, bind)
            == UnwrapUser(Document(JObj(ms)), input, bind)
  {
    EnvelopeRoundTrip(JObj(ms));
    EnvelopeRoundTrip(Envelope(JObj(ms)));
  }

  /** When `data.data` is present but does not bind, the input record comes
      back even if the outer `data` would have bound: no second attempt. */
  lemma NoRetryAfterInnerFails(outer: seq<(string, Json)>, inner: Json, input: User, bind: UserBinder)
    requires Member(outer, "data") == Some(inner)
    requires inner.JNull? || (inner.JObj? && bind(inner.members).None?)
    ensures UnwrapUser(Document(Envelope(JObj(outer))), input, bind) == Ok(input)
  {
    EnvelopeRoundTrip(JObj(outer));
  }

  /** What CreateUserAsync and UpdateUserAsync make of the reply: a
      non-success status throws, a success is unwrapped. */
  function UserWriteOutcome(u: User, reply: Reply, bind: UserBinder): (r: Result<User>)
    ensures reply.Unreachable? ==> r == Fail(Transport)
    ensures reply.Answer? && !IsSuccessStatus(reply.status) ==> r == Fail(HttpRequest(reply.status))
    ensures Succeeded(reply) ==> r == UnwrapUser(reply.content, u, bind)
  {
    match reply
    case Unreachable => Fail(Transport)
    case Answer(status, content) =>
      if IsSuccessStatus(status) then UnwrapUser(content, u, bind) else Fail(HttpRequest(status))
  }

  /** CreateUserAsync: POST `/api/users` with the flat create payload. */
  function CreateUser(u: User, password: string, reply: Reply, bind: UserBinder): (x: Exchange<Result<User>>)
    ensures x.sent == [Request(Post, UsersResource, None, NoQuery, Some(CreateUserPayload(u, password)))]
    ensures x.result == UserWriteOutcome(u, reply, bind)
  {
    Exchange([Request(Post, UsersResource, None, NoQuery, Some(CreateUserPayload(u, password)))],
             UserWriteOutcome(u, reply, bind))
  }

  /** UpdateUserAsync: PUT `/api/users/<id>` with the four-field payload. */
  function UpdateUser(id: int, u: User, reply: Reply, bind: UserBinder): (x: Exchange<Result<User>>)
    ensures x.sent == [Request(Put, UsersResource, Some(id), NoQuery, Some(UpdateUserPayload(u)))]
    ensures x.result == UserWriteOutcome(u, reply, bind)
  {
    Exchange([Request(Put, UsersResource, Some(id), NoQuery, Some(UpdateUserPayload(u)))],
             UserWriteOutcome(u, reply, bind))
  }

  const AllUsersRequest := Request(Get, UsersResource, None, Populate, None)

  /** GetAllUsersAsync: never throws; any failure (unreachable backend,
      non-success status, a body that is not a user array) gives an empty
      list, and `null` entries of the array are kept. */
  function GetAllUsers(reply: Reply, bind: UserBinder): (x: Exchange<seq<Option<User>>>)
    ensures x.sent == [AllUsersRequest]
    ensures x.result != [] ==> Succeeded(reply) && ReadUserList(reply.content, bind) == Value(x.result)
    ensures Succeeded(reply) && ReadUserList(reply.content, bind).Value? ==>
      x.result == ReadUserList(reply.content, bind).value
  {
    var sent := [AllUsersRequest];
    match reply
    case Unreachable => Exchange(sent, [])
    case Answer(status, content) =>
      if !IsSuccessStatus(status) then Exchange(sent, [])
      else
        match ReadUserList(content, bind)
        case Value(users) => Exchange(sent, users)
        case _ => Exchange(sent, [])
  }

  function FilterRequest(email: string): Request {
    Request(Get, UsersResource, None, EmailFilter(email), None)
  }

  /** The exact-match query answered with a non-empty array whose first
      entry is a user. */
  predicate FilterHit(filterReply: Reply, bind: UserBinder) {
    Succeeded(filterReply)
    && var d := ReadUserList(filterReply.content, bind);
    d.Value? && |d.value| > 0 && d.value[0].Some?
  }

  /** The exact-match query answered in a way that sends the lookup on to
      the full user list: a non-success status, `null`, an empty array, or
      an array whose first entry is `null`. */
  predicate FallsThrough(filterReply: Reply, bind: UserBinder) {
    filterReply.Answer?
    && (!IsSuccessStatus(filterReply.status)
        || ReadUserList(filterReply.content, bind).Null?
        || (ReadUserList(filterReply.content, bind).Value? && !FilterHit(filterReply, bind)))
  }

  /** The case-insensitive scan of all users inside GetUserByEmailAsync:
      every failure, including a `null` entry met before a match, reads as
      "not found". */
  function ScanForEmail(email: string, allReply: Reply, bind: UserBinder): (r: UserRef)
    ensures r.user.Some? ==> r.id == Some(r.user.value.id) && EmailMatches(r.user.value, email)
    ensures r.user.None? ==> r == NotFound
    ensures r.user.Some? ==>
      Succeeded(allReply) && ReadUserList(allReply.content, bind).Value?
      && FirstMatchIgnoreCase(ReadUserList(allReply.content, bind).value, email) == Ok(r.user)
    ensures Succeeded(allReply) && ReadUserList(allReply.content, bind).Value? ==>
      var m := FirstMatchIgnoreCase(ReadUserList(allReply.content, bind).value, email);
      m.Ok? && m.value.Some? ==> r == UserRef(m.value, Some(m.value.value.id))
  {
    match allReply
    case Unreachable => NotFound
    case Answer(status, content) =>
      if !IsSuccessStatus(status) then NotFound
      else
        match ReadUserList(content, bind)
        case Value(users) =>
          (match FirstMatchIgnoreCase(users, email)
           case Ok(Some(u)) => UserRef(Some(u), Some(u.id))
           case _ => NotFound)
        case _ => NotFound
  }

  /** `result?.Data?.FirstOrDefault()` turned into `(Attributes, Id)`. */
  function FirstWrapped(env: ListEnvelope<User>): (r: UserRef)
    ensures r.user.Some? ==> r.id.Some?
    ensures r.id.Some? <==> env.data.Some? && |env.data.value| > 0
    ensures env.data.Some? && |env.data.value| > 0 ==>
      r.user == env.data.value[0].attributes && r.id == Some(env.data.value[0].id)
    ensures r.id.None? ==> r == NotFound
  {
    if env.data.Some? && |env.data.value| > 0 then
      UserRef(env.data.value[0].attributes, Some(env.data.value[0].id))
    else NotFound
  }

  /** GetUserByEmailAsync. The exact-match query runs first; its first
      array entry is returned as it is, without checking its email. A reply
      that is not a user array is read as the wrapped `{data: [...]}` format
      instead and decides the answer without a scan. Otherwise the full list
      is fetched and scanned ignoring case. Nothing throws: every exception
      reads as "not found". */
  function LookupUserByEmail(email: string, filterReply: Reply, allReply: Reply,
                             bind: UserBinder, bindWrapped: Json -> Option<ListEnvelope<User>>): (x: Exchange<UserRef>)
    ensures x.sent == [FilterRequest(email)] || x.sent == [FilterRequest(email), AllUsersRequest]
    ensures |x.sent| == 2 <==> FallsThrough(filterReply, bind)
    ensures |x.sent| == 2 ==> x.result == ScanForEmail(email, allReply, bind)
    ensures x.result.user.Some? ==> x.result.id.Some?
    ensures FilterHit(filterReply, bind) ==>
      var first := ReadUserList(filterReply.content, bind).value[0].value;
      x.result == UserRef(Some(first), Some(first.id))
    ensures Succeeded(filterReply) && ReadUserList(filterReply.content, bind).Malformed? ==>
      x.result == (match Deserialize(filterReply.content, bindWrapped)
                   case Value(env) => FirstWrapped(env)
                   case _ => NotFound)
    ensures filterReply.Unreachable? ==> x.result == NotFound
  {
    var filter := FilterRequest(email);
    match filterReply
    case Unreachable => Exchange([filter], NotFound)
    case Answer(status, content) =>
      if !IsSuccessStatus(status) then
        Exchange([filter, AllUsersRequest], ScanForEmail(email, allReply, bind))
      else
        match ReadUserList(content, bind)
        case Value(users) =>
          if |users| > 0 && users[0].Some? then
            Exchange([filter], UserRef(users[0], Some(users[0].value.id)))
          else
            Exchange([filter, AllUsersRequest], ScanForEmail(email, allReply, bind))
        case Null =>
          Exchange([filter, AllUsersRequest], ScanForEmail(email, allReply, bind))
        case Malformed =>
          match Deserialize(content, bindWrapped)
          case Value(env) => Exchange([filter], FirstWrapped(env))
          case _ => Exchange([filter], NotFound)
  }
}
