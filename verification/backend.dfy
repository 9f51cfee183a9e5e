/** A reference model of the content API's user collection: an ordered
    store of users that answers the exact-email filter and the full listing,
    and applies the update and create payloads. It is not part of the
    front-end; it states what the REST client and the user service achieve
    together against a backend that behaves consistently. */
module Backend {
  import opened Common
  import opened Text
  import opened Json
  import opened Models
  import opened Strapi
  import opened UserService
  import opened Claims
  import opened Settings

  /** Record ids are unique, as the backend assigns them. */
  predicate UniqueIds(store: seq<User>) {
    forall i, j :: 0 <= i < j < |store| ==> store[i].id != store[j].id
  }

  /** Position of the first user whose stored email is exactly `email`
      (`|store|` when there is none). */
  function FindExact(store: seq<User>, email: string): (k: nat)
    ensures k <= |store|
    ensures k < |store| ==> store[k].email == Some(email)
    ensures forall i :: 0 <= i < k ==> store[i].email != Some(email)
  {
    if |store| == 0 then 0
    else if store[0].email == Some(email) then 0
    else 1 + FindExact(store[1..], email)
  }

  /** Position of the first user whose email matches ignoring case
      (`|store|` when there is none). */
  function FindIgnoreCase(store: seq<User>, email: string): (k: nat)
    ensures k <= |store|
    ensures k < |store| ==> EmailMatches(store[k], email)
    ensures forall i :: 0 <= i < k ==> !EmailMatches(store[i], email)
  {
    if |store| == 0 then 0
    else if EmailMatches(store[0], email) then 0
    else 1 + FindIgnoreCase(store[1..], email)
  }

  /** Two stores with the same emails at the same positions. */
  predicate SameEmails(a: seq<User>, b: seq<User>) {
    |a| == |b| && forall i :: 0 <= i < |a| ==> a[i].email == b[i].email
  }

  /** Both searches look at emails only. */
  lemma FindsDependOnEmails(a: seq<User>, b: seq<User>, email: string)
    requires SameEmails(a, b)
    ensures FindExact(a, email) == FindExact(b, email)
    ensures FindIgnoreCase(a, email) == FindIgnoreCase(b, email)
  {
  }

  /** The backend's answer to `filters[email][$eq]=<email>`: the users whose
      email is exactly `email`, in store order. */
  function ExactMatches(store: seq<User>, email: string): (r: seq<User>)
    ensures |r| <= |store|
    ensures forall u :: u in r ==> u in store && u.email == Some(email)
    ensures forall i :: 0 <= i < |store| && store[i].email == Some(email) ==> store[i] in r
    ensures |r| == 0 <==> FindExact(store, email) == |store|
    ensures |r| > 0 ==> r[0] == store[FindExact(store, email)]
  {
    if |store| == 0 then []
    else
      var rest := ExactMatches(store[1..], email);
      assert forall i :: 1 <= i < |store| ==> store[i] == store[1..][i - 1];
      if store[0].email == Some(email) then [store[0]] + rest else rest
  }

  /** A store as the nullable list the client binds it to. */
  function Nullable(users: seq<User>): (r: seq<Option<User>>)
    ensures |r| == |users|
    ensures forall i :: 0 <= i < |users| ==> r[i] == Some(users[i])
  {
    seq(|users|, i requires 0 <= i < |users| => Some(users[i]))
  }

  /** The reference lookup: the first exact match, else the first match
      ignoring case. */
  function Locate(store: seq<User>, email: string): (k: nat)
    ensures k <= |store|
    ensures k == |store| <==> FindExact(store, email) == |store| && FindIgnoreCase(store, email) == |store|
    ensures k < |store| ==> EmailMatches(store[k], email)
  {
    var e := FindExact(store, email);
    if e < |store| then
      assert EqualsIgnoreCase(store[e].email.value, email) by {
        EqualsIgnoreCaseIsEquivalence(email, email, email);
      }
      e
    else FindIgnoreCase(store, email)
  }

  function LookupIn(store: seq<User>, email: string): (r: UserRef)
    ensures r.user.Some? <==> Locate(store, email) < |store|
    ensures r.user.Some? ==> r.user.value == store[Locate(store, email)] && r.id == Some(r.user.value.id)
    ensures r.user.None? ==> r == NotFound
  {
    var k := Locate(store, email);
    if k < |store| then UserRef(Some(store[k]), Some(store[k].id)) else NotFound
  }

  /** The JSON array the backend sends for a list of users, each rendered
      as an object by `render`. */
  function Rendered(users: seq<User>, render: User -> seq<(string, Json)>): (r: seq<Json>)
    ensures |r| == |users|
    ensures forall i :: 0 <= i < |users| ==> r[i] == JObj(render(users[i]))
  {
    seq(|users|, i requires 0 <= i < |users| => JObj(render(users[i])))
  }

  function ListReply(users: seq<User>, render: User -> seq<(string, Json)>): Reply {
    Answer(200, Document(JArr(Rendered(users, render))))
  }

  /** The serializer binds every rendered user back to that user. */
  ghost predicate Faithful(render: User -> seq<(string, Json)>, bind: UserBinder) {
    forall u :: bind(render(u)) == Some(u)
  }

  /** A rendered list binds to the list of its users, none of them null. */
  lemma ReadRendered(users: seq<User>, render: User -> seq<(string, Json)>, bind: UserBinder)
    requires Faithful(render, bind)
    ensures ReadUserList(ListReply(users, render).content, bind) == Value(Nullable(users))
  {
    var items := Rendered(users, render);
    forall i | 0 <= i < |items| ensures ReadUser(items[i], bind) == Value(users[i]) {
      assert bind(render(users[i])) == Some(users[i]);
    }
    var r := UserItems(items, bind);
    assert r.Some?;
    assert r.value == Nullable(users);
  }

  /** The client's case-insensitive scan over a store finds the reference
      match and never throws, the store holding no nulls. */
  lemma ScanFindsReference(store: seq<User>, email: string)
    ensures var k := FindIgnoreCase(store, email);
      FirstMatchIgnoreCase(Nullable(store), email) == (if k < |store| then Ok(Some(store[k])) else Ok(None))
  {
    var users := Nullable(store);
    var k := FindIgnoreCase(store, email);
    var r := FirstMatchIgnoreCase(users, email);
    if r.Ok? && r.value.Some? {
      var i :| 0 <= i < |users| && users[i] == r.value && EmailMatches(r.value.value, email)
               && PassedOver(users, email, i);
      assert users[i] == Some(store[i]);
    } else if r.Ok? {
      assert PassedOver(users, email, |users|);
    }
  }

  /** GetUserByEmailAsync against this backend (the exact filter answered
      with the exact matches, the listing with the whole store). */
  function ClientLookup(store: seq<User>, email: string, render: User -> seq<(string, Json)>,
                        bind: UserBinder, bindWrapped: Json -> Option<ListEnvelope<User>>): UserRef
  {
    LookupUserByEmail(email, ListReply(ExactMatches(store, email), render), ListReply(store, render),
                      bind, bindWrapped).result
  }

  /** The client's two-step lookup computes the reference lookup: the first
      exact match, else the first match ignoring case. */
  lemma LookupMatchesReference(store: seq<User>, email: string, render: User -> seq<(string, Json)>,
                               bind: UserBinder, bindWrapped: Json -> Option<ListEnvelope<User>>)
    requires Faithful(render, bind)
    ensures ClientLookup(store, email, render, bind, bindWrapped) == LookupIn(store, email)
  {
    var exact := ExactMatches(store, email);
    ReadRendered(exact, render, bind);
    ReadRendered(store, render, bind);
    ScanFindsReference(store, email);
    if |exact| == 0 {
      assert FallsThrough(ListReply(exact, render), bind);
    } else {
      assert FilterHit(ListReply(exact, render), bind);
    }
  }

  /** The stored value of a nullable string member. */
  function ReadOptStr(j: Option<Json>): (r: Option<string>)
    ensures forall s :: j == Some(OptStr(s)) ==> r == s
  {
    if j.Some? && j.value.JStr? then Some(j.value.s) else None
  }

  /** The backend applying an update payload to a record: the members it
      carries overwrite the corresponding fields. */
  function ApplyUpdate(u: User, payload: seq<(string, Json)>): User {
    u.(firstName := ReadOptStr(Member(payload, "firstName")),
       lastName := ReadOptStr(Member(payload, "lastName")),
       entraId := ReadOptStr(Member(payload, "entraId")),
       email := ReadOptStr(Member(payload, "email")))
  }

  /** PUT `/api/users/<id>`: the record with that id takes the payload;
      every other record and the order are unchanged. */
  function UpdateStore(store: seq<User>, id: int, payload: seq<(string, Json)>): (r: seq<User>)
    ensures |r| == |store|
    ensures forall i :: 0 <= i < |store| ==>
      r[i] == (if store[i].id == id then ApplyUpdate(store[i], payload) else store[i])
  {
    seq(|store|, i requires 0 <= i < |store| =>
      if store[i].id == id then ApplyUpdate(store[i], payload) else store[i])
  }

  /** POST `/api/users`: the record the backend stores for a create
      payload, under a fresh id and its own clock reading. */
  function ApplyCreate(payload: seq<(string, Json)>, id: int, stamp: int): User {
    User(id, ReadOptStr(Member(payload, "username")), ReadOptStr(Member(payload, "email")),
         ReadOptStr(Member(payload, "provider")), None,
         Some(Member(payload, "confirmed") == Some(JBool(true))),
         Some(Member(payload, "blocked") == Some(JBool(true))),
         None, stamp, stamp,
         ReadOptStr(Member(payload, "firstName")), ReadOptStr(Member(payload, "lastName")),
         ReadOptStr(Member(payload, "entraId")), None)
  }

  /** The store after the write an action calls for. */
  function Persist(store: seq<User>, a: Action, password: string, newId: int, stamp: int): seq<User> {
    match a
    case Keep(_) => store
    case Update(id, u) => UpdateStore(store, id, UpdateUserPayload(u).members)
    case Create(u) => store + [ApplyCreate(CreateUserPayload(u, password).members, newId, stamp)]
  }

  /** A created record carries the profile it was posted with, under the
      `local` provider the payload names. */
  lemma CreateRoundTrip(u: User, password: string, id: int, stamp: int)
    ensures var r := ApplyCreate(CreateUserPayload(u, password).members, id, stamp);
      r.email == u.email && r.username == u.username && r.firstName == u.firstName
      && r.lastName == u.lastName && r.entraId == u.entraId && r.id == id
      && r.provider == Some("local") && r.confirmed == Some(true) && r.blocked == Some(false)
  {
  }

  /** An updated record carries the profile and email it was put with. */
  lemma UpdateRoundTrip(stored: User, u: User)
    ensures var r := ApplyUpdate(stored, UpdateUserPayload(u).members);
      r.email == u.email && r.firstName == u.firstName && r.lastName == u.lastName
      && r.entraId == u.entraId && r.id == stored.id
  {
  }

  /** After an update, the record found is the updated one. */
  lemma LookupAfterUpdate(store: seq<User>, email: string, u: User)
    requires UniqueIds(store)
    requires Locate(store, email) < |store|
    requires u.id == store[Locate(store, email)].id && u.email == store[Locate(store, email)].email
    ensures var s2 := UpdateStore(store, u.id, UpdateUserPayload(u).members);
      LookupIn(s2, email) == UserRef(Some(s2[Locate(store, email)]), Some(u.id))
      && s2[Locate(store, email)].firstName == u.firstName
      && s2[Locate(store, email)].lastName == u.lastName
      && s2[Locate(store, email)].entraId == u.entraId
  {
    var k := Locate(store, email);
    var s2 := UpdateStore(store, u.id, UpdateUserPayload(u).members);
    assert forall i :: 0 <= i < |store| && i != k ==> store[i].id != store[k].id;
    UpdateRoundTrip(store[k], u);
    assert SameEmails(store, s2);
    FindsDependOnEmails(store, s2, email);
  }

  /** After a create for an email nobody has, the new record is found. */
  lemma LookupAfterCreate(store: seq<User>, email: string, created: User)
    requires Locate(store, email) == |store|
    requires created.email == Some(email)
    ensures LookupIn(store + [created], email) == UserRef(Some(created), Some(created.id))
  {
    var s2 := store + [created];
    assert s2[|store|] == created;
  }

  /** Against this backend, EnsureUserExistsAsync decides on the
      reference lookup's record, and the scan never throws. */
  lemma DecisionOnReference(store: seq<User>, email: string, firstName: string, lastName: string, entraId: string,
                            now: int, render: User -> seq<(string, Json)>, bind: UserBinder,
                            bindWrapped: Json -> Option<ListEnvelope<User>>)
    requires Faithful(render, bind)
    ensures Decide(email, firstName, lastName, entraId, now,
                   ClientLookup(store, email, render, bind, bindWrapped),
                   GetAllUsers(ListReply(store, render), bind).result)
            == Ok(Plan(email, firstName, lastName, entraId, now, LookupIn(store, email)))
  {
    LookupMatchesReference(store, email, render, bind, bindWrapped);
    ReadRendered(store, render, bind);
    ScanFindsReference(store, email);
  }

  /** A found record that is up to date means no write request; only the
      lookup's GETs are sent. */
  lemma UpToDateSendsNothing(store: seq<User>, email: string, firstName: string, lastName: string, entraId: string,
                             now: int, password: string, render: User -> seq<(string, Json)>, bind: UserBinder,
                             bindWrapped: Json -> Option<ListEnvelope<User>>, reply: Reply)
    requires Faithful(render, bind)
    requires LookupIn(store, email).user.Some?
    requires !NeedsUpdate(LookupIn(store, email).user.value, firstName, lastName, entraId)
    ensures EnsureUserExists(email, firstName, lastName, entraId, now, password,
                             ClientLookup(store, email, render, bind, bindWrapped),
                             GetAllUsers(ListReply(store, render), bind).result, reply, bind).sent == []
  {
    DecisionOnReference(store, email, firstName, lastName, entraId, now, render, bind, bindWrapped);
  }

  /** A created record is found afterwards, up to date. */
  lemma CreateSettles(store: seq<User>, email: string, u: User, firstName: string, lastName: string,
                      entraId: string, password: string, newId: int, stamp: int)
    requires Locate(store, email) == |store|
    requires u.email == Some(email) && u.username == u.email && !NeedsUpdate(u, firstName, lastName, entraId)
    ensures var s2 := store + [ApplyCreate(CreateUserPayload(u, password).members, newId, stamp)];
      LookupIn(s2, email).user.Some? && !NeedsUpdate(LookupIn(s2, email).user.value, firstName, lastName, entraId)
  {
    CreateRoundTrip(u, password, newId, stamp);
    LookupAfterCreate(store, email, ApplyCreate(CreateUserPayload(u, password).members, newId, stamp));
  }

  /** An updated record is found afterwards, up to date. */
  lemma UpdateSettles(store: seq<User>, email: string, u: User, firstName: string, lastName: string, entraId: string)
    requires UniqueIds(store)
    requires Locate(store, email) < |store|
    requires u.id == store[Locate(store, email)].id && u.email == store[Locate(store, email)].email
    requires !NeedsUpdate(u, firstName, lastName, entraId)
    ensures var s2 := UpdateStore(store, u.id, UpdateUserPayload(u).members);
      LookupIn(s2, email).user.Some? && !NeedsUpdate(LookupIn(s2, email).user.value, firstName, lastName, entraId)
  {
    LookupAfterUpdate(store, email, u);
  }

  /** Whatever the plan wrote, the record found afterwards is up to date. */
  lemma WriteSettles(store: seq<User>, email: string, firstName: string, lastName: string, entraId: string,
                     now: int, password: string, newId: int, stamp: int)
    requires UniqueIds(store)
    ensures var s2 := Persist(store, Plan(email, firstName, lastName, entraId, now, LookupIn(store, email)),
                              password, newId, stamp);
      LookupIn(s2, email).user.Some? && !NeedsUpdate(LookupIn(s2, email).user.value, firstName, lastName, entraId)
  {
    match Plan(email, firstName, lastName, entraId, now, LookupIn(store, email)) {
      case Keep(_) =>
      case Update(id, u) =>
        UpdateSettles(store, email, u, firstName, lastName, entraId);
      case Create(u) =>
        CreateSettles(store, email, u, firstName, lastName, entraId, password, newId, stamp);
    }
  }

  /** Signing in twice with the same details: whatever the first
      EnsureUserExistsAsync wrote, the second finds the record up to date
      and sends no write request. */
  lemma EnsureSettles(store: seq<User>, email: string, firstName: string, lastName: string, entraId: string,
                      now: int, later: int, password: string, newId: int, stamp: int,
                      render: User -> seq<(string, Json)>, bind: UserBinder,
                      bindWrapped: Json -> Option<ListEnvelope<User>>, reply: Reply)
    requires UniqueIds(store)
    requires Faithful(render, bind)
    ensures var d := Decide(email, firstName, lastName, entraId, now,
                            ClientLookup(store, email, render, bind, bindWrapped),
                            GetAllUsers(ListReply(store, render), bind).result);
      d.Ok? &&
      var s2 := Persist(store, d.value, password, newId, stamp);
      EnsureUserExists(email, firstName, lastName, entraId, later, password,
                       ClientLookup(s2, email, render, bind, bindWrapped),
                       GetAllUsers(ListReply(s2, render), bind).result, reply, bind).sent == []
  {
    DecisionOnReference(store, email, firstName, lastName, entraId, now, render, bind, bindWrapped);
    var a := Plan(email, firstName, lastName, entraId, now, LookupIn(store, email));
    var s2 := Persist(store, a, password, newId, stamp);
    WriteSettles(store, email, firstName, lastName, entraId, now, password, newId, stamp);
    UpToDateSendsNothing(s2, email, firstName, lastName, entraId, later, password, render, bind, bindWrapped, reply);
  }

  /** GetUserByEmailAsync of the user service against this backend returns
      the reference lookup's user. */
  lemma GetUserMatchesReference(store: seq<User>, email: string, render: User -> seq<(string, Json)>,
                                bind: UserBinder, bindWrapped: Json -> Option<ListEnvelope<User>>)
    requires Faithful(render, bind)
    ensures GetUserByEmail(email, ClientLookup(store, email, render, bind, bindWrapped),
                           GetAllUsers(ListReply(store, render), bind).result)
            == LookupIn(store, email).user
  {
    LookupMatchesReference(store, email, render, bind, bindWrapped);
    ReadRendered(store, render, bind);
    ScanFindsReference(store, email);
  }

  /** The user service's lookup against this backend, as the settings page
      and the navigation call it. */
  function ServiceLookup(store: seq<User>, render: User -> seq<(string, Json)>, bind: UserBinder,
                         bindWrapped: Json -> Option<ListEnvelope<User>>): string -> Option<User>
  {
    (email: string) => GetUserByEmail(email, ClientLookup(store, email, render, bind, bindWrapped),
                                      GetAllUsers(ListReply(store, render), bind).result)
  }

  /** The settings page is granted exactly when the principal's email finds,
      by the reference lookup, a record flagged as administrator. */
  lemma SettingsAgainstStore(p: Principal, store: seq<User>, render: User -> seq<(string, Json)>,
                             bind: UserBinder, bindWrapped: Json -> Option<ListEnvelope<User>>)
    requires Faithful(render, bind)
    ensures SettingsIndex(p, ServiceLookup(store, render, bind, bindWrapped)).Granted?
            <==> !IsNullOrEmpty(AdminEmail(p)) && IsAdministrator(LookupIn(store, AdminEmail(p).value).user)
  {
    if !IsNullOrEmpty(AdminEmail(p)) {
      GetUserMatchesReference(store, AdminEmail(p).value, render, bind, bindWrapped);
    }
  }
}
