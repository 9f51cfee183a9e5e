/** The user service (Services/UserService.cs): reconciling a signed-in
    person with the content API's user records. The results of the REST
    client's calls are parameters: `lookup` is what GetUserByEmailAsync gave,
    `allUsers` what GetAllUsersAsync gave (consulted only when the lookup
    found no user), and the clock reading is `now`. */
module UserService {
  import opened Common
  import opened Text
  import opened Models
  import opened Json
  import opened Strapi

  /** What EnsureUserExistsAsync decides to do with the record. */
  datatype Action =
    | Keep(user: User)            // the stored profile is up to date
    | Update(id: int, user: User) // PUT the refreshed record
    | Create(user: User)          // POST a new record

  /** A profile field needs writing: a non-empty value was supplied and the
      stored one differs from it (a null stored value always differs). */
  predicate Stale(stored: Option<string>, given: string) {
    given != "" && stored != Some(given)
  }

  predicate NeedsUpdate(u: User, firstName: string, lastName: string, entraId: string) {
    Stale(u.firstName, firstName) || Stale(u.lastName, lastName) || Stale(u.entraId, entraId)
  }

  /** `if (!string.IsNullOrEmpty(given)) field = given;` */
  function Fill(stored: Option<string>, given: string): (r: Option<string>)
    ensures !Stale(r, given)
    ensures r == stored || r == Some(given)
    ensures given == "" ==> r == stored
  {
    if given != "" then Some(given) else stored
  }

  /** The record refreshed with the supplied profile values: only the three
      profile fields and the update time change, and afterwards none of the
      profile fields is stale. */
  function Overwrite(u: User, firstName: string, lastName: string, entraId: string, now: int): (r: User)
    ensures !NeedsUpdate(r, firstName, lastName, entraId)
    ensures r.id == u.id && r.email == u.email && r.username == u.username
    ensures r.provider == u.provider && r.password == u.password && r.role == u.role
    ensures r.confirmed == u.confirmed && r.blocked == u.blocked && r.createdAt == u.createdAt
    ensures r.isAdministrator == u.isAdministrator
    ensures r.updatedAt == now
    ensures firstName == "" ==> r.firstName == u.firstName
    ensures lastName == "" ==> r.lastName == u.lastName
    ensures entraId == "" ==> r.entraId == u.entraId
  {
    u.(firstName := Fill(u.firstName, firstName),
       lastName := Fill(u.lastName, lastName),
       entraId := Fill(u.entraId, entraId),
       updatedAt := now)
  }

  /** A record needs an update exactly when overwriting it with the
      supplied values, at its own update time, would change it. */
  lemma NeedsUpdateIffChanges(u: User, firstName: string, lastName: string, entraId: string)
    ensures NeedsUpdate(u, firstName, lastName, entraId)
            <==> Overwrite(u, firstName, lastName, entraId, u.updatedAt) != u
  {
  }

  /** Overwriting a record that needs no update changes only its time. */
  lemma OverwriteUpToDate(u: User, firstName: string, lastName: string, entraId: string, now: int)
    requires !NeedsUpdate(u, firstName, lastName, entraId)
    ensures Overwrite(u, firstName, lastName, entraId, now) == u.(updatedAt := now)
  {
  }

  /** The record created for a person seen for the first time: the email is
      also the username, the account is a confirmed, unblocked
      `authenticated` user of the `azure-ad` provider, created and updated
      `now`. */
  function NewUser(email: string, firstName: string, lastName: string, entraId: string, now: int): (r: User)
    ensures r.email == Some(email) && r.username == r.email
    ensures r.firstName == Some(firstName) && r.lastName == Some(lastName) && r.entraId == Some(entraId)
    ensures r.provider == Some("azure-ad") && r.role == Some("authenticated")
    ensures r.confirmed == Some(true) && r.blocked == Some(false)
    ensures r.createdAt == now && r.updatedAt == now
    ensures r.password.None? && r.isAdministrator.None?
    ensures EmailMatches(r, email) && !NeedsUpdate(r, firstName, lastName, entraId)
  {
    User(0, Some(email), Some(email), Some("azure-ad"), None, Some(true), Some(false),
         Some("authenticated"), now, now, Some(firstName), Some(lastName), Some(entraId), None)
  }

  /** Lines 25-41: the lookup result, completed by a case-insensitive scan
      of all users when it holds no user. The scan throws when it meets a
      null entry before a match. */
  function Resolve(email: string, lookup: UserRef, allUsers: seq<Option<User>>): (r: Result<UserRef>)
    ensures lookup.user.Some? ==> r == Ok(lookup)
    ensures lookup.user.None? ==> (r.Fail? <==> FirstMatchIgnoreCase(allUsers, email).Fail?)
    ensures r.Fail? ==> r.error == NullReference
    ensures lookup.user.None? && r.Ok? && r.value.user.Some? ==>
      EmailMatches(r.value.user.value, email) && r.value.id == Some(r.value.user.value.id)
      && r.value.user.value in ValuesOf(allUsers)
    ensures lookup.user.None? && r.Ok? ==> FirstMatchIgnoreCase(allUsers, email) == Ok(r.value.user)
    ensures lookup.user.None? && r.Ok? && r.value.user.None? ==>
      r.value.id == lookup.id && forall i :: 0 <= i < |allUsers| ==> allUsers[i].Some? && !EmailMatches(allUsers[i].value, email)
  {
    if lookup.user.Some? then Ok(lookup)
    else
      match FirstMatchIgnoreCase(allUsers, email)
      case Fail(e) => Fail(e)
      case Ok(None) => Ok(lookup)
      case Ok(Some(u)) => Ok(UserRef(Some(u), Some(u.id)))
  }

  /** The users of a list that may hold nulls. */
  function ValuesOf(users: seq<Option<User>>): (r: set<User>)
    ensures forall i :: 0 <= i < |users| && users[i].Some? ==> users[i].value in r
    ensures forall u :: u in r ==> Some(u) in users
  {
    set i | 0 <= i < |users| && users[i].Some? :: users[i].value
  }

  /** Lines 43-116: keep, update or create, given what the lookup found. A
      user without an id is treated as absent. */
  function Plan(email: string, firstName: string, lastName: string, entraId: string, now: int,
                found: UserRef): (a: Action)
    ensures a.Keep? <==> found.user.Some? && found.id.Some? && !NeedsUpdate(found.user.value, firstName, lastName, entraId)
    ensures a.Update? <==> found.user.Some? && found.id.Some? && NeedsUpdate(found.user.value, firstName, lastName, entraId)
    ensures a.Keep? ==> a.user == found.user.value
    ensures a.Update? ==> a.id == found.id.value && a.user == Overwrite(found.user.value, firstName, lastName, entraId, now)
    ensures a.Create? ==> a.user == NewUser(email, firstName, lastName, entraId, now)
    ensures !NeedsUpdate(a.user, firstName, lastName, entraId)
  {
    if found.user.Some? && found.id.Some? then
      var u := found.user.value;
      if NeedsUpdate(u, firstName, lastName, entraId) then
        Update(found.id.value, Overwrite(u, firstName, lastName, entraId, now))
      else Keep(u)
    else Create(NewUser(email, firstName, lastName, entraId, now))
  }

  /** The decision EnsureUserExistsAsync takes before writing anything. */
  function Decide(email: string, firstName: string, lastName: string, entraId: string, now: int,
                  lookup: UserRef, allUsers: seq<Option<User>>): (r: Result<Action>)
    ensures r.Fail? <==> Resolve(email, lookup, allUsers).Fail?
    ensures r.Ok? ==> r.value == Plan(email, firstName, lastName, entraId, now, Resolve(email, lookup, allUsers).value)
  {
    match Resolve(email, lookup, allUsers)
    case Fail(e) => Fail(e)
    case Ok(found) => Ok(Plan(email, firstName, lastName, entraId, now, found))
  }

  /** Once a record is up to date, deciding again with the same values
      keeps it, whatever the clock says. */
  lemma PlanSettles(email: string, firstName: string, lastName: string, entraId: string, now: int, later: int,
                    found: UserRef)
    requires found.user.Some? && found.id.Some?
    ensures var a := Plan(email, firstName, lastName, entraId, now, found);
            Plan(email, firstName, lastName, entraId, later, UserRef(Some(a.user), found.id)).Keep?
  {
  }

  /** The write an action calls for: none for a kept record, the update
      payload PUT to the record's id, or the create payload POSTed. */
  function Carry(a: Action, password: string, reply: Reply, bind: UserBinder): (x: Exchange<Result<User>>)
    ensures x.sent == [] <==> a.Keep?
    ensures a.Keep? ==> x.result == Ok(a.user)
    ensures a.Update? ==> x.sent == [Request(Put, UsersResource, Some(a.id), NoQuery, Some(UpdateUserPayload(a.user)))]
    ensures a.Create? ==> x.sent == [Request(Post, UsersResource, None, NoQuery, Some(CreateUserPayload(a.user, password)))]
    ensures !a.Keep? ==> x.result == UserWriteOutcome(a.user, reply, bind)
  {
    match a
    case Keep(u) => Exchange([], Ok(u))
    case Update(id, u) => UpdateUser(id, u, reply, bind)
    case Create(u) => CreateUser(u, password, reply, bind)
  }

  /** EnsureUserExistsAsync: the decision, then the write it calls for
      through the REST client, whose reply is `reply` (`password` is the
      generated password a new record is posted with). A kept record is
      returned without any write request (the lookup's GETs are
      sent by the REST client before); every exception propagates. */
  function EnsureUserExists(email: string, firstName: string, lastName: string, entraId: string, now: int,
                            password: string, lookup: UserRef, allUsers: seq<Option<User>>,
                            reply: Reply, bind: UserBinder): (x: Exchange<Result<User>>)
    ensures var d := Decide(email, firstName, lastName, entraId, now, lookup, allUsers);
      (x.sent == [] <==> d.Fail? || d.value.Keep?)
      && (d.Fail? ==> x.result == Fail(d.error))
      && (d.Ok? && d.value.Keep? ==> x.result == Ok(d.value.user))
      && (d.Ok? && d.value.Update? ==>
            x.sent == [Request(Put, UsersResource, Some(d.value.id), NoQuery, Some(UpdateUserPayload(d.value.user)))])
      && (d.Ok? && d.value.Create? ==>
            x.sent == [Request(Post, UsersResource, None, NoQuery, Some(CreateUserPayload(d.value.user, password)))])
      && (d.Ok? && !d.value.Keep? ==> x.result == UserWriteOutcome(d.value.user, reply, bind))
    ensures lookup.user.Some? && lookup.id.Some? && !NeedsUpdate(lookup.user.value, firstName, lastName, entraId) ==>
      x == Exchange([], Ok(lookup.user.value))
  {
    match Decide(email, firstName, lastName, entraId, now, lookup, allUsers)
    case Fail(e) => Exchange([], Fail(e))
    case Ok(a) => Carry(a, password, reply, bind)
  }

  /** When the write's reply carries no user (text that is not JSON, `null`,
      or an element that does not bind), EnsureUserExistsAsync returns the
      record it sent, whose profile fields are the supplied ones. */
  lemma EnsureReturnsSentRecord(email: string, firstName: string, lastName: string, entraId: string, now: int,
                                password: string, lookup: UserRef, allUsers: seq<Option<User>>,
                                status: int, bind: UserBinder)
    requires IsSuccessStatus(status)
    requires Decide(email, firstName, lastName, entraId, now, lookup, allUsers).Ok?
    ensures var x := EnsureUserExists(email, firstName, lastName, entraId, now, password, lookup, allUsers,
                                      Answer(status, Garbled), bind);
      x.result.Ok? && !NeedsUpdate(x.result.value, firstName, lastName, entraId)
  {
  }

  /** GetUserByEmailAsync: the lookup's user, else the first user matching
      ignoring case; every exception reads as "not found", including the
      `NullReferenceException` of a null entry met before any match. */
  function GetUserByEmail(email: string, lookup: UserRef, allUsers: seq<Option<User>>): (r: Option<User>)
    ensures lookup.user.Some? ==> r == lookup.user
    ensures lookup.user.None? && r.Some? ==> EmailMatches(r.value, email) && r.value in ValuesOf(allUsers)
    ensures lookup.user.None? && r.None? ==>
      FirstMatchIgnoreCase(allUsers, email).Fail? || FirstMatchIgnoreCase(allUsers, email) == Ok(None)
    ensures lookup.user.None? ==>
      r == (if FirstMatchIgnoreCase(allUsers, email).Ok? then FirstMatchIgnoreCase(allUsers, email).value else None)
  {
    if lookup.user.Some? then lookup.user
    else
      match FirstMatchIgnoreCase(allUsers, email)
      case Ok(u) => u
      case Fail(_) => None
  }

  /** The two service operations agree on who the person is: whenever
      EnsureUserExistsAsync would work with a stored record, GetUserByEmailAsync
      returns that record. */
  lemma GetAgreesWithEnsure(email: string, lookup: UserRef, allUsers: seq<Option<User>>)
    requires Resolve(email, lookup, allUsers).Ok?
    ensures GetUserByEmail(email, lookup, allUsers) == Resolve(email, lookup, allUsers).value.user
  {
  }
}
