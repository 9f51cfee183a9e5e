/** The records the front-end handles (Models/User.cs, Models/Issue.cs,
    Models/Service.cs) and the case-insensitive user scan that both the REST
    client and the user service perform. */
module Models {
  import opened Common
  import opened Text

  /** A user of the content API. `FirstName`, `LastName`, `EntraId` and
      `IsAdministrator` are not declared in Models/User.cs but are read and
      written by the services and controllers, so they are part of the
      record here. Timestamps are opaque ticks. */
  datatype User = User(
    id: int,
    username: Option<string>,
    email: Option<string>,
    provider: Option<string>,
    password: Option<string>,
    confirmed: Option<bool>,
    blocked: Option<bool>,
    role: Option<string>,
    createdAt: int,
    updatedAt: int,
    firstName: Option<string>,
    lastName: Option<string>,
    entraId: Option<string>,
    isAdministrator: Option<bool>)

  /** `IssueState`, a C# enum: its underlying int. The serializer binds a
      number to the enum without range checking, so values other than the
      two named ones can occur. */
  type IssueState = int

  const Open: IssueState := 0
  const Closed: IssueState := 1

  /** One of the enum's named values. */
  predicate NamedState(s: IssueState) {
    s == Open || s == Closed
  }

  /** The fields of an issue the dashboard reads. */
  datatype Issue = Issue(id: int, title: string, state: IssueState)

  /** The fields of a service the dashboard reads. */
  datatype Service = Service(id: int, serviceId: int, name: string)

  /** The `(User? User, int? Id)` pair a user lookup returns. */
  datatype UserRef = UserRef(user: Option<User>, id: Option<int>)

  const NotFound: UserRef := UserRef(None, None)

  /** `string.Equals(u.Email, email, StringComparison.OrdinalIgnoreCase)`:
      a null stored email never matches. */
  predicate EmailMatches(u: User, email: string) {
    u.email.Some? && EqualsIgnoreCase(u.email.value, email)
  }

  /** The first `i` entries are non-null users whose email does not match. */
  predicate PassedOver(users: seq<Option<User>>, email: string, i: nat)
    requires i <= |users|
  {
    forall j :: 0 <= j < i ==> users[j].Some? && !EmailMatches(users[j].value, email)
  }

  /** `users.FirstOrDefault(u => string.Equals(u.Email, email,
      OrdinalIgnoreCase))`: the first user whose email matches ignoring case,
      or null; reaching a null entry first throws `NullReferenceException`. */
  function FirstMatchIgnoreCase(users: seq<Option<User>>, email: string): (r: Result<Option<User>>)
    ensures r.Ok? && r.value.Some? ==>
      exists i :: 0 <= i < |users| && users[i] == r.value && EmailMatches(r.value.value, email)
                  && PassedOver(users, email, i)
    ensures r.Ok? && r.value.None? ==> PassedOver(users, email, |users|)
    ensures r.Fail? ==>
      r.error == NullReference
      && exists i :: 0 <= i < |users| && users[i].None? && PassedOver(users, email, i)
  {
    if |users| == 0 then Ok(None)
    else
      match users[0]
      case None =>
        assert PassedOver(users, email, 0);
        Fail(NullReference)
      case Some(u) =>
        if EmailMatches(u, email) then
          assert PassedOver(users, email, 0);
          Ok(Some(u))
        else
          var r := FirstMatchIgnoreCase(users[1..], email);
          assert forall i :: 0 <= i < |users| - 1 && PassedOver(users[1..], email, i) ==> PassedOver(users, email, i + 1);
          r
  }
}
