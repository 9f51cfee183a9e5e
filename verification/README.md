# Accessibility-issues front end: user reconciliation and access checks

This project models, in Dafny, how the s186 accessibility-issues web front end
handles the people who sign in to it and the user records it keeps in its
content-management backend (a Strapi instance reached over REST):

- the landing page reads the email, display name and directory object id from
  the sign-in claims, splits the display name ("JONES, Andy", "Andy Jones",
  "Andy"), falls back to a name derived from the email, and asks the user
  service to reconcile the person with the stored record;
- the user service looks the person up (exact filter, then a
  case-insensitive scan of all users) and keeps, updates or creates the
  record;
- the REST client's generic list / get / create / update / delete envelope,
  its user lookup, the user create and update payloads, and the unwrapping of
  the three response shapes the backend may return;
- the dashboard counts;
- the settings page's administrator check and the administrator-navigation
  view component.

Modules follow the program's structure:

| module | file | models |
|---|---|---|
| `Common` | common.dfy | `Option`, `Result` and the exception kinds the code throws |
| `Text` | text.dfy | `Trim`, `Split(char)`, ordinal case-insensitive equality, `char.ToUpper` on the first letter |
| `Json` | json.dfy | JSON values, `TryGetProperty`, `JsonSerializer.Deserialize` with the type binding as a parameter |
| `Models` | models.dfy | `User`, `Issue`, `Service`, the `(User?, int?)` lookup pair, `FirstOrDefault` by email ignoring case |
| `Strapi` | strapi.dfy | Services/StrapiApiService.cs |
| `UserService` | user_service.dfy | Services/UserService.cs |
| `Claims` | claims.dfy | `FindFirst(type)?.Value` and the `??` chains of claim types |
| `Home` | home.dfy | Controllers/HomeController.cs (Index and Dashboard) |
| `Settings` | settings.dfy | Controllers/SettingsController.cs |
| `AdminNavigation` | admin_navigation.dfy | ViewComponents/AdminNavigationViewComponent.cs |
| `Backend` | backend.dfy | a reference backend (a sequence of user records) used to state end-to-end properties |
| `Collection` | collection.dfy | a reference collection of records by id, used to state the generic create, update, get and delete end to end |

Every HTTP call is modelled as the `Request` values an operation sends and the
`Reply` it is given (a status with a body, or an unreachable backend), so each
operation is a pure function from replies to requests and results. The
serializer's binding of a JSON value to a C# type is a function parameter.
The clock reading and the generated password are parameters too.

The module `Backend` is not part of the front end. It is a reference
model of the backend: a list of user records that answers the email filter
with the exact matches and the listing with every record. It serves as the
independent definition against which the client's two-step lookup, the
write payloads and the reconciliation are proved.

A few behaviours of the code are easy to miss, and the model follows them:

- A get-by-id reads every non-success status as "absent", 5xx included; it
  does not throw.
- The user-response unwrap is a dispatch on structure, not a series of
  attempts. When `data.data` is present, only that is deserialized, and a
  failure there returns the input record.
- The name is derived from the email whenever the parsed first name is null
  or empty. That covers an absent name claim, but also "JONES," with nothing
  after the comma.
- `IssueState` is an int enum, and the serializer binds any number to it, so an issue can have a state that is neither Open nor Closed. The dashboard counts such an issue in its total but in neither the open nor the closed count. The model's state is the underlying int.
- Models/User.cs does not declare `FirstName`, `LastName`, `EntraId` or
  `IsAdministrator`, yet the services and controllers read and write them.
  The model's `User` carries them.

## Model

| member | source | states |
|---|---|---|
| Text.Split | Controllers/HomeController.cs:74 | `string.Split(char)` keeps empty segments: no part holds the separator, joining the parts gives the input back, and there are two or more parts exactly when the separator occurs |
| Text.SplitJoin | Controllers/HomeController.cs:84 | splitting is the inverse of joining, for parts free of the separator |
| Text.Trim | Controllers/HomeController.cs:77-78 | `string.Trim()` returns the contiguous middle of the input: everything cut from either end is whitespace, and the result neither starts nor ends with whitespace |
| Text.TrimIdempotent | Controllers/HomeController.cs:77-78 | trimming a trimmed name changes nothing |
| Text.Capitalise | Controllers/HomeController.cs:111 | `char.ToUpper(s[0]) + s.Substring(1)` throws `IndexOutOfRangeException` exactly on an empty segment; otherwise only the first letter changes, and it is no longer lower-case |
| Text.CapitaliseKeepsLetters | Controllers/HomeController.cs:111-112 | capitalising preserves the segment up to case and is idempotent |
| Text.EqualsIgnoreCaseIsEquivalence | Services/UserService.cs:33-34 | ordinal case-insensitive equality is reflexive, symmetric and transitive |
| Json.Member | Services/StrapiApiService.cs:543-544 | no member is found exactly when no member has that name |
| Json.MemberIsLast | Services/StrapiApiService.cs:543-544 | the member found carries that name and no later member has it, so with repeated names the last one wins |
| Json.TryGetProperty | Services/StrapiApiService.cs:543-550 | looking into anything but an object throws `InvalidOperationException`; on an object a property is found exactly when a member has that name |
| Json.Deserialize | Services/StrapiApiService.cs:446 | text that is not JSON throws, the literal `null` gives null, and a value results exactly when the type binding accepts the document |
| Models.FirstMatchIgnoreCase | Services/UserService.cs:33-34 | the result is the first user whose email matches ignoring case, after only non-null non-matching users; null means no user matches; `NullReferenceException` means a null entry came before any match |
| Claims.FindFirst | Controllers/HomeController.cs:42 | the value is that of the first claim whose type matches ignoring case, and none is returned exactly when no claim type matches |
| Claims.FirstPresent | Controllers/HomeController.cs:42-45 | the `??` chain returns the first claim type that is present, having skipped only absent ones, and null exactly when all are absent |
| Claims.EmptyValueStopsChain | Controllers/HomeController.cs:42-45 | an empty value stops the chain, because `??` only falls through on null |
| Claims.FindFirstIgnoresCase | Controllers/HomeController.cs:42 | claim types that differ only in case find the same claim |
| Claims.ShorterChain | Controllers/SettingsController.cs:24-26 | dropping the last claim type from a chain changes the answer only when that last type alone is present |
| Home.ParseDisplayName | Controllers/HomeController.cs:66-100 | a first name is produced exactly for a non-empty claim; a last name is produced exactly when the claim holds a comma or a space; both names are trimmed and comma-free; without a comma neither holds a space |
| Home.ParseCommaName | Controllers/HomeController.cs:71-80 | "Last, First[, more]" is last name = the text before the first comma, first name = the text up to the second comma, both trimmed |
| Home.ParseSpaceName | Controllers/HomeController.cs:81-94 | "First Last[ more]" without a comma is the first two space-separated pieces, trimmed; the rest is dropped |
| Home.ParseSingleName | Controllers/HomeController.cs:95-99 | a name without comma or space is entirely first name |
| Home.DoubleSpaceLosesLastName | Controllers/HomeController.cs:84-88 | two spaces in a row give an empty last name, not the second word |
| Home.CommaSpaceForm | Controllers/HomeController.cs:71-80 | "Last, First" with a space after the comma gives exactly that first and last name |
| Home.SpaceForm | Controllers/HomeController.cs:81-89 | "First Last" gives exactly that first and last name |
| Home.DocumentedNameForms | Controllers/HomeController.cs:65 | the three documented forms "Last, First", "First Last" and "First" are read as intended |
| Home.DeriveFromEmail | Controllers/HomeController.cs:103-123 | the first name is the first dot-segment of the local part with its first character upper-cased and the rest kept; with a dot, the last name is the second segment capitalised the same way; without one, the previous last name is kept; it throws exactly when a segment it reads is empty |
| Home.DerivesDottedLocalPart | Controllers/HomeController.cs:105-113 | "first.last@domain" gives both names capitalised |
| Home.DerivesPlainLocalPart | Controllers/HomeController.cs:119-122 | "first@domain" gives the capitalised first name and keeps the last name already parsed |
| Home.EmptySegmentThrows | Controllers/HomeController.cs:111 | a local part starting with a dot throws `IndexOutOfRangeException` |
| Home.Complete | Controllers/HomeController.cs:103 | a non-empty parsed first name is kept as it is; otherwise the email decides, and any first name that results is non-empty |
| Home.TrailingCommaFallsBack | Controllers/HomeController.cs:74-103 | "JONES," has an empty first name, so the name comes from the email, and "JONES" survives as the last name when the local part has no dot |
| Home.SignInName | Controllers/HomeController.cs:47-123 | the settled name is the parsed display name when that has a non-empty first name, and otherwise the name derived from the email, keeping the parsed last name; its first name is never empty, and the only failure is the indexer's |
| Home.ReconcileWith | Controllers/HomeController.cs:129-134 | for a non-empty email, the service is called with that email, the settled non-empty first name, the settled last name or "User", and the first present object id or else the email; a failed derivation abandons the call with `IndexOutOfRangeException` |
| Home.Index | Controllers/HomeController.cs:30-148 | unauthenticated principals and principals without an email are left alone; otherwise the service is called with the first present email, the settled first name, the last name or "User", and the object id or the email; a failed derivation is caught |
| Home.IndexUsesCommaName | Controllers/HomeController.cs:66-134 | a signed-in person whose display name is "Last, First" is reconciled with exactly that first and last name, and the object id or else the email |
| Home.IndexDerivesWithoutName | Controllers/HomeController.cs:103-134 | a signed-in person with no display name is reconciled with the names derived from the email, "User" standing in for a missing last name, or abandoned when the derivation throws |
| Home.NamedUserIsReconciled | Controllers/HomeController.cs:129-134 | a signed-in person whose display name yields a first name is always reconciled |
| Home.CountState | Controllers/HomeController.cs:163-164 | counting throws exactly when an issue is null, and the count never exceeds the number of issues |
| Home.CountStateAdditive | Controllers/HomeController.cs:163-164 | the count is additive over concatenation, and one issue counts one exactly when it is in the state, so the count is the number of issues in that state |
| Home.OpenAndClosedPartition | Controllers/HomeController.cs:162-164 | the open and closed counts never exceed the total, and add up to it exactly when every issue's state number is Open or Closed |
| Home.UnnamedStateIsUncounted | Controllers/HomeController.cs:163-164 | an issue whose state number is neither Open nor Closed (`IssueState` is an unchecked int enum, Models/Issue.cs) is counted in neither |
| Home.DashboardOf | Controllers/HomeController.cs:152-176 | either the counts (open + closed at most the total, and equal to it exactly when every state is Open or Closed) and the first five of each list, or the empty model with the error shown, the latter exactly when a fetch or a count throws |
| Strapi.Attributes | Services/StrapiApiService.cs:46 | every entry's attributes, in order, one per entry |
| Strapi.AttributesIgnoreIds | Services/StrapiApiService.cs:46 | wrapper ids play no part, and decoding distributes over concatenation |
| Strapi.ListRecords | Services/StrapiApiService.cs:38-47 | one GET with `populate=*`; throws on an unreachable backend, a failure status or a JSON error; otherwise the attributes of the `data` entries, or nothing for `null` or a missing `data` |
| Strapi.GetRecord | Services/StrapiApiService.cs:49-59 | one GET of `/<id>`; every non-success status reads as absent; it throws only on an unreachable backend or malformed JSON; a success whose body decodes returns exactly the envelope's `data.attributes`, and `null` gives absent |
| Strapi.GetRecordReadsEntry | Services/StrapiApiService.cs:49-59 | a successful reply whose body decodes to an entry's envelope yields that entry's attributes |
| Strapi.EnvelopeRoundTrip | Services/StrapiApiService.cs:63 | the `{ data: record }` envelope has exactly one member, and reading `data` gives the record back |
| Strapi.WriteOutcome | Services/StrapiApiService.cs:67-73 | failure statuses throw, malformed JSON throws, and otherwise the reply's attributes are returned, or the record that was sent when the reply holds none |
| Strapi.CreateRecord | Services/StrapiApiService.cs:61-74 | exactly one POST of the enveloped record, and the write outcome |
| Strapi.UpdateRecord | Services/StrapiApiService.cs:76-89 | exactly one PUT to `/<id>` of the enveloped record, and the write outcome |
| Strapi.DeleteRecord | Services/StrapiApiService.cs:91-95 | exactly one DELETE, succeeding exactly on a success status |
| Collection.WriteRoundTrip | Services/StrapiApiService.cs:61-89 | against a collection that stores the record and answers with its entry, the create and the update send the encoded record as `data` and return the record sent |
| Collection.WriteReturnsStored | Services/StrapiApiService.cs:61-89 | when the collection answers a write with the record as it stored it, the client returns that stored record rather than the one it sent |
| Collection.GetAgainstStore | Services/StrapiApiService.cs:49-59 | a get against the reference collection returns exactly the record stored under the id, and absent when there is none |
| Collection.DeleteAgainstStore | Services/StrapiApiService.cs:91-95 | a delete against the reference collection succeeds exactly when the record is stored, and a get afterwards finds nothing |
| Strapi.ReadUser | Services/StrapiApiService.cs:547 | null reads as null, and an object reads as the user its binding gives, if any |
| Strapi.UserItems | Services/StrapiApiService.cs:446 | a user array binds exactly when no item is malformed, and then item by item, nulls kept |
| Strapi.ReadUserList | Services/StrapiApiService.cs:446 | text that is not JSON and anything but an array or `null` throws; `null` gives null; a list results exactly from an array whose items all bind, and it is those items bound |
| Strapi.CreateUserPayload | Services/StrapiApiService.cs:505-517 | the flat create body has exactly ten named fields: username, email, generated password and profile fields from the record, provider "local", confirmed, not blocked, role id 1 |
| Strapi.UpdateUserPayload | Services/StrapiApiService.cs:591-597 | the update body has exactly firstName, lastName, entraId and email from the record |
| Strapi.PayloadsIgnoreOtherFields | Services/StrapiApiService.cs:505-597 | neither payload depends on the record's id, provider, role, password, flags or timestamps |
| Strapi.UnwrapUser | Services/StrapiApiService.cs:539-569 | it throws exactly when the root, or a `data` member present at its top level, is not an object; otherwise `data.data`, else `data`, else the root, is the only thing deserialized, falling back to the input record; non-JSON text gives the input record |
| Strapi.ThreeShapesAgree | Services/StrapiApiService.cs:543-561 | a bare user, `{data: user}` and `{data: {data: user}}` unwrap alike |
| Strapi.NoRetryAfterInnerFails | Services/StrapiApiService.cs:543-549 | a `data.data` that does not bind gives the input record, even if the outer `data` would bind |
| Strapi.UserWriteOutcome | Services/StrapiApiService.cs:531-577 | failure statuses and an unreachable backend throw; a success is unwrapped |
| Strapi.CreateUser | Services/StrapiApiService.cs:497-584 | exactly one POST to `/api/users` of the create payload, and the unwrapped reply |
| Strapi.UpdateUser | Services/StrapiApiService.cs:586-664 | exactly one PUT to `/api/users/<id>` of the update payload, and the unwrapped reply |
| Strapi.GetAllUsers | Services/StrapiApiService.cs:672-710 | one GET; a non-empty result is exactly the decoded array of a successful reply, nulls kept; every failure gives the empty list |
| Strapi.ScanForEmail | Services/StrapiApiService.cs:462-488 | a user is found exactly when a successfully decoded listing has a case-insensitive match before any null entry, and it is the first such match, with its own id; every failure reads as not found |
| Strapi.FirstWrapped | Services/StrapiApiService.cs:456-458 | the wrapped format yields the first entry's attributes and id when `data` has an entry, and not found otherwise |
| Strapi.LookupUserByEmail | Services/StrapiApiService.cs:427-495 | the filter query is always sent, and the listing is sent exactly when the filter reply falls through; a first array entry is returned unchecked; a non-array reply is read as the wrapped format; nothing throws; a user found always has an id |
| UserService.Fill | Services/UserService.cs:72-77 | a non-empty value overwrites the field, an empty one leaves it, and afterwards the field is not stale |
| UserService.Overwrite | Services/UserService.cs:71-78 | only the three profile fields and the update time change, and afterwards none of them needs updating |
| UserService.NeedsUpdateIffChanges | Services/UserService.cs:46-65 | a stored record needs an update exactly when one of first name, last name and object id is supplied non-empty and differs from the stored value, which is exactly when overwriting it would change it |
| UserService.OverwriteUpToDate | Services/UserService.cs:46-78 | a record needing no update would change only in its update time |
| UserService.NewUser | Services/UserService.cs:96-109 | a new record uses the email as username and has provider "azure-ad", role "authenticated", confirmed, not blocked, both times now, and the supplied profile |
| UserService.Resolve | Services/UserService.cs:25-41 | the lookup's user is used when it has one; otherwise the first case-insensitive match of all users, with that user's id; it throws exactly when the scan meets a null |
| UserService.Plan | Services/UserService.cs:43-116 | keep exactly when a user with an id needs no update, update exactly when it does, create otherwise; the chosen record never needs an update |
| UserService.Decide | Services/UserService.cs:25-116 | the resolution's failure propagates, and otherwise the plan is taken on the resolved record |
| UserService.PlanSettles | Services/UserService.cs:46-90 | planning again on the record just planned keeps it, whatever the clock says |
| UserService.Carry | Services/UserService.cs:82-112 | a kept record sends nothing; an update sends exactly the update payload to the record's id; a create sends exactly the create payload; the outcome of a write is the unwrapped reply |
| UserService.EnsureUserExists | Services/UserService.cs:17-123 | no write request (POST or PUT) is sent exactly when the decision fails or keeps; an update sends exactly the update payload to the record's id; a create sends exactly the create payload; the write's outcome is returned and every exception propagates |
| UserService.EnsureReturnsSentRecord | Services/UserService.cs:82-115 | a successful write whose reply carries no user returns the record that was sent, which is up to date |
| UserService.GetUserByEmail | Services/UserService.cs:125-159 | the lookup's user, else the first user matching ignoring case in the listing; not found when nothing matches, and also when the scan meets a null entry before a match, whose exception is caught |
| UserService.GetAgreesWithEnsure | Services/UserService.cs:125-159 | GetUserByEmailAsync returns the record EnsureUserExistsAsync works with, whenever the latter resolves one |
| Backend.LookupMatchesReference | Services/StrapiApiService.cs:427-495 | against a backend holding a list of records, the client's two-step lookup gives the first exact match, else the first case-insensitive match, with its id |
| Backend.CreateRoundTrip | Services/StrapiApiService.cs:505-517 | the backend stores a posted record with the email, username and profile it was posted with, provider "local", confirmed and not blocked |
| Backend.UpdateRoundTrip | Services/StrapiApiService.cs:591-597 | an updated record carries the email and profile it was put with, and keeps its id |
| Backend.LookupAfterUpdate | Services/UserService.cs:82 | after an update, the lookup finds the updated record with the new profile |
| Backend.LookupAfterCreate | Services/UserService.cs:112 | after a create for an unknown email, the lookup finds the new record |
| Backend.DecisionOnReference | Services/UserService.cs:25-116 | against the reference backend, the lookup and the scan never throw, and the decision is the plan on the reference lookup's record; the write that follows can still fail |
| Backend.UpToDateSendsNothing | Services/UserService.cs:86-90 | an up-to-date stored record means no write request (POST or PUT) is sent |
| Backend.CreateSettles | Services/UserService.cs:96-112 | a record created from an up-to-date new user is found afterwards, and it is up to date |
| Backend.UpdateSettles | Services/UserService.cs:71-82 | an updated record is found afterwards, and it is up to date |
| Backend.WriteSettles | Services/UserService.cs:43-116 | after whatever write the plan called for, the record found is up to date |
| Backend.EnsureSettles | Services/UserService.cs:17-123 | reconciliation is idempotent: signing in twice with the same details, the second call sends no write request (POST or PUT) |
| Backend.GetUserMatchesReference | Services/UserService.cs:125-159 | against the reference backend, GetUserByEmailAsync returns the reference lookup's record |
| Backend.SettingsAgainstStore | Controllers/SettingsController.cs:19-58 | the settings page is granted exactly when the principal's email finds, by the reference lookup, a record flagged as administrator |
| Settings.SettingsIndex | Controllers/SettingsController.cs:19-58 | granted exactly when the first present of preferred_username, email and upn is non-empty and names a stored administrator; forbidden otherwise |
| Settings.EmptyPreferredUsernameForbids | Controllers/SettingsController.cs:24-31 | an empty preferred_username claim forbids, even when the email claim names an administrator |
| Settings.SettingsIgnoresEmailAddressClaim | Controllers/SettingsController.cs:24-26 | with none of the three claims present, the landing page still reads `ClaimTypes.Email` but the settings page has no email |
| AdminNavigation.LiftedNot | ViewComponents/AdminNavigationViewComponent.cs:23 | the lifted `!` keeps null as null and negates a value |
| AdminNavigation.ShowAdminNavigation | ViewComponents/AdminNavigationViewComponent.cs:18-64 | shown exactly when the identity is not explicitly unauthenticated, the email claim is non-empty and the stored user is an administrator |
| AdminNavigation.NavigationMatchesSettings | ViewComponents/AdminNavigationViewComponent.cs:18-64 | for a signed-in principal, the link is shown exactly when the settings page would be granted |
| AdminNavigation.NoIdentityHidesNavigation | ViewComponents/AdminNavigationViewComponent.cs:23-38 | without an identity the early exit does not fire, but the navigation stays hidden because there is no email |

## Left out

- The lookup GETs inside EnsureUserExistsAsync and GetUserByEmailAsync are sent by `Strapi.LookupUserByEmail` and `Strapi.GetAllUsers`, which record them; the user service takes their results as parameters, so its own `sent` lists only the write it makes.
- Transport, async and logging: HTTP calls are `Request` values plus a `Reply` parameter; `Console.WriteLine` and `ILogger` calls have no effect on results.
- JSON text parsing and property-name binding (camelCase, case-insensitive names): a body is either a JSON value or not JSON, and the binding of a value to `User`, `StrapiResponse<T>` or `StrapiSingleResponse<T>` is a function parameter.
- Strapi pagination metadata (`meta.pagination`) is not modelled, because nothing in the core reads it.
- A `null` entry inside a `StrapiResponse` `data` array is not modelled: list envelopes hold entries, never null.
- `RandomNumberGenerator` (the create password) and `DateTime.UtcNow` are parameters.
- UserService.NewUser: one clock reading stamps both `CreatedAt` and `UpdatedAt`, while lines 107-108 of Services/UserService.cs read `DateTime.UtcNow` twice, and the two readings can differ by a tick.
- Culture and Unicode: whitespace, case folding and `char.ToUpper` are ASCII only.
- The resource-specific list, get, create, update and delete methods for services, issues, statement templates, statement settings, service URLs and issue comments are modelled once, generically (`Strapi.ListRecords` and its siblings).
- `ResetPasswordToken`, `ConfirmationToken` and the navigation collections of `User` are not modelled, because nothing in the core reads them.
- Home Privacy, Error and the diagnostic endpoints after line 190 of Controllers/HomeController.cs, the Issues and Services controllers, Program.cs and the service interfaces are outside the core.
- The `[Authorize]` attribute is framework behaviour: `Settings.SettingsIndex` is stated for every principal, and only signed-in principals reach it. The catch at lines 53-57 of Controllers/SettingsController.cs and 59-63 of ViewComponents/AdminNavigationViewComponent.cs is unreachable in the model, because GetUserByEmailAsync never throws.
- The "Unknown" default for a first name (line 131 of Controllers/HomeController.cs) is modelled but never used, because `Home.SignInName` always yields a non-empty first name. The space branch's `else` (lines 90-93) is likewise modelled but dead, since a string holding a space splits into at least two parts.
- Home.CountState: its own contract states the error case and the bound; what it counts is stated by `Home.CountStateAdditive`.
- The reference backend stores no password and no role for a created record, and gives it a fresh id and clock reading. These are the backend's own choices, outside the front end.
