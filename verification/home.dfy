/** The sign-in landing page and the dashboard
    (Controllers/HomeController.cs): reading the email, display name and
    object id from the claims, splitting the display name, deriving a name
    from the email when that gives no first name, and the dashboard counts. */
module Home {
  import opened Common
  import opened Text
  import opened Models
  import opened Claims

  /** A first and a last name, each possibly null. */
  datatype Name = Name(first: Option<string>, last: Option<string>)

  /** A character that does not occur in `s` does not occur in its trimmed
      form either. */
  lemma TrimKeepsAbsent(s: string, c: char)
    requires c !in s
    ensures c !in Trim(s)
  {
    var r := Trim(s);
    assert forall i :: 0 <= i < |r| ==> r[i] == s[Lead(s) + i];
  }

  /** Lines 66-100: splitting the display-name claim. With a comma it is
      "Last, First" (the text before the first comma and the text between
      the first and second comma, trimmed); otherwise with a space it is
      "First Last" (the first two space-separated pieces, trimmed); otherwise
      the whole trimmed name is the first name. A null or empty claim gives
      no name. */
  function ParseDisplayName(name: Option<string>): (n: Name)
    ensures n.first.Some? <==> !IsNullOrEmpty(name)
    ensures n.last.Some? <==> !IsNullOrEmpty(name) && (',' in name.value || ' ' in name.value)
    ensures n.first.Some? ==> Trimmed(n.first.value) && ',' !in n.first.value
    ensures n.last.Some? ==> Trimmed(n.last.value) && ',' !in n.last.value
    ensures !IsNullOrEmpty(name) && ',' !in name.value ==>
      n.first.Some? && ' ' !in n.first.value && (n.last.Some? ==> ' ' !in n.last.value)
  {
    if IsNullOrEmpty(name) then Name(None, None)
    else
      var s := name.value;
      if ',' in s then
        var parts := Split(s, ',');
        if |parts| >= 2 then
          TrimKeepsAbsent(parts[0], ',');
          TrimKeepsAbsent(parts[1], ',');
          Name(Some(Trim(parts[1])), Some(Trim(parts[0])))
        else Name(None, None)
      else if ' ' in s then
        var parts := Split(s, ' ');
        TrimKeepsAbsent(parts[0], ',');
        TrimKeepsAbsent(parts[0], ' ');
        if |parts| >= 2 then
          TrimKeepsAbsent(parts[1], ',');
          TrimKeepsAbsent(parts[1], ' ');
          Name(Some(Trim(parts[0])), Some(Trim(parts[1])))
        else Name(Some(Trim(s)), None)
      else
        TrimKeepsAbsent(s, ',');
        TrimKeepsAbsent(s, ' ');
        Name(Some(Trim(s)), None)
  }

  /** The first two parts `Split` yields for `a + [c] + b + rest`. */
  lemma SplitFirstTwo(a: string, b: string, rest: string, c: char)
    requires c !in a && c !in b
    requires |rest| == 0 || rest[0] == c
    ensures var parts := Split(a + [c] + b + rest, c);
      |parts| >= 2 && parts[0] == a && parts[1] == b
  {
    SplitAfterSegment(a, b + rest, c);
    assert a + [c] + b + rest == a + [c] + (b + rest);
    SplitHead(b, rest, c);
  }

  /** "Last, First[, more]": the text before the first comma is the last
      name and the text after it, up to any second comma, the first name. */
  lemma ParseCommaName(last: string, first: string, rest: string)
    requires ',' !in last && ',' !in first
    requires |rest| == 0 || rest[0] == ','
    ensures ParseDisplayName(Some(last + "," + first + rest)) == Name(Some(Trim(first)), Some(Trim(last)))
  {
    var s := last + "," + first + rest;
    assert s[|last|] == ',';
    SplitFirstTwo(last, first, rest, ',');
  }

  /** "First Last[ more]" without a comma: the first two space-separated
      pieces; anything after a second space is dropped. */
  lemma ParseSpaceName(first: string, last: string, rest: string)
    requires ' ' !in first && ' ' !in last
    requires ',' !in first + " " + last + rest
    requires |rest| == 0 || rest[0] == ' '
    ensures ParseDisplayName(Some(first + " " + last + rest)) == Name(Some(Trim(first)), Some(Trim(last)))
  {
    var s := first + " " + last + rest;
    assert s[|first|] == ' ';
    SplitFirstTwo(first, last, rest, ' ');
  }

  /** A name without comma or space is all first name. */
  lemma ParseSingleName(name: string)
    requires name != "" && ',' !in name && ' ' !in name
    ensures ParseDisplayName(Some(name)) == Name(Some(Trim(name)), None)
  {
  }

  /** Two spaces in a row give an empty last name, not the second word:
      "Andy  Jones" is first name "Andy" and last name "". */
  lemma DoubleSpaceLosesLastName(first: string, rest: string)
    requires ' ' !in first && ',' !in first + "  " + rest
    ensures ParseDisplayName(Some(first + "  " + rest)).last == Some("")
  {
    assert first + "  " + rest == first + " " + "" + (" " + rest);
    ParseSpaceName(first, "", " " + rest);
  }

  /** A single space before a trimmed word is all `Trim` removes. */
  lemma TrimLeadingSpace(w: string)
    requires w != "" && Trimmed(w)
    ensures Trim(" " + w) == w
  {
    var s := " " + w;
    assert s[1..] == w;
    TrimStartOfTrimmed(w);
    assert TrimStart(s) == w;
  }

  /** "Last, First" with one space after the comma. */
  lemma CommaSpaceForm(first: string, last: string)
    requires first != "" && last != "" && Trimmed(first) && Trimmed(last)
    requires ',' !in first && ',' !in last
    ensures ParseDisplayName(Some(last + ", " + first)) == Name(Some(first), Some(last))
  {
    assert last + ", " + first == last + "," + (" " + first) + "";
    ParseCommaName(last, " " + first, "");
    TrimLeadingSpace(first);
    TrimFixesTrimmed(last);
  }

  /** "First Last" with one space between. */
  lemma SpaceForm(first: string, last: string)
    requires Trimmed(first) && Trimmed(last)
    requires ',' !in first && ',' !in last && ' ' !in first && ' ' !in last
    ensures ParseDisplayName(Some(first + " " + last)) == Name(Some(first), Some(last))
  {
    assert first + " " + last == first + " " + last + "";
    ParseSpaceName(first, last, "");
    TrimFixesTrimmed(first);
    TrimFixesTrimmed(last);
  }

  /** The three forms the source documents, "Last, First", "First Last"
      and "First", for names without commas or inner spaces. */
  lemma DocumentedNameForms(first: string, last: string)
    requires first != "" && last != "" && Trimmed(first) && Trimmed(last)
    requires ',' !in first && ',' !in last && ' ' !in first && ' ' !in last
    ensures ParseDisplayName(Some(last + ", " + first)) == Name(Some(first), Some(last))
    ensures ParseDisplayName(Some(first + " " + last)) == Name(Some(first), Some(last))
    ensures ParseDisplayName(Some(first)) == Name(Some(first), None)
  {
    CommaSpaceForm(first, last);
    SpaceForm(first, last);
    ParseSingleName(first);
    TrimFixesTrimmed(first);
  }

  /** Lines 103-123: a name from the email's local part (the text before
      the first '@'). A local part with a dot gives a first and a last name
      from the first two dot-separated segments, each with its first letter
      upper-cased; without a dot it gives a first name only and `last` is
      kept. An empty segment or local part makes the indexer throw. */
  function DeriveFromEmail(email: string, last: Option<string>): (r: Result<Name>)
    ensures r.Fail? ==> r.error == IndexOutOfRange
    ensures r.Ok? ==> r.value.first.Some? && |r.value.first.value| > 0
    ensures r.Ok? ==> EqualsIgnoreCase(r.value.first.value, Split(Split(email, '@')[0], '.')[0])
    ensures r.Ok? && '.' !in Split(email, '@')[0] ==> r.value.last == last
    ensures r.Ok? && '.' in Split(email, '@')[0] ==>
      r.value.last.Some? && EqualsIgnoreCase(r.value.last.value, Split(Split(email, '@')[0], '.')[1])
    ensures r.Fail? <==> EmptySegment(Split(email, '@')[0])
    ensures r.Ok? ==> var seg := Split(Split(email, '@')[0], '.');
      Capitalise(seg[0]).Ok? && r.value.first == Some(Capitalise(seg[0]).value)
    ensures r.Ok? && '.' in Split(email, '@')[0] ==> var seg := Split(Split(email, '@')[0], '.');
      Capitalise(seg[1]).Ok? && r.value.last == Some(Capitalise(seg[1]).value)
  {
    var local := Split(email, '@')[0];
    if '.' in local then
      var parts := Split(local, '.');
      if |parts| >= 2 then
        match Capitalise(parts[0])
        case Fail(e) => Fail(e)
        case Ok(f) =>
          match Capitalise(parts[1])
          case Fail(e) => Fail(e)
          case Ok(l) =>
            CapitaliseKeepsLetters(parts[0]);
            CapitaliseKeepsLetters(parts[1]);
            Ok(Name(Some(f), Some(l)))
      else
        match Capitalise(local)
        case Fail(e) => Fail(e)
        case Ok(f) => Ok(Name(Some(f), last))
    else
      assert Split(local, '.') == [local];
      match Capitalise(local)
      case Fail(e) => Fail(e)
      case Ok(f) =>
        CapitaliseKeepsLetters(local);
        Ok(Name(Some(f), last))
  }

  /** One of the segments the derivation reads is empty: the first or
      second dot-separated segment when the local part has a dot, else the
      local part itself. */
  predicate EmptySegment(local: string) {
    if '.' in local then Split(local, '.')[0] == "" || Split(local, '.')[1] == ""
    else local == ""
  }

  /** "andy.jones@x.com" gives Andy Jones: a dotted local part gives both
      names, each capitalised. */
  lemma DerivesDottedLocalPart(first: string, last: string, domain: string, previous: Option<string>)
    requires first != "" && last != ""
    requires '.' !in first && '.' !in last && '@' !in first && '@' !in last
    ensures DeriveFromEmail(first + "." + last + "@" + domain, previous)
            == Ok(Name(Some(Capitalise(first).value), Some(Capitalise(last).value)))
  {
    var local := first + "." + last;
    assert first + "." + last + "@" + domain == local + ("@" + domain);
    assert '@' !in local;
    SplitHead(local, "@" + domain, '@');
    assert local[|first|] == '.';
    assert local == first + ['.'] + last + "";
    SplitFirstTwo(first, last, "", '.');
  }

  /** "andy@x.com" gives Andy: a local part without a dot gives only a
      capitalised first name and keeps the last name already parsed. */
  lemma DerivesPlainLocalPart(first: string, domain: string, previous: Option<string>)
    requires first != "" && '.' !in first && '@' !in first
    ensures DeriveFromEmail(first + "@" + domain, previous) == Ok(Name(Some(Capitalise(first).value), previous))
  {
    SplitHead(first, "@" + domain, '@');
    assert first + "@" + domain == first + ("@" + domain);
  }

  /** An email whose local part starts with a dot makes the derivation
      throw: its first dot-separated segment is empty. (Only the first two
      segments are read, so a local part such as "a.b..c" derives without
      throwing.) */
  lemma EmptySegmentThrows(last: string, domain: string, previous: Option<string>)
    requires '.' !in last && '@' !in last
    ensures DeriveFromEmail("." + last + "@" + domain, previous) == Fail(IndexOutOfRange)
  {
    var local := "." + last;
    assert "." + last + "@" + domain == local + ("@" + domain);
    SplitHead(local, "@" + domain, '@');
    assert local == "" + ['.'] + last + "";
    SplitFirstTwo("", last, "", '.');
  }

  /** Derivation is skipped whenever the display name gave a non-empty first
      name; otherwise it decides the first name. */
  function Complete(parsed: Name, email: string): (r: Result<Name>)
    ensures !IsNullOrEmpty(parsed.first) ==> r == Ok(parsed)
    ensures IsNullOrEmpty(parsed.first) ==> r == DeriveFromEmail(email, parsed.last)
    ensures r.Ok? ==> r.value.first.Some? && r.value.first.value != ""
  {
    if IsNullOrEmpty(parsed.first) then DeriveFromEmail(email, parsed.last) else Ok(parsed)
  }

  /** "JONES," has an empty first name, so the name comes from the email
      after all; a dotless local part keeps "JONES" as the last name. */
  lemma TrailingCommaFallsBack(last: string, email: string)
    requires ',' !in last && Trimmed(last)
    ensures Complete(ParseDisplayName(Some(last + ",")), email) == DeriveFromEmail(email, Some(last))
  {
    assert last + "," == last + "," + "" + "";
    ParseCommaName(last, "", "");
    TrimFixesTrimmed(last);
    TrimFixesTrimmed("");
  }

  /** What the landing page does for a request. */
  datatype SignIn =
    | NotSignedIn                  // no authenticated identity
    | NoEmail                      // no usable email claim
    | Abandoned(error: Exception)  // name derivation threw; caught and logged
    | Reconcile(email: string, firstName: string, lastName: string, entraId: string)
                                   // EnsureUserExistsAsync is called with these

  /** The name the landing page settles on for a principal: the display
      name claim split, completed from the email when needed. */
  function SignInName(p: Principal, email: string): (r: Result<Name>)
    ensures r.Ok? ==> r.value.first.Some? && r.value.first.value != ""
    ensures r.Fail? ==> r.error == IndexOutOfRange
    ensures var parsed := ParseDisplayName(FirstPresent(p.claims, NameClaims));
      (!IsNullOrEmpty(parsed.first) ==> r == Ok(parsed))
      && (IsNullOrEmpty(parsed.first) ==> r == DeriveFromEmail(email, parsed.last))
  {
    Complete(ParseDisplayName(FirstPresent(p.claims, NameClaims)), email)
  }

  /** The landing page's call for a non-empty email: the settled name, with
      "Unknown" and "User" as defaults, and the object id or else the
      email. */
  function ReconcileWith(p: Principal, email: string): (s: SignIn)
    requires email != ""
    ensures s.Abandoned? || s.Reconcile?
    ensures s.Abandoned? <==> SignInName(p, email).Fail?
    ensures s.Abandoned? ==> s.error == IndexOutOfRange
    ensures s.Reconcile? ==>
      s.email == email && s.firstName != ""
      && Some(s.firstName) == SignInName(p, email).value.first
      && s.lastName == SignInName(p, email).value.last.GetOr("User")
      && s.entraId == FirstPresent(p.claims, ObjectIdClaims).GetOr(email)
  {
    match SignInName(p, email)
    case Fail(e) => Abandoned(e)
    case Ok(n) => Reconcile(email, n.first.GetOr("Unknown"), n.last.GetOr("User"),
                            FirstPresent(p.claims, ObjectIdClaims).GetOr(email))
  }

  /** Index (lines 25-149). Every outcome renders the same view; what
      differs is whether and with what the user service is called. The
      defaults are "Unknown" for a first name (never used, a first name
      always being found or derived), "User" for a last name, and the email
      for a missing object id (an empty object-id claim is kept). */
  function Index(p: Principal): (s: SignIn)
    ensures s.NotSignedIn? <==> p.authenticated != Some(true)
    ensures s.NoEmail? <==> p.authenticated == Some(true) && IsNullOrEmpty(FirstPresent(p.claims, EmailClaims))
    ensures s.Abandoned? ==> s.error == IndexOutOfRange
    ensures s.Reconcile? ==>
      FirstPresent(p.claims, EmailClaims) == Some(s.email) && s.email != ""
      && s.firstName != ""
      && s.entraId == FirstPresent(p.claims, ObjectIdClaims).GetOr(s.email)
    ensures s.Reconcile? ==> SignInName(p, s.email).Ok?
    ensures s.Reconcile? ==>
      Some(s.firstName) == SignInName(p, s.email).value.first
      && s.lastName == SignInName(p, s.email).value.last.GetOr("User")
    ensures s.Abandoned? ==> SignInName(p, FirstPresent(p.claims, EmailClaims).value).Fail?
  {
    if p.authenticated != Some(true) then NotSignedIn
    else
      var email := FirstPresent(p.claims, EmailClaims);
      if IsNullOrEmpty(email) then NoEmail
      else ReconcileWith(p, email.value)
  }

  /** A signed-in person with a display name holding a non-empty first name
      is always reconciled: only the email derivation can throw. */
  lemma NamedUserIsReconciled(p: Principal)
    requires p.authenticated == Some(true)
    requires !IsNullOrEmpty(FirstPresent(p.claims, EmailClaims))
    requires !IsNullOrEmpty(ParseDisplayName(FirstPresent(p.claims, NameClaims)).first)
    ensures Index(p).Reconcile?
  {
  }

  /** A signed-in person whose display name reads "Last, First" is
      reconciled with exactly that first and last name. */
  lemma IndexUsesCommaName(p: Principal, email: string, first: string, last: string)
    requires p.authenticated == Some(true)
    requires FirstPresent(p.claims, EmailClaims) == Some(email) && email != ""
    requires FirstPresent(p.claims, NameClaims) == Some(last + ", " + first)
    requires first != "" && last != "" && Trimmed(first) && Trimmed(last)
    requires ',' !in first && ',' !in last
    ensures Index(p) == Reconcile(email, first, last, FirstPresent(p.claims, ObjectIdClaims).GetOr(email))
  {
    CommaSpaceForm(first, last);
    var n := Name(Some(first), Some(last));
    assert ParseDisplayName(FirstPresent(p.claims, NameClaims)) == n;
    assert SignInName(p, email) == Ok(n);
    assert ReconcileWith(p, email) == Reconcile(email, first, last, FirstPresent(p.claims, ObjectIdClaims).GetOr(email));
  }

  /** A signed-in person with no display name is reconciled with the name
      derived from the email, "User" standing in for a missing last name;
      when the derivation throws, the call is abandoned. */
  lemma IndexDerivesWithoutName(p: Principal, email: string)
    requires p.authenticated == Some(true)
    requires FirstPresent(p.claims, EmailClaims) == Some(email) && email != ""
    requires FirstPresent(p.claims, NameClaims).None?
    ensures var d := DeriveFromEmail(email, None);
      (d.Ok? ==> Index(p) == Reconcile(email, d.value.first.value, d.value.last.GetOr("User"),
                                       FirstPresent(p.claims, ObjectIdClaims).GetOr(email)))
      && (d.Fail? ==> Index(p) == Abandoned(IndexOutOfRange))
  {
  }

  /** The view model of the dashboard. */
  datatype Dashboard = Dashboard(
    totalServices: nat,
    totalIssues: nat,
    openIssues: nat,
    closedIssues: nat,
    recentServices: seq<Option<Service>>,
    recentIssues: seq<Option<Issue>>)

  /** `new DashboardViewModel()`. */
  const EmptyDashboard := Dashboard(0, 0, 0, 0, [], [])

  /** The dashboard view and whether the model-state error is shown. */
  datatype DashboardView = DashboardView(model: Dashboard, failed: bool)

  /** `issues.Count(i => i.State == state)`, throwing on a null issue. */
  function CountState(issues: seq<Option<Issue>>, state: IssueState): (r: Result<nat>)
    ensures r.Fail? <==> None in issues
    ensures r.Fail? ==> r.error == NullReference
    ensures r.Ok? ==> r.value <= |issues|
  {
    if |issues| == 0 then Ok(0)
    else
      match issues[0]
      case None => Fail(NullReference)
      case Some(i) =>
        var rest := CountState(issues[1..], state);
        assert issues == [issues[0]] + issues[1..];
        if rest.Fail? then rest
        else Ok(rest.value + (if i.state == state then 1 else 0))
  }

  /** The open and closed counts never exceed the total, and they add up to
      it exactly when every issue's state is one of the two named values;
      an issue bound with any other state number is counted in neither. */
  lemma {:induction false} OpenAndClosedPartition(issues: seq<Option<Issue>>)
    requires None !in issues
    ensures CountState(issues, Open).value + CountState(issues, Closed).value <= |issues|
    ensures CountState(issues, Open).value + CountState(issues, Closed).value == |issues|
            <==> forall i :: 0 <= i < |issues| ==> NamedState(issues[i].value.state)
  {
    if |issues| > 0 {
      var rest := issues[1..];
      assert issues == [issues[0]] + rest;
      assert forall i :: 1 <= i < |issues| ==> issues[i] == rest[i - 1];
      OpenAndClosedPartition(rest);
    }
  }

  /** An issue whose state number is neither Open nor Closed is counted in
      neither, so the dashboard's open and closed counts fall short of its
      total. */
  lemma UnnamedStateIsUncounted(i: Issue)
    requires !NamedState(i.state)
    ensures CountState([Some(i)], Open) == Ok(0) && CountState([Some(i)], Closed) == Ok(0)
  {
    assert [Some(i)][1..] == [];
  }

  /** Counting is additive over concatenation, and a single issue counts
      one exactly when it is in the state: together these fix the count as
      the number of issues in that state. */
  lemma {:induction false} CountStateAdditive(a: seq<Option<Issue>>, b: seq<Option<Issue>>, state: IssueState)
    requires None !in a && None !in b
    ensures CountState(a + b, state).value == CountState(a, state).value + CountState(b, state).value
    ensures forall i: Issue :: CountState([Some(i)], state) == Ok(if i.state == state then 1 else 0)
  {
    if |a| > 0 {
      assert (a + b)[1..] == a[1..] + b;
      assert (a + b)[0] == a[0];
      CountStateAdditive(a[1..], b, state);
    } else {
      assert a + b == b;
    }
    forall i: Issue ensures CountState([Some(i)], state) == Ok(if i.state == state then 1 else 0) {
      assert [Some(i)][1..] == [];
    }
  }

  function Min(a: nat, b: nat): nat {
    if a < b then a else b
  }

  /** Dashboard (lines 152-177) over what GetServicesAsync and
      GetIssuesAsync returned: the counts, and the first five of each list.
      Any exception, including a null issue met while counting, gives the
      empty model with the error shown. */
  function DashboardOf(services: Result<seq<Option<Service>>>, issues: Result<seq<Option<Issue>>>): (v: DashboardView)
    ensures v.failed <==> services.Fail? || issues.Fail? || None in issues.value
    ensures v.failed ==> v.model == EmptyDashboard
    ensures !v.failed ==>
      v.model.totalServices == |services.value| && v.model.totalIssues == |issues.value|
      && v.model.openIssues + v.model.closedIssues <= v.model.totalIssues
    ensures !v.failed ==>
      (v.model.openIssues + v.model.closedIssues == v.model.totalIssues
       <==> forall i :: 0 <= i < |issues.value| ==> NamedState(issues.value[i].value.state))
      && v.model.recentServices == services.value[..Min(5, |services.value|)]
      && v.model.recentIssues == issues.value[..Min(5, |issues.value|)]
    ensures !v.failed ==>
      v.model.openIssues == CountState(issues.value, Open).value
      && v.model.closedIssues == CountState(issues.value, Closed).value
  {
    if services.Fail? || issues.Fail? then DashboardView(EmptyDashboard, true)
    else
      var ss, xs := services.value, issues.value;
      var open, closed := CountState(xs, Open), CountState(xs, Closed);
      if open.Fail? || closed.Fail? then DashboardView(EmptyDashboard, true)
      else
        OpenAndClosedPartition(xs);
        DashboardView(Dashboard(|ss|, |xs|, open.value, closed.value,
                                ss[..Min(5, |ss|)], xs[..Min(5, |xs|)]), false)
  }
}
