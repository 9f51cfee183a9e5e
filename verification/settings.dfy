/** The settings page's access check (Controllers/SettingsController.cs).
    The controller carries `[Authorize]`, so only signed-in principals reach
    it; the user lookup is GetUserByEmailAsync of the user service, which
    never throws, and is a parameter. */
module Settings {
  import opened Common
  import opened Text
  import opened Models
  import opened Claims

  /** `View()` or `Forbid()`. */
  datatype Outcome = Granted | Forbidden

  /** A stored user whose administrator flag is set; null and unset both
      deny. */
  predicate IsAdministrator(u: Option<User>) {
    u.Some? && u.value.isAdministrator == Some(true)
  }

  /** The email the settings page and the admin navigation use: the first
      of `preferred_username`, `email`, `upn` that is present. */
  function AdminEmail(p: Principal): Option<string> {
    FirstPresent(p.claims, AdminEmailClaims)
  }

  /** Index (lines 19-58): the page is shown exactly to a principal whose
      email claim is non-empty and whose stored record is flagged as an
      administrator; a missing or empty email, an unknown user and a user
      without the flag are all forbidden. */
  function SettingsIndex(p: Principal, getUser: string -> Option<User>): (r: Outcome)
    ensures r.Granted? ==> AdminEmail(p).Some? && AdminEmail(p).value != ""
    ensures r.Granted? <==> !IsNullOrEmpty(AdminEmail(p)) && IsAdministrator(getUser(AdminEmail(p).value))
  {
    var email := AdminEmail(p);
    if IsNullOrEmpty(email) then Forbidden
    else
      var user := getUser(email.value);
      if user.None? then Forbidden
      else if user.value.isAdministrator != Some(true) then Forbidden
      else Granted
  }

  /** Only the first present email claim counts: a principal whose
      `preferred_username` claim is empty is forbidden even when its `email`
      claim names an administrator. */
  lemma EmptyPreferredUsernameForbids(p: Principal, getUser: string -> Option<User>)
    requires FindFirst(p.claims, "preferred_username") == Some("")
    ensures SettingsIndex(p, getUser) == Forbidden
  {
    EmptyValueStopsChain(p.claims, AdminEmailClaims);
  }

  /** The settings page does not look at `ClaimTypes.Email`, which the
      landing page does: when that is the only email claim, the landing page
      has an email and the settings page has none. */
  lemma SettingsIgnoresEmailAddressClaim(p: Principal)
    requires AdminEmail(p).None?
    ensures FirstPresent(p.claims, EmailClaims) == FindFirst(p.claims, EmailAddressClaim)
  {
    assert EmailClaims == AdminEmailClaims + [EmailAddressClaim];
    ShorterChain(p.claims, AdminEmailClaims, EmailAddressClaim);
  }
}
