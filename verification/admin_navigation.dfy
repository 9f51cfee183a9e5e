/** Whether the layout shows the administrator navigation
    (ViewComponents/AdminNavigationViewComponent.cs). */
module AdminNavigation {
  import opened Common
  import opened Text
  import opened Models
  import opened Claims
  import opened Settings

  /** C#'s lifted `!` on a `bool?`: null stays null. */
  function LiftedNot(b: Option<bool>): (r: Option<bool>)
    ensures r.None? <==> b.None?
    ensures r.Some? ==> r.value != b.value
  {
    if b.Some? then Some(!b.value) else None
  }

  /** InvokeAsync (lines 18-64). The early exit tests
      `!User.Identity?.IsAuthenticated == true`, which holds only for an
      identity that is explicitly not authenticated; without an identity the
      check passes and the email lookup finds nothing. The navigation is
      shown exactly to an administrator. */
  function ShowAdminNavigation(p: Principal, getUser: string -> Option<User>): (show: bool)
    ensures p.authenticated == Some(false) ==> !show
    ensures show <==> p.authenticated != Some(false) && !IsNullOrEmpty(AdminEmail(p))
                      && IsAdministrator(getUser(AdminEmail(p).value))
  {
    if LiftedNot(p.authenticated) == Some(true) then false
    else
      var email := AdminEmail(p);
      if IsNullOrEmpty(email) then false
      else
        var user := getUser(email.value);
        if user.None? then false
        else user.value.isAdministrator == Some(true)
  }

  /** For anyone the framework lets through, the navigation link is shown
      exactly when the settings page it leads to would be granted. */
  lemma NavigationMatchesSettings(p: Principal, getUser: string -> Option<User>)
    requires p.authenticated == Some(true)
    ensures ShowAdminNavigation(p, getUser) <==> SettingsIndex(p, getUser).Granted?
  {
  }

  /** A principal with no identity at all has no claims, so the navigation
      stays hidden although the early exit does not fire. */
  lemma NoIdentityHidesNavigation(p: Principal, getUser: string -> Option<User>)
    requires WellFormed(p) && p.authenticated.None?
    ensures LiftedNot(p.authenticated) != Some(true)
    ensures !ShowAdminNavigation(p, getUser)
  {
    assert AdminEmail(p).None? by {
      assert AbsentBefore(p.claims, AdminEmailClaims, |AdminEmailClaims|);
    }
  }
}
