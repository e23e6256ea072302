/** The login page: role selection, the submit handler's validation order,
    and the deferred role-based navigation. The page calls no API. */
module LoginPage {
  import opened Wrappers
  import opened Text
  import opened SharedApi
  import Layout

  /** The page's state. `pending` holds, oldest first, the role captured by
      each navigation timer a valid submit started and that has not fired. */
  datatype LoginForm = LoginForm(
    selectedRole: Option<UserRole>,
    email: string,
    password: string,
    isLoading: bool,
    error: string,
    pending: seq<UserRole>)

  const SelectRoleError: string := "Please select your role"
  const CredentialsError: string := "Please enter your credentials"

  function Initial(): LoginForm {
    LoginForm(None, "", "", false, "", [])
  }

  /** `handleRoleSelection`: sets the role and clears any error. */
  function SelectRole(f: LoginForm, role: Option<UserRole>): (r: LoginForm)
    ensures r.selectedRole == role && r.error == ""
    ensures r.(selectedRole := f.selectedRole, error := f.error) == f
  {
    f.(selectedRole := role, error := "")
  }

  function EditEmail(f: LoginForm, email: string): LoginForm { f.(email := email) }

  function EditPassword(f: LoginForm, password: string): LoginForm { f.(password := password) }

  /** `handleLogin`: the role is checked first, then the credentials; only a
      submit passing both starts loading, clears the error and schedules a
      navigation for the selected role. A refused submit changes only the error. */
  function Submit(f: LoginForm): (r: LoginForm)
    ensures f.selectedRole.None? ==> r == f.(error := SelectRoleError)
    ensures f.selectedRole.Some? && (f.email == "" || f.password == "") ==> r == f.(error := CredentialsError)
    ensures r.pending != f.pending <==> f.selectedRole.Some? && f.email != "" && f.password != ""
    ensures r.pending != f.pending ==>
      r == f.(isLoading := true, error := "", pending := f.pending + [f.selectedRole.value])
  {
    if f.selectedRole.None? then f.(error := SelectRoleError)
    else if f.email == "" || f.password == "" then f.(error := CredentialsError)
    else f.(isLoading := true, error := "", pending := f.pending + [f.selectedRole.value])
  }

  /** The dashboard each role lands on: "/<role name>/dashboard". The
      page's final else-branch is the student case. */
  function DashboardPath(role: UserRole): string {
    "/" + RoleName(role) + Layout.DashboardMarker
  }

  /** The oldest pending timer fires: loading ends and the page navigates to
      the dashboard of the role captured at submit time. */
  function TimerFires(f: LoginForm): (r: (LoginForm, string))
    requires |f.pending| > 0
    ensures !r.0.isLoading && r.0.pending == f.pending[1..]
    ensures r.0.(isLoading := f.isLoading, pending := f.pending) == f
    ensures r.1 == DashboardPath(f.pending[0])
  {
    (f.(isLoading := false, pending := f.pending[1..]), DashboardPath(f.pending[0]))
  }

  /** A valid submit from an idle page sets loading, and when its timer
      fires loading ends on the chosen role's dashboard. */
  lemma ValidSubmitNavigates(f: LoginForm, role: UserRole)
    requires f.pending == [] && f.selectedRole == Some(role) && f.email != "" && f.password != ""
    ensures Submit(f).isLoading && Submit(f).error == ""
    ensures var (g, path) := TimerFires(Submit(f));
      !g.isLoading && g.pending == [] && path == DashboardPath(role)
  {
  }

  /** Without a role no credentials help: the role error wins and nothing is scheduled. */
  lemma RoleCheckedFirst(f: LoginForm)
    requires f.selectedRole.None?
    ensures Submit(f).error == SelectRoleError && Submit(f).pending == f.pending
    ensures Submit(f).isLoading == f.isLoading
  {
  }

  /** The three dashboards are distinct and each is a dashboard page for the
      frame, so it is framed with Sign Out once a user is held. */
  lemma {:induction false} DashboardPathsAreDashboards(r: UserRole, q: UserRole)
    ensures DashboardPath(r) == DashboardPath(q) ==> r == q
    ensures Layout.IsDashboard(DashboardPath(r))
    ensures DashboardPath(r) != "/login"
  {
    var p := DashboardPath(r);
    if p == DashboardPath(q) {
      assert RoleName(r) == p[1..|p| - |Layout.DashboardMarker|] == RoleName(q);
      RoleNameRoundTrip(r, q);
    }
    var i: nat := |p| - |Layout.DashboardMarker|;
    assert OccursAt(p, Layout.DashboardMarker, i);
    IncludesIffOccurs(p, Layout.DashboardMarker);
  }
}
