/** The types shared by client and server: user roles, the user object the
    client keeps after login, and the error body the server answers with. */
module SharedApi {
  import opened Wrappers

  datatype UserRole = Admin | Faculty | Student

  /** The wire name of a role. */
  function RoleName(r: UserRole): string {
    match r
    case Admin => "admin"
    case Faculty => "faculty"
    case Student => "student"
  }

  /** Reads a wire role name; anything but the three names is not a role. */
  function ParseRole(s: string): (r: Option<UserRole>)
    ensures r.Some? ==> RoleName(r.value) == s
    ensures r.None? ==> s != "admin" && s != "faculty" && s != "student"
  {
    if s == "admin" then Some(Admin)
    else if s == "faculty" then Some(Faculty)
    else if s == "student" then Some(Student)
    else None
  }

  /** Role names are distinct and read back to the role they name. */
  lemma RoleNameRoundTrip(r: UserRole, q: UserRole)
    ensures ParseRole(RoleName(r)) == Some(r)
    ensures RoleName(r) == RoleName(q) ==> r == q
  {
  }

  /** The user object sent to and stored by the client. It has no password
      field. `role` is typed as a role name on the client, but at run time it
      is whatever the database row holds, so it is kept as text. */
  datatype AuthenticatedUser = AuthenticatedUser(
    id: int,
    email: string,
    firstName: string,
    lastName: string,
    role: string,
    profileImage: Option<string>)

  /** The JSON error body; every field may be absent. */
  datatype ApiErrorResponse = ApiErrorResponse(
    error: Option<string>,
    message: Option<string>,
    code: Option<string>)
}
