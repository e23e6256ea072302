/** What every route handler shares: request field truthiness, the response
    shape, and the two middleware guards of `server/middleware/auth`, which is
    not part of this model and is therefore taken as a parameter. */
module Http {
  import opened Wrappers
  import opened Tables
  import opened SharedApi

  /** A string body field is truthy when present and non-empty. */
  predicate Truthy(f: Option<string>) {
    f.Some? && f.value != ""
  }

  /** `value || null` for a string field: falsy values become NULL. */
  function OrNull(f: Option<string>): (r: Option<string>)
    ensures r.Some? <==> Truthy(f)
    ensures r.Some? ==> r == f
  {
    if Truthy(f) then f else None
  }

  /** `${value}` inside a template literal: `null` renders as "null". */
  function TemplateText(f: Option<string>): string {
    f.GetOr("null")
  }

  /** The payload `jwt.verify` hands back, as a field map. */
  type Claims = map<string, string>

  datatype Body =
    | ErrorBody(error: string)
    /** `{ success: true, token, user }` */
    | LoginBody(token: string, user: AuthenticatedUser)
    /** `{ success: true, user: decoded }` */
    | VerifyBody(claims: Claims)
    /** `{ success: true, <id>, message }` of a 201 reply */
    | CreatedBody(id: nat, message: string)
    /** `{ success: true, message }` */
    | MessageBody(message: string)
    /** `{ success: true }` */
    | SuccessBody
    | CourseDetailBody(course: Row<CourseData>, studentIds: seq<int>)
    | MaterialsBody(materials: seq<Row<MaterialData>>)
    | NotificationsBody(notifications: seq<Row<NotificationData>>)
    | StatsBody(totalStudents: nat, totalFaculty: nat, activeCourses: nat, papersSaved: nat)

  datatype Response = Response(status: int, body: Body)

  /** A handler's reply together with the database after it. */
  datatype Outcome = Outcome(response: Response, db: Db)

  /** What `authenticateToken` attaches to the request. */
  datatype Identity = Identity(id: int, email: string, role: string)

  /** `authenticateToken` reads the Authorization header and either admits the
      request with an identity or answers it; `authorizeRoles(...roles)`
      either lets the identity through (`None`) or answers. */
  datatype Guards = Guards(
    authenticate: Option<string> -> Result<Identity, Response>,
    authorize: (seq<string>, Identity) -> Option<Response>)

  /** `router.use(authenticateToken); router.use(authorizeRoles(...roles))`:
      the first guard runs first, the second only on what the first admits,
      and a request reaches a handler only when both let it through. */
  function Admit(g: Guards, roles: seq<string>, authorization: Option<string>): (r: Result<Identity, Response>)
    ensures g.authenticate(authorization).Failure? ==> r == Failure(g.authenticate(authorization).error)
    ensures r.Success? <==>
      g.authenticate(authorization).Success? && g.authorize(roles, g.authenticate(authorization).value).None?
    ensures r.Success? ==> r == g.authenticate(authorization)
    ensures r.Failure? && g.authenticate(authorization).Success? ==>
      r.error == g.authorize(roles, g.authenticate(authorization).value).value
  {
    match g.authenticate(authorization)
    case Failure(resp) => Failure(resp)
    case Success(user) =>
      match g.authorize(roles, user)
      case Some(resp) => Failure(resp)
      case None => Success(user)
  }
}
