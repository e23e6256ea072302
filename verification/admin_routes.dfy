/** The `/admin` router: statistics, user creation and user deletion. */
module AdminRoutes {
  import opened Wrappers
  import opened SharedApi
  import opened Tables
  import opened Http

  datatype AdminRequest =
    | Stats(activeCourses: nat)
    | CreateUser(email: string, password: Option<string>, firstName: string, lastName: string, role: Option<string>)
    | DeleteUser(userId: int)

  /** The roles `authorizeRoles` is given for this router. */
  const AdminRoles: seq<string> := [RoleName(Admin)]

  /** The fixed figure the statistics always report. */
  const PapersSaved: nat := 45200

  /** `['student', 'faculty'].includes(role)` */
  predicate CreatableRole(role: Option<string>) {
    role.Some? && ParseRole(role.value) in {Some(Student), Some(Faculty)}
  }

  function CountRole(users: Table<UserData>, role: string): nat {
    |Filter(users.rows, (u: Row<UserData>) => u.val.role == role)|
  }

  /** `GET /stats`: user counts by role, the active-course count the database
      reports, and the constant papers figure. */
  function StatsOf(db: Db, activeCourses: nat, fault: bool): (resp: Response)
    ensures fault ==> resp == Response(500, ErrorBody("Failed to fetch statistics"))
    ensures !fault ==> (resp.status == 200 && resp.body.StatsBody? && resp.body.papersSaved == 45200
      && resp.body.totalStudents + resp.body.totalFaculty <= |db.users.rows|
      && resp.body.activeCourses == activeCourses)
  {
    if fault then Response(500, ErrorBody("Failed to fetch statistics"))
    else
      var students, faculty := CountRole(db.users, "student"), CountRole(db.users, "faculty");
      assert students + faculty <= |db.users.rows| by {
        RoleCountsDisjoint(db.users.rows);
      }
      Response(200, StatsBody(students, faculty, activeCourses, PapersSaved))
  }

  /** Student and faculty rows are disjoint, so their counts add up to at most the table size. */
  lemma {:induction false} RoleCountsDisjoint(rows: seq<Row<UserData>>)
    ensures |Filter(rows, (u: Row<UserData>) => u.val.role == "student")| +
            |Filter(rows, (u: Row<UserData>) => u.val.role == "faculty")| <= |rows|
  {
    if |rows| > 0 {
      RoleCountsDisjoint(rows[1..]);
    }
  }

  predicate EmailExists(users: Table<UserData>, email: string) {
    exists k :: 0 <= k < |users.rows| && users.rows[k].val.email == email
  }

  /** `POST /users`: any role but 'student' or 'faculty' answers 400 before
      hashing or inserting; a missing password makes bcrypt throw (500); a
      duplicate email answers 409; otherwise one row is appended. */
  function NewUser(db: Db, req: AdminRequest, hash: string -> string, fault: bool): (o: Outcome)
    requires req.CreateUser?
    ensures !CreatableRole(req.role) ==> o == Outcome(Response(400, ErrorBody("Invalid role")), db)
    ensures CreatableRole(req.role) && (req.password.None? || fault) ==>
      o == Outcome(Response(500, ErrorBody("Failed to create user")), db)
    ensures CreatableRole(req.role) && req.password.Some? && !fault && EmailExists(db.users, req.email) ==>
      o == Outcome(Response(409, ErrorBody("Email already exists")), db)
    ensures o.response.status == 201 <==>
      CreatableRole(req.role) && req.password.Some? && !fault && !EmailExists(db.users, req.email)
    ensures o.response.status == 201 ==>
      && o.response.body == CreatedBody(db.users.nextId, req.role.value + " created successfully")
      && o.db == db.(users := o.db.users)
      && o.db.users.rows == db.users.rows + [Row(db.users.nextId, UserData(req.email, hash(req.password.value),
           req.firstName, req.lastName, req.role.value, None))]
    ensures o.response.status == 201 ==> o.db.users.rows[|db.users.rows|].val.role != "admin"
    ensures o.response.status != 201 ==> o.db == db
    ensures Valid(db) ==> Valid(o.db)
  {
    if !CreatableRole(req.role) then Outcome(Response(400, ErrorBody("Invalid role")), db)
    else if req.password.None? || fault then Outcome(Response(500, ErrorBody("Failed to create user")), db)
    else if EmailExists(db.users, req.email) then Outcome(Response(409, ErrorBody("Email already exists")), db)
    else
      var (users, id) := Insert(db.users, UserData(req.email, hash(req.password.value), req.firstName,
                                                   req.lastName, req.role.value, None));
      Outcome(Response(201, CreatedBody(id, req.role.value + " created successfully")), db.(users := users))
  }

  /** `DELETE FROM users WHERE id = ? AND role != 'admin'` */
  predicate Deletable(u: Row<UserData>, userId: int) {
    u.id == userId && u.val.role != "admin"
  }

  /** `DELETE /users/:id`: removes the user with that id unless it is an
      admin, and reports success whether or not a row went. */
  function Delete(db: Db, userId: int, fault: bool): (o: Outcome)
    ensures fault ==> o == Outcome(Response(500, ErrorBody("Failed to delete user")), db)
    ensures !fault ==> o.response == Response(200, MessageBody("User deleted successfully"))
    ensures o.db == db.(users := o.db.users) && o.db.users.nextId == db.users.nextId
    ensures forall k :: 0 <= k < |o.db.users.rows| ==> o.db.users.rows[k] in db.users.rows
    ensures forall k :: 0 <= k < |db.users.rows| ==>
      (db.users.rows[k] in o.db.users.rows <==> fault || !Deletable(db.users.rows[k], userId))
    ensures Valid(db) ==> Valid(o.db)
  {
    if fault then Outcome(Response(500, ErrorBody("Failed to delete user")), db)
    else
      var rows := Filter(db.users.rows, (u: Row<UserData>) => !Deletable(u, userId));
      assert IdsDistinct(db.users.rows) ==> IdsDistinct(rows) by {
        if IdsDistinct(db.users.rows) {
          FilterKeepsIdsDistinct(db.users.rows, (u: Row<UserData>) => !Deletable(u, userId));
        }
      }
      Outcome(Response(200, MessageBody("User deleted successfully")), db.(users := Table(rows, db.users.nextId)))
  }

  /** No admin row is ever removed, and deleting an id no row has still reports success. */
  lemma DeleteSparesAdmins(db: Db, userId: int)
    ensures var o := Delete(db, userId, false);
      (forall k :: 0 <= k < |db.users.rows| && db.users.rows[k].val.role == "admin" ==>
         db.users.rows[k] in o.db.users.rows) &&
      ((forall k :: 0 <= k < |db.users.rows| ==> db.users.rows[k].id != userId) ==>
         o.db.users.rows == db.users.rows && o.response.status == 200)
  {
    var o := Delete(db, userId, false);
    if forall k :: 0 <= k < |db.users.rows| ==> db.users.rows[k].id != userId {
      FilterKeepsAll(db.users.rows, (u: Row<UserData>) => !Deletable(u, userId));
    }
  }

  /** Filtering with a test every row passes changes nothing. */
  lemma {:induction false} FilterKeepsAll<T>(rows: seq<Row<T>>, keep: Row<T> -> bool)
    requires forall k :: 0 <= k < |rows| ==> keep(rows[k])
    ensures Filter(rows, keep) == rows
  {
    if |rows| > 0 {
      FilterKeepsAll(rows[1..], keep);
    }
  }

  /** The handler behind the guards. */
  function Handle(db: Db, req: AdminRequest, hash: string -> string, fault: bool): (o: Outcome)
    ensures Valid(db) ==> Valid(o.db)
    ensures req.Stats? ==> o.db == db
  {
    match req
    case Stats(activeCourses) => Outcome(StatsOf(db, activeCourses, fault), db)
    case CreateUser(_, _, _, _, _) => NewUser(db, req, hash, fault)
    case DeleteUser(userId) => Delete(db, userId, fault)
  }

  /** Every admin route: `authenticateToken`, then `authorizeRoles('admin')`,
      then the handler. A request either guard refuses gets that guard's
      answer and changes nothing. */
  function Route(g: Guards, authorization: Option<string>, db: Db, req: AdminRequest, hash: string -> string,
                 fault: bool): (o: Outcome)
    ensures g.authenticate(authorization).Failure? ==> o == Outcome(g.authenticate(authorization).error, db)
    ensures (g.authenticate(authorization).Success? &&
      g.authorize(AdminRoles, g.authenticate(authorization).value).Some?) ==>
      o == Outcome(g.authorize(AdminRoles, g.authenticate(authorization).value).value, db)
    ensures (g.authenticate(authorization).Success? &&
      g.authorize(AdminRoles, g.authenticate(authorization).value).None?) ==>
      o == Handle(db, req, hash, fault)
    ensures o.db != db ==>
      g.authenticate(authorization).Success? && g.authorize(AdminRoles, g.authenticate(authorization).value).None?
    ensures Valid(db) ==> Valid(o.db)
  {
    match Admit(g, AdminRoles, authorization)
    case Failure(resp) => Outcome(resp, db)
    case Success(_) => Handle(db, req, hash, fault)
  }
}
