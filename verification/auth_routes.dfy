/** The `/auth` router: login, register and token verification. */
module AuthRoutes {
  import opened Wrappers
  import opened Text
  import opened SharedApi
  import opened Tables
  import opened Http

  datatype LoginRequest = LoginRequest(email: Option<string>, password: Option<string>, role: Option<string>)

  datatype RegisterRequest = RegisterRequest(
    email: Option<string>,
    password: Option<string>,
    firstName: Option<string>,
    lastName: Option<string>,
    role: Option<string>)

  /** The foreign calls of the auth paths: `bcrypt.compare(plain, hash)`,
      `bcrypt.hash(plain, 10)` and `generateToken(user)`. */
  datatype Crypto = Crypto(
    compare: (string, string) -> bool,
    hash: string -> string,
    sign: Row<UserData> -> string)

  /** The literal password the login route accepts for every account. */
  const DemoPassword: string := "demo123"

  const MissingLoginFields := Response(400, ErrorBody("Email, password, and role are required"))
  const InvalidCredentials := Response(401, ErrorBody("Invalid credentials"))
  const InternalError := Response(500, ErrorBody("Internal server error"))

  predicate LoginFieldsPresent(req: LoginRequest) {
    Truthy(req.email) && Truthy(req.password) && Truthy(req.role)
  }

  /** `WHERE email = ? AND role = ?` */
  predicate MatchesLogin(row: Row<UserData>, email: string, role: string) {
    row.val.email == email && row.val.role == role
  }

  /** The user object a successful login sends back: the row's public columns. */
  function PublicUser(row: Row<UserData>): AuthenticatedUser {
    AuthenticatedUser(row.id, row.val.email, row.val.firstName, row.val.lastName, row.val.role, row.val.profileImage)
  }

  /** The password check as written: the literal "demo123" or a bcrypt match. */
  predicate PasswordAccepted(crypto: Crypto, password: string, hash: string) {
    password == DemoPassword || crypto.compare(password, hash)
  }

  /** The password check without the literal: a bcrypt match only. */
  predicate PasswordAcceptedIntended(crypto: Crypto, password: string, hash: string) {
    crypto.compare(password, hash)
  }

  /** The shared shape of the login route, parameterised by its password check. */
  function LoginWith(users: Table<UserData>, req: LoginRequest, crypto: Crypto, fault: bool,
                     accepts: (string, string) -> bool): Response
  {
    if !LoginFieldsPresent(req) then MissingLoginFields
    else if fault then InternalError
    else
      var email, password, role := req.email.value, req.password.value, req.role.value;
      match FindFirst(users.rows, (row: Row<UserData>) => MatchesLogin(row, email, role))
      case None => InvalidCredentials
      case Some(i) =>
        if !accepts(password, users.rows[i].val.passwordHash) then InvalidCredentials
        else Response(200, LoginBody(crypto.sign(users.rows[i]), PublicUser(users.rows[i])))
  }

  /** `POST /auth/login` as written. A missing field answers 400 whatever the
      table holds; no row for (email, role) and a rejected password both
      answer the same 401; a success returns the first matching row's public
      columns, whose email and role are the requested ones. */
  function Login(users: Table<UserData>, req: LoginRequest, crypto: Crypto, fault: bool): (resp: Response)
    ensures !LoginFieldsPresent(req) ==> resp == MissingLoginFields
    ensures LoginFieldsPresent(req) && fault ==> resp == InternalError
    ensures LoginFieldsPresent(req) && !fault &&
      (forall k :: 0 <= k < |users.rows| ==> !MatchesLogin(users.rows[k], req.email.value, req.role.value))
      ==> resp == InvalidCredentials
    ensures resp.status == 200 <==>
      LoginFieldsPresent(req) && !fault &&
      exists i :: 0 <= i < |users.rows| && MatchesLogin(users.rows[i], req.email.value, req.role.value)
        && (forall k :: 0 <= k < i ==> !MatchesLogin(users.rows[k], req.email.value, req.role.value))
        && PasswordAccepted(crypto, req.password.value, users.rows[i].val.passwordHash)
    ensures resp.status == 200 ==>
      resp.body.LoginBody? && resp.body.user.email == req.email.value && resp.body.user.role == req.role.value
      && exists i :: 0 <= i < |users.rows| && MatchesLogin(users.rows[i], req.email.value, req.role.value)
           && (forall k :: 0 <= k < i ==> !MatchesLogin(users.rows[k], req.email.value, req.role.value))
           && PasswordAccepted(crypto, req.password.value, users.rows[i].val.passwordHash)
           && resp.body == LoginBody(crypto.sign(users.rows[i]), PublicUser(users.rows[i]))
    ensures resp.status != 200 ==> resp in {MissingLoginFields, InvalidCredentials, InternalError}
  {
    LoginWith(users, req, crypto, fault, (p, h) => PasswordAccepted(crypto, p, h))
  }

  /** Login with the literal removed: the same route, but only a bcrypt match
      lets a user in. */
  function LoginIntended(users: Table<UserData>, req: LoginRequest, crypto: Crypto, fault: bool): (resp: Response)
    ensures !LoginFieldsPresent(req) ==> resp == MissingLoginFields
    ensures resp.status == 200 <==>
      LoginFieldsPresent(req) && !fault &&
      exists i :: 0 <= i < |users.rows| && MatchesLogin(users.rows[i], req.email.value, req.role.value)
        && (forall k :: 0 <= k < i ==> !MatchesLogin(users.rows[k], req.email.value, req.role.value))
        && PasswordAcceptedIntended(crypto, req.password.value, users.rows[i].val.passwordHash)
    ensures resp.status == 200 ==>
      exists i :: 0 <= i < |users.rows| && MatchesLogin(users.rows[i], req.email.value, req.role.value)
        && (forall k :: 0 <= k < i ==> !MatchesLogin(users.rows[k], req.email.value, req.role.value))
        && PasswordAcceptedIntended(crypto, req.password.value, users.rows[i].val.passwordHash)
        && resp == Response(200, LoginBody(crypto.sign(users.rows[i]), PublicUser(users.rows[i])))
    ensures resp.status != 200 ==> resp in {MissingLoginFields, InvalidCredentials, InternalError}
  {
    LoginWith(users, req, crypto, fault, (p, h) => PasswordAcceptedIntended(crypto, p, h))
  }

  /** With emails unique, a login succeeds exactly when some row has the
      requested email and role and the password check passes for it. */
  lemma {:induction false} LoginSucceedsIffAccountAccepts(users: Table<UserData>, req: LoginRequest, crypto: Crypto)
    requires UniqueEmails(users) && LoginFieldsPresent(req)
    ensures Login(users, req, crypto, false).status == 200 <==>
      exists i :: 0 <= i < |users.rows| && MatchesLogin(users.rows[i], req.email.value, req.role.value)
        && PasswordAccepted(crypto, req.password.value, users.rows[i].val.passwordHash)
  {
    var e, r := req.email.value, req.role.value;
    if exists i :: 0 <= i < |users.rows| && MatchesLogin(users.rows[i], e, r)
        && PasswordAccepted(crypto, req.password.value, users.rows[i].val.passwordHash) {
      var i :| 0 <= i < |users.rows| && MatchesLogin(users.rows[i], e, r)
        && PasswordAccepted(crypto, req.password.value, users.rows[i].val.passwordHash);
      forall k | 0 <= k < i ensures !MatchesLogin(users.rows[k], e, r) {
        assert users.rows[k].val.email != users.rows[i].val.email;
      }
    }
  }

  /** A wrong password for an existing account is answered exactly like an
      account that does not exist, whatever else either table holds. */
  lemma WrongPasswordLooksLikeUnknownUser(users: Table<UserData>, other: Table<UserData>, req: LoginRequest,
                                          crypto: Crypto, i: nat)
    requires LoginFieldsPresent(req)
    requires i < |users.rows| && MatchesLogin(users.rows[i], req.email.value, req.role.value)
    requires forall k :: 0 <= k < i ==> !MatchesLogin(users.rows[k], req.email.value, req.role.value)
    requires !PasswordAccepted(crypto, req.password.value, users.rows[i].val.passwordHash)
    requires forall k :: 0 <= k < |other.rows| ==> !MatchesLogin(other.rows[k], req.email.value, req.role.value)
    ensures Login(users, req, crypto, false) == Login(other, req, crypto, false) == InvalidCredentials
  {
  }

  /** The defect: every account logs in with "demo123", whatever its stored
      hash and whatever bcrypt says. */
  lemma DemoPasswordBypass(users: Table<UserData>, crypto: Crypto, i: nat)
    requires i < |users.rows| && users.rows[i].val.email != "" && users.rows[i].val.role != ""
    ensures Login(users, LoginRequest(Some(users.rows[i].val.email), Some(DemoPassword),
                                      Some(users.rows[i].val.role)), crypto, false).status == 200
  {
    var req := LoginRequest(Some(users.rows[i].val.email), Some(DemoPassword), Some(users.rows[i].val.role));
    var p := (row: Row<UserData>) => MatchesLogin(row, req.email.value, req.role.value);
    assert p(users.rows[i]);
    var j := FindFirst(users.rows, p).value;
    assert PasswordAccepted(crypto, DemoPassword, users.rows[j].val.passwordHash);
  }

  /** Without the literal, "demo123" is an ordinary password: an account whose
      hash bcrypt does not match against it is refused. */
  lemma IntendedLoginRefusesDemoPassword(users: Table<UserData>, crypto: Crypto, email: string, role: string)
    requires UniqueEmails(users) && email != "" && role != ""
    requires forall k :: 0 <= k < |users.rows| ==> !crypto.compare(DemoPassword, users.rows[k].val.passwordHash)
    ensures LoginIntended(users, LoginRequest(Some(email), Some(DemoPassword), Some(role)), crypto, false)
      == InvalidCredentials
  {
  }

  /** The response user has no password field, so two rows that differ only
      in their hash produce the same public user. */
  lemma PublicUserIgnoresHash(row: Row<UserData>, hash: string)
    ensures PublicUser(row) == PublicUser(Row(row.id, row.val.(passwordHash := hash)))
    ensures PublicUser(row).id == row.id && PublicUser(row).role == row.val.role
  {
  }

  predicate RegisterFieldsPresent(req: RegisterRequest) {
    Truthy(req.email) && Truthy(req.password) && Truthy(req.firstName) && Truthy(req.lastName) && Truthy(req.role)
  }

  /** `SELECT id FROM users WHERE email = ?`: the role plays no part. */
  predicate EmailTaken(users: Table<UserData>, email: string) {
    exists k :: 0 <= k < |users.rows| && users.rows[k].val.email == email
  }

  /** `POST /auth/register`: 400 unless all five fields are truthy, 409 when
      any user has the email, whatever the role; otherwise exactly one users
      row is appended with the hashed password and the role as sent, which is
      not checked against the three roles. Nothing else changes. */
  function Register(db: Db, req: RegisterRequest, crypto: Crypto, fault: bool): (o: Outcome)
    ensures !RegisterFieldsPresent(req) ==> o == Outcome(Response(400, ErrorBody("All fields are required")), db)
    ensures RegisterFieldsPresent(req) && fault ==> o == Outcome(InternalError, db)
    ensures RegisterFieldsPresent(req) && !fault && EmailTaken(db.users, req.email.value) ==>
      o == Outcome(Response(409, ErrorBody("User already exists")), db)
    ensures o.response.status == 201 <==>
      RegisterFieldsPresent(req) && !fault && !EmailTaken(db.users, req.email.value)
    ensures o.response.status == 201 ==>
      && o.response.body == CreatedBody(db.users.nextId, "User created successfully")
      && o.db == db.(users := o.db.users)
      && o.db.users.rows == db.users.rows + [Row(db.users.nextId, UserData(req.email.value,
           crypto.hash(req.password.value), req.firstName.value, req.lastName.value, req.role.value, None))]
    ensures o.response.status != 201 ==> o.db == db
    ensures Valid(db) ==> Valid(o.db)
  {
    if !RegisterFieldsPresent(req) then Outcome(Response(400, ErrorBody("All fields are required")), db)
    else if fault then Outcome(InternalError, db)
    else if EmailTaken(db.users, req.email.value) then Outcome(Response(409, ErrorBody("User already exists")), db)
    else
      var row := UserData(req.email.value, crypto.hash(req.password.value), req.firstName.value,
                          req.lastName.value, req.role.value, None);
      var (users, id) := Insert(db.users, row);
      Outcome(Response(201, CreatedBody(id, "User created successfully")), db.(users := users))
  }

  /** The fallback signing secret used when the environment gives none. */
  const DefaultJwtSecret: string := "your-secret-key-change-in-production"

  /** `process.env.JWT_SECRET || default` */
  function JwtSecret(env: Option<string>): (secret: string)
    ensures Truthy(env) ==> secret == env.value
    ensures !Truthy(env) ==> secret == DefaultJwtSecret
    ensures secret != ""
  {
    if Truthy(env) then env.value else DefaultJwtSecret
  }

  /** `req.headers.authorization?.split(' ')[1]`: the second space-separated
      field, present exactly when the header holds a space; it holds no space. */
  function HeaderToken(authorization: Option<string>): (t: Option<string>)
    ensures t.Some? <==> authorization.Some? && ' ' in authorization.value
    ensures t.Some? ==> ' ' !in t.value
  {
    match authorization
    case None => None
    case Some(h) =>
      var parts := Split(h, ' ');
      if |parts| >= 2 then Some(parts[1]) else None
  }

  /** The first word is never looked at: any space-free scheme followed by a
      space and a space-free token yields that token, and so does a header
      with more fields after it. */
  lemma {:induction false} SchemeWordIgnored(scheme: string, token: string, rest: string)
    requires ' ' !in scheme && ' ' !in token
    requires rest == [] || rest[0] == ' '
    ensures HeaderToken(Some(scheme + " " + token + rest)) == Some(token)
  {
    assert scheme + " " + token + rest == scheme + [' '] + (token + rest);
    SplitAtFirstSeparator(scheme, ' ', token + rest);
    if rest == [] {
      assert token + rest == token;
      SplitWithoutSeparator(token, ' ');
    } else {
      assert token + rest == token + [' '] + rest[1..];
      SplitAtFirstSeparator(token, ' ', rest[1..]);
    }
  }

  /** `GET /auth/verify`: 401 "No token provided" when the second field is
      missing or empty; otherwise 401 "Invalid token" when decoding with the
      secret fails, and 200 echoing the decoded payload when it succeeds. */
  function Verify(authorization: Option<string>, secretEnv: Option<string>,
                  decode: (string, string) -> Option<Claims>): (resp: Response)
    ensures !Truthy(HeaderToken(authorization)) ==> resp == Response(401, ErrorBody("No token provided"))
    ensures Truthy(HeaderToken(authorization)) ==>
      match decode(HeaderToken(authorization).value, JwtSecret(secretEnv))
      case None => resp == Response(401, ErrorBody("Invalid token"))
      case Some(claims) => resp == Response(200, VerifyBody(claims))
    ensures resp.status == 200 || resp.status == 401
  {
    var token := HeaderToken(authorization);
    if !Truthy(token) then Response(401, ErrorBody("No token provided"))
    else
      match decode(token.value, JwtSecret(secretEnv))
      case None => Response(401, ErrorBody("Invalid token"))
      case Some(claims) => Response(200, VerifyBody(claims))
  }
}
