/** The client's HTTP module: the API base URL, the session kept in browser
    storage, the default Authorization header of the shared HTTP client, the
    auth-change event, and the response interceptor. */
module ClientApi {
  import opened Wrappers
  import opened SharedApi

  const AuthTokenKey: string := "authToken"
  const AuthUserKey: string := "user"
  const AuthChangeEvent: string := "saop:auth-change"
  const DefaultApiBaseUrl: string := "http://localhost:3000/api"
  const LoginPath: string := "/login"

  /** `replace(/\/$/, "")`: drops one trailing slash. */
  function StripTrailingSlash(s: string): string {
    if |s| > 0 && s[|s| - 1] == '/' then s[..|s| - 1] else s
  }

  /** `VITE_API_URL?.replace(/\/$/, "") || "http://localhost:3000/api"`: the
      configured URL less one trailing slash, or the default when nothing is
      configured or nothing is left. */
  function ApiBaseUrl(env: Option<string>): (url: string)
    ensures url != ""
    ensures url != DefaultApiBaseUrl ==> env.Some? && (url == env.value || url + "/" == env.value)
    ensures env.None? || env.value == "" || env.value == "/" ==> url == DefaultApiBaseUrl
    ensures env.Some? && |env.value| >= 2 && env.value[|env.value| - 1] == '/' ==> url + "/" == env.value
    ensures env.Some? && env.value != "" && env.value[|env.value| - 1] != '/' ==> url == env.value
  {
    match env
    case None => DefaultApiBaseUrl
    case Some(v) =>
      var stripped := StripTrailingSlash(v);
      if stripped == "" then DefaultApiBaseUrl else stripped
  }

  /** The browser-side session state: whether a window exists, local storage,
      the shared client's default Authorization header, how many auth-change
      events were dispatched, and a pending full-page redirect. */
  datatype Store = Store(
    hasWindow: bool,
    storage: map<string, string>,
    authHeader: Option<string>,
    authEvents: nat,
    redirect: Option<string>)

  function BearerHeader(token: string): string {
    "Bearer " + token
  }

  /** The header mirrors the stored token: set to "Bearer <token>" exactly
      when a token is stored. Meaningless without a window. */
  predicate HeaderInSync(s: Store) {
    s.hasWindow ==>
      s.authHeader == (if AuthTokenKey in s.storage then Some(BearerHeader(s.storage[AuthTokenKey])) else None)
  }

  /** `bootstrapAuthToken`: sets the header from a truthy stored token. */
  function Bootstrap(s: Store): (r: Store)
    ensures !s.hasWindow ==> r == s
    ensures r.storage == s.storage && r.authEvents == s.authEvents && r.redirect == s.redirect
    ensures s.hasWindow && AuthTokenKey in s.storage && s.storage[AuthTokenKey] != "" ==>
      r.authHeader == Some(BearerHeader(s.storage[AuthTokenKey]))
    ensures !(AuthTokenKey in s.storage && s.storage[AuthTokenKey] != "") ==> r.authHeader == s.authHeader
  {
    if !s.hasWindow then s
    else if AuthTokenKey in s.storage && s.storage[AuthTokenKey] != "" then
      s.(authHeader := Some(BearerHeader(s.storage[AuthTokenKey])))
    else s
  }

  /** The module at load: a fresh client with no Authorization header, then
      `bootstrapAuthToken()`. */
  function Load(hasWindow: bool, storage: map<string, string>): Store {
    Bootstrap(Store(hasWindow, storage, None, 0, None))
  }

  /** At load the header is set exactly when a window exists and a truthy
      token is stored; apart from an empty stored token, the header then
      mirrors storage. */
  lemma LoadSetsHeaderIffToken(hasWindow: bool, storage: map<string, string>)
    ensures Load(hasWindow, storage).authHeader.Some? <==>
      hasWindow && AuthTokenKey in storage && storage[AuthTokenKey] != ""
    ensures Load(hasWindow, storage).authHeader.Some? ==>
      Load(hasWindow, storage).authHeader.value == BearerHeader(storage[AuthTokenKey])
    ensures !(AuthTokenKey in storage && storage[AuthTokenKey] == "") ==> HeaderInSync(Load(hasWindow, storage))
  {
  }

  /** The one exception: an empty stored token is falsy, so no header is set,
      yet a token is stored. `setAuthToken("")` followed by a reload reaches
      this state. */
  lemma EmptyStoredTokenStartsOutOfSync(storage: map<string, string>, s: Store)
    requires AuthTokenKey in storage && storage[AuthTokenKey] == ""
    requires s.hasWindow
    ensures Load(true, storage).authHeader.None?
    ensures !HeaderInSync(Load(true, storage))
    ensures !HeaderInSync(Load(true, SetAuthToken(s, "").storage))
  {
  }

  /** `emitAuthChange`: one event, only where a window exists. */
  function Emit(s: Store): (r: Store)
    ensures r.(authEvents := s.authEvents) == s
    ensures r.authEvents == s.authEvents + (if s.hasWindow then 1 else 0)
  {
    if s.hasWindow then s.(authEvents := s.authEvents + 1) else s
  }

  /** `setAuthToken`: stores the token, sets the header and emits one event;
      the stored user and every other key are untouched. */
  function SetAuthToken(s: Store, token: string): (r: Store)
    ensures !s.hasWindow ==> r == s
    ensures s.hasWindow ==>
      && AuthTokenKey in r.storage && r.storage[AuthTokenKey] == token
      && r.storage - {AuthTokenKey} == s.storage - {AuthTokenKey}
      && r.authHeader == Some(BearerHeader(token))
      && r.authEvents == s.authEvents + 1
      && r.redirect == s.redirect
    ensures (AuthUserKey in r.storage <==> AuthUserKey in s.storage) &&
      (AuthUserKey in s.storage ==> r.storage[AuthUserKey] == s.storage[AuthUserKey])
    ensures HeaderInSync(r)
  {
    if !s.hasWindow then s
    else Emit(s.(storage := s.storage[AuthTokenKey := token], authHeader := Some(BearerHeader(token))))
  }

  /** Removes the stored user. */
  function ForgetUser(s: Store): Store {
    s.(storage := s.storage - {AuthUserKey})
  }

  /** `persistAuthUser`: writes `JSON.stringify(user)` under "user" for a
      user, removes the key for null; never touches the token, the header or
      the event count. */
  function PersistAuthUser(s: Store, user: Option<AuthenticatedUser>, stringify: AuthenticatedUser -> string): (r: Store)
    ensures !s.hasWindow ==> r == s
    ensures r.authHeader == s.authHeader && r.authEvents == s.authEvents && r.redirect == s.redirect
    ensures r.storage - {AuthUserKey} == s.storage - {AuthUserKey}
    ensures s.hasWindow && user.Some? ==> AuthUserKey in r.storage && r.storage[AuthUserKey] == stringify(user.value)
    ensures s.hasWindow && user.None? ==> AuthUserKey !in r.storage
    ensures HeaderInSync(s) ==> HeaderInSync(r)
  {
    if !s.hasWindow then s
    else match user
      case Some(u) => s.(storage := s.storage[AuthUserKey := stringify(u)])
      case None => ForgetUser(s)
  }

  /** `clearAuthToken`: removes token and user, deletes the header and emits
      one event; other keys stay. */
  function ClearAuthToken(s: Store): (r: Store)
    ensures !s.hasWindow ==> r == s
    ensures s.hasWindow ==>
      && r.storage == s.storage - {AuthTokenKey, AuthUserKey}
      && r.authHeader.None?
      && r.authEvents == s.authEvents + 1
      && r.redirect == s.redirect
    ensures HeaderInSync(r)
  {
    if !s.hasWindow then s
    else Emit(ForgetUser(s.(storage := s.storage - {AuthTokenKey})).(authHeader := None))
  }

  /** Clearing twice leaves storage and header as clearing once; only the
      event count moves on. */
  lemma ClearTwiceSameState(s: Store)
    ensures var once := ClearAuthToken(s);
      var twice := ClearAuthToken(once);
      twice.storage == once.storage && twice.authHeader == once.authHeader && twice.redirect == once.redirect
  {
  }

  /** Set followed by clear: no session is left. */
  lemma SetThenClearLeavesNoSession(s: Store, token: string)
    requires s.hasWindow
    ensures var r := ClearAuthToken(SetAuthToken(s, token));
      AuthTokenKey !in r.storage && AuthUserKey !in r.storage && r.authHeader.None? &&
      r.authEvents == s.authEvents + 2
  {
  }

  /** Without a window every store operation is the identity. */
  lemma NoWindowNoOps(s: Store, token: string, user: Option<AuthenticatedUser>,
                      stringify: AuthenticatedUser -> string)
    requires !s.hasWindow
    ensures Bootstrap(s) == s && Emit(s) == s && SetAuthToken(s, token) == s
    ensures ClearAuthToken(s) == s && PersistAuthUser(s, user, stringify) == s
  {
  }

  datatype ErrorResponse = ErrorResponse(status: int, data: Option<ApiErrorResponse>)

  /** An HTTP client error: its message and, when the server answered, the response. */
  datatype AxiosError = AxiosError(message: Option<string>, response: Option<ErrorResponse>)

  datatype HttpResult<T> = Received(value: T) | Errored(error: AxiosError)

  /** What the caller's promise settles to. */
  datatype Settled<T> = Resolved(value: T) | Rejected(error: AxiosError)

  predicate IsUnauthorized(e: AxiosError) {
    e.response.Some? && e.response.value.status == 401
  }

  /** The response interceptor: successes pass through untouched; every
      error is rejected again unchanged; a 401 first clears the session and
      redirects to the login page, any other error leaves the state alone. */
  function Intercept<T>(s: Store, result: HttpResult<T>): (r: (Store, Settled<T>))
    ensures result.Received? ==> r == (s, Resolved(result.value))
    ensures result.Errored? ==> r.1 == Rejected(result.error)
    ensures result.Errored? && !IsUnauthorized(result.error) ==> r.0 == s
    ensures result.Errored? && IsUnauthorized(result.error) && s.hasWindow ==>
      && AuthTokenKey !in r.0.storage && AuthUserKey !in r.0.storage
      && r.0.storage == s.storage - {AuthTokenKey, AuthUserKey}
      && r.0.authHeader.None? && r.0.redirect == Some(LoginPath)
      && r.0.authEvents == s.authEvents + 1
    ensures !s.hasWindow ==> r.0 == s
    ensures HeaderInSync(s) ==> HeaderInSync(r.0)
  {
    match result
    case Received(v) => (s, Resolved(v))
    case Errored(e) =>
      if IsUnauthorized(e) then
        var cleared := ClearAuthToken(s);
        (if s.hasWindow then cleared.(redirect := Some(LoginPath)) else cleared, Rejected(e))
      else (s, Rejected(e))
  }
}
