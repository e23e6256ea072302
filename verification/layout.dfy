/** The page frame: the current user re-read from storage, its resync on
    storage and auth-change events, sign-out, and which parts of the frame
    are shown for a path and a user. */
module Layout {
  import opened Wrappers
  import opened Text
  import opened SharedApi
  import opened ClientApi

  /** A parsed JSON value as far as the frame cares: `null`, an object read
      as a user, or anything else together with its truthiness. */
  datatype Json = JNull | JUser(user: AuthenticatedUser) | JOther(truthy: bool)

  /** `JSON.stringify` of a user and `JSON.parse`, which fails (`None`) on
      text that is not JSON. */
  datatype JsonCodec = JsonCodec(stringify: AuthenticatedUser -> string, parse: string -> Option<Json>)

  /** Parsing what was stringified gives the user back. */
  predicate RoundTrips(codec: JsonCodec, u: AuthenticatedUser) {
    codec.parse(codec.stringify(u)) == Some(JUser(u))
  }

  /** `readUser`: null without a window or without a truthy stored "user",
      null when the text does not parse, the parsed value otherwise. */
  function ReadUser(s: Store, codec: JsonCodec): (u: Json)
    ensures !s.hasWindow || AuthUserKey !in s.storage || s.storage[AuthUserKey] == "" ==> u == JNull
    ensures s.hasWindow && AuthUserKey in s.storage && s.storage[AuthUserKey] != "" ==>
      u == codec.parse(s.storage[AuthUserKey]).GetOr(JNull)
  {
    if !s.hasWindow || AuthUserKey !in s.storage || s.storage[AuthUserKey] == "" then JNull
    else match codec.parse(s.storage[AuthUserKey])
      case None => JNull
      case Some(v) => v
  }

  /** Storing a user and reading it back gives the user; clearing the
      session reads back as null; setting a token does not change it. */
  lemma {:induction false} ReadUserAfterStoreOps(s: Store, codec: JsonCodec, u: AuthenticatedUser, token: string)
    requires s.hasWindow && RoundTrips(codec, u) && codec.stringify(u) != ""
    ensures ReadUser(PersistAuthUser(s, Some(u), codec.stringify), codec) == JUser(u)
    ensures ReadUser(PersistAuthUser(s, None, codec.stringify), codec) == JNull
    ensures ReadUser(ClearAuthToken(s), codec) == JNull
    ensures ReadUser(SetAuthToken(s, token), codec) == ReadUser(s, codec)
  {
    var t := SetAuthToken(s, token);
    assert AuthUserKey in t.storage <==> AuthUserKey in s.storage;
  }

  /** `Boolean(currentUser)` */
  predicate IsAuthenticated(u: Json) {
    match u
    case JNull => false
    case JUser(_) => true
    case JOther(truthy) => truthy
  }

  datatype LayoutState = LayoutState(currentUser: Json, path: string)

  /** The initial state: the user read from storage. */
  function Mount(s: Store, codec: JsonCodec, path: string): (st: LayoutState)
    ensures st.path == path
    ensures IsAuthenticated(st.currentUser) ==> s.hasWindow && AuthUserKey in s.storage && s.storage[AuthUserKey] != ""
  {
    LayoutState(ReadUser(s, codec), path)
  }

  /** A frame mounted after a user was persisted shows that user; one
      mounted after the session was cleared shows nobody. */
  lemma MountShowsPersistedUser(s: Store, codec: JsonCodec, u: AuthenticatedUser, path: string)
    requires s.hasWindow && RoundTrips(codec, u) && codec.stringify(u) != ""
    ensures Mount(PersistAuthUser(s, Some(u), codec.stringify), codec, path).currentUser == JUser(u)
    ensures !IsAuthenticated(Mount(ClearAuthToken(s), codec, path).currentUser)
  {
    ReadUserAfterStoreOps(s, codec, u, "");
  }

  /** The handler of both the "storage" and the auth-change event: the user
      is re-read from storage, replacing whatever was held. */
  function Resync(st: LayoutState, s: Store, codec: JsonCodec): (r: LayoutState)
    ensures r.path == st.path
  {
    st.(currentUser := ReadUser(s, codec))
  }

  /** No hidden state: after an event two frames on the same storage agree,
      and agree with a freshly mounted frame, whatever they held before. */
  lemma ResyncDependsOnStorageOnly(a: LayoutState, b: LayoutState, s: Store, t: Store, codec: JsonCodec)
    requires s.hasWindow == t.hasWindow && s.storage == t.storage
    ensures Resync(a, s, codec).currentUser == Resync(b, t, codec).currentUser == Mount(s, codec, a.path).currentUser
  {
  }

  /** Another tab sees the shared storage but keeps its own client and so
      its own Authorization header. */
  function OtherTab(tab: Store, shared: map<string, string>): Store {
    tab.(storage := shared)
  }

  /** Two tabs share storage but not their clients' headers. When tab A
      signs out, tab B's next storage event leaves its frame with no user,
      while tab B's header still carries the old token: across tabs the
      header is not kept in sync with storage. */
  lemma CrossTabSignOut(tabA: Store, tabB: Store, frameB: LayoutState, codec: JsonCodec)
    requires tabA.hasWindow && tabB.hasWindow && tabA.storage == tabB.storage
    requires HeaderInSync(tabB)
    ensures var b := OtherTab(tabB, ClearAuthToken(tabA).storage);
      && Resync(frameB, b, codec).currentUser == JNull
      && !IsAuthenticated(Resync(frameB, b, codec).currentUser)
      && b.authHeader == tabB.authHeader
      && (AuthTokenKey in tabB.storage ==> !HeaderInSync(b) && b.authHeader.Some?)
  {
  }

  /** When tab A signs in as someone else, tab B's frame shows the new user
      after its next storage event, but tab B's requests still carry the
      previous token. */
  lemma CrossTabSignInKeepsOldToken(tabA: Store, tabB: Store, frameB: LayoutState, codec: JsonCodec,
                                    token: string, u: AuthenticatedUser)
    requires tabA.hasWindow && tabB.hasWindow && tabA.storage == tabB.storage
    requires HeaderInSync(tabB) && AuthTokenKey in tabB.storage && tabB.storage[AuthTokenKey] != token
    requires RoundTrips(codec, u) && codec.stringify(u) != ""
    ensures var a := PersistAuthUser(SetAuthToken(tabA, token), Some(u), codec.stringify);
      var b := OtherTab(tabB, a.storage);
      && Resync(frameB, b, codec).currentUser == JUser(u)
      && b.authHeader == Some(BearerHeader(tabB.storage[AuthTokenKey]))
      && b.authHeader != Some(BearerHeader(token))
      && !HeaderInSync(b)
  {
    var a1 := SetAuthToken(tabA, token);
    ReadUserAfterStoreOps(a1, codec, u, token);
    var a := PersistAuthUser(a1, Some(u), codec.stringify);
    assert AuthTokenKey in a.storage && a.storage[AuthTokenKey] == token;
    assert ("Bearer " + tabB.storage[AuthTokenKey])[7..] == tabB.storage[AuthTokenKey];
    assert ("Bearer " + token)[7..] == token;
  }

  /** A 401 on any call ends the session for every frame: the error still
      reaches the caller, the client is sent to the login page, and the
      next resync finds no user. */
  lemma UnauthorizedEndsSession<T>(s: Store, st: LayoutState, result: HttpResult<T>, codec: JsonCodec)
    requires s.hasWindow && result.Errored? && IsUnauthorized(result.error)
    ensures var r := Intercept(s, result);
      && r.1 == Rejected(result.error)
      && r.0.redirect == Some(LoginPath)
      && ReadUser(r.0, codec) == JNull
      && !IsAuthenticated(Resync(st, r.0, codec).currentUser)
  {
  }

  /** `handleSignOut`: clears the session, drops the user and navigates to
      the login page. */
  function SignOut(st: LayoutState, s: Store): (r: (LayoutState, Store))
    ensures r.0 == LayoutState(JNull, LoginPath)
    ensures r.1 == ClearAuthToken(s)
    ensures s.hasWindow ==> AuthTokenKey !in r.1.storage && AuthUserKey !in r.1.storage && r.1.authHeader.None?
  {
    (LayoutState(JNull, LoginPath), ClearAuthToken(s))
  }

  const DashboardMarker: string := "/dashboard"

  predicate IsAuthPage(path: string) { path == LoginPath }

  predicate IsDashboard(path: string) { Includes(path, DashboardMarker) }

  /** What the frame renders: on the login page only the routed page;
      elsewhere the header (desktop nav with Home/Sign In links or a Sign Out
      button, and the mobile Sign Out button or Sign In link), the page, and
      possibly the footer. */
  datatype View =
    | OutletOnly
    | Framed(homeAndSignIn: bool, signOut: bool, mobileSignOut: bool, mobileSignIn: bool, footer: bool)

  function Render(path: string, user: Json): (v: View)
    ensures v.OutletOnly? <==> path == "/login"
  {
    if IsAuthPage(path) then OutletOnly
    else
      var dashboard := IsDashboard(path);
      var signOut := dashboard && IsAuthenticated(user);
      Framed(!dashboard, signOut, signOut, !signOut, !dashboard)
  }

  /** The visibility rules, with "is a dashboard" stated positionally: away
      from the login page, the footer and the Home/Sign In links show exactly
      when "/dashboard" occurs nowhere in the path, and Sign Out exactly when
      it occurs and a user is held. The two navs never show together. */
  lemma {:induction false} VisibilityRules(path: string, user: Json)
    requires path != "/login"
    ensures var v := Render(path, user);
      && v.Framed?
      && (v.footer <==> !exists i: nat :: OccursAt(path, DashboardMarker, i))
      && (v.homeAndSignIn <==> v.footer)
      && (v.signOut <==> (exists i: nat :: OccursAt(path, DashboardMarker, i)) && IsAuthenticated(user))
      && v.mobileSignOut == v.signOut && v.mobileSignIn == !v.signOut
      && !(v.signOut && v.homeAndSignIn)
  {
    IncludesIffOccurs(path, DashboardMarker);
  }

  /** Right after sign-out the frame is on the login page and shows only the page. */
  lemma SignOutShowsLoginPage(st: LayoutState, s: Store)
    ensures Render(SignOut(st, s).0.path, SignOut(st, s).0.currentUser) == OutletOnly
  {
  }
}
