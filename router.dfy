/** The navigation guard of src/router/index.ts: the route table with its
    `requiresAuth` and `requiresAdmin` flags, and the `beforeEach` hook that
    sends every navigation on, to /login or to /home. The hook reads and
    clears the stored token and awaits `fetchProfile` of the user store
    (src/stores/userStore.ts), whose answer is an input. */
module Router {

  import opened Wrappers

  // ---------------------------------------------------------------------
  // The route table

  datatype Meta = Meta(requiresAuth: bool, requiresAdmin: bool)

  /** A route record; child paths are relative to their parent. */
  datatype Route = Route(path: string, name: Option<string>, redirect: Option<string>, meta: Meta, children: seq<Route>)

  const NoMeta: Meta := Meta(false, false)
  const AuthMeta: Meta := Meta(true, false)

  function Page(path: string, name: string, meta: Meta): Route
  {
    Route(path, Some(name), None, meta, [])
  }

  /** The children of the `/` layout. */
  const Children: seq<Route> := [
    Route("", None, Some("/home"), NoMeta, []),
    Page("home", "home", AuthMeta),
    Page("library", "library", AuthMeta),
    Page("marketplace", "marketplace", AuthMeta),
    Page("store", "store", AuthMeta),
    Page("profile", "profile", AuthMeta),
    Page("profile/:userId", "user-profile", AuthMeta),
    Page("chat/:friendId", "chat", AuthMeta),
    Page("admin", "admin", Meta(true, true)),
    Page("games/details/:id", "game-details", AuthMeta),
    Page("terms", "terms", NoMeta),
    Page("privacy", "privacy", NoMeta)
  ]

  const Routes: seq<Route> := [
    Page("/login", "login", NoMeta),
    Page("/register", "register", NoMeta),
    Route("/", None, None, NoMeta, Children)
  ]

  /** Only the admin page asks for an administrator, and it also asks for a
      signed-in user. */
  lemma OnlyAdminRequiresAdmin()
    ensures forall i :: 0 <= i < |Routes| ==> !Routes[i].meta.requiresAdmin
    ensures forall i :: 0 <= i < |Children| ==>
      (Children[i].meta.requiresAdmin <==> Children[i].name == Some("admin"))
    ensures forall i :: 0 <= i < |Children| && Children[i].meta.requiresAdmin ==> Children[i].meta.requiresAuth
  {
  }

  /** The pages open to everyone are login and register at the top, and
      terms and privacy under the layout, beside the layout itself and its
      redirect. */
  lemma PublicRecords()
    ensures forall i :: 0 <= i < |Routes| ==> !Routes[i].meta.requiresAuth
    ensures Routes[0].name == Some("login") && Routes[1].name == Some("register") && Routes[2].name == None
    ensures forall i :: 0 <= i < |Children| ==>
      (!Children[i].meta.requiresAuth <==>
         Children[i].name == None || Children[i].name == Some("terms") || Children[i].name == Some("privacy"))
  {
  }

  /** The empty child of `/` redirects to `/home`, which needs a signed-in
      user. */
  lemma RootRedirectsHome()
    ensures Routes[2].path == "/" && Routes[2].children == Children
    ensures Children[0].path == "" && Children[0].redirect == Some("/home")
    ensures Children[1].name == Some("home") && Children[1].meta.requiresAuth
    ensures forall i :: 0 <= i < |Children| && Children[i].redirect.Some? ==> i == 0
  {
  }

  // ---------------------------------------------------------------------
  // The guard

  /** The navigation target: its path and the meta of the matched record. */
  datatype Target = Target(path: string, meta: Meta)

  /** The target of a page of the table. */
  function TargetOf(r: Route, parent: string): (t: Target)
    ensures t.meta == r.meta
  {
    Target(parent + r.path, r.meta)
  }

  datatype User = User(isAdmin: bool)

  /** What `fetchProfile` does when the guard calls it: the profile comes back
      with a user, comes back without one, or the request throws. */
  datatype FetchOutcome = FetchOk(user: User) | FetchNoUser | FetchThrows

  /** One call of `next`: proceed, or redirect to a path. */
  datatype NextCall = Proceed | Redirect(to: string)

  /** The stored token and the user store's fields the guard reads. */
  datatype AuthState = AuthState(token: Option<string>, isAuthenticated: bool, user: Option<User>)

  /** A stored token counts only when it is a non-empty string. */
  predicate HasToken(token: Option<string>)
  {
    token.Some? && token.value != ""
  }

  predicate IsAuthPage(path: string)
  {
    path == "/login" || path == "/register"
  }

  /** `userStore.user?.isAdmin`, as a condition. */
  predicate IsAdmin(s: AuthState)
  {
    s.user.Some? && s.user.value.isAdmin
  }

  /** The store after `fetchProfile`: signed in with the user, or signed
      out with no user. */
  function AfterFetch(s: AuthState, fetch: FetchOutcome): (s': AuthState)
    ensures s'.token == s.token
    ensures s'.isAuthenticated <==> fetch.FetchOk?
    ensures fetch.FetchOk? ==> s'.user == Some(fetch.user)
    ensures !fetch.FetchOk? ==> s'.user == None
  {
    match fetch
    case FetchOk(u) => s.(isAuthenticated := true, user := Some(u))
    case _ => s.(isAuthenticated := false, user := None)
  }

  /** The guard fetches the profile when a token is stored but the store is
      not signed in. */
  predicate NeedsFetch(to: Target, s: AuthState)
  {
    !IsAuthPage(to.path) && HasToken(s.token) && !s.isAuthenticated
  }

  /** The state after the guard: fetched if needed, with the token removed
      when the fetch threw. */
  function GuardState(to: Target, s: AuthState, fetch: FetchOutcome): (s': AuthState)
    ensures !NeedsFetch(to, s) ==> s' == s
    ensures NeedsFetch(to, s) && fetch.FetchThrows? ==> s' == AuthState(None, false, None)
    ensures NeedsFetch(to, s) && !fetch.FetchThrows? ==> s' == AfterFetch(s, fetch)
  {
    if !NeedsFetch(to, s) then s
    else
      var fetched := AfterFetch(s, fetch);
      if fetch.FetchThrows? then fetched.(token := None) else fetched
  }

  /** The `next` call the guard makes. */
  function Decision(to: Target, s: AuthState, fetch: FetchOutcome): (c: NextCall)
    ensures IsAuthPage(to.path) ==> c == (if s.isAuthenticated then Redirect("/home") else Proceed)
    ensures !IsAuthPage(to.path) ==>
      var s' := GuardState(to, s, fetch);
      c == if to.meta.requiresAuth && !s'.isAuthenticated then Redirect("/login")
           else if to.meta.requiresAdmin && !IsAdmin(s') then Redirect("/home")
           else Proceed
  {
    if IsAuthPage(to.path) then
      if s.isAuthenticated then Redirect("/home") else Proceed
    else if NeedsFetch(to, s) && fetch.FetchThrows? && to.meta.requiresAuth then
      Redirect("/login")
    else
      var s' := GuardState(to, s, fetch);
      if to.meta.requiresAuth && !s'.isAuthenticated then Redirect("/login")
      else if to.meta.requiresAdmin && !IsAdmin(s') then Redirect("/home")
      else Proceed
  }

  /** Login and register send a signed-in user home and let anyone else in. */
  lemma AuthPagesBounceSignedInUsers(to: Target, s: AuthState, fetch: FetchOutcome)
    requires IsAuthPage(to.path)
    ensures s.isAuthenticated ==> Decision(to, s, fetch) == Redirect("/home")
    ensures !s.isAuthenticated ==> Decision(to, s, fetch) == Proceed
    ensures GuardState(to, s, fetch) == s
  {
  }

  /** A stored token the server refuses is cleared, and a protected page then
      goes to /login. */
  lemma RefusedTokenIsCleared(to: Target, s: AuthState)
    requires !IsAuthPage(to.path) && HasToken(s.token) && !s.isAuthenticated
    ensures GuardState(to, s, FetchThrows).token == None
    ensures to.meta.requiresAuth ==> Decision(to, s, FetchThrows) == Redirect("/login")
  {
  }

  /** Outside login and register, a navigation to a protected page only
      proceeds for a signed-in user, and to an admin page only for an
      administrator. */
  lemma ProceedOnlyWhenAllowed(to: Target, s: AuthState, fetch: FetchOutcome)
    requires !IsAuthPage(to.path)
    requires Decision(to, s, fetch) == Proceed
    ensures to.meta.requiresAuth ==> GuardState(to, s, fetch).isAuthenticated
    ensures to.meta.requiresAdmin ==> IsAdmin(GuardState(to, s, fetch))
  {
  }

  /** The guard only ever redirects to /login or /home. */
  lemma RedirectsGoToLoginOrHome(to: Target, s: AuthState, fetch: FetchOutcome)
    ensures Decision(to, s, fetch) in {Proceed, Redirect("/login"), Redirect("/home")}
  {
  }

  /** A visitor with no token is sent to /login from every protected page of
      the table, and a signed-in non-administrator is sent home from the
      admin page. */
  lemma TableIsGuarded(fetch: FetchOutcome)
    ensures forall i :: 0 <= i < |Children| && Children[i].meta.requiresAuth ==>
      Decision(TargetOf(Children[i], "/"), AuthState(None, false, None), fetch) == Redirect("/login")
    ensures Decision(TargetOf(Children[8], "/"), AuthState(Some("t"), true, Some(User(false))), fetch) == Redirect("/home")
  {
    forall i | 0 <= i < |Children| && Children[i].meta.requiresAuth
      ensures !IsAuthPage("/" + Children[i].path)
    {
      assert ("/" + Children[i].path)[1..] == Children[i].path;
      assert "/login"[1..] == "login" && "/register"[1..] == "register";
    }
    assert !IsAuthPage("/" + Children[8].path) by {
      assert ("/" + Children[8].path)[1..] == "admin";
    }
  }

  /** The stored token and the user store, as the guard sees them. */
  class Navigation {
    var token: Option<string>
    var isAuthenticated: bool
    var user: Option<User>

    constructor (token: Option<string>)
      ensures State() == AuthState(token, false, None)
    {
      this.token := token;
      isAuthenticated := false;
      user := None;
    }

    function State(): AuthState
      reads this
    {
      AuthState(token, isAuthenticated, user)
    }

    /** `router.beforeEach`: the `next` calls made, and the store and token
        afterwards. */
    method BeforeEach(to: Target, fetch: FetchOutcome) returns (calls: seq<NextCall>)
      modifies this
      ensures |calls| == 1
      ensures calls[0] == Decision(to, old(State()), fetch)
      ensures State() == GuardState(to, old(State()), fetch)
    {
      calls := [];
      if to.path == "/login" || to.path == "/register" {
        if isAuthenticated {
          calls := calls + [Redirect("/home")];
        } else {
          calls := calls + [Proceed];
        }
        return;
      }
      if token.Some? && token.value != "" && !isAuthenticated {
        match fetch
        case FetchOk(u) =>
          user, isAuthenticated := Some(u), true;
        case FetchNoUser =>
          isAuthenticated, user := false, None;
        case FetchThrows =>
          isAuthenticated, user := false, None;
          token := None;
          if to.meta.requiresAuth {
            calls := calls + [Redirect("/login")];
            return;
          }
      }
      if to.meta.requiresAuth && !isAuthenticated {
        calls := calls + [Redirect("/login")];
      } else if to.meta.requiresAdmin && !(user.Some? && user.value.isAdmin) {
        calls := calls + [Redirect("/home")];
      } else {
        calls := calls + [Proceed];
      }
    }
  }
}
