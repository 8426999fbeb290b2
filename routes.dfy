/** The application's route table and the guard in front of its private
    pages. A path is given as its list of segments: "/elections/42/results"
    is ["elections", "42", "results"] and "/" is []. */
module Routes {
  import opened Common

  /** What `PrivateRoute` renders. */
  datatype Outcome = LoadingText | RedirectLogin | RedirectDashboard | RenderChildren

  /** `PrivateRoute`: nothing is decided while the session is loading; then a
      missing user goes to the login page, a non-admin on an admin-only page
      goes to the dashboard, and everyone else sees the page. */
  function PrivateRoute(loading: bool, user: Option<User>, adminOnly: bool): (o: Outcome)
    ensures o == LoadingText <==> loading
    ensures o == RedirectLogin <==> !loading && user.None?
    ensures o == RedirectDashboard <==> !loading && user.Some? && adminOnly && !IsAdmin(user)
    ensures o == RenderChildren <==> !loading && user.Some? && (adminOnly ==> IsAdmin(user))
  {
    if loading then LoadingText
    else if user.None? then RedirectLogin
    else if adminOnly && user.value.role != AdminRole then RedirectDashboard
    else RenderChildren
  }

  datatype Segment = Lit(text: string) | Param(name: string)

  datatype Page =
    | LoginPage | RegisterPage | DashboardPage | ProfilePage | AdminDashboardPage
    | CreateElectionPage | CreateCandidatePage | ResultsPage | ElectionDetailsPage

  /** Who may see a page: anyone, any logged-in user, or admins only. */
  datatype Access = Public | Private | AdminOnly

  /** What a route's element is: a page behind its guard, or a redirect. */
  datatype Element = Show(page: Page, access: Access) | Redirect(target: seq<string>)

  datatype Route = Route(pattern: seq<Segment>, element: Element)

  const LoginRoute := Route([Lit("login")], Show(LoginPage, Public))
  const RegisterRoute := Route([Lit("register")], Show(RegisterPage, Public))
  const DashboardRoute := Route([Lit("dashboard")], Show(DashboardPage, Private))
  const ProfileRoute := Route([Lit("profile")], Show(ProfilePage, Private))
  const AdminRoute := Route([Lit("admin")], Show(AdminDashboardPage, AdminOnly))
  const CreateElectionRoute := Route([Lit("admin"), Lit("create-election")], Show(CreateElectionPage, AdminOnly))
  const CreateCandidateRoute :=
    Route([Lit("admin"), Lit("elections"), Param("electionId"), Lit("candidates"), Lit("create")],
          Show(CreateCandidatePage, AdminOnly))
  const ResultsRoute := Route([Lit("elections"), Param("electionId"), Lit("results")], Show(ResultsPage, Private))
  const ElectionRoute := Route([Lit("elections"), Param("electionId")], Show(ElectionDetailsPage, Private))
  const RootRoute := Route([], Redirect(["dashboard"]))

  /** The table of `App`, in its order. */
  const Table: seq<Route> := [
    LoginRoute, RegisterRoute, DashboardRoute, ProfileRoute, AdminRoute,
    CreateElectionRoute, CreateCandidateRoute, ResultsRoute, ElectionRoute, RootRoute
  ]

  /** A pattern matches a path of the same length whose segments equal its
      literals; a parameter takes any segment, and segments are never empty. */
  predicate Matches(pattern: seq<Segment>, path: seq<string>)
  {
    |pattern| == |path|
    && (forall i :: 0 <= i < |path| ==> path[i] != "")
    && forall i :: 0 <= i < |pattern| ==> (pattern[i].Lit? ==> pattern[i].text == path[i])
  }

  /** The position in the table of the first route matching `path`. */
  function FindRoute(routes: seq<Route>, path: seq<string>): (k: Option<nat>)
    ensures k.None? <==> forall j :: 0 <= j < |routes| ==> !Matches(routes[j].pattern, path)
    ensures k.Some? ==> k.value < |routes| && Matches(routes[k.value].pattern, path)
    ensures k.Some? ==> forall j :: 0 <= j < k.value ==> !Matches(routes[j].pattern, path)
  {
    if |routes| == 0 then None
    else if Matches(routes[0].pattern, path) then Some(0)
    else match FindRoute(routes[1..], path)
         case None => None
         case Some(j) => Some(j + 1)
  }

  /** The table never offers two routes for one path, so the order of the
      table (and the router's ranking of routes) cannot change which page a
      path reaches. */
  lemma AtMostOneRouteMatches(path: seq<string>, i: nat, j: nat)
    requires i < |Table| && j < |Table|
    requires Matches(Table[i].pattern, path) && Matches(Table[j].pattern, path)
    ensures i == j
  {
    var t := Table;
    assert |path| == |t[i].pattern| == |t[j].pattern|;
    if |path| > 0 {
      assert t[i].pattern[0].Lit? && t[j].pattern[0].Lit?;
      assert t[i].pattern[0].text == path[0] == t[j].pattern[0].text;
    }
  }

  /** The route a path reaches is the one whose pattern it matches. */
  lemma FindMatchingRoute(path: seq<string>, k: nat)
    requires k < |Table| && Matches(Table[k].pattern, path)
    ensures FindRoute(Table, path) == Some(k)
  {
    var f := FindRoute(Table, path);
    AtMostOneRouteMatches(path, f.value, k);
  }

  /** Where a navigation to `path` ends up. */
  datatype Landing =
    | NoRoute
    | Waiting
    | Rendered(page: Page)
    | RedirectedTo(target: seq<string>)

  /** The element of the matching route, passed through the guard. */
  function Resolve(path: seq<string>, loading: bool, user: Option<User>): (l: Landing)
    ensures l == NoRoute <==> FindRoute(Table, path).None?
  {
    match FindRoute(Table, path)
    case None => NoRoute
    case Some(k) =>
      match Table[k].element
      case Redirect(target) => RedirectedTo(target)
      case Show(page, access) =>
        if access == Public then Rendered(page)
        else
          match PrivateRoute(loading, user, access == AdminOnly)
          case LoadingText => Waiting
          case RedirectLogin => RedirectedTo(["login"])
          case RedirectDashboard => RedirectedTo(["dashboard"])
          case RenderChildren => Rendered(page)
  }

  predicate IsAdminPage(p: Page)
  {
    p == AdminDashboardPage || p == CreateElectionPage || p == CreateCandidatePage
  }

  /** Exactly three routes are admin-only, and they are the admin pages. */
  lemma AdminOnlyRoutes()
    ensures forall k :: 0 <= k < |Table| && Table[k].element.Show? ==>
              (Table[k].element.access == AdminOnly <==> IsAdminPage(Table[k].element.page))
    ensures |set k | 0 <= k < |Table| && Table[k].element.Show? && Table[k].element.access == AdminOnly| == 3
  {
    var s := set k | 0 <= k < |Table| && Table[k].element.Show? && Table[k].element.access == AdminOnly;
    assert s == {4, 5, 6};
  }

  /** Only a logged-in user who is not waiting for the session sees a page
      other than login and registration, and only an admin sees an admin
      page. */
  lemma GuardedPagesNeedUser(path: seq<string>, loading: bool, user: Option<User>)
    ensures Resolve(path, loading, user).Rendered? ==>
              var p := Resolve(path, loading, user).page;
              (p != LoginPage && p != RegisterPage ==> !loading && user.Some?)
              && (IsAdminPage(p) ==> IsAdmin(user))
  {
    var f := FindRoute(Table, path);
    if f.Some? && Table[f.value].element.Show? {
      RouteAccess(f.value);
    }
  }

  /** The guard of one route: public exactly for login and registration,
      admin-only exactly for the admin pages. */
  lemma RouteAccess(k: nat)
    requires k < |Table| && Table[k].element.Show?
    ensures Table[k].element.access == Public <==>
              Table[k].element.page == LoginPage || Table[k].element.page == RegisterPage
    ensures Table[k].element.access == AdminOnly <==> IsAdminPage(Table[k].element.page)
  {
  }

  /** The login and registration pages show without a session. */
  lemma PublicPagesAlwaysRender(loading: bool, user: Option<User>)
    ensures Resolve(["login"], loading, user) == Rendered(LoginPage)
    ensures Resolve(["register"], loading, user) == Rendered(RegisterPage)
  {
    FindMatchingRoute(["login"], 0);
    FindMatchingRoute(["register"], 1);
  }

  /** Once the session is known every redirect ends on a page within two
      hops, so redirects never loop: the guard and the root route send only
      to the login page or the dashboard; the login page is public, and the
      dashboard shows for every logged-in user and sends anyone else to the
      login page. */
  lemma RedirectTargets(path: seq<string>, user: Option<User>)
    ensures Resolve(path, false, user).RedirectedTo? ==>
              Resolve(path, false, user).target in {["login"], ["dashboard"]}
  {
    TableRedirectsToDashboard();
  }

  lemma TableRedirectsToDashboard()
    ensures forall k :: 0 <= k < |Table| && Table[k].element.Redirect? ==> Table[k].element.target == ["dashboard"]
  {
  }

  lemma DashboardResolves(user: Option<User>)
    ensures Resolve(["login"], false, user) == Rendered(LoginPage)
    ensures Resolve(["dashboard"], false, user) ==
              if user.Some? then Rendered(DashboardPage) else RedirectedTo(["login"])
  {
    FindMatchingRoute(["login"], 0);
    FindMatchingRoute(["dashboard"], 2);
  }

  /** The root path redirects to the dashboard whatever the session. */
  lemma RootRedirects(loading: bool, user: Option<User>)
    ensures Resolve([], loading, user) == RedirectedTo(["dashboard"])
  {
    assert Matches(Table[9].pattern, []);
    FindMatchingRoute([], 9);
  }
}
