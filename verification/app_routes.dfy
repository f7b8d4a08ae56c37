/** The application's routing (`src/App.tsx`): the route table, how a path picks its route,
    and the guard that wraps every admin page. The signed-in user, their role and whether
    the session is still loading come from the auth context and are parameters here. */
module AppRoutes {
  import opened Wrappers
  import opened Text

  datatype Page =
    | Home | Portfolio | ProjectDetail | About | Contact | Repositories | RepositoryDetail
    | Thoughts | ThoughtDetail | LegalPageDetail | Auth | PasswordReset
    | Dashboard | ExhibitionsManager | MessagesManager | SettingsManager | ProjectsManager
    | ExperiencesManager | SkillsManager | BlogPostsManager | LegalPagesManager
    | NotFound

  predicate IsAdminPage(p: Page) {
    p in {Dashboard, ExhibitionsManager, MessagesManager, SettingsManager, ProjectsManager,
          ExperiencesManager, SkillsManager, BlogPostsManager, LegalPagesManager}
  }

  /** What the auth context reports. */
  datatype AuthState = AuthState(signedIn: bool, isAdmin: bool, isLoading: bool)

  /** What the user ends up seeing. */
  datatype Outcome = Spinner | Redirect(to: string) | Rendered(page: Page)

  /** `ProtectedRoute`: a spinner while the session loads; then to `/auth` without a user;
      then home for a non-admin on an admin-only route; otherwise the page. */
  function Protect(auth: AuthState, adminOnly: bool, page: Page): (o: Outcome)
    ensures auth.isLoading ==> o == Spinner
    ensures !auth.isLoading && !auth.signedIn ==> o == Redirect("/auth")
    ensures !auth.isLoading && auth.signedIn && adminOnly && !auth.isAdmin ==> o == Redirect("/")
    ensures o.Rendered? <==>
              !auth.isLoading && auth.signedIn && (!adminOnly || auth.isAdmin)
    ensures o.Rendered? ==> o.page == page
  {
    if auth.isLoading then Spinner
    else if !auth.signedIn then Redirect("/auth")
    else if adminOnly && !auth.isAdmin then Redirect("/")
    else Rendered(page)
  }

  /** Literal text of a pattern segment, never empty. */
  type Literal = s: string | s != "" witness "/"

  /** A pattern segment: literal text, or a `:name` parameter. */
  datatype Segment = Static(text: Literal) | Param(name: string)

  /** A route's element: a page, a redirect, or a page behind `ProtectedRoute`. */
  datatype Element = Show(page: Page) | RedirectTo(path: string) | Guarded(adminOnly: bool, page: Page)

  datatype Route = Route(pattern: seq<Segment>, element: Element)

  /** The table, in declaration order; anything it does not match is the `*` route, the
      not-found page. */
  const Routes: seq<Route> := [
    Route([], Show(Home)),
    Route([Static("portfolio")], Show(Portfolio)),
    Route([Static("projects"), Param("slug")], Show(ProjectDetail)),
    Route([Static("about")], Show(About)),
    Route([Static("contact")], Show(Contact)),
    Route([Static("repositories")], Show(Repositories)),
    Route([Static("repositories"), Param("owner"), Param("repoName")], Show(RepositoryDetail)),
    Route([Static("thoughts")], Show(Thoughts)),
    Route([Static("thoughts"), Param("slug")], Show(ThoughtDetail)),
    Route([Static("legal"), Param("slug")], Show(LegalPageDetail)),
    Route([Static("auth")], Show(Auth)),
    Route([Static("reset-password")], Show(PasswordReset)),
    Route([Static("register")], RedirectTo("/auth")),
    Route([Static("admin")], Guarded(true, Dashboard)),
    Route([Static("admin"), Static("exhibitions")], Guarded(true, ExhibitionsManager)),
    Route([Static("admin"), Static("messages")], Guarded(true, MessagesManager)),
    Route([Static("admin"), Static("settings")], Guarded(true, SettingsManager)),
    Route([Static("admin"), Static("projects")], Guarded(true, ProjectsManager)),
    Route([Static("admin"), Static("experiences")], Guarded(true, ExperiencesManager)),
    Route([Static("admin"), Static("skills")], Guarded(true, SkillsManager)),
    Route([Static("admin"), Static("blog-posts")], Guarded(true, BlogPostsManager)),
    Route([Static("admin"), Static("legal-pages")], Guarded(true, LegalPagesManager))
  ]

  /** `xs` without its trailing empty pieces. */
  function DropTrailingEmpty(xs: seq<string>): (r: seq<string>)
    ensures |r| <= |xs| && r == xs[..|r|]
    ensures r == [] || r[|r| - 1] != ""
    ensures forall i | |r| <= i < |xs| :: xs[i] == ""
  {
    if xs == [] || xs[|xs| - 1] != "" then xs else DropTrailingEmpty(xs[..|xs| - 1])
  }

  /** A pathname's segments as the router matches them: the leading slash and any trailing
      slashes do not count, but every other slash separates two segments, so `//about` and
      `/admin//settings` hold an empty segment. */
  function Segments(path: string): (segs: seq<string>)
    ensures forall s | s in segs :: '/' !in s
    ensures segs == [] || segs[|segs| - 1] != ""
  {
    SplitPiecesLackSep(path, '/');
    var pieces := Split(path, '/');
    DropTrailingEmpty(if pieces[0] == "" then pieces[1..] else pieces)
  }

  /** `b` is `a` followed by nothing but slashes. */
  predicate SlashPadded(b: string, a: string) {
    |a| <= |b| && b[..|a|] == a && forall i | |a| <= i < |b| :: b[i] == '/'
  }

  /** Joining pieces whose tail is empty gives the join of the rest, then slashes. */
  lemma {:induction false} JoinEmptyTail(xs: seq<string>, m: nat)
    requires m <= |xs| && forall i | m <= i < |xs| :: xs[i] == ""
    ensures SlashPadded(Join(xs, "/"), Join(xs[..m], "/"))
    decreases |xs| - m
  {
    var n := |xs|;
    if m < n {
      var init := xs[..n - 1];
      assert init[..m] == xs[..m];
      JoinEmptyTail(init, m);
      if n >= 2 {
        assert xs == init + [""];
        JoinSnoc(init, "", "/");
        PadOneMore(Join(init, "/"), Join(xs[..m], "/"));
      }
    } else {
      assert xs[..m] == xs;
    }
  }

  lemma PadOneMore(b: string, a: string)
    requires SlashPadded(b, a)
    ensures SlashPadded(b + "/" + "", a)
  {
    assert (b + "/" + "")[..|a|] == b[..|a|];
  }

  /** A pathname is a slash, its segments joined by slashes, then only slashes: the
      segments lose nothing but trailing slashes. */
  lemma SegmentsRoundTrip(path: string)
    requires path != [] && path[0] == '/'
    ensures SlashPadded(path, "/" + Join(Segments(path), "/"))
  {
    var tail := path[1..];
    var rest := Split(tail, '/');
    assert Split(path, '/') == [""] + rest;
    var segs := Segments(path);
    assert segs == DropTrailingEmpty(rest) by {
      assert ([""] + rest)[1..] == rest;
    }
    JoinSplit(tail, '/');
    JoinEmptyTail(rest, |segs|);
    PadBehindSlash(tail, Join(segs, "/"));
    assert "/" + tail == path;
  }

  lemma PadBehindSlash(b: string, a: string)
    requires SlashPadded(b, a)
    ensures SlashPadded("/" + b, "/" + a)
  {
    assert ("/" + b)[..|a| + 1] == "/" + b[..|a|];
  }

  /** Literal segments compare without regard to letter case; a parameter takes any
      segment that is not empty. */
  predicate SegmentMatches(p: Segment, s: string) {
    match p
    case Static(text) => ToLower(s) == text
    case Param(_) => s != ""
  }

  predicate Matches(pattern: seq<Segment>, segs: seq<string>) {
    |pattern| == |segs| && forall i | 0 <= i < |segs| :: SegmentMatches(pattern[i], segs[i])
  }

  /** The first route of `routes` that matches, if any. */
  function FindRoute(routes: seq<Route>, segs: seq<string>): (k: Option<nat>)
    ensures k.Some? ==> k.value < |routes| && Matches(routes[k.value].pattern, segs)
    ensures k.Some? ==> forall j | 0 <= j < k.value :: !Matches(routes[j].pattern, segs)
    ensures k.None? ==> forall j | 0 <= j < |routes| :: !Matches(routes[j].pattern, segs)
  {
    if routes == [] then None
    else if Matches(routes[0].pattern, segs) then Some(0)
    else match FindRoute(routes[1..], segs)
      case None => None
      case Some(k) => Some(k + 1)
  }

  /** The element a path renders: its route's, or the not-found page. */
  function ElementFor(segs: seq<string>): (e: Element)
    ensures e != Show(NotFound) ==>
              exists k | 0 <= k < |Routes| :: Matches(Routes[k].pattern, segs) && Routes[k].element == e
  {
    match FindRoute(Routes, segs)
    case None => Show(NotFound)
    case Some(k) => Routes[k].element
  }

  /** What a visitor at `path` sees. */
  function Navigate(path: string, auth: AuthState): (o: Outcome)
    ensures FindRoute(Routes, Segments(path)).None? ==> o == Rendered(NotFound)
    ensures o == Spinner ==> auth.isLoading
  {
    match ElementFor(Segments(path))
    case Show(p) => Rendered(p)
    case RedirectTo(to) => Redirect(to)
    case Guarded(adminOnly, p) => Protect(auth, adminOnly, p)
  }

  /** A route that matches the path decides it: its element is the one chosen, a page is
      rendered, a redirect is followed and a guarded page goes through the guard. */
  lemma RouteDecides(path: string, auth: AuthState, k: nat)
    requires k < |Routes| && Matches(Routes[k].pattern, Segments(path))
    ensures ElementFor(Segments(path)) == Routes[k].element
    ensures Routes[k].element.Show? ==> Navigate(path, auth) == Rendered(Routes[k].element.page)
    ensures Routes[k].element.RedirectTo? ==> Navigate(path, auth) == Redirect(Routes[k].element.path)
    ensures Routes[k].element.Guarded? ==>
              Navigate(path, auth)
              == Protect(auth, Routes[k].element.adminOnly, Routes[k].element.page)
  {
    var f := FindRoute(Routes, Segments(path));
    AtMostOneRoute(Segments(path), f.value, k);
  }

  /** A route that keeps the admin area closed: routes under `/admin` are admin-only, only
      they are guarded, no page outside them is an admin page, and no route begins with a
      parameter. */
  predicate AdminAreaGuarded(r: Route) {
    && (r.pattern != [] ==> r.pattern[0].Static?)
    && (r.pattern != [] && r.pattern[0] == Static("admin") ==>
          r.element.Guarded? && r.element.adminOnly)
    && (r.element.Guarded? ==> r.pattern != [] && r.pattern[0] == Static("admin"))
    && (r.element.Show? ==> !IsAdminPage(r.element.page))
  }

  /** Every route of the table keeps the admin area closed. */
  lemma AdminRoutesGuarded()
    ensures forall k | 0 <= k < |Routes| :: AdminAreaGuarded(Routes[k])
  {
  }

  /** A path whose first segment is `admin`, in any letter case, is an admin-only page or
      not found. */
  lemma AdminPathsGuarded(path: string)
    requires Segments(path) != [] && ToLower(Segments(path)[0]) == "admin"
    ensures var e := ElementFor(Segments(path));
      (e.Guarded? && e.adminOnly) || e == Show(NotFound)
  {
    AdminRoutesGuarded();
    var segs := Segments(path);
    var k := FindRoute(Routes, segs);
    if k.Some? {
      assert SegmentMatches(Routes[k.value].pattern[0], segs[0]);
    }
  }

  /** Whatever the path, an admin page is shown only to a signed-in admin. */
  lemma AdminPagesOnlyForAdmins(path: string, auth: AuthState)
    requires Navigate(path, auth).Rendered? && IsAdminPage(Navigate(path, auth).page)
    ensures auth.signedIn && auth.isAdmin && !auth.isLoading
  {
    var segs := Segments(path);
    var k := FindRoute(Routes, segs);
    assert k.Some?;
    AdminRoutesGuarded();
    assert AdminAreaGuarded(Routes[k.value]);
  }

  /** `/register`, in any letter case and with any trailing slashes, sends the visitor to
      `/auth`, signed in or not. */
  lemma RegisterRedirects(path: string, auth: AuthState)
    requires |Segments(path)| == 1 && ToLower(Segments(path)[0]) == "register"
    ensures Navigate(path, auth) == Redirect("/auth")
  {
    var segs := Segments(path);
    assert Matches(Routes[12].pattern, segs);
    var k := FindRoute(Routes, segs);
    assert k.Some?;
    MatchIsCandidate(segs, k.value);
  }

  /** A path with an empty segment, such as `//about` or `/admin//settings`, matches no
      route: the visitor sees the not-found page. */
  lemma EmptySegmentNotFound(path: string, auth: AuthState)
    requires "" in Segments(path)
    ensures Navigate(path, auth) == Rendered(NotFound)
  {
    var segs := Segments(path);
    var i :| 0 <= i < |segs| && segs[i] == "";
    assert ToLower("") == "";
  }

  /** A page outside `/admin` is shown to everyone: the route table guards nothing else. */
  lemma PublicPagesNeedNoSignIn(path: string, auth: AuthState)
    requires !ElementFor(Segments(path)).Guarded?
    ensures Navigate(path, auth) == Navigate(path, AuthState(false, false, false))
  {
  }

  /** The admin page a second segment names, as an index into the table, or past its end. */
  function AdminCandidate(b: string): nat {
    if b == "exhibitions" then 14
    else if b == "messages" then 15
    else if b == "settings" then 16
    else if b == "projects" then 17
    else if b == "experiences" then 18
    else if b == "skills" then 19
    else if b == "blog-posts" then 20
    else if b == "legal-pages" then 21
    else |Routes|
  }

  /** The only route a path can match, read off its length and its literal segments: an
      index into the table, or past its end when no route matches. */
  function Candidate(segs: seq<string>): nat {
    if |segs| == 0 then 0
    else
      var a := ToLower(segs[0]);
      if |segs| == 1 then
        if a == "portfolio" then 1
        else if a == "about" then 3
        else if a == "contact" then 4
        else if a == "repositories" then 5
        else if a == "thoughts" then 7
        else if a == "auth" then 10
        else if a == "reset-password" then 11
        else if a == "register" then 12
        else if a == "admin" then 13
        else |Routes|
      else if |segs| == 2 then
        if a == "projects" then 2
        else if a == "thoughts" then 8
        else if a == "legal" then 9
        else if a == "admin" then AdminCandidate(ToLower(segs[1]))
        else |Routes|
      else if |segs| == 3 && a == "repositories" then 6
      else |Routes|
  }

  /** A route that matches a path is the path's candidate. */
  lemma MatchIsCandidate(segs: seq<string>, k: nat)
    requires k < |Routes| && Matches(Routes[k].pattern, segs)
    ensures Candidate(segs) == k
  {
    var p := Routes[k].pattern;
    if |segs| >= 1 {
      assert SegmentMatches(p[0], segs[0]);
    }
    if |segs| >= 2 {
      assert SegmentMatches(p[1], segs[1]);
    }
  }

  /** No two routes of the table can match the same path, so taking the first match is the
      router's choice of the best one. */
  lemma AtMostOneRoute(segs: seq<string>, i: nat, j: nat)
    requires i < |Routes| && j < |Routes|
    requires Matches(Routes[i].pattern, segs) && Matches(Routes[j].pattern, segs)
    ensures i == j
  {
    MatchIsCandidate(segs, i);
    MatchIsCandidate(segs, j);
  }
}
