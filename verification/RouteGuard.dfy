/** The route guard of the web client: which paths it lets through and where it redirects the others. */
module RouteGuard {
  import opened Types

  // ---------- routes ----------

  const PUBLIC_ROUTES: set<string> := {"/login", "/register", "/forgot-password", "/reset-password", "/verify-email"}

  const PROTECTED_ROUTES: set<string> := {
    "/home", "/profile", "/settings", "/profile-setup", "/explore", "/connections",
    "/u", "/messages", "/spaces", "/open-now", "/chat", "/space"
  }

  const COMMON_ROUTES: set<string> := {
    "/about", "/contact", "/pricing", "/features", "/blog", "/help", "/faq", "/terms", "/privacy",
    "/community-guidelines"
  }

  const ONBOARDING_ROUTE := "/profile-setup"
  const ONBOARDING_REQUIRED_ROUTES := PROTECTED_ROUTES - {ONBOARDING_ROUTE}
  const GUEST_TRIAL_ROUTE := "/try"
  const GUEST_TRIAL_COMPLETE_ROUTE := "/try/complete"
  const GUEST_BLOCKED_ROUTES := PROTECTED_ROUTES - {"/space"} + {"/space/search"}

  const SKIPPED_PREFIXES: set<string> := {"/_next", "/api", "/static"}
  const SKIPPED_SUFFIXES: set<string> := {
    ".ico", ".png", ".jpg", ".jpeg", ".svg", ".gif", ".webp", ".css", ".js", ".json", ".woff", ".woff2",
    ".ttf", ".eot", ".otf", ".pdf"
  }

  predicate StartsWith(path: string, prefix: string) {
    |prefix| <= |path| && forall i :: 0 <= i < |prefix| ==> path[i] == prefix[i]
  }

  predicate EndsWith(path: string, suffix: string) {
    |suffix| <= |path| && forall i :: 0 <= i < |suffix| ==> path[|path| - |suffix| + i] == suffix[i]
  }

  /** The route itself or a path below it. */
  predicate Below(path: string, route: string) {
    path == route || StartsWith(path, route + "/")
  }

  predicate ShouldSkipProxy(path: string) {
    || (exists prefix :: prefix in SKIPPED_PREFIXES && StartsWith(path, prefix))
    || (exists suffix :: suffix in SKIPPED_SUFFIXES && EndsWith(path, suffix))
  }

  predicate IsProtectedRoute(path: string) {
    exists route :: route in PROTECTED_ROUTES && StartsWith(path, route)
  }

  predicate IsOnboardingRequiredRoute(path: string) {
    exists route :: route in ONBOARDING_REQUIRED_ROUTES && StartsWith(path, route)
  }

  predicate IsCommonRoute(path: string) {
    exists route :: route in COMMON_ROUTES && Below(path, route)
  }

  predicate IsGuestBlockedRoute(path: string) {
    exists route :: route in GUEST_BLOCKED_ROUTES && Below(path, route)
  }

  predicate IsGuestTrialRoute(path: string) {
    Below(path, GUEST_TRIAL_ROUTE)
  }

  predicate IsGuestTrialCompleteRoute(path: string) {
    Below(path, GUEST_TRIAL_COMPLETE_ROUTE)
  }

  /** One segment below `/space`, search excepted. */
  predicate IsGuestSpaceMatchRoom(path: string) {
    && StartsWith(path, "/space/")
    && !Below(path, "/space/search")
    && |path| > |"/space/"| && '/' !in path[|"/space/"|..]
  }

  predicate IsGuestAccountConversionRoute(path: string) {
    path == "/register" || path == "/login" || path == "/verify-email"
  }

  /** All that the guard asks about a path. */
  datatype Page = Page(
    skipped: bool, landing: bool, common: bool, marketing: bool, public: bool, conversion: bool, trial: bool,
    trialComplete: bool, matchRoom: bool, guestBlocked: bool, protected: bool, onboarding: bool,
    onboardingRequired: bool)

  function PageAt(path: string): Page {
    Page(ShouldSkipProxy(path), path == "/landing", IsCommonRoute(path), path == "/", path in PUBLIC_ROUTES,
         IsGuestAccountConversionRoute(path), IsGuestTrialRoute(path), IsGuestTrialCompleteRoute(path),
         IsGuestSpaceMatchRoom(path), IsGuestBlockedRoute(path), IsProtectedRoute(path), path == ONBOARDING_ROUTE,
         IsOnboardingRequiredRoute(path))
  }

  // ---------- the decision ----------

  datatype GuestStatus = GuestStatus(isGuest: bool, trialConsumed: bool)

  /** What the guard learns about a session; the guest status of a logged-in session may be unknown. */
  datatype Session = Session(isLoggedIn: bool, guestStatus: Option<GuestStatus>, isOnboarded: bool)
  {
    predicate IsGuest() {
      isLoggedIn && guestStatus.Some? && guestStatus.value.isGuest
    }

    predicate IsMember() {
      isLoggedIn && guestStatus.Some? && !guestStatus.value.isGuest
    }
  }

  datatype Decision = Next | Redirect(to: string)

  function GuestTrialLandingPath(trialConsumed: bool): string {
    if trialConsumed then GUEST_TRIAL_COMPLETE_ROUTE else GUEST_TRIAL_ROUTE
  }

  function MemberHome(s: Session): string {
    if s.isOnboarded then "/home" else ONBOARDING_ROUTE
  }

  function ResolveGuestRouteRedirect(page: Page, s: Session): Option<string> {
    if s.IsMember() then
      if page.trial then Some("/home") else None
    else if !s.IsGuest() then None
    else
      var consumed := s.guestStatus.value.trialConsumed;
      if page.marketing || page.conversion then None
      else if page.public then Some(GuestTrialLandingPath(consumed))
      else if page.trial then
        if consumed && !page.trialComplete then Some(GUEST_TRIAL_COMPLETE_ROUTE)
        else if !consumed && page.trialComplete then Some(GUEST_TRIAL_ROUTE)
        else None
      else if page.matchRoom then None
      else if page.guestBlocked || page.protected then Some(GuestTrialLandingPath(consumed))
      else None
  }

  function Decide(page: Page, s: Session): Decision {
    if page.skipped then Next
    else if page.landing then Redirect("/")
    else if page.common then Next
    else if !s.isLoggedIn && page.trial then Next
    else if !s.isLoggedIn && page.matchRoom then Redirect(GUEST_TRIAL_ROUTE)
    else if ResolveGuestRouteRedirect(page, s).Some? then Redirect(ResolveGuestRouteRedirect(page, s).value)
    else if s.IsMember() && page.marketing then Redirect(MemberHome(s))
    else if s.isLoggedIn && page.public then
      if !s.IsMember() && page.conversion then Next
      else if s.IsMember() then Redirect(MemberHome(s))
      else Next
    else if !s.isLoggedIn && page.protected then Redirect("/login")
    else if s.isLoggedIn && page.onboarding && s.isOnboarded then Redirect("/home")
    else if s.IsMember() && page.onboardingRequired && !page.onboarding && !s.isOnboarded then
        Redirect(ONBOARDING_ROUTE)
    else Next
  }

  /** The guard's answer for a path. */
  function Proxy(path: string, s: Session): Decision {
    Decide(PageAt(path), s)
  }

  function Follow(path: string, decision: Decision): string {
    if decision.Redirect? then decision.to else path
  }

  /** Where the browser is after it has followed one redirect, if there is one. */
  function Hop(path: string, s: Session): string {
    Follow(path, Proxy(path, s))
  }

  // ---------- what the tests on paths mean ----------

  lemma StartsWithIs(path: string, prefix: string)
    ensures StartsWith(path, prefix) <==> exists rest :: path == prefix + rest
  {
    if StartsWith(path, prefix) {
      assert path == prefix + path[|prefix|..];
    }
  }

  lemma EndsWithIs(path: string, suffix: string)
    ensures EndsWith(path, suffix) <==> exists front :: path == front + suffix
  {
    if EndsWith(path, suffix) {
      assert path == path[..|path| - |suffix|] + suffix;
    }
    if front :| path == front + suffix {
      assert |path| - |suffix| == |front|;
      assert forall i :: 0 <= i < |suffix| ==> (front + suffix)[|front| + i] == suffix[i];
    }
  }

  /** A match room is one non-empty segment below `/space` other than `search`. */
  lemma MatchRoomIs(path: string)
    ensures IsGuestSpaceMatchRoom(path) <==> exists id :: path == "/space/" + id && IsRoomId(id)
  {
    if IsGuestSpaceMatchRoom(path) {
      var id := path[|"/space/"|..];
      assert path == "/space/" + id;
      assert "/space/" + "search" == "/space/search";
    }
    if id :| path == "/space/" + id && IsRoomId(id) {
      assert path[|"/space/"|..] == id;
      assert "/space/" + "search" == "/space/search" && "/space/search"[|"/space/"|..] == "search";
      assert |id| > 6 ==> path[13] == id[6];
    }
  }

  predicate IsRoomId(id: string) {
    id != "" && id != "search" && '/' !in id
  }

  // ---------- what the route lists imply ----------

  lemma AssetHasDot(path: string, suffix: string)
    requires suffix in SKIPPED_SUFFIXES && EndsWith(path, suffix)
    ensures '.' in path
  {
    assert suffix[0] == '.';
    assert path[|path| - |suffix| + 0] == suffix[0];
  }

  /** The pages that redirects lead to. */
  const TARGETS: set<string> := {"/", "/home", "/profile-setup", "/try", "/try/complete", "/login"}
  const MEMBER_TARGETS: set<string> := {"/home", "/profile-setup"}

  lemma NotSkipped(path: string)
    requires '.' !in path && (|path| > 1 ==> path[1] !in {'_', 'a', 's'})
    ensures !ShouldSkipProxy(path)
  {
    if suffix :| suffix in SKIPPED_SUFFIXES && EndsWith(path, suffix) {
      AssetHasDot(path, suffix);
      assert false;
    }
  }

  lemma TargetsNotCommon(path: string)
    requires path in TARGETS
    ensures !IsCommonRoute(path)
  {
    assert |path| > 4 ==>
      (path[1] == 'l' || path[2] == 'o' || path[3] in {'o', 'y'}) && path[1] in {'h', 'p', 't', 'l'};
  }

  lemma TargetsTrial(path: string)
    requires path in TARGETS
    ensures IsGuestTrialRoute(path) <==> path in {"/try", "/try/complete"}
    ensures IsGuestTrialCompleteRoute(path) <==> path == "/try/complete"
    ensures !IsGuestSpaceMatchRoom(path)
  {
    assert |path| > 1 ==> path[1] in {'h', 'p', 't', 'l'};
    assert path == "/try/complete" ==> StartsWith(path, "/try/");
  }

  lemma TargetsProtected(path: string)
    requires path in TARGETS
    ensures IsProtectedRoute(path) <==> path in MEMBER_TARGETS
  {
    if path in MEMBER_TARGETS {
      assert path in PROTECTED_ROUTES && StartsWith(path, path);
    } else {
      assert |path| > 1 ==> path[1] in {'t', 'l'};
    }
  }

  lemma TargetsPublic(path: string)
    requires path in TARGETS
    ensures path in PUBLIC_ROUTES <==> path == "/login"
    ensures IsGuestAccountConversionRoute(path) <==> path == "/login"
  {
    assert |path| > 1 ==> path[1] in {'h', 'p', 't', 'l'};
  }

  // ---------- which routes exclude each other ----------

  lemma ProtectedIsOnboardingRequired(path: string)
    ensures IsProtectedRoute(path) <==> IsOnboardingRequiredRoute(path)
  {
    if route :| route in PROTECTED_ROUTES && StartsWith(path, route) {
      assert StartsWith("/profile-setup", "/profile");
      assert route == "/profile-setup" ==> StartsWith(path, "/profile");
      assert "/profile" in ONBOARDING_REQUIRED_ROUTES;
      assert route != "/profile-setup" ==> route in ONBOARDING_REQUIRED_ROUTES;
    }
    if route :| route in ONBOARDING_REQUIRED_ROUTES && StartsWith(path, route) {
      assert route in PROTECTED_ROUTES;
    }
  }

  /** Blocking guests from `GUEST_BLOCKED_ROUTES` adds nothing to blocking them from protected routes. */
  lemma BlockedIsProtected(path: string)
    requires IsGuestBlockedRoute(path)
    ensures IsProtectedRoute(path)
  {
    var route :| route in GUEST_BLOCKED_ROUTES && Below(path, route);
    assert route == "/space/search" ==> StartsWith(path, "/space");
    assert StartsWith(path, route);
  }

  /** The first letters tell the common routes from all others. */
  predicate HasCommonLetters(path: string) {
    |path| > 3
    && (|| path[1] in {'a', 'b'}
        || (path[1] == 'f' && path[2] in {'a', 'e'})
        || (path[1] == 'p' && path[2] == 'r' && path[3] == 'i')
        || (path[1] in {'h', 't'} && path[2] == 'e')
        || (path[1] == 'c' && path[2] == 'o' && path[3] == 'm')
        || (path[1] == 'c' && path[2] == 'o' && |path| > 4 && path[4] == 't'))
  }

  lemma CommonHasLetters(path: string)
    requires IsCommonRoute(path)
    ensures HasCommonLetters(path)
  {
    var route :| route in COMMON_ROUTES && Below(path, route);
    assert path[1] == route[1] && path[2] == route[2] && path[3] == route[3];
    assert |route| > 4 ==> path[4] == route[4];
  }

  lemma LettersNotProtected(path: string)
    requires HasCommonLetters(path)
    ensures !IsProtectedRoute(path)
  {
  }

  lemma LettersNotNamed(path: string)
    requires HasCommonLetters(path)
    ensures !IsGuestTrialRoute(path) && path !in PUBLIC_ROUTES && path != "/" && path != ONBOARDING_ROUTE
  {
  }

  lemma TrialIsNotProtected(path: string)
    requires IsGuestTrialRoute(path)
    ensures !IsProtectedRoute(path)
  {
    assert path[1] == 't';
  }

  lemma PublicIsNotProtected(path: string)
    requires path in PUBLIC_ROUTES || path == "/"
    ensures !IsProtectedRoute(path) && !IsGuestTrialRoute(path)
  {
    assert |path| > 1 ==> path[1] in {'l', 'r', 'f', 'v'};
  }

  lemma NamedIsNotSkipped(path: string)
    requires path in PUBLIC_ROUTES || path in TARGETS
    ensures !ShouldSkipProxy(path)
  {
    NotSkipped(path);
  }

  // ---------- what that says of pages ----------

  /** A page that a redirect leads to is the page that it should be. */
  predicate IsTarget(page: Page, path: string) {
    && !page.skipped && !page.landing && !page.common && !page.matchRoom
    && (page.marketing <==> path == "/")
    && (page.public <==> path == "/login")
    && (page.conversion <==> path == "/login")
    && (page.trial <==> path in {"/try", "/try/complete"})
    && (page.trialComplete <==> path == "/try/complete")
    && (page.protected <==> path in MEMBER_TARGETS)
    && (page.onboarding <==> path == ONBOARDING_ROUTE)
  }

  /** A page that only a session of its own kind is to see. */
  predicate Marked(page: Page) {
    page.marketing || page.public || page.trial || page.onboarding
  }

  predicate Consistent(page: Page) {
    && (page.common ==> !page.protected && !Marked(page))
    && (page.trial || page.public || page.marketing ==> !page.protected)
    && (page.guestBlocked ==> page.protected)
    && (page.protected <==> page.onboardingRequired)
    && (page.onboarding ==> page.protected && !page.matchRoom)
    && (page.conversion ==> page.public)
    && (page.skipped && Marked(page) ==> page.trial)
  }

  lemma CommonPages(path: string)
    ensures PageAt(path).common ==> !PageAt(path).protected && !Marked(PageAt(path))
  {
    if IsCommonRoute(path) {
      CommonHasLetters(path);
      LettersNotProtected(path);
      LettersNotNamed(path);
    }
  }

  lemma OpenPages(path: string)
    ensures PageAt(path).trial || PageAt(path).public || PageAt(path).marketing ==> !PageAt(path).protected
  {
    if IsGuestTrialRoute(path) {
      TrialIsNotProtected(path);
    } else if path in PUBLIC_ROUTES || path == "/" {
      PublicIsNotProtected(path);
    }
  }

  lemma ProtectedPages(path: string)
    ensures PageAt(path).guestBlocked ==> PageAt(path).protected
    ensures PageAt(path).protected <==> PageAt(path).onboardingRequired
    ensures PageAt(path).onboarding ==> PageAt(path).protected && !PageAt(path).matchRoom
  {
    assert path == ONBOARDING_ROUTE ==> path in PROTECTED_ROUTES && StartsWith(path, path) && path[1] == 'p';
    if IsGuestBlockedRoute(path) {
      BlockedIsProtected(path);
    }
    ProtectedIsOnboardingRequired(path);
  }

  lemma SkippedPages(path: string)
    ensures PageAt(path).skipped && Marked(PageAt(path)) ==> PageAt(path).trial
    ensures PageAt(path).conversion ==> PageAt(path).public
  {
    if path in PUBLIC_ROUTES || path == "/" || path == ONBOARDING_ROUTE {
      NamedIsNotSkipped(path);
    }
  }

  lemma PageIsConsistent(path: string)
    ensures Consistent(PageAt(path))
  {
    CommonPages(path);
    OpenPages(path);
    ProtectedPages(path);
    SkippedPages(path);
  }

  lemma ServedTargets(path: string)
    requires path in TARGETS
    ensures !PageAt(path).skipped && !PageAt(path).common
  {
    NamedIsNotSkipped(path);
    TargetsNotCommon(path);
  }

  lemma NamedTargets(path: string)
    requires path in TARGETS
    ensures !PageAt(path).landing
    ensures PageAt(path).marketing <==> path == "/"
    ensures PageAt(path).onboarding <==> path == ONBOARDING_ROUTE
  {
    assert path[|path| - 1] != 'g';
  }

  lemma TrialTargets(path: string)
    requires path in TARGETS
    ensures !PageAt(path).matchRoom
    ensures PageAt(path).trial <==> path in {"/try", "/try/complete"}
    ensures PageAt(path).trialComplete <==> path == "/try/complete"
  {
    TargetsTrial(path);
  }

  lemma AccountTargets(path: string)
    requires path in TARGETS
    ensures PageAt(path).public <==> path == "/login"
    ensures PageAt(path).conversion <==> path == "/login"
    ensures PageAt(path).protected <==> path in MEMBER_TARGETS
  {
    TargetsPublic(path);
    TargetsProtected(path);
  }

  lemma TargetsAreTargets(path: string)
    requires path in TARGETS
    ensures IsTarget(PageAt(path), path) && Consistent(PageAt(path))
  {
    PageIsConsistent(path);
    ServedTargets(path);
    NamedTargets(path);
    TrialTargets(path);
    AccountTargets(path);
  }

  // ---------- chains of redirects, over any pages that fit ----------

  ghost predicate Fits(at: string -> Page) {
    && (forall path :: Consistent(at(path)))
    && (forall path :: path in TARGETS ==> IsTarget(at(path), path))
  }

  function HopBy(at: string -> Page, path: string, s: Session): string {
    Follow(path, Decide(at(path), s))
  }

  /** Where the browser stays after at most two redirects. */
  function EndBy(at: string -> Page, path: string, s: Session): string {
    HopBy(at, HopBy(at, path, s), s)
  }

  lemma EndIsServed(at: string -> Page, path: string, s: Session)
    requires Fits(at)
    ensures Decide(at(EndBy(at, path, s)), s) == Next
  {
    assert IsTarget(at("/"), "/");
  }

  lemma SecondHopIff(at: string -> Page, path: string, s: Session)
    requires Fits(at)
    ensures Decide(at(path), s).Redirect? && Decide(at(HopBy(at, path, s)), s).Redirect?
       <==> s.IsMember() && !at(path).skipped && (at(path).landing || (at(path).trial && !s.isOnboarded))
  {
    assert Consistent(at(path));
    assert IsTarget(at("/"), "/") && IsTarget(at("/home"), "/home") && Consistent(at("/home"));
  }

  lemma AnonymousEndsBy(at: string -> Page, path: string, s: Session)
    requires Fits(at) && !s.isLoggedIn
    ensures at(EndBy(at, path, s)).protected <==> at(path).skipped && at(path).protected
  {
    assert Consistent(at(path));
    assert IsTarget(at("/"), "/");
  }

  lemma GuestEndsBy(at: string -> Page, path: string, s: Session)
    requires Fits(at) && s.IsGuest()
    ensures var end := at(EndBy(at, path, s));
      end.protected && !end.matchRoom <==> at(path).skipped && at(path).protected && !at(path).matchRoom
  {
    assert Consistent(at(path));
    assert IsTarget(at("/"), "/");
  }

  lemma MemberEndsBy(at: string -> Page, path: string, s: Session)
    requires Fits(at) && s.IsMember()
    ensures var end := at(EndBy(at, path, s));
      if s.isOnboarded then Marked(end) <==> at(path).skipped && at(path).trial
      else end.protected && !end.onboarding <==> at(path).skipped && at(path).protected
  {
    assert Consistent(at(path));
    assert IsTarget(at("/"), "/");
  }

  /** Where a visitor who asks for such a page stays. */
  lemma AnonymousStaysBy(at: string -> Page, path: string, s: Session)
    requires Fits(at) && !s.isLoggedIn
    ensures var page := at(path);
      EndBy(at, path, s) ==
        if page.skipped then path
        else if page.landing then "/"
        else if page.common || page.trial then path
        else if page.matchRoom then "/try"
        else if page.protected then "/login"
        else path
  {
    assert IsTarget(at("/"), "/") && IsTarget(at("/try"), "/try") && IsTarget(at("/login"), "/login");
  }

  lemma GuestStaysBy(at: string -> Page, path: string, s: Session)
    requires Fits(at) && s.IsGuest()
    ensures var page, trial := at(path), if s.guestStatus.value.trialConsumed then "/try/complete" else "/try";
      EndBy(at, path, s) ==
        if page.skipped then path
        else if page.landing then "/"
        else if page.common || page.marketing || page.conversion then path
        else if page.public then trial
        else if page.trial then if s.guestStatus.value.trialConsumed == page.trialComplete then path else trial
        else if page.matchRoom then path
        else if page.protected then trial
        else path
  {
    assert IsTarget(at("/"), "/") && IsTarget(at("/try"), "/try") && IsTarget(at("/try/complete"), "/try/complete");
    assert Consistent(at(path));
  }

  lemma MemberStaysBy(at: string -> Page, path: string, s: Session)
    requires Fits(at) && s.IsMember()
    ensures var page, home := at(path), if s.isOnboarded then "/home" else "/profile-setup";
      EndBy(at, path, s) ==
        if page.skipped then path
        else if page.landing then home
        else if page.common then path
        else if page.marketing || page.public || page.trial then home
        else if page.onboarding && s.isOnboarded then "/home"
        else if page.protected && !page.onboarding && !s.isOnboarded then "/profile-setup"
        else path
  {
    assert IsTarget(at("/"), "/") && IsTarget(at("/home"), "/home");
    assert IsTarget(at("/profile-setup"), "/profile-setup");
    assert Consistent(at(path)) && Consistent(at("/home")) && Consistent(at("/profile-setup"));
  }

  lemma UnknownStaysBy(at: string -> Page, path: string, s: Session)
    requires Fits(at) && s.isLoggedIn && s.guestStatus.None?
    ensures var page := at(path);
      EndBy(at, path, s) ==
        if page.skipped then path
        else if page.landing then "/"
        else if !page.common && page.onboarding && s.isOnboarded then "/home"
        else path
  {
    assert IsTarget(at("/"), "/") && IsTarget(at("/home"), "/home");
    assert Consistent(at(path));
  }

  // ---------- the guard ----------

  lemma PagesFit()
    ensures forall path :: path in TARGETS ==> IsTarget(PageAt(path), path)
    ensures forall path :: Consistent(PageAt(path))
  {
    forall path | path in TARGETS
      ensures IsTarget(PageAt(path), path)
    {
      TargetsAreTargets(path);
    }
    forall path
      ensures Consistent(PageAt(path))
    {
      PageIsConsistent(path);
    }
  }

  function End(path: string, s: Session): string {
    Hop(Hop(path, s), s)
  }

  /** Whatever the path and the session, at most two redirects lead to a page that is served. */
  lemma RedirectsEnd(path: string, s: Session)
    ensures Proxy(End(path, s), s) == Next
  {
    PagesFit();
    EndIsServed(PageAt, path, s);
  }

  /** Two redirects are taken exactly by members on the retired landing page, or in the trial before onboarding. */
  lemma TwoRedirectsIff(path: string, s: Session)
    ensures Proxy(path, s).Redirect? && Proxy(Hop(path, s), s).Redirect?
       <==> (&& s.IsMember() && !ShouldSkipProxy(path)
             && (path == "/landing" || (IsGuestTrialRoute(path) && !s.isOnboarded)))
  {
    PagesFit();
    SecondHopIff(PageAt, path, s);
  }

  /** Where a visitor ends up: protected pages lead to the login, match rooms to the trial. */
  lemma AnonymousStays(path: string, s: Session)
    requires !s.isLoggedIn
    ensures End(path, s) ==
      if ShouldSkipProxy(path) then path
      else if path == "/landing" then "/"
      else if IsCommonRoute(path) || IsGuestTrialRoute(path) then path
      else if IsGuestSpaceMatchRoom(path) then "/try"
      else if IsProtectedRoute(path) then "/login"
      else path
  {
    PagesFit();
    AnonymousStaysBy(PageAt, path, s);
  }

  /** Where a guest ends up: protected and sign-in pages lead to the trial, or to its end once it is used up. */
  lemma GuestStays(path: string, s: Session)
    requires s.IsGuest()
    ensures var trial := if s.guestStatus.value.trialConsumed then "/try/complete" else "/try";
      End(path, s) ==
        if ShouldSkipProxy(path) then path
        else if path == "/landing" then "/"
        else if IsCommonRoute(path) || path == "/" || IsGuestAccountConversionRoute(path) then path
        else if path in PUBLIC_ROUTES then trial
        else if IsGuestTrialRoute(path) then
          if s.guestStatus.value.trialConsumed == IsGuestTrialCompleteRoute(path) then path else trial
        else if IsGuestSpaceMatchRoom(path) then path
        else if IsProtectedRoute(path) then trial
        else path
  {
    PagesFit();
    GuestStaysBy(PageAt, path, s);
  }

  /** Where a full account ends up: at home, or on the setup page until onboarding is done. */
  lemma MemberStays(path: string, s: Session)
    requires s.IsMember()
    ensures var home := if s.isOnboarded then "/home" else "/profile-setup";
      End(path, s) ==
        if ShouldSkipProxy(path) then path
        else if path == "/landing" then home
        else if IsCommonRoute(path) then path
        else if path == "/" || path in PUBLIC_ROUTES || IsGuestTrialRoute(path) then home
        else if path == "/profile-setup" || (IsProtectedRoute(path) && !s.isOnboarded) then home
        else path
  {
    PagesFit();
    MemberStaysBy(PageAt, path, s);
  }

  /** A session whose guest status is unknown is only sent away from the retired and the finished setup page. */
  lemma UnknownStays(path: string, s: Session)
    requires s.isLoggedIn && s.guestStatus.None?
    ensures End(path, s) ==
      if ShouldSkipProxy(path) then path
      else if path == "/landing" then "/"
      else if path == "/profile-setup" && s.isOnboarded then "/home"
      else path
  {
    PagesFit();
    UnknownStaysBy(PageAt, path, s);
    assert Consistent(PageAt(path));
  }

  /** A visitor ends on a protected page exactly when its path passes for a static file. */
  lemma AnonymousEnds(path: string, s: Session)
    requires !s.isLoggedIn
    ensures IsProtectedRoute(End(path, s)) <==> ShouldSkipProxy(path) && IsProtectedRoute(path)
  {
    PagesFit();
    AnonymousEndsBy(PageAt, path, s);
  }

  /** So does a guest, who may also enter a match room. */
  lemma GuestEnds(path: string, s: Session)
    requires s.IsGuest()
    ensures IsProtectedRoute(End(path, s)) && !IsGuestSpaceMatchRoom(End(path, s))
       <==> ShouldSkipProxy(path) && IsProtectedRoute(path) && !IsGuestSpaceMatchRoom(path)
  {
    PagesFit();
    GuestEndsBy(PageAt, path, s);
  }

  /** Members are kept out of the trial, and on the setup page until onboarding is done. */
  lemma MemberEnds(path: string, s: Session)
    requires s.IsMember()
    ensures s.isOnboarded ==> (Marked(PageAt(End(path, s))) <==> ShouldSkipProxy(path) && IsGuestTrialRoute(path))
    ensures !s.isOnboarded ==>
      (IsProtectedRoute(End(path, s)) && End(path, s) != ONBOARDING_ROUTE
       <==> ShouldSkipProxy(path) && IsProtectedRoute(path))
  {
    PagesFit();
    MemberEndsBy(PageAt, path, s);
  }

  /** User names as the server keeps them, lower-cased and trimmed. */
  predicate IsUsername(name: string) {
    3 <= |name| <= 30 && forall c <- name :: 'a' <= c <= 'z' || '0' <= c <= '9' || c == '_'
  }

  /** No user name makes a profile path pass for a static file: visitors and guests never end on a profile. */
  lemma ProfilesAreGuarded(name: string, s: Session)
    requires IsUsername(name)
    ensures var path := "/u/" + name;
      && !ShouldSkipProxy(path) && IsProtectedRoute(path) && IsGuestBlockedRoute(path)
      && (!s.isLoggedIn ==> !IsProtectedRoute(End(path, s)))
      && (s.IsGuest() ==> !IsProtectedRoute(End(path, s)) || IsGuestSpaceMatchRoom(End(path, s)))
  {
    var path := "/u/" + name;
    assert path[1] == 'u' && '.' !in path;
    NotSkipped(path);
    assert "/u" in GUEST_BLOCKED_ROUTES && StartsWith(path, "/u" + "/");
    assert "/u" in PROTECTED_ROUTES && StartsWith(path, "/u");
    if !s.isLoggedIn {
      AnonymousEnds(path, s);
    } else if s.IsGuest() {
      GuestEnds(path, s);
    }
  }

  /** The exception is not empty: the guard passes a guest-blocked path that ends like a script, for every session. */
  lemma StaticSuffixBypasses(s: Session)
    ensures IsGuestBlockedRoute("/u/node.js") && !IsGuestSpaceMatchRoom("/u/node.js")
    ensures Proxy("/u/node.js", s) == Next
  {
    var path := "/u/node.js";
    assert path[1] == 'u';
    assert EndsWith(path, ".js") && ".js" in SKIPPED_SUFFIXES;
    assert "/u" in GUEST_BLOCKED_ROUTES && StartsWith(path, "/u/");
  }
}
