/** The client's top-level component: the session it keeps (signed in or
    not, the teacher, the academic year chosen), what it keeps in local
    storage and in the default `Authorization` header, and which page each
    route renders for a given session. The server's answers to `me`,
    `login` and `signup` are parameters. */
module App {
  import opened Common

  const LoginFailed: string := "Login failed"
  const SignupFailed: string := "Signup failed"

  /** The teacher as the server's auth routes return it. */
  datatype Teacher = Teacher(id: string, name: string, email: string, department: string, facultyId: string)

  /** The paths of the router; `Elsewhere` is any path none of them matches. */
  datatype Route = LoginRoute | SignupRoute | SelectYearRoute | DashboardRoute | RootRoute | Elsewhere

  /** What the application renders. */
  datatype Element =
    | Loading
    | LoginPage
    | SignupPage
    | YearSelector
    | DashboardPage(academicYear: string)
    | Redirect(to: Route)
    | Blank

  /** The signed-in teacher's default page: the dashboard once a year is
      chosen, the year selector before. */
  function Home(year: Option<string>): (to: Route)
    ensures to == DashboardRoute || to == SelectYearRoute
  {
    if Truthy(year) then DashboardRoute else SelectYearRoute
  }

  /** The element each route renders for a session. */
  function Render(loading: bool, authenticated: bool, year: Option<string>, route: Route): Element
  {
    if loading then Loading
    else match route
      case LoginRoute => if authenticated then Redirect(Home(year)) else LoginPage
      case SignupRoute => if authenticated then Redirect(Home(year)) else SignupPage
      case SelectYearRoute =>
        if !authenticated then Redirect(LoginRoute)
        else if Truthy(year) then Redirect(DashboardRoute) else YearSelector
      case DashboardRoute =>
        if !authenticated then Redirect(LoginRoute)
        else if Truthy(year) then DashboardPage(year.value) else Redirect(SelectYearRoute)
      case RootRoute => if authenticated then Redirect(Home(year)) else Redirect(LoginRoute)
      case Elsewhere => Blank
  }

  /** `isAuthenticated && selectedAcademicYear`, once loading is over: the
      navigation bar is shown exactly when the dashboard is where the
      dashboard's path ends, and then every known path but the year
      selector's ends there too. */
  function NavbarShown(loading: bool, authenticated: bool, year: Option<string>): (shown: bool)
    ensures shown <==> Settle(loading, authenticated, year, DashboardRoute).DashboardPage?
    ensures shown ==> forall route :: route != Elsewhere && route != SelectYearRoute ==>
                        Settle(loading, authenticated, year, route) == DashboardPage(year.value)
  {
    !loading && authenticated && Truthy(year)
  }

  /** A redirect lands on a page: following one never meets another. */
  lemma RedirectsSettleInOneStep(loading: bool, authenticated: bool, year: Option<string>, route: Route)
    requires Render(loading, authenticated, year, route).Redirect?
    ensures !Render(loading, authenticated, year, Render(loading, authenticated, year, route).to).Redirect?
  {
  }

  /** The page a route ends on once its redirect, if any, is followed. */
  function Settle(loading: bool, authenticated: bool, year: Option<string>, route: Route): (e: Element)
    ensures !e.Redirect?
  {
    var first := Render(loading, authenticated, year, route);
    if first.Redirect? then
      RedirectsSettleInOneStep(loading, authenticated, year, route);
      Render(loading, authenticated, year, first.to)
    else first
  }

  /** The dashboard renders exactly when a signed-in teacher with a chosen
      year asks for it, and it shows that year. */
  lemma DashboardNeedsSessionAndYear(loading: bool, authenticated: bool, year: Option<string>,
                                     route: Route, shown: string)
    ensures Render(loading, authenticated, year, route) == DashboardPage(shown)
            <==> !loading && authenticated && Truthy(year) && route == DashboardRoute && shown == year.value
  {
  }

  /** A visitor who is not signed in only ever lands on the login or the
      signup page (or on nothing, for an unknown path). */
  lemma GuestsLandOnLoginOrSignup(year: Option<string>, route: Route)
    ensures Settle(false, false, year, route) in {LoginPage, SignupPage, Blank}
    ensures Settle(false, false, year, route) == SignupPage <==> route == SignupRoute
  {
  }

  /** A signed-in teacher lands on the dashboard from every known path but
      the year selector once a year is chosen, and on the year selector from
      every known path before. */
  lemma SignedInLandsHome(year: Option<string>, route: Route)
    requires route != Elsewhere
    ensures Truthy(year) ==> Settle(false, true, year, route) == DashboardPage(year.value)
    ensures !Truthy(year) ==> Settle(false, true, year, route) == YearSelector
  {
  }

  /** The browser's local storage as the component uses it. */
  datatype Storage = Storage(token: Option<string>, selectedAcademicYear: Option<string>)

  /** The server's answer to `login` or `signup`. */
  datatype AuthAnswer = Accepted(token: string, teacher: Teacher) | Refused(message: Option<string>)

  /** The value `login` and `signup` resolve to. */
  datatype AuthResult = AuthResult(success: bool, message: Option<string>)

  /** The authorization header value for a token. */
  function Bearer(token: string): string
  {
    "Bearer " + token
  }

  /** The component's state. */
  class Session {
    var isAuthenticated: bool
    var teacher: Option<Teacher>
    var loading: bool
    var selectedAcademicYear: Option<string>
    var storage: Storage
    var authorization: Option<string>

    /** The first render, before the mount effect: loading, nobody signed in. */
    constructor (storage0: Storage, authorization0: Option<string>)
      ensures isAuthenticated == false && teacher == None && loading
      ensures selectedAcademicYear == None
      ensures storage == storage0 && authorization == authorization0
    {
      isAuthenticated := false;
      teacher := None;
      loading := true;
      selectedAcademicYear := None;
      storage := storage0;
      authorization := authorization0;
    }

    /** The mount effect and `checkAuth`: a stored token is put in the
        header and checked with `me` (the server's answer: the teacher, or
        `None` when it refuses the token, which is then forgotten); a
        stored year is restored; loading ends either way. */
    method Mount(me: Option<Teacher>)
      modifies this
      ensures !loading
      ensures Truthy(old(storage.token)) && me.Some? ==>
                isAuthenticated && teacher == me && storage == old(storage)
                && authorization == Some(Bearer(old(storage.token).value))
      ensures Truthy(old(storage.token)) && me.None? ==>
                isAuthenticated == old(isAuthenticated) && teacher == old(teacher)
                && storage == old(storage).(token := None) && authorization == None
      ensures !Truthy(old(storage.token)) ==>
                isAuthenticated == old(isAuthenticated) && teacher == old(teacher)
                && storage == old(storage) && authorization == old(authorization)
      ensures selectedAcademicYear ==
                (if Truthy(old(storage.selectedAcademicYear)) then old(storage.selectedAcademicYear)
                 else old(selectedAcademicYear))
    {
      var token := storage.token;
      var savedYear := storage.selectedAcademicYear;
      if Truthy(token) {
        authorization := Some(Bearer(token.value));
        if me.Some? {
          teacher := me;
          isAuthenticated := true;
        } else {
          storage := storage.(token := None);
          authorization := None;
        }
      }
      loading := false;
      if Truthy(savedYear) {
        selectedAcademicYear := savedYear;
      }
    }

    /** `login` and `signup`: an accepted answer stores the token, sets the
        header and signs the teacher in; a refused one changes nothing and
        reports the server's message or `fallback`. */
    method Authenticate(answer: AuthAnswer, fallback: string) returns (result: AuthResult)
      modifies this
      ensures answer.Accepted? ==>
                && result == AuthResult(true, None)
                && storage == old(storage).(token := Some(answer.token))
                && authorization == Some(Bearer(answer.token))
                && teacher == Some(answer.teacher) && isAuthenticated
      ensures answer.Refused? ==>
                && result == AuthResult(false, Some(FailureText(answer.message, fallback)))
                && storage == old(storage) && authorization == old(authorization)
                && teacher == old(teacher) && isAuthenticated == old(isAuthenticated)
      ensures loading == old(loading) && selectedAcademicYear == old(selectedAcademicYear)
    {
      match answer
      case Accepted(token, t) =>
        storage := storage.(token := Some(token));
        authorization := Some(Bearer(token));
        teacher := Some(t);
        isAuthenticated := true;
        result := AuthResult(true, None);
      case Refused(message) =>
        result := AuthResult(false, Some(FailureText(message, fallback)));
    }

    /** `login(email, department, facultyId)` given the server's answer. */
    method Login(answer: AuthAnswer) returns (result: AuthResult)
      modifies this
      ensures answer.Accepted? ==>
                result.success && isAuthenticated && teacher == Some(answer.teacher)
                && storage == old(storage).(token := Some(answer.token))
                && authorization == Some(Bearer(answer.token))
      ensures answer.Refused? ==>
                result == AuthResult(false, Some(FailureText(answer.message, LoginFailed)))
                && storage == old(storage) && authorization == old(authorization)
                && teacher == old(teacher) && isAuthenticated == old(isAuthenticated)
      ensures loading == old(loading) && selectedAcademicYear == old(selectedAcademicYear)
    {
      result := Authenticate(answer, LoginFailed);
    }

    /** `signup(name, email, password, department, facultyId, subjectId)` given the server's answer. */
    method Signup(answer: AuthAnswer) returns (result: AuthResult)
      modifies this
      ensures answer.Accepted? ==>
                result.success && isAuthenticated && teacher == Some(answer.teacher)
                && storage == old(storage).(token := Some(answer.token))
                && authorization == Some(Bearer(answer.token))
      ensures answer.Refused? ==>
                result == AuthResult(false, Some(FailureText(answer.message, SignupFailed)))
                && storage == old(storage) && authorization == old(authorization)
                && teacher == old(teacher) && isAuthenticated == old(isAuthenticated)
      ensures loading == old(loading) && selectedAcademicYear == old(selectedAcademicYear)
    {
      result := Authenticate(answer, SignupFailed);
    }

    /** `handleAcademicYearSelect`: the year is chosen and remembered. */
    method HandleAcademicYearSelect(year: string)
      modifies this
      ensures selectedAcademicYear == Some(year)
      ensures storage == old(storage).(selectedAcademicYear := Some(year))
      ensures isAuthenticated == old(isAuthenticated) && teacher == old(teacher)
      ensures loading == old(loading) && authorization == old(authorization)
    {
      selectedAcademicYear := Some(year);
      storage := storage.(selectedAcademicYear := Some(year));
    }

    /** `handleBackToYearSelection`: the year is forgotten, the session kept. */
    method HandleBackToYearSelection()
      modifies this
      ensures selectedAcademicYear == None
      ensures storage == old(storage).(selectedAcademicYear := None)
      ensures isAuthenticated == old(isAuthenticated) && teacher == old(teacher)
      ensures loading == old(loading) && authorization == old(authorization)
    {
      selectedAcademicYear := None;
      storage := storage.(selectedAcademicYear := None);
    }

    /** `logout`: token, year, header and teacher are all dropped. */
    method Logout()
      modifies this
      ensures !isAuthenticated && teacher == None && selectedAcademicYear == None
      ensures storage == Storage(None, None) && authorization == None
      ensures loading == old(loading)
    {
      storage := Storage(None, None);
      authorization := None;
      teacher := None;
      isAuthenticated := false;
      selectedAcademicYear := None;
    }
  }

  /** After a logout every known path ends on the login page. */
  method LogoutLandsOnLogin(s: Session, route: Route) returns (landing: Element)
    requires !s.loading && route != Elsewhere && route != SignupRoute
    modifies s
    ensures landing == LoginPage
  {
    s.Logout();
    landing := Settle(s.loading, s.isAuthenticated, s.selectedAcademicYear, route);
  }

  /** Choosing a year and reloading the page brings the same year back. */
  method ChosenYearSurvivesReload(s: Session, year: string, me: Option<Teacher>) returns (restored: Option<string>)
    requires year != ""
    modifies s
    ensures restored == Some(year)
  {
    s.HandleAcademicYearSelect(year);
    var reloaded := new Session(s.storage, None);
    reloaded.Mount(me);
    restored := reloaded.selectedAcademicYear;
  }
}
