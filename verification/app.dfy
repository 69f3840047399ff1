/** The application state of the entry module and the decisions it makes from
    it: which layout to show, whether a route is authorized, the header's status
    label, and what login, logout, session refresh and clearing do to the state.
    The Firebase and server calls are their results, passed in. */
module App {
  import opened Wrappers
  import Session

  /** The signed-in user; only whether an id token is present matters here. */
  datatype UserData = UserData(uid: string, idToken: Option<string>)

  datatype AppState = AppState(user: Option<UserData>, sessionData: Option<Session.SessionData>,
                               sessionState: Session.SessionState, loading: bool, error: Option<string>)

  datatype Layout = PrivateLayout | SubscriptionExpiredLayout | SecurityWarningLayout | SessionExpiredLayout | PublicLayout

  // ---------------------------------------------------------------- decisions

  /** `is_authorized` of `ShowWhenAuthenticated`. */
  predicate IsAuthorized(userPresent: bool, state: Session.SessionState, hasValidSubscription: bool) {
    userPresent && Session.IsSessionValid(state) && hasValidSubscription
  }

  /** `LayoutSelector`'s match, arm by arm. */
  function SelectLayout(userPresent: bool, state: Session.SessionState, hasValidSubscription: bool): (l: Layout)
    ensures l == PrivateLayout <==> IsAuthorized(userPresent, state, hasValidSubscription)
    ensures !userPresent ==> l == PublicLayout
  {
    if userPresent && (state == Session.Valid || state == Session.Offline) && hasValidSubscription then PrivateLayout
    else if userPresent && state == Session.SubscriptionExpired then SubscriptionExpiredLayout
    else if userPresent && state == Session.TamperingDetected then SecurityWarningLayout
    else if userPresent && state == Session.Expired then SessionExpiredLayout
    else PublicLayout
  }

  /** For a signed-in user the three failure states have layouts of their own
      whatever the subscription says; a valid session without a valid subscription,
      and every other state, fall through to the public layout. */
  lemma SelectLayoutCases(state: Session.SessionState, sub: bool)
    ensures SelectLayout(true, state, sub) == SubscriptionExpiredLayout <==> state == Session.SubscriptionExpired
    ensures SelectLayout(true, state, sub) == SecurityWarningLayout <==> state == Session.TamperingDetected
    ensures SelectLayout(true, state, sub) == SessionExpiredLayout <==> state == Session.Expired
    ensures SelectLayout(true, state, sub) == PublicLayout <==>
              (Session.IsSessionValid(state) && !sub) || state in {Session.Loading, Session.NetworkError, Session.InvalidSignature, Session.ReplayAttack}
  {
  }

  /** The header's status label. */
  function StatusLabel(state: Session.SessionState): (s: string)
    ensures s == LoadingLabel <==> state in {Session.Loading, Session.NetworkError, Session.InvalidSignature, Session.ReplayAttack}
  {
    match state
    case Valid => "🟢 Online"
    case Offline => "🟡 Offline"
    case Expired => "🔴 Session Expired"
    case TamperingDetected => "⚠️ Security Warning"
    case SubscriptionExpired => "❌ Subscription Expired"
    case _ => LoadingLabel
  }

  const LoadingLabel: string := "⏳ Loading..."

  /** Distinct states outside the loading group get distinct labels. */
  lemma StatusLabelInjective(a: Session.SessionState, b: Session.SessionState)
    requires StatusLabel(a) != LoadingLabel
    ensures StatusLabel(a) == StatusLabel(b) <==> a == b
  {
  }

  // ---------------------------------------------------------------- transitions

  /** `clear_session`: user, session and error gone, state back to `Loading`;
      the loading flag is left as it was. */
  function ClearSession(a: AppState): (r: AppState)
    ensures r.user.None? && r.sessionData.None? && r.error.None?
    ensures r.sessionState == Session.Loading
    ensures r.loading == a.loading
  {
    AppState(None, None, Session.Loading, a.loading, None)
  }

  /** Clearing twice is clearing once, and a cleared state shows the public layout
      with the loading label. */
  lemma ClearSessionIdempotent(a: AppState, sub: bool)
    ensures ClearSession(ClearSession(a)) == ClearSession(a)
    ensures SelectLayout(ClearSession(a).user.Some?, ClearSession(a).sessionState, sub) == PublicLayout
    ensures StatusLabel(ClearSession(a).sessionState) == LoadingLabel
  {
  }

  /** What `initialize_session` produced: the new session and the state decided
      for it, or the error that stopped it before any signal was set. */
  type InitResult = Result<(Session.SessionData, Session.SessionState), string>

  /** `refresh_session`, given the result of fetching the server data and, when
      that succeeded, the result of initializing the session from it. */
  function RefreshSession(a: AppState, fetched: Result<InitResult, string>): (r: (AppState, Result<(), string>))
    ensures fetched.Err? ==> r.0 == a.(sessionState := Session.NetworkError) && r.1 == Err(fetched.error)
    ensures r.1.Ok? <==> fetched.Ok? && fetched.value.Ok?
    ensures r.0.user == a.user && r.0.loading == a.loading && r.0.error == a.error
  {
    match fetched
    case Err(e) => (a.(sessionState := Session.NetworkError), Err(e))
    case Ok(Err(e)) => (a, Err(e))
    case Ok(Ok((data, state))) => (a.(sessionData := Some(data), sessionState := state), Ok(()))
  }

  /** After a failed fetch a signed-in user sees the public layout and the
      loading label. */
  lemma RefreshFailureShowsPublic(a: AppState, e: string, sub: bool)
    ensures var r := RefreshSession(a, Err(e)).0;
            SelectLayout(r.user.Some?, r.sessionState, sub) == PublicLayout && StatusLabel(r.sessionState) == LoadingLabel
  {
  }

  /** `perform_logout`: the session is cleared and loading switched off whatever
      signing out returned, and that result is handed back. */
  function PerformLogout(a: AppState, signedOut: Result<(), string>): (r: (AppState, Result<(), string>))
    ensures r.0 == ClearSession(a).(loading := false)
    ensures r.1 == signedOut
  {
    (ClearSession(a).(loading := false), signedOut)
  }

  /** Signing in, up to the point where the source stops: with a token the
      session is refreshed, and a refresh error is recorded and returned. */
  function LoginSteps(a: AppState, signedIn: Result<UserData, string>, fetched: Result<InitResult, string>)
    : (r: (AppState, Result<(), string>))
  {
    var start := a.(loading := true, error := None);
    match signedIn
    case Err(e) => (start.(error := Some("Login failed: " + e)), Err(e))
    case Ok(user) =>
      if user.idToken.Some? then
        var (refreshed, result) := RefreshSession(start, fetched);
        if result.Err? then (refreshed.(error := Some("Session setup failed: " + result.error)), result)
        else (refreshed.(user := Some(user)), Ok(()))
      else (start.(user := Some(user)), Ok(()))
  }

  /** `perform_login` as written: loading is switched on and never off. */
  function PerformLoginAsWritten(a: AppState, signedIn: Result<UserData, string>, fetched: Result<InitResult, string>)
    : (r: (AppState, Result<(), string>))
  {
    LoginSteps(a, signedIn, fetched)
  }

  /** Whatever signing in and the refresh return, the login as written leaves the
      loading flag on, so the authentication wrapper shows its loading screen
      from then on. */
  lemma LoginAsWrittenStaysLoading(a: AppState, signedIn: Result<UserData, string>, fetched: Result<InitResult, string>)
    ensures PerformLoginAsWritten(a, signedIn, fetched).0.loading
  {
  }

  /** `perform_login` corrected: loading is switched off on every path, as logout
      does. */
  function PerformLogin(a: AppState, signedIn: Result<UserData, string>, fetched: Result<InitResult, string>)
    : (r: (AppState, Result<(), string>))
  {
    var (s, result) := LoginSteps(a, signedIn, fetched);
    (s.(loading := false), result)
  }

  /** The corrected login ends with loading off; it succeeds exactly when signing in
      succeeds and, if the user has a token, the refresh does too, and then the
      user is set and no error is recorded; on failure the user is left as it was
      and the error is recorded. */
  lemma PerformLoginOutcome(a: AppState, signedIn: Result<UserData, string>, fetched: Result<InitResult, string>)
    ensures !PerformLogin(a, signedIn, fetched).0.loading
    ensures PerformLogin(a, signedIn, fetched).1.Ok? <==>
              signedIn.Ok? && (signedIn.value.idToken.Some? ==> fetched.Ok? && fetched.value.Ok?)
    ensures PerformLogin(a, signedIn, fetched).1.Ok? ==>
              PerformLogin(a, signedIn, fetched).0.user == Some(signedIn.value) && PerformLogin(a, signedIn, fetched).0.error.None?
    ensures PerformLogin(a, signedIn, fetched).1.Err? ==>
              PerformLogin(a, signedIn, fetched).0.user == a.user && PerformLogin(a, signedIn, fetched).0.error.Some?
    ensures PerformLogin(a, signedIn, fetched).1 == PerformLoginAsWritten(a, signedIn, fetched).1
  {
  }
}
