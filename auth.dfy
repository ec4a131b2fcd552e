/**
 * The session manager of the staff area (`AuthManager`): a three-entry
 * browser store (token, user record, last-activity timestamp), the periodic
 * token-check interval, the activity listeners on the document, and what the
 * manager does to them on sign-in, sign-out, the periodic check, the token
 * refresh, the authenticated request wrapper and the two page guards.
 *
 * The clock, the network answer and the presence of the notification helper
 * are parameters. What the manager does to the outside world (toasts,
 * navigations, requests) is appended to an effect log.
 */
module Auth {
  import opened Wrappers
  import opened Text
  import opened TableView

  /** One hour of inactivity ends the session. */
  const INACTIVITY_TIMEOUT: int := 60 * 60 * 1000
  /** The token check runs every thirty seconds. */
  const CHECK_INTERVAL: int := 30 * 1000
  /** The token is refreshed in the last ten minutes before the timeout. */
  const REFRESH_BEFORE_EXPIRE: int := 10 * 60 * 1000
  const WORKER_URL: string := "https://eagle-security.charliemoimeme.workers.dev"
  /** The document events that count as activity. */
  const ACTIVITY_EVENTS: seq<string> := ["mousedown", "keydown", "scroll", "touchstart", "click"]

  // ---------------------------------------------------------------------------
  // State
  // ---------------------------------------------------------------------------

  /** The three store entries; `None` is an entry that is not there. The user record is kept as its JSON text. */
  datatype Store = Store(token: Option<string>, user: Option<string>, lastActivity: Option<string>)

  const EmptyStore := Store(None, None, None)

  /** The token-check interval the manager holds (`checkTimer`), every interval still running, and the next id the host will hand out. */
  datatype Timers = Timers(checkTimer: Option<nat>, live: set<nat>, nextId: nat)

  const NoTimers := Timers(None, {}, 1)

  /** A listener on the document: an event name and the handler closure (one id per closure). */
  datatype Listener = Listener(event: string, handler: nat)

  /** The listeners the manager remembers (`_activityListeners`), every listener registered on the document, and the next closure id. */
  datatype Tracking = Tracking(current: Option<seq<Listener>>, registered: set<Listener>, nextHandler: nat)

  const NoTracking := Tracking(None, {}, 0)

  datatype NoticeKind = Info | Warning

  /** What the manager does to the world outside it. */
  datatype Effect =
    | Notified(kind: NoticeKind, title: string, message: string)
    | Navigated(page: string)
    | NavigationScheduled(page: string, delayMs: int)
    | RequestSent(url: string, headers: map<string, string>)

  /** Everything the manager's operations read and change. */
  datatype State = State(store: Store, timers: Timers, tracking: Tracking, effects: seq<Effect>)

  /** A store value that JavaScript treats as true: present and not the empty string. */
  predicate Truthy(v: Option<string>) {
    v.Some? && v.value != ""
  }

  /** `isAuthenticated`: both the token and the user entries are truthy. */
  predicate Authenticated(s: Store) {
    Truthy(s.token) && Truthy(s.user)
  }

  /** `response.ok`. */
  predicate StatusOk(status: int) {
    200 <= status <= 299
  }

  // ---------------------------------------------------------------------------
  // Inactivity
  // ---------------------------------------------------------------------------

  /**
   * `getInactivityTime`: timeout + 1 without a last-activity entry, otherwise
   * `now - parseInt(entry, 10)`; `None` is the NaN of an entry that does not
   * start with a number.
   */
  function InactivityTime(lastActivity: Option<string>, now: int): (r: Option<int>)
    ensures !Truthy(lastActivity) ==> r == Some(INACTIVITY_TIMEOUT + 1)
    ensures Truthy(lastActivity) ==> (r.None? <==> ParseInt10(lastActivity.value).None?)
  {
    if !Truthy(lastActivity) then Some(INACTIVITY_TIMEOUT + 1)
    else match ParseInt10(lastActivity.value)
      case None => None
      case Some(v) => Some(now - v)
  }

  /** `isTokenExpired`: inactivity strictly above the timeout; NaN compares false. */
  predicate Expired(inactivity: Option<int>) {
    inactivity.Some? && inactivity.value > INACTIVITY_TIMEOUT
  }

  /** Without a last-activity entry the session counts as expired. */
  lemma MissingActivityExpires(lastActivity: Option<string>, now: int)
    requires !Truthy(lastActivity)
    ensures Expired(InactivityTime(lastActivity, now))
  {
  }

  /**
   * A timestamp written by `updateLastActivity` reads back as itself: the
   * inactivity is the time elapsed since it, and the session expires only
   * when more than the timeout has elapsed (exactly one hour is not expired).
   */
  lemma StampReadsBack(stamp: int, now: int)
    ensures InactivityTime(Some(IntToString(stamp)), now) == Some(now - stamp)
    ensures Expired(InactivityTime(Some(IntToString(stamp)), now)) <==> now - stamp > INACTIVITY_TIMEOUT
  {
    ParseIntOfIntToString(stamp);
  }

  /** A last-activity entry that is not a number never expires the session. */
  lemma UnparsableActivityNeverExpires(entry: string, now: int)
    requires entry != "" && ParseInt10(entry).None?
    ensures !Expired(InactivityTime(Some(entry), now))
  {
  }

  // ---------------------------------------------------------------------------
  // Timers and listeners
  // ---------------------------------------------------------------------------

  /** Interval ids are positive, below the next id, and the held one is running. */
  predicate TimersValid(t: Timers) {
    && 0 < t.nextId
    && (forall id :: id in t.live ==> 0 < id < t.nextId)
    && (t.checkTimer.Some? ==> t.checkTimer.value in t.live)
  }

  /** The only running interval is the one the manager holds. */
  predicate TimersExclusive(t: Timers) {
    t.live == if t.checkTimer.Some? then {t.checkTimer.value} else {}
  }

  /** `startTokenCheck`: starts a new interval and holds it, without clearing the one held before. */
  function StartTimer(t: Timers): (r: Timers)
    ensures r.checkTimer.Some? && r.live == t.live + {r.checkTimer.value}
    ensures TimersValid(t) ==> TimersValid(r) && r.checkTimer.value !in t.live
  {
    Timers(Some(t.nextId), t.live + {t.nextId}, t.nextId + 1)
  }

  /** `stopTokenCheck`: clears the held interval, if any, and forgets it. */
  function StopTimer(t: Timers): (r: Timers)
    ensures TimersValid(t) ==> TimersValid(r)
    ensures r.checkTimer.None? && r.nextId == t.nextId
    ensures t.checkTimer.Some? ==> r.live == t.live - {t.checkTimer.value}
    ensures t.checkTimer.None? ==> r == t
  {
    if t.checkTimer.Some? then Timers(None, t.live - {t.checkTimer.value}, t.nextId) else t
  }

  /** Stopping twice is stopping once. */
  lemma StopTimerIdempotent(t: Timers)
    ensures StopTimer(StopTimer(t)) == StopTimer(t)
  {
  }

  /** The five listeners, one per activity event, that share the closure `handler`. */
  function ListenersFor(handler: nat): (r: seq<Listener>)
    ensures |r| == |ACTIVITY_EVENTS|
    ensures forall i :: 0 <= i < |r| ==> r[i] == Listener(ACTIVITY_EVENTS[i], handler)
  {
    seq(|ACTIVITY_EVENTS|, i requires 0 <= i < |ACTIVITY_EVENTS| => Listener(ACTIVITY_EVENTS[i], handler))
  }

  function Elems<T>(s: seq<T>): set<T> {
    set x | x in s
  }

  /** Closure ids are below the next id, and the remembered listeners are registered. */
  predicate TrackingValid(t: Tracking) {
    && (forall l :: l in t.registered ==> l.handler < t.nextHandler)
    && (t.current.Some? ==> Elems(t.current.value) <= t.registered)
  }

  /** The only registered listeners are the remembered ones. */
  predicate TrackingExclusive(t: Tracking) {
    t.registered == if t.current.Some? then Elems(t.current.value) else {}
  }

  /** `startActivityTracking`: registers a new closure on the five events and remembers those listeners, forgetting (not removing) the ones remembered before. */
  function StartTracking(t: Tracking): (r: Tracking)
    ensures r.current == Some(ListenersFor(t.nextHandler))
    ensures TrackingValid(t) ==> TrackingValid(r) && Elems(r.current.value) !! t.registered
    ensures r.registered == t.registered + Elems(ListenersFor(t.nextHandler))
  {
    var ls := ListenersFor(t.nextHandler);
    Tracking(Some(ls), t.registered + Elems(ls), t.nextHandler + 1)
  }

  /** `stopActivityTracking`: removes the remembered listeners, if any, and forgets them. */
  function StopTracking(t: Tracking): (r: Tracking)
    ensures TrackingValid(t) ==> TrackingValid(r)
    ensures r.current.None? && r.nextHandler == t.nextHandler
    ensures t.current.Some? ==> r.registered == t.registered - Elems(t.current.value)
    ensures t.current.None? ==> r == t
  {
    if t.current.Some? then Tracking(None, t.registered - Elems(t.current.value), t.nextHandler) else t
  }

  /** The whole manager is consistent: timers and listeners are. */
  predicate StateValid(s: State) {
    TimersValid(s.timers) && TrackingValid(s.tracking)
  }

  /** Nothing runs that the manager does not hold. */
  predicate Exclusive(s: State) {
    TimersExclusive(s.timers) && TrackingExclusive(s.tracking)
  }

  // ---------------------------------------------------------------------------
  // Specification of each operation on the whole state
  // ---------------------------------------------------------------------------

  /** `updateLastActivity`: writes the clock as a decimal string. */
  function Stamped(s: State, now: int): State {
    s.(store := s.store.(lastActivity := Some(IntToString(now))))
  }

  /** `setAuth`. */
  function SignedIn(s: State, token: string, userJson: string, now: int): State {
    State(Store(Some(token), Some(userJson), Some(IntToString(now))),
          StartTimer(s.timers), StartTracking(s.tracking), s.effects)
  }

  /** The effects of `logout(showNotification)`: an information toast when asked and possible, then the login page. */
  function LogoutEffects(show: bool, notifier: bool): seq<Effect> {
    (if show && notifier then [Notified(Info, "Session expirée", "Veuillez vous reconnecter.")] else [])
    + [Navigated("login.html")]
  }

  /** `logout`. */
  function LoggedOut(s: State, show: bool, notifier: bool): State {
    State(EmptyStore, StopTimer(s.timers), StopTracking(s.tracking), s.effects + LogoutEffects(show, notifier))
  }

  /** The refresh request `refreshToken` sends with `token`. */
  function RefreshRequest(token: string): Effect {
    RequestSent(WORKER_URL + "/api/refresh-token",
                map["Content-Type" := "application/json", "Authorization" := "Bearer " + token])
  }

  /** What the refresh endpoint answered: a status with the body's `success` and `token`, or an exception (network failure, unreadable body). */
  datatype RefreshReply = RefreshAnswered(status: int, success: bool, newToken: Option<string>) | RefreshThrew

  /** `refreshToken`. */
  function Refreshed(s: State, now: int, reply: RefreshReply, notifier: bool): State {
    if !Truthy(s.store.token) then s
    else
      var sent := s.(effects := s.effects + [RefreshRequest(s.store.token.value)]);
      match reply
      case RefreshThrew => sent
      case RefreshAnswered(status, success, newToken) =>
        if StatusOk(status) then
          if success && Truthy(newToken) then Stamped(sent.(store := sent.store.(token := newToken)), now)
          else sent
        else if status == 401 then LoggedOut(sent, true, notifier)
        else sent
  }

  /** What one run of the periodic check decides. */
  datatype CheckStep = Skip | ForceLogout | Refresh | Idle

  /** The decision of `checkAndRefreshToken`; NaN inactivity compares false both times. */
  function CheckStepFor(authenticated: bool, inactivity: Option<int>): CheckStep {
    if !authenticated then Skip
    else if Expired(inactivity) then ForceLogout
    else if inactivity.Some? && INACTIVITY_TIMEOUT - inactivity.value < REFRESH_BEFORE_EXPIRE then Refresh
    else Idle
  }

  /** `checkAndRefreshToken`. */
  function Checked(s: State, now: int, reply: RefreshReply, notifier: bool): State {
    match CheckStepFor(Authenticated(s.store), InactivityTime(s.store.lastActivity, now))
    case Skip => s
    case Idle => s
    case ForceLogout => LoggedOut(s, true, notifier)
    case Refresh => Refreshed(s, now, reply, notifier)
  }

  /** The network answer to an authenticated request: a status, or a transport failure. */
  datatype FetchReply = Answered(status: int) | TransportFailed(message: string)

  /** Why an authenticated request was rejected. */
  datatype FetchError = NotAuthenticated | SessionExpired | Transport(message: string)

  /** The message of the error a rejected request throws. */
  function ErrorMessage(e: FetchError): string {
    match e
    case NotAuthenticated => "Non authentifié"
    case SessionExpired => "Session expirée"
    case Transport(m) => m
  }

  /** The outgoing headers: the caller's, with the bearer token and the JSON content type put over them. */
  function MergeHeaders(caller: map<string, string>, token: string): (h: map<string, string>)
    ensures h.Keys == caller.Keys + {"Authorization", "Content-Type"}
    ensures h["Authorization"] == "Bearer " + token && h["Content-Type"] == "application/json"
    ensures forall k :: k in caller && k != "Authorization" && k != "Content-Type" ==> h[k] == caller[k]
  {
    caller["Authorization" := "Bearer " + token]["Content-Type" := "application/json"]
  }

  /** `fetch(url, options)`: the new state and the status returned or the error thrown. */
  function Fetched(s: State, url: string, headers: map<string, string>, now: int, reply: FetchReply, notifier: bool)
    : (State, Result<int, FetchError>)
  {
    if !Truthy(s.store.token) then (s, Err(NotAuthenticated))
    else if Expired(InactivityTime(s.store.lastActivity, now)) then (LoggedOut(s, true, notifier), Err(SessionExpired))
    else
      var sent := s.(effects := s.effects + [RequestSent(url, MergeHeaders(headers, s.store.token.value))]);
      match reply
      case TransportFailed(m) => (sent, Err(Transport(m)))
      case Answered(status) =>
        if status == 401 then (LoggedOut(sent, true, notifier), Err(SessionExpired))
        else if StatusOk(status) then (Stamped(sent, now), Ok(status))
        else (sent, Ok(status))
  }

  /** `requireAuth`: whether the protected page may show, and the new state. */
  function Guarded(s: State, now: int, notifier: bool): (State, bool) {
    if !Authenticated(s.store) then
      var warned := if notifier then s.effects + [Notified(Warning, "Accès refusé", "Veuillez vous connecter.")] else s.effects;
      (s.(effects := warned + [NavigationScheduled("login.html", 1500)]), false)
    else if Expired(InactivityTime(s.store.lastActivity, now)) then (LoggedOut(s, true, notifier), false)
    else (s, true)
  }

  /** `redirectIfAuthenticated`: whether the login page sends the user on to the dashboard, and the new state. */
  function Redirected(s: State, now: int, notifier: bool): (State, bool) {
    if Authenticated(s.store) && !Expired(InactivityTime(s.store.lastActivity, now)) then
      var told := if notifier then s.effects + [Notified(Info, "Déjà connecté", "Redirection...")] else s.effects;
      (s.(effects := told + [NavigationScheduled("dashboard.html", 1000)]), true)
    else (s, false)
  }

  /** The state a new manager starts in: over a signed-in store it starts tracking and the token check. */
  function Constructed(initial: Store): State {
    if Authenticated(initial) then State(initial, StartTimer(NoTimers), StartTracking(NoTracking), [])
    else State(initial, NoTimers, NoTracking, [])
  }

  // ---------------------------------------------------------------------------
  // Properties of the operations
  // ---------------------------------------------------------------------------

  /** The requests among a run of effects. */
  function Requests(effects: seq<Effect>): seq<Effect> {
    Filter(effects, (e: Effect) => e.RequestSent?)
  }

  lemma RequestsAppend(a: seq<Effect>, b: seq<Effect>)
    ensures Requests(a + b) == Requests(a) + Requests(b)
  {
    FilterAppend(a, b, (e: Effect) => e.RequestSent?);
  }

  /** A new manager is consistent, runs nothing it does not hold, and runs the check exactly when the store is signed in. */
  lemma ConstructedConsistent(initial: Store)
    ensures var s := Constructed(initial);
      StateValid(s) && Exclusive(s) && s.store == initial && s.effects == []
      && (s.timers.checkTimer.Some? <==> Authenticated(initial))
      && (s.tracking.current.Some? <==> Authenticated(initial))
  {
    var ls := ListenersFor(0);
    assert ls[0] == Listener("mousedown", 0);
  }

  /** After `setAuth` with a non-empty token and user the manager is signed in, the activity stamp reads back as zero inactivity, and the check runs. */
  lemma SignInAuthenticates(s: State, token: string, userJson: string, now: int)
    requires StateValid(s)
    ensures var r := SignedIn(s, token, userJson, now);
      && StateValid(r)
      && r.store.token == Some(token) && r.store.user == Some(userJson)
      && InactivityTime(r.store.lastActivity, now) == Some(0)
      && (token != "" && userJson != "" ==> Authenticated(r.store) && !Expired(InactivityTime(r.store.lastActivity, now)))
      && r.timers.checkTimer.Some? && r.tracking.current.Some?
  {
    StampReadsBack(now, now);
  }

  /**
   * `logout` empties the store, stops the held interval and listeners, shows
   * the toast exactly when asked and possible, and always ends with a
   * navigation to the login page; a second logout stops nothing more but
   * navigates again.
   */
  lemma LogoutClears(s: State, show: bool, notifier: bool)
    ensures var r := LoggedOut(s, show, notifier);
      && (StateValid(s) ==> StateValid(r))
      && r.store == EmptyStore && !Authenticated(r.store)
      && r.timers.checkTimer.None? && r.tracking.current.None?
      && r.effects[..|s.effects|] == s.effects
      && r.effects[|r.effects| - 1] == Navigated("login.html")
      && (Notified(Info, "Session expirée", "Veuillez vous reconnecter.") in r.effects[|s.effects|..] <==> show && notifier)
      && Requests(r.effects) == Requests(s.effects)
    ensures var r := LoggedOut(LoggedOut(s, show, notifier), show, notifier);
      && r.timers == LoggedOut(s, show, notifier).timers
      && r.tracking == LoggedOut(s, show, notifier).tracking
      && |r.effects| == |s.effects| + 2 * |LogoutEffects(show, notifier)|
  {
    var r := LoggedOut(s, show, notifier);
    var tail := LogoutEffects(show, notifier);
    assert r.effects[|s.effects|..] == tail;
    RequestsAppend(s.effects, tail);
    if show && notifier {
      assert tail == [Notified(Info, "Session expirée", "Veuillez vous reconnecter."), Navigated("login.html")];
      assert Requests(tail) == [] by {
        assert Requests(tail[1..]) == [] by { assert tail[1..][1..] == []; }
      }
    } else {
      assert tail == [Navigated("login.html")];
      assert Requests(tail) == [] by { assert tail[1..] == []; }
    }
  }

  /** `logout` appends to the effect log and sends no request. */
  lemma LogoutSendsNothing(s: State, show: bool, notifier: bool)
    ensures var r := LoggedOut(s, show, notifier);
      r.effects[..|s.effects|] == s.effects && Requests(r.effects) == Requests(s.effects)
  {
    LogoutClears(s, show, notifier);
  }

  /** `logout` keeps a manager that runs nothing it does not hold in that shape, and leaves nothing running. */
  lemma LogoutStopsEverything(s: State, show: bool, notifier: bool)
    requires Exclusive(s)
    ensures var r := LoggedOut(s, show, notifier);
      Exclusive(r) && r.timers.live == {} && r.tracking.registered == {}
  {
  }

  /**
   * The periodic check refreshes exactly when the session is signed in and the
   * inactivity is above 50 minutes and at most one hour; it logs out exactly
   * when the session is signed in and expired.
   */
  lemma CheckWindow(authenticated: bool, inactivity: Option<int>)
    ensures CheckStepFor(authenticated, inactivity) == Refresh <==>
      authenticated && inactivity.Some? && INACTIVITY_TIMEOUT - REFRESH_BEFORE_EXPIRE < inactivity.value <= INACTIVITY_TIMEOUT
    ensures CheckStepFor(authenticated, inactivity) == ForceLogout <==> authenticated && Expired(inactivity)
    ensures CheckStepFor(authenticated, inactivity) == Skip <==> !authenticated
  {
  }

  /** A refresh sends no request without a token, and otherwise exactly one, to the refresh endpoint with the stored token. */
  lemma RefreshSendsOneRequest(s: State, now: int, reply: RefreshReply, notifier: bool)
    ensures var r := Refreshed(s, now, reply, notifier);
      && r.effects[..|s.effects|] == s.effects
      && (!Truthy(s.store.token) ==> r == s)
      && (Truthy(s.store.token) ==>
            r.effects[|s.effects|] == RefreshRequest(s.store.token.value)
            && Requests(r.effects) == Requests(s.effects) + [RefreshRequest(s.store.token.value)])
  {
    var r := Refreshed(s, now, reply, notifier);
    if Truthy(s.store.token) {
      var req := RefreshRequest(s.store.token.value);
      var sent := s.(effects := s.effects + [req]);
      assert Requests([req]) == [req];
      RequestsAppend(s.effects, [req]);
      if reply.RefreshAnswered? && !StatusOk(reply.status) && reply.status == 401 {
        assert r == LoggedOut(sent, true, notifier);
        LogoutSendsNothing(sent, true, notifier);
        assert r.effects[..|s.effects|] == s.effects by {
          assert r.effects[..|sent.effects|][..|s.effects|] == r.effects[..|s.effects|];
        }
      } else {
        assert r.effects == sent.effects;
      }
    }
  }

  /**
   * What a refresh does to the store: an ok answer with `success` and a token
   * replaces the token and stamps the activity; a 401 signs out; any other
   * answer or an exception leaves the store as it was.
   */
  lemma RefreshOutcome(s: State, now: int, reply: RefreshReply, notifier: bool)
    requires Truthy(s.store.token)
    ensures var r := Refreshed(s, now, reply, notifier);
      if reply.RefreshAnswered? && StatusOk(reply.status) && reply.success && Truthy(reply.newToken) then
        r.store == s.store.(token := reply.newToken, lastActivity := Some(IntToString(now)))
        && InactivityTime(r.store.lastActivity, now) == Some(0)
        && r.timers == s.timers
      else if reply.RefreshAnswered? && reply.status == 401 then
        r.store == EmptyStore && r.timers == StopTimer(s.timers) && r.tracking == StopTracking(s.tracking)
      else
        r.store == s.store && r.timers == s.timers && r.tracking == s.tracking
  {
    StampReadsBack(now, now);
  }

  /**
   * The periodic check does nothing when signed out or not yet due; when
   * expired it signs out and sends no request; when due it is the refresh.
   */
  lemma CheckOutcome(s: State, now: int, reply: RefreshReply, notifier: bool)
    ensures var r := Checked(s, now, reply, notifier);
      match CheckStepFor(Authenticated(s.store), InactivityTime(s.store.lastActivity, now))
      case Skip => r == s
      case Idle => r == s
      case ForceLogout => r.store == EmptyStore && Requests(r.effects) == Requests(s.effects)
      case Refresh => |Requests(r.effects)| == |Requests(s.effects)| + 1
  {
    match CheckStepFor(Authenticated(s.store), InactivityTime(s.store.lastActivity, now))
    case Skip =>
    case Idle =>
    case ForceLogout =>
      LogoutClears(s, true, notifier);
    case Refresh =>
      RefreshSendsOneRequest(s, now, reply, notifier);
  }

  /**
   * The authenticated request rejects with `NotAuthenticated` exactly when
   * there is no token, and then changes nothing; with an expired session it
   * signs out and rejects with `SessionExpired`, sending nothing.
   */
  lemma FetchPrechecks(s: State, url: string, headers: map<string, string>, now: int, reply: FetchReply, notifier: bool)
    ensures var (r, res) := Fetched(s, url, headers, now, reply, notifier);
      && (res == Err(NotAuthenticated) <==> !Truthy(s.store.token))
      && (!Truthy(s.store.token) ==> r == s)
      && (Truthy(s.store.token) && Expired(InactivityTime(s.store.lastActivity, now)) ==>
            res == Err(SessionExpired) && r.store == EmptyStore && Requests(r.effects) == Requests(s.effects))
  {
    if Truthy(s.store.token) && Expired(InactivityTime(s.store.lastActivity, now)) {
      LogoutSendsNothing(s, true, notifier);
    }
  }

  /** Past the checks, the request wrapper sends exactly one request, to `url` with the merged headers. */
  lemma FetchSendsOneRequest(s: State, url: string, headers: map<string, string>, now: int, reply: FetchReply, notifier: bool)
    requires Truthy(s.store.token) && !Expired(InactivityTime(s.store.lastActivity, now))
    ensures var r := Fetched(s, url, headers, now, reply, notifier).0;
      Requests(r.effects) == Requests(s.effects) + [RequestSent(url, MergeHeaders(headers, s.store.token.value))]
  {
    var req := RequestSent(url, MergeHeaders(headers, s.store.token.value));
    var sent := s.(effects := s.effects + [req]);
    assert Requests([req]) == [req];
    RequestsAppend(s.effects, [req]);
    var r := Fetched(s, url, headers, now, reply, notifier).0;
    if reply.Answered? && reply.status == 401 {
      assert r == LoggedOut(sent, true, notifier);
      LogoutSendsNothing(sent, true, notifier);
    } else {
      assert r.effects == sent.effects;
    }
  }

  /**
   * The answer to a sent request: 401 signs out and rejects with
   * `SessionExpired`; a 2xx status stamps the activity and is returned; any
   * other status is returned with the store untouched; a transport failure is
   * rethrown.
   */
  lemma FetchAnswer(s: State, url: string, headers: map<string, string>, now: int, reply: FetchReply, notifier: bool)
    requires Truthy(s.store.token) && !Expired(InactivityTime(s.store.lastActivity, now))
    ensures var (r, res) := Fetched(s, url, headers, now, reply, notifier);
      match reply
      case TransportFailed(m) => res == Err(Transport(m)) && r.store == s.store
      case Answered(status) =>
        if status == 401 then res == Err(SessionExpired) && r.store == EmptyStore
        else if StatusOk(status) then
          res == Ok(status) && r.store == s.store.(lastActivity := Some(IntToString(now)))
          && InactivityTime(r.store.lastActivity, now) == Some(0)
        else res == Ok(status) && r.store == s.store
  {
    StampReadsBack(now, now);
  }

  /**
   * The protected-page guard admits exactly a signed-in, unexpired session and
   * then changes nothing; a signed-out visitor is sent to the login page after
   * 1.5 s; an expired session is signed out. The login page sends a visitor on
   * to the dashboard exactly when the guard would admit them.
   */
  lemma GuardsAgree(s: State, now: int, notifier: bool)
    ensures var (r, ok) := Guarded(s, now, notifier);
      && (ok <==> Authenticated(s.store) && !Expired(InactivityTime(s.store.lastActivity, now)))
      && (ok ==> r == s)
      && (!Authenticated(s.store) ==>
            r.store == s.store && r.effects[|r.effects| - 1] == NavigationScheduled("login.html", 1500))
      && (Authenticated(s.store) && !ok ==> r.store == EmptyStore)
    ensures Redirected(s, now, notifier).1 == Guarded(s, now, notifier).1
    ensures var (r, go) := Redirected(s, now, notifier);
      (go ==> r.store == s.store && r.effects[|r.effects| - 1] == NavigationScheduled("dashboard.html", 1000))
      && (!go ==> r == s)
  {
  }

  // ---------------------------------------------------------------------------
  // The sign-in leak and its repair
  // ---------------------------------------------------------------------------

  /**
   * `setAuth` on a manager that is already checking (the constructor started
   * it over a signed-in store, or a second sign-in) overwrites the held
   * interval and listeners: after a sign-out the earlier interval and its five
   * listeners are still running.
   */
  lemma SignInTwiceLeaks(s: State, t1: string, u1: string, n1: int, t2: string, u2: string, n2: int, show: bool, notifier: bool)
    requires StateValid(s)
    ensures var r := LoggedOut(SignedIn(SignedIn(s, t1, u1, n1), t2, u2, n2), show, notifier);
      && s.timers.nextId in r.timers.live
      && Elems(ListenersFor(s.tracking.nextHandler)) <= r.tracking.registered
      && !Exclusive(r)
  {
    var a := SignedIn(s, t1, u1, n1);
    var b := SignedIn(a, t2, u2, n2);
    assert a.timers.checkTimer == Some(s.timers.nextId);
    assert b.timers.checkTimer == Some(s.timers.nextId + 1);
    var ls := ListenersFor(s.tracking.nextHandler);
    var ls2 := ListenersFor(s.tracking.nextHandler + 1);
    assert ls[0] == Listener("mousedown", s.tracking.nextHandler);
    forall l | l in Elems(ls) ensures l !in Elems(ls2) {
      assert l.handler == s.tracking.nextHandler;
    }
  }

  /** `setAuth` as it would be meant: stop the held interval and listeners before starting new ones. */
  function SignedInOnce(s: State, token: string, userJson: string, now: int): (r: State)
    ensures r.store == SignedIn(s, token, userJson, now).store
  {
    State(Store(Some(token), Some(userJson), Some(IntToString(now))),
          StartTimer(StopTimer(s.timers)), StartTracking(StopTracking(s.tracking)), s.effects)
  }

  /** The repaired sign-in keeps the manager running only what it holds, any number of times, and a sign-out then leaves nothing running. */
  lemma SignInOnceNoLeak(s: State, token: string, userJson: string, now: int, show: bool, notifier: bool)
    requires StateValid(s) && Exclusive(s)
    ensures var r := SignedInOnce(s, token, userJson, now);
      StateValid(r) && Exclusive(r) && r.timers.checkTimer.Some? && r.tracking.current.Some?
    ensures var r := LoggedOut(SignedInOnce(s, token, userJson, now), show, notifier);
      r.timers.live == {} && r.tracking.registered == {}
  {
    var r := SignedInOnce(s, token, userJson, now);
    LogoutStopsEverything(r, show, notifier);
  }

  // ---------------------------------------------------------------------------
  // The manager object
  // ---------------------------------------------------------------------------

  class AuthManager {
    var store: Store
    var timers: Timers
    var tracking: Tracking
    var effects: seq<Effect>
    /** Whether the page loaded the notification helper (`typeof notify !== 'undefined'`). */
    const hasNotifier: bool

    function Snapshot(): State
      reads this
    {
      State(store, timers, tracking, effects)
    }

    ghost predicate Valid()
      reads this
    {
      StateValid(Snapshot())
    }

    /** A manager over a browser store that already holds `initial`. */
    constructor(hasNotifier: bool, initial: Store)
      ensures Valid() && this.hasNotifier == hasNotifier
      ensures Snapshot() == Constructed(initial)
    {
      this.hasNotifier := hasNotifier;
      store := initial;
      timers := NoTimers;
      tracking := NoTracking;
      effects := [];
      new;
      if IsAuthenticated() {
        StartActivityTracking();
        StartTokenCheck();
      }
      ConstructedConsistent(initial);
    }

    /** `isAuthenticated`. */
    function IsAuthenticated(): (r: bool)
      reads this
      ensures r ==> store.token.Some? && store.user.Some?
      ensures r <==> Authenticated(store)
    {
      Truthy(store.token) && Truthy(store.user)
    }

    /** `getToken`. */
    function GetToken(): Option<string>
      reads this
    {
      store.token
    }

    /** `getUser`: the stored user record, when the entry is truthy. */
    function GetUser(): (r: Option<string>)
      reads this
      ensures r.Some? <==> Truthy(store.user)
      ensures r.Some? ==> r == store.user
    {
      if Truthy(store.user) then store.user else None
    }

    /** `getInactivityTime`. */
    function GetInactivityTime(now: int): Option<int>
      reads this
    {
      InactivityTime(store.lastActivity, now)
    }

    /** `isTokenExpired`. */
    function IsTokenExpired(now: int): (r: bool)
      reads this
      ensures !Truthy(store.lastActivity) ==> r
      ensures r ==> GetInactivityTime(now).Some?
    {
      Expired(GetInactivityTime(now))
    }

    method UpdateLastActivity(now: int)
      modifies this
      ensures Snapshot() == Stamped(old(Snapshot()), now)
      ensures GetInactivityTime(now) == Some(0)
    {
      store := store.(lastActivity := Some(IntToString(now)));
      StampReadsBack(now, now);
    }

    method StartActivityTracking()
      modifies this
      ensures Snapshot() == old(Snapshot()).(tracking := StartTracking(old(tracking)))
    {
      var ls := ListenersFor(tracking.nextHandler);
      tracking := Tracking(Some(ls), tracking.registered + Elems(ls), tracking.nextHandler + 1);
    }

    method StopActivityTracking()
      modifies this
      ensures Snapshot() == old(Snapshot()).(tracking := StopTracking(old(tracking)))
    {
      if tracking.current.Some? {
        tracking := Tracking(None, tracking.registered - Elems(tracking.current.value), tracking.nextHandler);
      }
    }

    method StartTokenCheck()
      modifies this
      ensures Snapshot() == old(Snapshot()).(timers := StartTimer(old(timers)))
    {
      var id := timers.nextId;
      timers := Timers(Some(id), timers.live + {id}, id + 1);
    }

    method StopTokenCheck()
      modifies this
      ensures Snapshot() == old(Snapshot()).(timers := StopTimer(old(timers)))
    {
      if timers.checkTimer.Some? {
        timers := Timers(None, timers.live - {timers.checkTimer.value}, timers.nextId);
      }
    }

    method SetAuth(token: string, userJson: string, now: int)
      requires Valid()
      modifies this
      ensures Valid()
      ensures Snapshot() == SignedIn(old(Snapshot()), token, userJson, now)
      ensures token != "" && userJson != "" ==> IsAuthenticated() && !IsTokenExpired(now)
    {
      SignInAuthenticates(Snapshot(), token, userJson, now);
      store := store.(token := Some(token), user := Some(userJson));
      UpdateLastActivity(now);
      StartActivityTracking();
      StartTokenCheck();
    }

    method Logout(showNotification: bool)
      requires Valid()
      modifies this
      ensures Valid()
      ensures Snapshot() == LoggedOut(old(Snapshot()), showNotification, hasNotifier)
      ensures !IsAuthenticated() && timers.checkTimer.None? && tracking.current.None?
    {
      store := EmptyStore;
      StopActivityTracking();
      StopTokenCheck();
      if showNotification && hasNotifier {
        effects := effects + [Notified(Info, "Session expirée", "Veuillez vous reconnecter.")];
      }
      effects := effects + [Navigated("login.html")];
    }

    method RefreshToken(now: int, reply: RefreshReply)
      requires Valid()
      modifies this
      ensures Valid()
      ensures Snapshot() == Refreshed(old(Snapshot()), now, reply, hasNotifier)
    {
      if !Truthy(store.token) {
        return;
      }
      effects := effects + [RefreshRequest(store.token.value)];
      match reply {
        case RefreshThrew =>
        case RefreshAnswered(status, success, newToken) =>
          if StatusOk(status) {
            if success && Truthy(newToken) {
              store := store.(token := newToken);
              UpdateLastActivity(now);
            }
          } else if status == 401 {
            Logout(true);
          }
      }
    }

    method CheckAndRefreshToken(now: int, reply: RefreshReply)
      requires Valid()
      modifies this
      ensures Valid()
      ensures Snapshot() == Checked(old(Snapshot()), now, reply, hasNotifier)
    {
      if !IsAuthenticated() {
        return;
      }
      var inactivity := GetInactivityTime(now);
      if Expired(inactivity) {
        Logout(true);
        return;
      }
      if inactivity.Some? && INACTIVITY_TIMEOUT - inactivity.value < REFRESH_BEFORE_EXPIRE {
        RefreshToken(now, reply);
      }
    }

    /** The authenticated request wrapper; `Ok` carries the status of the returned response. */
    method Fetch(url: string, headers: map<string, string>, now: int, reply: FetchReply)
      returns (result: Result<int, FetchError>)
      requires Valid()
      modifies this
      ensures Valid()
      ensures (Snapshot(), result) == Fetched(old(Snapshot()), url, headers, now, reply, hasNotifier)
    {
      if !Truthy(store.token) {
        return Err(NotAuthenticated);
      }
      if IsTokenExpired(now) {
        Logout(true);
        return Err(SessionExpired);
      }
      effects := effects + [RequestSent(url, MergeHeaders(headers, store.token.value))];
      match reply {
        case TransportFailed(m) =>
          result := Err(Transport(m));
        case Answered(status) =>
          if status == 401 {
            Logout(true);
            return Err(SessionExpired);
          }
          if StatusOk(status) {
            UpdateLastActivity(now);
          }
          result := Ok(status);
      }
    }

    method RequireAuth(now: int) returns (admitted: bool)
      requires Valid()
      modifies this
      ensures Valid()
      ensures (Snapshot(), admitted) == Guarded(old(Snapshot()), now, hasNotifier)
    {
      if !IsAuthenticated() {
        if hasNotifier {
          effects := effects + [Notified(Warning, "Accès refusé", "Veuillez vous connecter.")];
        }
        effects := effects + [NavigationScheduled("login.html", 1500)];
        return false;
      }
      if IsTokenExpired(now) {
        Logout(true);
        return false;
      }
      return true;
    }

    method RedirectIfAuthenticated(now: int) returns (redirected: bool)
      requires Valid()
      modifies this
      ensures Valid()
      ensures (Snapshot(), redirected) == Redirected(old(Snapshot()), now, hasNotifier)
    {
      if IsAuthenticated() && !IsTokenExpired(now) {
        if hasNotifier {
          effects := effects + [Notified(Info, "Déjà connecté", "Redirection...")];
        }
        effects := effects + [NavigationScheduled("dashboard.html", 1000)];
        return true;
      }
      return false;
    }
  }
}
