/**
 The session store and its idle-timeout check (src/store/sessionStore.ts).
 `Date.now()` becomes an explicit `now` in milliseconds; the once-a-minute
 interval becomes a `Tick` the caller applies, and the redirect to the login
 page is reported rather than performed.
 */
module SessionStore {
  import opened Options

  /** Idle time after which a session is dropped: 30 minutes, in milliseconds. */
  const TimeoutDuration: int := 30 * 60 * 1000

  datatype Session = Session(token: Option<string>, lastActivity: int)

  datatype TickResult = TickResult(next: Session, redirect: bool)

  /** The store at start-up: logged out, with the last activity stamped `now`. */
  function Create(now: int): (s: Session)
    ensures s.token == None && s.lastActivity == now
    // a fresh store holds no token, so the idle check never fires on it
    ensures forall later :: !Tick(s, later).redirect
  {
    Session(None, now)
  }

  function SetToken(s: Session, token: string, now: int): (s': Session)
    ensures s'.token == Some(token) && s'.lastActivity == now
  {
    Session(Some(token), now)
  }

  function ClearSession(s: Session, now: int): (s': Session)
    ensures s'.token == None && s'.lastActivity == now
  {
    Session(None, now)
  }

  function UpdateActivity(s: Session, now: int): (s': Session)
    ensures s'.token == s.token && s'.lastActivity == now
  {
    s.(lastActivity := now)
  }

  /** The check tests the token for truthiness: a missing token and an empty
      one both count as logged out. */
  predicate HasToken(s: Session)
  {
    s.token.Some? && s.token.value != ""
  }

  /** One run of the interval body at time `now`. */
  function Tick(s: Session, now: int): (t: TickResult)
    ensures t.redirect <==> s.token.Some? && s.token.value != "" && now - s.lastActivity > TimeoutDuration
    ensures t.redirect ==> t.next.token == None && t.next.lastActivity == now
    ensures !t.redirect ==> t.next == s
  {
    if HasToken(s) && now - s.lastActivity > TimeoutDuration then TickResult(ClearSession(s, now), true)
    else TickResult(s, false)
  }

  datatype SessionEvent = Login(token: string, at: int) | Logout(at: int) | Activity(at: int) | Check(at: int)

  function Apply(s: Session, e: SessionEvent): TickResult
  {
    match e
    case Login(token, t) => TickResult(SetToken(s, token, t), false)
    case Logout(t) => TickResult(ClearSession(s, t), false)
    case Activity(t) => TickResult(UpdateActivity(s, t), false)
    case Check(t) => Tick(s, t)
  }

  function Run(s: Session, es: seq<SessionEvent>): Session
    decreases |es|
  {
    if es == [] then s else Run(Apply(s, es[0]).next, es[1..])
  }

  /** Whether any check during the events redirected to the login page. */
  function Redirected(s: Session, es: seq<SessionEvent>): bool
    decreases |es|
  {
    if es == [] then false else Apply(s, es[0]).redirect || Redirected(Apply(s, es[0]).next, es[1..])
  }

  /** Once the session is cleared, no check fires again, and the token stays
      absent, until a token is set. */
  lemma {:induction false} ClearedSessionStaysQuiet(s: Session, es: seq<SessionEvent>)
    requires s.token == None
    requires forall i :: 0 <= i < |es| ==> !es[i].Login?
    ensures !Redirected(s, es) && Run(s, es).token == None
    decreases |es|
  {
    if es != [] {
      ClearedSessionStaysQuiet(Apply(s, es[0]).next, es[1..]);
    }
  }

  /** A check within 30 minutes of the last activity never fires, and once it
      would fire, any later check on the same state fires too. */
  lemma TimeoutWindow(s: Session, now: int, later: int)
    requires now <= later
    ensures now - s.lastActivity <= TimeoutDuration ==> !Tick(s, now).redirect
    ensures Tick(s, now).redirect ==> Tick(s, later).redirect
  {
  }
}
