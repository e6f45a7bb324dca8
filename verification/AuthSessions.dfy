/**
 The refresh-session service: login, rotation, revocation, start-up cleanup.

 Every public method is one atomic step.  Clock readings are microseconds; stored
 timestamps are whole seconds, so comparing them as numbers is comparing their RFC 3339
 texts (same zone, same precision).  A digest is a constructor, hence collision-free.
*/
module AuthSessions {
  import opened LoginThrottle
  import opened Options
  import opened Strings

  datatype Digest = Sha256(raw: string)
  datatype PasswordHash = Pbkdf2(password: string)
  datatype User = User(id: string, username: string, passwordHash: PasswordHash, active: bool)
  datatype Row = Row(id: string, userId: string, createdAt: int, expiresAt: int, revokedAt: Option<int>)

  datatype Config = Config(refreshTtl: nat, idleTtl: nat, limits: Limits)

  datatype State = State(users: seq<User>, sessions: map<Digest, Row>, throttle: Throttle)

  datatype LoginOutcome = Throttled | Refused | Granted(token: string)
  datatype RefreshOutcome = AuthRequired | Unknown | Revoked | Expired | Disabled | Rotated(token: string)

  const MICROS := 1000000
  const THIRTY_DAYS := 30 * 24 * 3600

  function Second(now: nat): int { now / MICROS }

  /** `time.time()` */
  function Clock(now: nat): real { now as real / MICROS as real }

  function ByName(users: seq<User>, username: string): Option<User> {
    if users == [] then None
    else if users[0].username == username then Some(users[0]) else ByName(users[1..], username)
  }

  function ById(users: seq<User>, id: string): Option<User> {
    if users == [] then None
    else if users[0].id == id then Some(users[0]) else ById(users[1..], id)
  }

  /** `SET revoked_at = ? ... AND revoked_at IS NULL` on one row. */
  function Revoke(row: Row, at: int): Row {
    if row.revokedAt.None? then row.(revokedAt := Some(at)) else row
  }

  function RevokeToken(sessions: map<Digest, Row>, token: string, at: int): map<Digest, Row> {
    var d := Sha256(token);
    if d in sessions then sessions[d := Revoke(sessions[d], at)] else sessions
  }

  function RevokeUser(sessions: map<Digest, Row>, userId: string, at: int): map<Digest, Row> {
    map d | d in sessions :: if sessions[d].userId == userId then Revoke(sessions[d], at) else sessions[d]
  }

  function RevokeId(sessions: map<Digest, Row>, id: string, at: int): map<Digest, Row> {
    map d | d in sessions :: if sessions[d].id == id then Revoke(sessions[d], at) else sessions[d]
  }

  /** The earlier of the absolute and the idle limit. */
  function Lifetime(c: Config): nat {
    if c.refreshTtl < c.idleTtl then c.refreshTtl else c.idleTtl
  }

  /** `_issue_refresh_session` */
  function Issue(c: Config, s: State, userId: string, now: nat, raw: string, id: string): State {
    s.(sessions := s.sessions[Sha256(raw) := Row(id, userId, Second(now), Second(now) + Lifetime(c), None)])
  }

  function Login(c: Config, s: State, username: string, password: string, now: nat, raw: string, id: string)
    : (State, LoginOutcome)
  {
    var at := Clock(now);
    var user := ByName(s.users, username);
    if LockedOut(s.throttle, username, at) then (s, Throttled)
    else if user.None? || user.value.passwordHash != Pbkdf2(password) || !user.value.active then
      (s.(throttle := RecordFailure(c.limits, s.throttle, username, at)), Refused)
    else
      (Issue(c, s.(throttle := Clear(s.throttle, user.value.username)), user.value.id, now, raw, id), Granted(raw))
  }

  function Refresh(c: Config, s: State, token: string, now: nat, raw: string, id: string): (State, RefreshOutcome) {
    var d := Sha256(token);
    if token == "" then (s, AuthRequired)
    else if d !in s.sessions then (s, Unknown)
    else if s.sessions[d].revokedAt.Some? then (s, Revoked)
    else
      var revoked := s.(sessions := RevokeToken(s.sessions, token, Second(now)));
      var user := ById(s.users, s.sessions[d].userId);
      if s.sessions[d].expiresAt * MICROS < now then (revoked, Expired)
      else if user.None? || !user.value.active then (revoked, Disabled)
      else (Issue(c, revoked, user.value.id, now, raw, id), Rotated(raw))
  }

  /** With a token only its session is revoked; without one, all sessions of a known user. */
  function Logout(s: State, token: string, userId: Option<string>, now: nat): State {
    if token != "" then s.(sessions := RevokeToken(s.sessions, token, Second(now)))
    else if userId.Some? && userId.value != "" then s.(sessions := RevokeUser(s.sessions, userId.value, Second(now)))
    else s
  }

  function SetUser(users: seq<User>, u: User): (r: seq<User>)
    ensures |r| == |users|
  {
    if users == [] then []
    else [if users[0].id == u.id then u else users[0]] + SetUser(users[1..], u)
  }

  /** A lookup finds a user of that name exactly when there is one. */
  lemma {:induction false} ByNameFinds(users: seq<User>, username: string)
    ensures ByName(users, username).Some? ==>
              ByName(users, username).value in users && ByName(users, username).value.username == username
    ensures ByName(users, username).Some? <==> exists u | u in users :: u.username == username
  {
    if users != [] {
      ByNameFinds(users[1..], username);
      assert users == [users[0]] + users[1..];
    }
  }

  lemma {:induction false} ByIdFinds(users: seq<User>, id: string)
    ensures ById(users, id).Some? ==> ById(users, id).value in users && ById(users, id).value.id == id
    ensures ById(users, id).Some? <==> exists u | u in users :: u.id == id
  {
    if users != [] {
      ByIdFinds(users[1..], id);
      assert users == [users[0]] + users[1..];
    }
  }

  lemma {:induction false} AfterSetUser(users: seq<User>, u: User, id: string)
    ensures ById(SetUser(users, u), id) == if id == u.id && ById(users, id).Some? then Some(u) else ById(users, id)
  {
    if users != [] { AfterSetUser(users[1..], u, id); }
  }

  /** A row before and after a revocation: the first time is kept. */
  predicate Ended(before: Row, after: Row, at: int) {
    after == before.(revokedAt := if before.revokedAt.Some? then before.revokedAt else Some(at))
  }

  /** `acceptable` is the verdict of the password policy on the new password. */
  function ChangePassword(s: State, userId: string, current: string, renewed: string, acceptable: bool, now: nat)
    : (State, bool)
  {
    var user := ById(s.users, userId);
    if user.None? || user.value.passwordHash != Pbkdf2(current) || !acceptable then (s, false)
    else (s.(users := SetUser(s.users, user.value.(passwordHash := Pbkdf2(renewed))),
             sessions := RevokeUser(s.sessions, userId, Second(now))), true)
  }

  predicate Obsolete(row: Row, cutoff: int) {
    if row.revokedAt.Some? then row.revokedAt.value < cutoff else row.expiresAt < cutoff
  }

  function Cleanup(s: State, now: nat): State {
    var cutoff := Second(now) - THIRTY_DAYS;
    s.(sessions := map d | d in s.sessions && !Obsolete(s.sessions[d], cutoff) :: s.sessions[d])
  }

  // -------------------------------------------------------------------------
  // The service object
  // -------------------------------------------------------------------------

  class AuthService {
    const cfg: Config
    var users: seq<User>
    var sessions: map<Digest, Row>
    var failures: map<string, seq<real>>
    var lockouts: map<string, real>

    constructor (cfg: Config, users: seq<User>, sessions: map<Digest, Row>, now: nat)
      ensures this.cfg == cfg && this.users == users && failures == map[] && lockouts == map[]
      ensures Model() == Cleanup(State(users, sessions, EMPTY), now)
      ensures forall d | d in this.sessions :: d in sessions && this.sessions[d] == sessions[d]
      ensures forall d | d in sessions ::
                d !in this.sessions
                <==> (if sessions[d].revokedAt.Some? then sessions[d].revokedAt.value else sessions[d].expiresAt)
                     < Second(now) - 2592000
    {
      this.cfg := cfg;
      this.users := users;
      this.failures := map[];
      this.lockouts := map[];
      this.sessions := Cleanup(State(users, sessions, EMPTY), now).sessions;
    }

    function Model(): State
      reads this
    {
      State(users, sessions, Throttle(failures, lockouts))
    }

    method RecordLoginFailure(username: string, at: real)
      modifies this`failures, this`lockouts
      ensures Throttle(failures, lockouts) == RecordFailure(cfg.limits, old(Throttle(failures, lockouts)), username, at)
    {
      var bucket := Recent(if username in failures then failures[username] else [], at, cfg.limits.window);
      bucket := bucket + [at];
      failures := failures[username := bucket];
      if |bucket| >= cfg.limits.maxAttempts {
        lockouts := lockouts[username := at + cfg.limits.lockout];
        failures := failures - {username};
      }
      assert old(failures)[username := bucket] - {username} == old(failures) - {username};
    }

    method ThrottleRegister(username: string, at: real) returns (allowed: bool)
      modifies this`failures
      ensures Throttle(failures, lockouts) == GuardRegistration(old(Throttle(failures, lockouts)), username, at)
      ensures allowed <==> !Full(old(Throttle(failures, lockouts)), username, at)
      ensures !allowed ==> failures == old(failures)
    {
      var key := "@" + username;
      var seen := Recent(if key in failures then failures[key] else [], at, REGISTER_WINDOW);
      if |seen| >= REGISTER_LIMIT { return false; }
      failures := failures[key := seen + [at]];
      return true;
    }

    method IssueSession(userId: string, now: nat, raw: string, id: string)
      modifies this`sessions
      ensures Model() == Issue(cfg, old(Model()), userId, now, raw, id)
    {
      var refresh, idle := Second(now) + cfg.refreshTtl, Second(now) + cfg.idleTtl;
      sessions := sessions[Sha256(raw) := Row(id, userId, Second(now), if refresh < idle then refresh else idle, None)];
    }

    method SignIn(username: string, password: string, now: nat, raw: string, id: string) returns (o: LoginOutcome)
      modifies this
      ensures (Model(), o) == Login(cfg, old(Model()), username, password, now, raw, id)
    {
      var at := Clock(now);
      if (if username in lockouts then lockouts[username] else 0.0) > at { return Throttled; }
      var user := ByName(users, username);
      if user.None? || user.value.passwordHash != Pbkdf2(password) || !user.value.active {
        RecordLoginFailure(username, at);
        return Refused;
      }
      failures := failures - {user.value.username};
      lockouts := lockouts - {user.value.username};
      IssueSession(user.value.id, now, raw, id);
      return Granted(raw);
    }

    method Rotate(token: string, now: nat, raw: string, id: string) returns (o: RefreshOutcome)
      modifies this`sessions
      ensures (Model(), o) == Refresh(cfg, old(Model()), token, now, raw, id)
    {
      if token == "" { return AuthRequired; }
      var d := Sha256(token);
      if d !in sessions { return Unknown; }
      var session := sessions[d];
      if session.revokedAt.Some? { return Revoked; }
      sessions := RevokeToken(sessions, token, Second(now));
      if session.expiresAt * MICROS < now { return Expired; }
      var user := ById(users, session.userId);
      if user.None? || !user.value.active { return Disabled; }
      IssueSession(user.value.id, now, raw, id);
      return Rotated(raw);
    }

    method SignOut(token: string, userId: Option<string>, now: nat)
      modifies this`sessions
      ensures Model() == Logout(old(Model()), token, userId, now)
      ensures sessions.Keys == old(sessions).Keys
      ensures forall d | d in sessions ::
                if (if token != "" then d.raw == token else userId == Some(sessions[d].userId) && userId.value != "")
                then Ended(old(sessions)[d], sessions[d], Second(now)) else sessions[d] == old(sessions)[d]
    {
      if token != "" {
        sessions := RevokeToken(sessions, token, Second(now));
      } else if userId.Some? && userId.value != "" {
        sessions := RevokeUser(sessions, userId.value, Second(now));
      }
    }

    /** Unknown session identifiers are an error and change nothing. */
    method RevokeSession(sessionId: string, now: nat) returns (found: bool)
      modifies this`sessions
      ensures found <==> exists d | d in old(sessions) :: old(sessions)[d].id == sessionId
      ensures Model() == old(Model()).(sessions := RevokeId(old(sessions), sessionId, Second(now)))
      ensures sessions.Keys == old(sessions).Keys
      ensures forall d | d in sessions ::
                if old(sessions)[d].id == sessionId
                then Ended(old(sessions)[d], sessions[d], Second(now)) else sessions[d] == old(sessions)[d]
    {
      found := exists d | d in sessions :: sessions[d].id == sessionId;
      if found {
        sessions := RevokeId(sessions, sessionId, Second(now));
      } else {
        assert RevokeId(sessions, sessionId, Second(now)) == sessions;
      }
    }

    method NewPassword(
        userId: string, current: string, renewed: string, acceptable: bool, now: nat) returns (done: bool)
      modifies this`users, this`sessions
      ensures (Model(), done) == ChangePassword(old(Model()), userId, current, renewed, acceptable, now)
      ensures done <==> acceptable && ById(old(users), userId).Some?
                        && ById(old(users), userId).value.passwordHash == Pbkdf2(current)
      ensures sessions.Keys == old(sessions).Keys
      ensures forall d | d in sessions ::
                if done && sessions[d].userId == userId
                then Ended(old(sessions)[d], sessions[d], Second(now)) else sessions[d] == old(sessions)[d]
      ensures forall other ::
                ById(users, other)
                == if done && other == userId
                   then Some(ById(old(users), userId).value.(passwordHash := Pbkdf2(renewed)))
                   else ById(old(users), other)
    {
      var user := ById(users, userId);
      if user.None? || user.value.passwordHash != Pbkdf2(current) || !acceptable { return false; }
      ByIdFinds(users, userId);
      forall other { AfterSetUser(users, user.value.(passwordHash := Pbkdf2(renewed)), other); }
      users := SetUser(users, user.value.(passwordHash := Pbkdf2(renewed)));
      sessions := RevokeUser(sessions, userId, Second(now));
      return true;
    }
  }

  // -------------------------------------------------------------------------
  // Runs
  // -------------------------------------------------------------------------

  /** `lineage` maps each token ever issued to the login its chain started from, `holders`
      each login to the user who signed in. */
  datatype World = World(
    state: State, now: nat, lineage: map<string, nat>, logins: nat, accepted: multiset<string>,
    holders: map<nat, string>)

  datatype Event =
    | SignIn(username: string, password: string, raw: string, id: string)
    | Rotate(token: string, raw: string, id: string)
    | SignOut(token: string, who: Option<string>)
    | NewPassword(userId: string, current: string, renewed: string, acceptable: bool)
    | AdminRevoke(sessionId: string)
    | PutUser(user: User)
    | AddUser(user: User)
    | TryRegister(username: string)
    | Restart
    | Tick(elapsed: nat)

  function Apply(c: Config, w: World, e: Event): World {
    match e
    case SignIn(username, password, raw, id) =>
      var (s, o) := Login(c, w.state, username, password, w.now, raw, id);
      if o.Granted? then
        w.(state := s, lineage := w.lineage[raw := w.logins], logins := w.logins + 1,
           holders := w.holders[w.logins := ByName(w.state.users, username).value.id])
      else w.(state := s)
    case Rotate(token, raw, id) =>
      var (s, o) := Refresh(c, w.state, token, w.now, raw, id);
      if o.Rotated? then
        w.(state := s, accepted := w.accepted + multiset{token},
           lineage := w.lineage[raw := if token in w.lineage then w.lineage[token] else w.logins])
      else w.(state := s)
    case SignOut(token, who) => w.(state := Logout(w.state, token, who, w.now))
    case NewPassword(userId, current, renewed, acceptable) =>
      w.(state := ChangePassword(w.state, userId, current, renewed, acceptable, w.now).0)
    case AdminRevoke(sessionId) =>
      w.(state := w.state.(sessions := RevokeId(w.state.sessions, sessionId, Second(w.now))))
    case PutUser(user) => w.(state := w.state.(users := SetUser(w.state.users, user)))
    case AddUser(user) => w.(state := w.state.(users := w.state.users + [user]))
    case TryRegister(username) => // the guard alone; the row of a new user is `AddUser`
      w.(state := w.state.(throttle := GuardRegistration(w.state.throttle, username, Clock(w.now))))
    case Restart => w.(state := Cleanup(w.state, w.now).(throttle := EMPTY))
    case Tick(elapsed) => w.(now := w.now + elapsed)
  }

  function Run(c: Config, w: World, events: seq<Event>): World
    decreases |events|
  {
    if events == [] then w else Run(c, Apply(c, w, events[0]), events[1..])
  }

  /** `secrets.token_urlsafe` never repeats a value. */
  predicate Fresh(w: World, e: Event) {
    (e.SignIn? || e.Rotate?) ==> e.raw !in w.lineage
  }

  ghost predicate AllFresh(c: Config, w: World, events: seq<Event>)
    decreases |events|
  {
    events != [] ==> Fresh(w, events[0]) && AllFresh(c, Apply(c, w, events[0]), events[1..])
  }

  predicate Live(s: State, d: Digest) {
    d in s.sessions && s.sessions[d].revokedAt.None?
  }

  /** No clock reading from `now` on lets `refresh` accept this token. */
  predicate Dead(s: State, now: nat, token: string) {
    Live(s, Sha256(token)) ==> s.sessions[Sha256(token)].expiresAt * MICROS < now
  }

  ghost predicate OneLivePerLogin(w: World) {
    forall d, e | Live(w.state, d) && Live(w.state, e) && d.raw in w.lineage && e.raw in w.lineage
                  && w.lineage[d.raw] == w.lineage[e.raw] :: d == e
  }

  ghost predicate Tracked(w: World) {
    && (forall d | d in w.state.sessions :: d.raw in w.lineage)
    && (forall t | t in w.lineage :: w.lineage[t] < w.logins)
    && (forall t | t in w.accepted :: t in w.lineage && w.accepted[t] == 1 && Dead(w.state, w.now, t))
  }

  ghost predicate Sound(w: World) {
    Tracked(w) && OneLivePerLogin(w)
  }

  function Start(users: seq<User>, now: nat): World {
    World(State(users, map[], EMPTY), now, map[], 0, multiset{}, map[])
  }

  /** A step of a run is one call of the service, at the time the clock shows, or one change by
      an administrator. */
  lemma {:induction false} StepIsCall(c: Config, w: World, e: Event)
    ensures var s, t := w.state, Apply(c, w, e).state;
            match e
            case SignIn(name, password, raw, id) => t == Login(c, s, name, password, w.now, raw, id).0
            case Rotate(token, raw, id) => t == Refresh(c, s, token, w.now, raw, id).0
            case SignOut(token, who) => t == Logout(s, token, who, w.now)
            case NewPassword(user, old', new', ok) => t == ChangePassword(s, user, old', new', ok, w.now).0
            case AdminRevoke(id) => t == s.(sessions := RevokeId(s.sessions, id, Second(w.now)))
            case TryRegister(name) => t == s.(throttle := GuardRegistration(s.throttle, name, Clock(w.now)))
            case PutUser(user) => t == s.(users := SetUser(s.users, user))
            case AddUser(user) => t == s.(users := s.users + [user])
            case Restart => t == Cleanup(s, w.now).(throttle := EMPTY)
            case Tick(elapsed) => t == s && Apply(c, w, e).now == w.now + elapsed
  {
  }

  /** What a refused refresh leaves: an expired session and one of a user who is gone or
      inactive is revoked, any other refusal changes nothing. */
  lemma {:induction false} RefusedRefresh(c: Config, s: State, token: string, now: nat, raw: string, id: string)
    requires !Refresh(c, s, token, now, raw, id).1.Rotated?
    ensures var (t, o) := Refresh(c, s, token, now, raw, id);
            var d := Sha256(token);
            && (o.AuthRequired? <==> token == "")
            && (o.Unknown? <==> token != "" && d !in s.sessions)
            && (o.Revoked? <==> token != "" && d in s.sessions && s.sessions[d].revokedAt.Some?)
            && (o.Expired? ==> Live(s, d) && s.sessions[d].expiresAt * MICROS < now)
            && (o.Disabled? ==> Live(s, d) && forall u | u in s.users && u.id == s.sessions[d].userId ::
                                  ById(s.users, u.id) != Some(u) || !u.active)
            && (o.Expired? || o.Disabled? ==>
                  t == s.(sessions := s.sessions[d := s.sessions[d].(revokedAt := Some(Second(now)))]))
            && (!o.Expired? && !o.Disabled? ==> t == s)
  {
  }

  /** A token that is dead stays dead, and is not accepted, whatever happens next. */
  lemma {:induction false} DeadStep(c: Config, w: World, e: Event, token: string)
    requires Fresh(w, e) && token in w.lineage && Dead(w.state, w.now, token)
    ensures var w' := Apply(c, w, e);
            token in w'.lineage && Dead(w'.state, w'.now, token) && w'.accepted[token] == w.accepted[token]
  {
  }

  /** The digest an event may add. */
  predicate Issues(e: Event, d: Digest) {
    (e.SignIn? || e.Rotate?) && d.raw == e.raw
  }

  /** No event revives a session or moves it to another login. */
  lemma {:induction false} LiveBefore(c: Config, w: World, e: Event, d: Digest)
    requires Live(Apply(c, w, e).state, d) && !Issues(e, d)
    ensures Live(w.state, d)
    ensures d.raw in w.lineage ==> d.raw in Apply(c, w, e).lineage && Apply(c, w, e).lineage[d.raw] == w.lineage[d.raw]
  {
  }

  /** A new session shares its login with no session that is still live. */
  lemma {:induction false} NewIsAlone(c: Config, w: World, e: Event, d: Digest)
    requires Sound(w) && Fresh(w, e) && (e.SignIn? || e.Rotate?) && e.raw in Apply(c, w, e).lineage
    requires Live(Apply(c, w, e).state, d) && d.raw != e.raw
    ensures d.raw in w.lineage && w.lineage[d.raw] != Apply(c, w, e).lineage[e.raw]
  {
    LiveBefore(c, w, e, d);
    if e.Rotate? {
      assert Live(w.state, Sha256(e.token));
      assert d != Sha256(e.token);
    }
  }

  lemma {:induction false} OneLiveStep(c: Config, w: World, e: Event)
    requires Sound(w) && Fresh(w, e)
    ensures OneLivePerLogin(Apply(c, w, e))
  {
    var w' := Apply(c, w, e);
    forall d, d' | Live(w'.state, d) && Live(w'.state, d') && d.raw in w'.lineage && d'.raw in w'.lineage
                   && w'.lineage[d.raw] == w'.lineage[d'.raw]
      ensures d == d'
    {
      if d != d' { DifferentLogins(c, w, e, d, d'); }
    }
  }

  lemma {:induction false} DifferentLogins(c: Config, w: World, e: Event, d: Digest, d': Digest)
    requires Sound(w) && Fresh(w, e) && d != d'
    requires var w' := Apply(c, w, e);
             Live(w'.state, d) && Live(w'.state, d') && d.raw in w'.lineage && d'.raw in w'.lineage
    ensures Apply(c, w, e).lineage[d.raw] != Apply(c, w, e).lineage[d'.raw]
  {
    if !Issues(e, d) { LiveBefore(c, w, e, d); }
    if !Issues(e, d') { LiveBefore(c, w, e, d'); }
    if Issues(e, d) { NewIsAlone(c, w, e, d'); }
    else if Issues(e, d') { NewIsAlone(c, w, e, d); }
  }

  lemma {:induction false} KeysStep(c: Config, w: World, e: Event)
    requires Tracked(w) && Fresh(w, e)
    ensures forall d | d in Apply(c, w, e).state.sessions :: d.raw in Apply(c, w, e).lineage
  {
    forall d | d in Apply(c, w, e).state.sessions ensures d.raw in Apply(c, w, e).lineage {
      KeyStep(c, w, e, d);
    }
  }

  lemma {:induction false} KeyStep(c: Config, w: World, e: Event, d: Digest)
    requires d in Apply(c, w, e).state.sessions && (d in w.state.sessions ==> d.raw in w.lineage)
    ensures d.raw in Apply(c, w, e).lineage
  {
  }

  lemma {:induction false} LoginsStep(c: Config, w: World, e: Event)
    requires Tracked(w) && Fresh(w, e)
    ensures forall t | t in Apply(c, w, e).lineage :: Apply(c, w, e).lineage[t] < Apply(c, w, e).logins
  {
    if e.Rotate? && Refresh(c, w.state, e.token, w.now, e.raw, e.id).1.Rotated? {
      assert Sha256(e.token) in w.state.sessions;
    }
  }

  /** A rotation accepts a token that was never accepted before and kills it. */
  lemma {:induction false} RotationStep(c: Config, w: World, e: Event)
    requires Tracked(w) && Fresh(w, e) && e.Rotate?
    requires Refresh(c, w.state, e.token, w.now, e.raw, e.id).1.Rotated?
    ensures e.token in w.lineage && e.token !in w.accepted
    ensures Dead(Apply(c, w, e).state, w.now, e.token)
    ensures Apply(c, w, e).accepted == w.accepted + multiset{e.token}
  {
    assert Sha256(e.token) in w.state.sessions;
    assert !Dead(w.state, w.now, e.token);
    assert e.token != e.raw;
  }

  lemma {:induction false} TrackedStep(c: Config, w: World, e: Event)
    requires Tracked(w) && Fresh(w, e)
    ensures Tracked(Apply(c, w, e))
  {
    var w' := Apply(c, w, e);
    KeysStep(c, w, e);
    LoginsStep(c, w, e);
    forall t | t in w'.accepted ensures t in w'.lineage && w'.accepted[t] == 1 && Dead(w'.state, w'.now, t) {
      if t in w.accepted {
        DeadStep(c, w, e, t);
      } else {
        RotationStep(c, w, e);
      }
    }
  }

  lemma {:induction false} SoundStep(c: Config, w: World, e: Event)
    requires Sound(w) && Fresh(w, e)
    ensures Sound(Apply(c, w, e))
  {
    OneLiveStep(c, w, e);
    TrackedStep(c, w, e);
  }

  lemma {:induction false} SoundRun(c: Config, w: World, events: seq<Event>)
    requires Sound(w) && AllFresh(c, w, events)
    ensures Sound(Run(c, w, events))
    decreases |events|
  {
    if events != [] {
      SoundStep(c, w, events[0]);
      SoundRun(c, Apply(c, w, events[0]), events[1..]);
    }
  }

  /** Over every run from start-up each login's chain of rotations has at most one
      unrevoked session, and no refresh token is accepted twice. */
  lemma {:induction false} SingleUse(
      c: Config, users: seq<User>, now: nat, events: seq<Event>, d: Digest, e: Digest, token: string)
    requires AllFresh(c, Start(users, now), events)
    ensures var w := Run(c, Start(users, now), events);
            && w.accepted[token] <= 1
            && (Live(w.state, d) && Live(w.state, e) ==>
                  && d.raw in w.lineage && e.raw in w.lineage
                  && (w.lineage[d.raw] == w.lineage[e.raw] ==> d == e))
  {
    SoundRun(c, Start(users, now), events);
    var w := Run(c, Start(users, now), events);
    if token in w.accepted { assert w.accepted[token] == 1; }
  }

  // -------------------------------------------------------------------------
  // Whose session it is
  // -------------------------------------------------------------------------

  /** Whether these credentials are those of an active user. */
  predicate Known(users: seq<User>, username: string, password: string) {
    var user := ByName(users, username);
    user.Some? && user.value.passwordHash == Pbkdf2(password) && user.value.active
  }

  /** A sign-in that is not throttled is granted exactly to the active user of that name with
      that password. It then adds one unrevoked session of that user; a refusal adds none. */
  lemma {:induction false} GrantedToHolder(
      c: Config, s: State, username: string, password: string, now: nat, raw: string, id: string)
    ensures var (t, o) := Login(c, s, username, password, now, raw, id);
            && (o.Granted? <==> !LockedOut(s.throttle, username, Clock(now)) && Known(s.users, username, password))
            && t.users == s.users
            && (o.Granted? ==>
                  && o.token == raw && ByName(s.users, username).value.username == username
                  && Sha256(raw) in t.sessions && t.sessions == s.sessions[Sha256(raw) := t.sessions[Sha256(raw)]]
                  && t.sessions[Sha256(raw)].userId == ByName(s.users, username).value.id
                  && t.sessions[Sha256(raw)].revokedAt.None? && t.sessions[Sha256(raw)].id == id)
            && (!o.Granted? ==> t.sessions == s.sessions)
  {
    ByNameFinds(s.users, username);
  }

  predicate HeldAt(w: World, d: Digest) {
    d in w.state.sessions ==>
      && d.raw in w.lineage && w.lineage[d.raw] in w.holders
      && w.state.sessions[d].userId == w.holders[w.lineage[d.raw]]
  }

  /** Every session is of the user who signed in at the start of its chain. */
  ghost predicate Held(w: World) {
    && (forall d | d in w.state.sessions :: HeldAt(w, d))
    && (forall t | t in w.lineage :: w.lineage[t] < w.logins)
  }

  lemma {:induction false} HeldAtStep(c: Config, w: World, e: Event, d: Digest)
    requires Held(w) && Fresh(w, e)
    ensures HeldAt(Apply(c, w, e), d)
  {
    assert d in w.state.sessions ==> HeldAt(w, d);
    if e.Rotate? {
      assert Sha256(e.token) in w.state.sessions ==> HeldAt(w, Sha256(e.token));
      if Sha256(e.token) in w.state.sessions { ByIdFinds(w.state.users, w.state.sessions[Sha256(e.token)].userId); }
    }
  }

  lemma {:induction false} HeldStep(c: Config, w: World, e: Event)
    requires Held(w) && Fresh(w, e)
    ensures Held(Apply(c, w, e))
  {
    forall d | d in Apply(c, w, e).state.sessions ensures HeldAt(Apply(c, w, e), d) { HeldAtStep(c, w, e, d); }
    if e.Rotate? && Refresh(c, w.state, e.token, w.now, e.raw, e.id).1.Rotated? {
      assert HeldAt(w, Sha256(e.token));
    }
  }

  lemma {:induction false} HeldRun(c: Config, w: World, events: seq<Event>)
    requires Held(w) && AllFresh(c, w, events)
    ensures Held(Run(c, w, events))
    decreases |events|
  {
    if events != [] {
      HeldStep(c, w, events[0]);
      HeldRun(c, Apply(c, w, events[0]), events[1..]);
    }
  }

  /** Over every run from start-up each session is of the user who signed in at the start of
      its chain of rotations: no refresh changes who a browser is signed in as. */
  lemma {:induction false} SessionsKeepTheirUser(
      c: Config, users: seq<User>, now: nat, events: seq<Event>, d: Digest)
    requires AllFresh(c, Start(users, now), events)
    ensures var w := Run(c, Start(users, now), events);
            d in w.state.sessions ==>
              && d.raw in w.lineage && w.lineage[d.raw] in w.holders
              && w.state.sessions[d].userId == w.holders[w.lineage[d.raw]]
  {
    HeldRun(c, Start(users, now), events);
    var w := Run(c, Start(users, now), events);
    if d in w.state.sessions { assert HeldAt(w, d); }
  }

  /** A set `revoked_at` is never cleared or moved: the row keeps it or is deleted. */
  lemma {:induction false} RevocationIsFinal(c: Config, w: World, events: seq<Event>, d: Digest)
    requires AllFresh(c, w, events) && d.raw in w.lineage
    requires d in w.state.sessions ==> w.state.sessions[d].revokedAt.Some?
    ensures var s := Run(c, w, events).state;
            d in s.sessions ==> d in w.state.sessions && s.sessions[d].revokedAt == w.state.sessions[d].revokedAt
    decreases |events|
  {
    if events != [] {
      RevocationStep(c, w, events[0], d);
      RevocationIsFinal(c, Apply(c, w, events[0]), events[1..], d);
    }
  }

  lemma {:induction false} RevocationStep(c: Config, w: World, e: Event, d: Digest)
    requires Fresh(w, e) && d.raw in w.lineage
    requires d in w.state.sessions ==> w.state.sessions[d].revokedAt.Some?
    ensures var w' := Apply(c, w, e);
            && d.raw in w'.lineage
            && (d in w'.state.sessions ==>
                  d in w.state.sessions && w'.state.sessions[d].revokedAt == w.state.sessions[d].revokedAt)
  {
  }

  lemma {:induction false} DeadRun(c: Config, w: World, events: seq<Event>, token: string)
    requires AllFresh(c, w, events) && token in w.lineage && Dead(w.state, w.now, token)
    ensures Run(c, w, events).accepted[token] == w.accepted[token]
    decreases |events|
  {
    if events != [] {
      DeadStep(c, w, events[0], token);
      DeadRun(c, Apply(c, w, events[0]), events[1..], token);
    }
  }

  /** After a successful password change no session the user had is ever accepted again. */
  lemma {:induction false} PasswordChangeSignsOut(c: Config, w: World, e: Event, events: seq<Event>, token: string)
    requires Sound(w) && e.NewPassword?
    requires ChangePassword(w.state, e.userId, e.current, e.renewed, e.acceptable, w.now).1
    requires Sha256(token) in w.state.sessions && w.state.sessions[Sha256(token)].userId == e.userId
    requires AllFresh(c, Apply(c, w, e), events)
    ensures Run(c, Apply(c, w, e), events).accepted[token] == w.accepted[token]
  {
    DeadRun(c, Apply(c, w, e), events, token);
  }

  /** Whether a sign-out or an administrator's revocation is about a session. */
  predicate Ends(e: Event, d: Digest, row: Row) {
    match e
    case SignOut(token, who) =>
      if token != "" then d == Sha256(token) else who.Some? && who.value != "" && row.userId == who.value
    case AdminRevoke(sessionId) => row.id == sessionId
    case _ => false
  }

  /** A session that is signed out or revoked is never accepted again; those the event is not
      about stay as they were. */
  lemma {:induction false} SignOutIsFinal(c: Config, w: World, e: Event, events: seq<Event>, d: Digest)
    requires Sound(w) && (e.SignOut? || e.AdminRevoke?) && d in w.state.sessions
    requires AllFresh(c, Apply(c, w, e), events)
    ensures Ends(e, d, w.state.sessions[d]) ==>
              && !Live(Apply(c, w, e).state, d)
              && Run(c, Apply(c, w, e), events).accepted[d.raw] == w.accepted[d.raw]
    ensures !Ends(e, d, w.state.sessions[d]) ==>
              d in Apply(c, w, e).state.sessions && Apply(c, w, e).state.sessions[d] == w.state.sessions[d]
  {
    if Ends(e, d, w.state.sessions[d]) { DeadRun(c, Apply(c, w, e), events, d.raw); }
  }

  /** Presenting a token that was rotated out is refused and touches nothing, so the
      session that replaced it stays live. */
  lemma {:induction false} ReplayChangesNothing(
      c: Config, w: World, token: string, raw: string, id: string, later: nat, raw': string, id': string)
    requires Refresh(c, w.state, token, w.now, raw, id).1.Rotated? && raw != token && token != ""
    ensures var s := Refresh(c, w.state, token, w.now, raw, id).0;
            Refresh(c, s, token, later, raw', id') == (s, Revoked) && Live(s, Sha256(raw))
  {
  }

  /** Within both limits of a session begun or renewed at `begun`. */
  predicate InTime(c: Config, begun: nat, now: nat) {
    now <= (Second(begun) + c.refreshTtl) * MICROS && now <= (Second(begun) + c.idleTtl) * MICROS
  }

  /** The session of a sign-in is accepted exactly within its two limits while its user is
      active, and the session that replaces it exactly within its own. */
  lemma {:induction false} SignInIsAccepted(
      c: Config, s: State, username: string, password: string, now: nat, raw: string, id: string,
      later: nat, raw': string, id': string, latest: nat, raw'': string, id'': string)
    requires Login(c, s, username, password, now, raw, id).1.Granted? && raw != "" && raw' != "" && raw' != raw
    requires var user := ByName(s.users, username).value; ById(s.users, user.id) == Some(user)
    ensures var signed := Login(c, s, username, password, now, raw, id).0;
            var (t, o) := Refresh(c, signed, raw, later, raw', id');
            && (o == Rotated(raw') <==> InTime(c, now, later))
            && (o.Rotated? ==>
                  (Refresh(c, t, raw', latest, raw'', id'').1 == Rotated(raw'') <==> InTime(c, later, latest)))
  {
    IssuedIsAccepted(c, s.(throttle := Login(c, s, username, password, now, raw, id).0.throttle),
      ByName(s.users, username).value, now, raw, id, later, raw', id', latest, raw'', id'');
    GrantedToHolder(c, s, username, password, now, raw, id);
  }

  /** A session issued to an active user is accepted exactly until its expiry, and the
      session that replaces it exactly until its own. */
  lemma {:induction false} IssuedIsAccepted(
      c: Config, s: State, user: User, now: nat, raw: string, id: string, later: nat, raw': string, id': string,
      latest: nat, raw'': string, id'': string)
    requires ById(s.users, user.id) == Some(user) && user.active && raw != "" && raw' != "" && raw' != raw
    ensures var issued := Issue(c, s, user.id, now, raw, id);
            var (t, o) := Refresh(c, issued, raw, later, raw', id');
            && (o == Rotated(raw') <==> InTime(c, now, later))
            && (o.Rotated? ==>
                  (Refresh(c, t, raw', latest, raw'', id'').1 == Rotated(raw'') <==> InTime(c, later, latest)))
  {
    var issued := Issue(c, s, user.id, now, raw, id);
    assert issued.sessions[Sha256(raw)] == Row(id, user.id, Second(now), Second(now) + Lifetime(c), None);
    var (t, o) := Refresh(c, issued, raw, later, raw', id');
    if o.Rotated? {
      assert t.sessions[Sha256(raw')] == Row(id', user.id, Second(later), Second(later) + Lifetime(c), None);
    }
  }

  // -------------------------------------------------------------------------
  // Single use needs refresh to be atomic
  // -------------------------------------------------------------------------

  /** The reading half of a refresh: the user it is about to rotate for. */
  function Checked(s: State, token: string, now: nat): Option<User> {
    var d := Sha256(token);
    if token == "" || !Live(s, d) || s.sessions[d].expiresAt * MICROS < now then None
    else
      var user := ById(s.users, s.sessions[d].userId);
      if user.None? || !user.value.active then None else user
  }

  /** The writing half; it does not look whether its update changed a row. */
  function Committed(c: Config, s: State, user: User, token: string, now: nat, raw: string, id: string): State {
    Issue(c, s.(sessions := RevokeToken(s.sessions, token, Second(now))), user.id, now, raw, id)
  }

  lemma {:induction false} RefreshInHalves(c: Config, s: State, token: string, now: nat, raw: string, id: string)
    ensures var (t, o) := Refresh(c, s, token, now, raw, id);
            && (o.Rotated? <==> Checked(s, token, now).Some?)
            && (o.Rotated? ==> t == Committed(c, s, Checked(s, token, now).value, token, now, raw, id))
  {
    if Checked(s, token, now).Some? { assert Live(s, Sha256(token)); }
  }

  /** Two refreshes of one token that both read before either writes both succeed: the
      token is used twice and its chain has two live sessions. */
  lemma {:induction false} AtomicityIsNeeded(
      c: Config, s: State, token: string, now: nat, raw: string, id: string, raw': string, id': string)
    requires Checked(s, token, now).Some? && raw != token && raw' != token && raw != raw'
    ensures var user := Checked(s, token, now).value;
            var t := Committed(c, Committed(c, s, user, token, now, raw, id), user, token, now, raw', id');
            Live(t, Sha256(raw)) && Live(t, Sha256(raw')) && !Live(t, Sha256(token))
  {
  }

  // -------------------------------------------------------------------------
  // Start-up cleanup is invisible
  // -------------------------------------------------------------------------

  /** `v` is `w` without some rows that no `refresh` can accept any more. */
  ghost predicate Thinned(w: World, v: World) {
    SameButSessions(w, v) && forall d :: ThinRow(w, v, d)
  }

  predicate SameButSessions(w: World, v: World) {
    v == w.(state := w.state.(sessions := v.state.sessions))
  }

  predicate ThinRow(w: World, v: World, d: Digest) {
    && (d in w.state.sessions ==> d.raw in w.lineage)
    && (d in v.state.sessions ==> d in w.state.sessions && v.state.sessions[d] == w.state.sessions[d])
    && (d in w.state.sessions && d !in v.state.sessions ==> Dead(w.state, w.now, d.raw))
  }

  lemma {:induction false} ThinnedStep(c: Config, w: World, v: World, e: Event)
    requires Thinned(w, v) && Fresh(w, e)
    ensures Thinned(Apply(c, w, e), Apply(c, v, e))
  {
    if e.Rotate? {
      SameAnswer(c, w, v, e);
      forall d ensures ThinRow(Apply(c, w, e), Apply(c, v, e), d) { ThinRowRotate(c, w, v, e, d); }
    } else {
      OthersStay(c, w, v, e);
      forall d ensures ThinRow(Apply(c, w, e), Apply(c, v, e), d) { ThinRowStep(c, w, v, e, d); }
    }
  }

  lemma {:induction false} OthersStay(c: Config, w: World, v: World, e: Event)
    requires SameButSessions(w, v) && !e.Rotate?
    ensures SameButSessions(Apply(c, w, e), Apply(c, v, e))
  {
  }

  lemma {:induction false} ThinRowStep(c: Config, w: World, v: World, e: Event, d: Digest)
    requires SameButSessions(w, v) && ThinRow(w, v, d) && Fresh(w, e) && !e.Rotate?
    ensures ThinRow(Apply(c, w, e), Apply(c, v, e), d)
  {
  }

  /** A refresh is answered alike on the full and the thinned table, except that a revoked or
      expired token whose row is gone is no longer told from an unknown one. */
  predicate AnsweredAlike(w: World, v: World, token: string, full: RefreshOutcome, thin: RefreshOutcome) {
    if token != "" && Sha256(token) in w.state.sessions && Sha256(token) !in v.state.sessions
    then (full.Revoked? || full.Expired?) && thin.Unknown?
    else thin == full
  }

  lemma {:induction false} SameAnswer(c: Config, w: World, v: World, e: Event)
    requires SameButSessions(w, v) && e.Rotate? && ThinRow(w, v, Sha256(e.token))
    ensures AnsweredAlike(w, v, e.token, Refresh(c, w.state, e.token, w.now, e.raw, e.id).1,
                          Refresh(c, v.state, e.token, v.now, e.raw, e.id).1)
    ensures SameButSessions(Apply(c, w, e), Apply(c, v, e))
  {
    var d := Sha256(e.token);
    if d in w.state.sessions && d !in v.state.sessions { assert Dead(w.state, w.now, d.raw); }
  }

  lemma {:induction false} ThinRowRotate(c: Config, w: World, v: World, e: Event, d: Digest)
    requires SameButSessions(w, v) && e.Rotate? && Fresh(w, e)
    requires ThinRow(w, v, d) && ThinRow(w, v, Sha256(e.token))
    ensures ThinRow(Apply(c, w, e), Apply(c, v, e), d)
  {
    SameAnswer(c, w, v, e);
  }

  lemma {:induction false} ThinnedRun(c: Config, w: World, v: World, events: seq<Event>)
    requires Thinned(w, v) && AllFresh(c, w, events)
    ensures Thinned(Run(c, w, events), Run(c, v, events))
    decreases |events|
  {
    if events != [] {
      ThinnedStep(c, w, v, events[0]);
      ThinnedRun(c, Apply(c, w, events[0]), Apply(c, v, events[0]), events[1..]);
    }
  }

  /** Running the start-up cleanup at any moment does not change which tokens any later run
      accepts, nor how any token is answered after that run but for the name of the error. */
  lemma {:induction false} CleanupIsInvisible(
      c: Config, w: World, events: seq<Event>, token: string, raw: string, id: string)
    requires Tracked(w) && AllFresh(c, w, events)
    ensures var a, b := Run(c, w, events), Run(c, w.(state := Cleanup(w.state, w.now)), events);
            && a.accepted == b.accepted
            && AnsweredAlike(a, b, token, Refresh(c, a.state, token, a.now, raw, id).1,
                             Refresh(c, b.state, token, b.now, raw, id).1)
  {
    var v := w.(state := Cleanup(w.state, w.now));
    forall d ensures ThinRow(w, v, d) { CleanRow(w, d); }
    ThinnedRun(c, w, v, events);
    SameAnswer(c, Run(c, w, events), Run(c, v, events), Rotate(token, raw, id));
  }

  /** A row the cleanup deletes was revoked or had expired. */
  lemma {:induction false} CleanRow(w: World, d: Digest)
    requires d in w.state.sessions ==> d.raw in w.lineage
    ensures ThinRow(w, w.(state := Cleanup(w.state, w.now)), d)
  {
    assert Sha256(d.raw) == d;
  }

  // -------------------------------------------------------------------------
  // The lockout bound over service runs
  // -------------------------------------------------------------------------

  /** What an event is to the throttle. */
  function ThrottleEvents(w: World, e: Event): seq<LoginThrottle.Event> {
    match e
    case SignIn(username, password, _, _) =>
      var user := ByName(w.state.users, username);
      var good := user.Some? && user.value.passwordHash == Pbkdf2(password) && user.value.active;
      [Attempt(username, good, Clock(w.now))]
    case TryRegister(username) => [Registration(username, Clock(w.now))]
    case _ => []
  }

  function ThrottleTrace(c: Config, w: World, events: seq<Event>): seq<LoginThrottle.Event>
    decreases |events|
  {
    if events == [] then [] else ThrottleEvents(w, events[0]) + ThrottleTrace(c, Apply(c, w, events[0]), events[1..])
  }

  /** What the service itself answers to the sign-ins under a name: throttled ones leave no
      entry. */
  function SignIns(c: Config, w: World, events: seq<Event>, user: string, log: seq<Entry>): seq<Entry>
    decreases |events|
  {
    if events == [] then log
    else
      var e := events[0];
      var entry :=
        if e.SignIn? && e.username == user then
          match Login(c, w.state, user, e.password, w.now, e.raw, e.id).1
          case Throttled => []
          case Refused => [Failure(Clock(w.now))]
          case Granted(_) => [Success(Clock(w.now))]
        else [];
      SignIns(c, Apply(c, w, e), events[1..], user, log + entry)
  }

  function ThrottleAfter(c: Limits, t: Throttle, es: seq<LoginThrottle.Event>): Throttle
    requires |es| <= 1
  {
    if es == [] then t else LoginThrottle.Apply(c, t, es[0])
  }

  /** An event other than a restart does to the throttle what its throttle event does. */
  lemma {:induction false} ThrottleStep(c: Config, w: World, e: Event)
    requires !e.Restart?
    ensures Apply(c, w, e).state.throttle == ThrottleAfter(c.limits, w.state.throttle, ThrottleEvents(w, e))
  {
    if e.SignIn? { ByNameFinds(w.state.users, e.username); }
  }

  /** Between restarts the throttle of a service run is that of the throttle run of its
      sign-ins and registrations, and the answers are its history. */
  lemma {:induction false} ThrottleRun(c: Config, w: World, events: seq<Event>, user: string, log: seq<Entry>)
    requires Restart !in events
    ensures SignIns(c, w, events, user, log)
         == History(c.limits, w.state.throttle, ThrottleTrace(c, w, events), user, log)
    ensures Run(c, w, events).state.throttle == After(c.limits, w.state.throttle, ThrottleTrace(c, w, events))
    decreases |events|
  {
    if events != [] {
      var e := events[0];
      var es, rest := ThrottleEvents(w, e), ThrottleTrace(c, Apply(c, w, e), events[1..]);
      ThrottleStep(c, w, e);
      if es == [] {
        assert es + rest == rest && log + [] == log;
        ThrottleRun(c, Apply(c, w, e), events[1..], user, log);
      } else {
        assert (es + rest)[1..] == rest;
        SameEntry(c, w, e, user);
        ThrottleRun(c, Apply(c, w, e), events[1..], user, log + Logged(w.state.throttle, es[0], user));
      }
    }
  }

  lemma {:induction false} SameEntry(c: Config, w: World, e: Event, user: string)
    requires |ThrottleEvents(w, e)| == 1
    ensures Logged(w.state.throttle, ThrottleEvents(w, e)[0], user)
         == if e.SignIn? && e.username == user then
              match Login(c, w.state, user, e.password, w.now, e.raw, e.id).1
              case Throttled => []
              case Refused => [Failure(Clock(w.now))]
              case Granted(_) => [Success(Clock(w.now))]
            else []
  {
  }

  /** The service strips the names it is given. */
  predicate NormalName(e: Event) {
    e.SignIn? || e.TryRegister? ==> Stripped(e.username)
  }

  lemma {:induction false} TraceChronological(c: Config, w: World, events: seq<Event>)
    requires forall e | e in events :: NormalName(e)
    ensures var t := ThrottleTrace(c, w, events);
            Chronological(t) && Normal(t) && forall x | x in t :: x.at >= Clock(w.now)
    decreases |events|
  {
    if events != [] {
      var next := Apply(c, w, events[0]);
      TraceChronological(c, next, events[1..]);
      ClockStep(c, w, events[0]);
      assert NormalName(events[0]);
    }
  }

  lemma {:induction false} ClockStep(c: Config, w: World, e: Event)
    ensures Clock(Apply(c, w, e).now) >= Clock(w.now) >= 0.0
  {
  }

  /** From any moment with an empty throttle, a start-up for one, and until the next restart:
      no stretch of refused sign-ins under a name, shorter than the window and free of
      successes, is longer than the attempt limit. */
  lemma {:induction false} SignInsBounded(c: Config, w: World, events: seq<Event>, user: string)
    requires c.limits.lockout >= c.limits.window > 0.0 && Undisturbed(c.limits, user)
    requires w.state.throttle == EMPTY && Restart !in events && forall e | e in events :: NormalName(e)
    ensures Bounded(c.limits, SignIns(c, w, events, user, []))
  {
    ThrottleRun(c, w, events, user, []);
    TraceChronological(c, w, events);
    LockoutBound(c.limits, user, ThrottleTrace(c, w, events));
  }

  /** And from there nobody is throttled without cause: who is has been refused as often as the
      limit says, in a row and inside one window, less than the lockout ago. */
  lemma {:induction false} ThrottledJustified(
      c: Config, w: World, events: seq<Event>, user: string, password: string, raw: string, id: string)
    requires c.limits.window > 0.0 && (Plain(user) || c.limits.maxAttempts <= 1)
    requires w.state.throttle == EMPTY && Restart !in events && forall e | e in events :: NormalName(e)
    ensures var t := Run(c, w, events);
            Login(c, t.state, user, password, t.now, raw, id).1.Throttled? ==>
              Justified(c.limits, SignIns(c, w, events, user, []), Clock(t.now))
  {
    var t := Run(c, w, events);
    ThrottleRun(c, w, events, user, []);
    TraceChronological(c, w, events);
    LockoutJustified(c.limits, EMPTY, user, ThrottleTrace(c, w, events), Clock(t.now));
  }

  function Guesses(user: string, n: nat): seq<Event> {
    if n == 0 then [] else [SignIn(user, "", "", ""), Restart] + Guesses(user, n - 1)
  }

  lemma {:induction false} GuessesRefused(c: Config, w: World, user: string, n: nat, log: seq<Entry>)
    requires w.state.users == [] && w.state.throttle == EMPTY
    ensures SignIns(c, w, Guesses(user, n), user, log) == log + Copies(n, Failure(Clock(w.now)))
    decreases n
  {
    if n == 0 {
      assert log + [] == log;
    } else {
      var guess, at := SignIn(user, "", "", ""), Clock(w.now);
      var refused := Apply(c, w, guess);
      var events := Guesses(user, n);
      assert events[0] == guess && events[1..] == [Restart] + Guesses(user, n - 1);
      assert events[1..][1..] == Guesses(user, n - 1);
      assert !LockedOut(w.state.throttle, user, at);
      assert log + [Failure(at)] + [] == log + [Failure(at)];
      GuessesRefused(c, Apply(c, refused, Restart), user, n - 1, log + [Failure(at)]);
      CopiesFront(log, n, Failure(at));
    }
  }

  /** A restart empties the throttle and so ends the bound: with one after each guess,
      nothing limits how many are heard at one instant. */
  lemma {:induction false} RestartsBreak(c: Config, user: string)
    requires c.limits.window > 0.0
    ensures !Bounded(c.limits, SignIns(c, Start([], 0), Guesses(user, Cap(c.limits) + 1), user, []))
  {
    var n := Cap(c.limits) + 1;
    GuessesRefused(c, Start([], 0), user, n, []);
    var log := SignIns(c, Start([], 0), Guesses(user, n), user, []);
    assert log == Copies(n, Failure(Clock(0)));
    assert AllFailures(log, 0, n - 1);
  }
}
