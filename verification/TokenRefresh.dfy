/**
 The browser's token refresh, composed with the session service.

 JavaScript runs one turn at a time, so every event below is what happens between two
 awaits of one `authFetch` or `refreshSession` call, one server request, or one change of
 the signed-in user.  A reply that rotates the session replaces the cookie when it arrives,
 which may be long after the server handled the request, or never.  A sign-in replaces the
 cookie when its reply arrives and the access token some turns later.
*/
module TokenRefresh {
  import opened Options
  import A = AuthSessions

  /** Where one `authFetch` call stands; `Waiting` awaits the shared refresh promise. */
  datatype Phase = Ready | First | Waiting(refresh: nat) | Second | Done

  /** `sent` has the bearer token of each attempt so far. */
  datatype Call = Call(auth: bool, phase: Phase, sent: seq<Option<string>>)

  /** Where one `refreshSession` call stands.  `Served` is handled by the server with the
      reply, a new token or a refusal, on its way; `Settled` is before, `Finished` after the
      `finally` callback that clears `refreshPromise`. */
  datatype Refresh =
    | Sent(cookie: string)
    | Served(issued: Option<string>)
    | Settled(failed: bool)
    | Finished(failed: bool)

  datatype Client = Client(
    accessToken: Option<string>,
    refreshPromise: Option<nat>,
    calls: seq<Call>,
    refreshes: seq<Refresh>,
    cookie: string,
    signIns: nat,                 // sign-ins whose reply arrived but whose token is not set yet
    presented: multiset<string>,  // by the refresh requests the server handled
    adrift: multiset<string>,     // carried by refresh requests the page gave up but the network did not
    authLost: nat)

  datatype System = System(client: Client, server: A.World)

  datatype Event =
    | Open(auth: bool)                       // a page calls apiGet, apiPost, ...
    | Begin(call: nat)
    | Answer(call: nat, unauthorized: bool)  // the response of the first or second attempt
    | Break(call: nat)                       // its fetch rejects
    | Serve(refresh: nat, raw: string, id: string)
    | Lose(refresh: nat)                     // the refresh fetch rejects, before or after it was served
    | Gateway(refresh: nat)                  // so does not, but is answered with an error on the way
    | Late(cookie: string, raw: string, id: string) // the server handles a request the page gave up
    | Deliver(refresh: nat, access: Option<string>)
    | Finally(refresh: nat)
    | Resume(call: nat)
    | PageSignIn(username: string, password: string, raw: string, id: string)
    | Adopt(token: string)                   // a sign-in sets the access token it got
    | PageSignOut(who: Option<string>)
    | Forget                                 // auth lost, or a sign-out that failed
    | Elsewhere(event: A.Event)              // other clients, administrators, restarts, time

  function SetCall(s: Client, i: nat, c: Call): Client
    requires i < |s.calls|
  {
    s.(calls := s.calls[i := c])
  }

  /** One attempt of a call goes out with the access token of this moment, if it is to carry one. */
  function Attempt(s: Client, c: Call, p: Phase): Call {
    c.(phase := p, sent := c.sent + [if c.auth then s.accessToken else None])
  }

  /** The 401 branch: join the refresh in progress or start one with the current cookie. */
  function AwaitRefresh(s: Client, i: nat): Client
    requires i < |s.calls|
  {
    if s.refreshPromise.Some? then SetCall(s, i, s.calls[i].(phase := Waiting(s.refreshPromise.value)))
    else
      SetCall(s, i, s.calls[i].(phase := Waiting(|s.refreshes|))).(
        refreshPromise := Some(|s.refreshes|), refreshes := s.refreshes + [Sent(s.cookie)])
  }

  function Resumed(s: Client, i: nat, failed: bool): Client
    requires i < |s.calls|
  {
    var c := s.calls[i];
    if failed then SetCall(s, i, c.(phase := Done)) // the awaited promise rejects
    else if s.accessToken.Some? then SetCall(s, i, Attempt(s, c, Second))
    else SetCall(s, i, c.(phase := Done)).(authLost := s.authLost + 1)
  }

  function SetRefresh(s: Client, r: nat, x: Refresh): Client
    requires r < |s.refreshes|
  {
    s.(refreshes := s.refreshes[r := x])
  }

  /** Giving a refresh up: a request that was not served yet stays under way. One without a
      token would change nothing at the server. */
  function GiveUp(s: Client, r: nat, failed: bool): Client
    requires r < |s.refreshes|
  {
    var x := s.refreshes[r];
    SetRefresh(s, r, Settled(failed)).(
      adrift := if x.Sent? && x.cookie != "" then s.adrift + multiset{x.cookie} else s.adrift)
  }

  function Apply(c: A.Config, sys: System, e: Event): System {
    var s, w := sys.client, sys.server;
    match e
    case Open(auth) => sys.(client := s.(calls := s.calls + [Call(auth, Ready, [])]))
    case Begin(i) =>
      if i < |s.calls| && s.calls[i].phase.Ready?
      then sys.(client := SetCall(s, i, Attempt(s, s.calls[i], First)))
      else sys
    case Answer(i, unauthorized) =>
      if i < |s.calls| && s.calls[i].phase.First? && s.calls[i].auth && unauthorized && s.accessToken.Some?
      then sys.(client := AwaitRefresh(s, i))
      else if i < |s.calls| && (s.calls[i].phase.First? || s.calls[i].phase.Second?)
      then sys.(client := SetCall(s, i, s.calls[i].(phase := Done)))
      else sys
    case Break(i) =>
      if i < |s.calls| && (s.calls[i].phase.First? || s.calls[i].phase.Second?)
      then sys.(client := SetCall(s, i, s.calls[i].(phase := Done)))
      else sys
    case Serve(r, raw, id) =>
      if r < |s.refreshes| && s.refreshes[r].Sent? then
        var cookie := s.refreshes[r].cookie;
        var rotated := A.Refresh(c, w.state, cookie, w.now, raw, id).1.Rotated?;
        System(SetRefresh(s, r, Served(if rotated then Some(raw) else None)).(
                 presented := if cookie == "" then s.presented else s.presented + multiset{cookie}),
               A.Apply(c, w, A.Rotate(cookie, raw, id)))
      else sys
    case Lose(r) =>
      if r < |s.refreshes| && (s.refreshes[r].Sent? || s.refreshes[r].Served?)
      then sys.(client := GiveUp(s, r, true)) else sys
    case Gateway(r) =>
      if r < |s.refreshes| && (s.refreshes[r].Sent? || s.refreshes[r].Served?)
      then sys.(client := GiveUp(s, r, false).(accessToken := None)) else sys
    case Late(cookie, raw, id) =>
      if cookie in s.adrift then
        System(s.(adrift := s.adrift - multiset{cookie}, presented := s.presented + multiset{cookie}),
               A.Apply(c, w, A.Rotate(cookie, raw, id)))
      else sys
    case Deliver(r, access) =>
      if r < |s.refreshes| && s.refreshes[r].Served? then
        var issued := s.refreshes[r].issued;
        sys.(client := SetRefresh(s, r, Settled(false)).(
               cookie := if issued.Some? then issued.value else s.cookie,
               accessToken := if issued.Some? then access else None))
      else sys
    case Finally(r) =>
      if r < |s.refreshes| && s.refreshes[r].Settled?
      then sys.(client := SetRefresh(s, r, Finished(s.refreshes[r].failed)).(refreshPromise := None))
      else sys
    case Resume(i) =>
      if i < |s.calls| && s.calls[i].phase.Waiting? && s.calls[i].phase.refresh < |s.refreshes|
         && s.refreshes[s.calls[i].phase.refresh].Finished?
      then sys.(client := Resumed(s, i, s.refreshes[s.calls[i].phase.refresh].failed))
      else sys
    case PageSignIn(username, password, raw, id) =>
      var w' := A.Apply(c, w, A.SignIn(username, password, raw, id));
      if A.Login(c, w.state, username, password, w.now, raw, id).1.Granted?
      then System(s.(cookie := raw, signIns := s.signIns + 1), w')
      else sys.(server := w')
    case Adopt(token) =>
      if s.signIns > 0 then sys.(client := s.(accessToken := Some(token), signIns := s.signIns - 1)) else sys
    case PageSignOut(who) =>
      System(s.(accessToken := None, cookie := ""), A.Apply(c, w, A.SignOut(s.cookie, who)))
    case Forget => sys.(client := s.(accessToken := None))
    case Elsewhere(event) => sys.(server := A.Apply(c, w, event))
  }

  function Run(c: A.Config, sys: System, events: seq<Event>): System
    decreases |events|
  {
    if events == [] then sys else Run(c, Apply(c, sys, events[0]), events[1..])
  }

  /** Tokens the server issues are fresh and not empty. */
  predicate Fresh(sys: System, e: Event) {
    && ((e.Serve? || e.Late? || e.PageSignIn?) ==> e.raw != "" && e.raw !in sys.server.lineage)
    && (e.Elsewhere? ==> A.Fresh(sys.server, e.event))
  }

  ghost predicate AllFresh(c: A.Config, sys: System, events: seq<Event>)
    decreases |events|
  {
    events != [] ==> Fresh(sys, events[0]) && AllFresh(c, Apply(c, sys, events[0]), events[1..])
  }

  // -------------------------------------------------------------------------
  // Invariants
  // -------------------------------------------------------------------------

  /** `refreshPromise` names the one unfinished refresh, when there is one. */
  ghost predicate SingleFlight(s: Client) {
    && (forall r | 0 <= r < |s.refreshes| && !s.refreshes[r].Finished? :: s.refreshPromise == Some(r))
    && (s.refreshPromise.Some? ==>
          s.refreshPromise.value < |s.refreshes| && !s.refreshes[s.refreshPromise.value].Finished?)
  }

  predicate SendsFit(c: Call) {
    && (!c.auth ==> None == BearerAt(c.sent, 0) == BearerAt(c.sent, 1))
    && match c.phase
       case Ready => c.sent == []
       case First => |c.sent| == 1
       case Waiting(_) => |c.sent| == 1 && c.auth
       case Second => |c.sent| == 2 && c.auth && c.sent[1].Some?
       case Done => |c.sent| <= 2
  }

  function BearerAt(sent: seq<Option<string>>, k: nat): Option<string> {
    if k < |sent| then sent[k] else None
  }

  ghost predicate AllSendsFit(s: Client) {
    forall i | 0 <= i < |s.calls| :: SendsFit(s.calls[i])
  }

  predicate Used(s: Client, t: string) {
    t in s.presented || t in s.adrift
  }

  /** The page still has an access token, so its next 401 presents a cookie that was
      presented before or is on its way to be. */
  predicate WouldReplay(s: Client) {
    s.accessToken.Some? && s.cookie != "" && Used(s, s.cookie)
  }

  /** The refresh the shared promise names has not settled: its end will replace the cookie
      or clear the access token. */
  predicate UnderWay(s: Client) {
    && s.refreshPromise.Some? && s.refreshPromise.value < |s.refreshes|
    && (s.refreshes[s.refreshPromise.value].Sent? || s.refreshes[s.refreshPromise.value].Served?)
  }

  ghost predicate PresentedOnce(s: Client) {
    && (WouldReplay(s) ==> UnderWay(s))
    && (forall t :: s.presented[t] + s.adrift[t] <= 1)
    && (forall r | 0 <= r < |s.refreshes| :: Unspent(s, r))
  }

  /** Neither the cookie a refresh was sent with nor the one it brings was used before. */
  predicate Unspent(s: Client, r: nat)
    requires r < |s.refreshes|
  {
    match s.refreshes[r]
    case Sent(cookie) => cookie == "" || !Used(s, cookie)
    case Served(issued) => issued.Some? ==> !Used(s, issued.value)
    case _ => true
  }

  /** Every cookie value the browser has seen was issued by the server. */
  ghost predicate Issued(sys: System) {
    var s := sys.client;
    && (s.cookie == "" || s.cookie in sys.server.lineage)
    && (forall t | Used(s, t) :: t in sys.server.lineage)
    && (forall r | 0 <= r < |s.refreshes| :: FromServer(sys, s.refreshes[r]))
  }

  predicate FromServer(sys: System, x: Refresh) {
    match x
    case Sent(cookie) => cookie == "" || cookie in sys.server.lineage
    case Served(issued) => issued.Some? ==> issued.value in sys.server.lineage
    case _ => true
  }

  ghost predicate Sound(sys: System) {
    SingleFlight(sys.client) && PresentedOnce(sys.client) && Issued(sys)
  }

  /** Giving this refresh up leaves the page with an access token and a cookie that was
      presented or that a request still under way carries. */
  predicate Harmful(s: Client, r: nat)
    requires r < |s.refreshes|
  {
    && (s.refreshes[r].Sent? || s.refreshes[r].Served?)
    && s.accessToken.Some? && s.cookie != ""
    && (Used(s, s.cookie) || s.refreshes[r] == Sent(s.cookie))
  }

  /** Setting the token of a sign-in now puts it beside a cookie that a refresh has used
      since. */
  predicate Outdated(s: Client) {
    s.signIns > 0 && s.cookie != "" && Used(s, s.cookie) && !UnderWay(s)
  }

  /** The two hypotheses: on rejected refreshes and on the tokens of sign-ins. */
  predicate Harmless(sys: System, e: Event) {
    && (e.Lose? && e.refresh < |sys.client.refreshes| ==> !Harmful(sys.client, e.refresh))
    && (e.Adopt? ==> !Outdated(sys.client))
  }

  ghost predicate AllHarmless(c: A.Config, sys: System, events: seq<Event>)
    decreases |events|
  {
    events != [] ==> Harmless(sys, events[0]) && AllHarmless(c, Apply(c, sys, events[0]), events[1..])
  }

  function Start(w: A.World): System {
    System(Client(None, None, [], [], "", 0, multiset{}, multiset{}, 0), w)
  }

  lemma {:induction false} FlightStep(c: A.Config, sys: System, e: Event)
    requires SingleFlight(sys.client)
    ensures SingleFlight(Apply(c, sys, e).client)
  {
    match e
    case Answer(i, unauthorized) => FlightAnswer(c, sys, i, unauthorized);
    case Finally(r) => FlightFinally(c, sys, r);
    case Serve(r, raw, id) => FlightServe(c, sys, r, raw, id);
    case _ => FlightOther(c, sys, e);
  }

  lemma {:induction false} FlightServe(c: A.Config, sys: System, r: nat, raw: string, id: string)
    requires SingleFlight(sys.client)
    ensures SingleFlight(Apply(c, sys, Serve(r, raw, id)).client)
  {
  }

  lemma {:induction false} FlightAnswer(c: A.Config, sys: System, i: nat, unauthorized: bool)
    requires SingleFlight(sys.client)
    ensures SingleFlight(Apply(c, sys, Answer(i, unauthorized)).client)
  {
  }

  lemma {:induction false} FlightFinally(c: A.Config, sys: System, r: nat)
    requires SingleFlight(sys.client)
    ensures SingleFlight(Apply(c, sys, Finally(r)).client)
  {
  }

  lemma {:induction false} FlightOther(c: A.Config, sys: System, e: Event)
    requires SingleFlight(sys.client) && !e.Answer? && !e.Finally? && !e.Serve?
    ensures SingleFlight(Apply(c, sys, e).client)
  {
    var s, s' := sys.client, Apply(c, sys, e).client;
    assert s'.refreshPromise == s.refreshPromise && |s'.refreshes| == |s.refreshes|;
  }

  lemma {:induction false} SendsStep(c: A.Config, sys: System, e: Event)
    requires AllSendsFit(sys.client)
    ensures AllSendsFit(Apply(c, sys, e).client)
  {
  }

  lemma {:induction false} LineageGrows(c: A.Config, w: A.World, e: A.Event)
    ensures w.lineage.Keys <= A.Apply(c, w, e).lineage.Keys
  {
  }

  lemma {:induction false} IssuedStep(c: A.Config, sys: System, e: Event)
    requires Issued(sys)
    ensures Issued(Apply(c, sys, e))
  {
    match e
    case Serve(r, raw, id) => IssuedServe(c, sys, r, raw, id);
    case Late(cookie, raw, id) => LineageGrows(c, sys.server, A.Rotate(cookie, raw, id));
    case Lose(r) => IssuedGivenUp(c, sys, e, r);
    case Gateway(r) => IssuedGivenUp(c, sys, e, r);
    case Answer(i, unauthorized) => IssuedAnswer(c, sys, i, unauthorized);
    case Elsewhere(event) => LineageGrows(c, sys.server, event);
    case PageSignIn(username, password, raw, id) => IssuedSign(c, sys, e);
    case PageSignOut(who) => IssuedSign(c, sys, e);
    case _ => IssuedOther(c, sys, e);
  }

  lemma {:induction false} IssuedServe(c: A.Config, sys: System, r: nat, raw: string, id: string)
    requires Issued(sys)
    ensures Issued(Apply(c, sys, Serve(r, raw, id)))
  {
    if r < |sys.client.refreshes| && sys.client.refreshes[r].Sent? {
      LineageGrows(c, sys.server, A.Rotate(sys.client.refreshes[r].cookie, raw, id));
    }
  }

  lemma {:induction false} IssuedAnswer(c: A.Config, sys: System, i: nat, unauthorized: bool)
    requires Issued(sys)
    ensures Issued(Apply(c, sys, Answer(i, unauthorized)))
  {
  }

  lemma {:induction false} IssuedSign(c: A.Config, sys: System, e: Event)
    requires Issued(sys) && (e.PageSignIn? || e.PageSignOut?)
    ensures Issued(Apply(c, sys, e))
  {
    if e.PageSignIn? { LineageGrows(c, sys.server, A.SignIn(e.username, e.password, e.raw, e.id)); }
    if e.PageSignOut? { LineageGrows(c, sys.server, A.SignOut(sys.client.cookie, e.who)); }
  }

  lemma {:induction false} IssuedOther(c: A.Config, sys: System, e: Event)
    requires Issued(sys) && !e.Serve? && !e.Late? && !e.Lose? && !e.Gateway? && !e.Answer? && !e.Elsewhere?
    requires !e.PageSignIn? && !e.PageSignOut?
    ensures Issued(Apply(c, sys, e))
  {
  }

  lemma {:induction false} IssuedGivenUp(c: A.Config, sys: System, e: Event, r: nat)
    requires Issued(sys) && (e == Lose(r) || e == Gateway(r))
    ensures Issued(Apply(c, sys, e))
  {
    var s, s' := sys.client, Apply(c, sys, e).client;
    if r < |s.refreshes| {
      assert FromServer(sys, s.refreshes[r]);
      assert forall t | Used(s', t) :: Used(s, t) || s.refreshes[r] == Sent(t);
    }
  }

  lemma {:induction false} PresentedStep(c: A.Config, sys: System, e: Event)
    requires Sound(sys) && Fresh(sys, e) && Harmless(sys, e)
    ensures PresentedOnce(Apply(c, sys, e).client)
  {
    match e
    case Serve(r, raw, id) => PresentedServe(c, sys, r, raw, id);
    case Late(cookie, raw, id) => PresentedLate(c, sys, cookie, raw, id);
    case Lose(r) => PresentedGivenUp(c, sys, e, r);
    case Gateway(r) => PresentedGivenUp(c, sys, e, r);
    case Answer(i, unauthorized) => PresentedAnswer(c, sys, i, unauthorized);
    case PageSignIn(username, password, raw, id) => PresentedSign(c, sys, e);
    case PageSignOut(who) => PresentedSign(c, sys, e);
    case _ => PresentedRefresh(c, sys, e);
  }

  lemma {:induction false} PresentedSign(c: A.Config, sys: System, e: Event)
    requires Sound(sys) && Fresh(sys, e) && (e.PageSignIn? || e.PageSignOut?)
    ensures PresentedOnce(Apply(c, sys, e).client)
  {
    var s, s' := sys.client, Apply(c, sys, e).client;
    assert s'.refreshes == s.refreshes && s'.presented == s.presented && s'.adrift == s.adrift;
    if e.PageSignIn? { assert !Used(s, e.raw); }
    forall q | 0 <= q < |s'.refreshes| ensures Unspent(s', q) { assert Unspent(s, q); }
  }

  lemma {:induction false} PresentedServe(c: A.Config, sys: System, r: nat, raw: string, id: string)
    requires Sound(sys) && Fresh(sys, Serve(r, raw, id))
    ensures PresentedOnce(Apply(c, sys, Serve(r, raw, id)).client)
  {
    var s, s' := sys.client, Apply(c, sys, Serve(r, raw, id)).client;
    if r < |s.refreshes| && s.refreshes[r].Sent? {
      assert Unspent(s, r) && FromServer(sys, s.refreshes[r]) && !Used(s, raw);
      forall q | 0 <= q < |s'.refreshes| ensures Unspent(s', q) { assert Unspent(s, q); }
    }
  }

  /** A late request only moves its token from under way to presented. */
  lemma {:induction false} PresentedLate(c: A.Config, sys: System, cookie: string, raw: string, id: string)
    requires PresentedOnce(sys.client)
    ensures PresentedOnce(Apply(c, sys, Late(cookie, raw, id)).client)
  {
    var s, s' := sys.client, Apply(c, sys, Late(cookie, raw, id)).client;
    forall t ensures s'.presented[t] + s'.adrift[t] == s.presented[t] + s.adrift[t] && Used(s', t) == Used(s, t) {}
    forall q | 0 <= q < |s'.refreshes| ensures Unspent(s', q) { assert Unspent(s, q); }
  }

  lemma {:induction false} PresentedGivenUp(c: A.Config, sys: System, e: Event, r: nat)
    requires SingleFlight(sys.client) && PresentedOnce(sys.client) && Harmless(sys, e)
    requires e == Lose(r) || e == Gateway(r)
    ensures PresentedOnce(Apply(c, sys, e).client)
  {
    var s, s' := sys.client, Apply(c, sys, e).client;
    if r < |s.refreshes| && (s.refreshes[r].Sent? || s.refreshes[r].Served?) {
      assert Unspent(s, r) && s.refreshPromise == Some(r);
      forall q | 0 <= q < |s'.refreshes| ensures Unspent(s', q) { assert Unspent(s, q); }
    }
  }

  lemma {:induction false} PresentedAnswer(c: A.Config, sys: System, i: nat, unauthorized: bool)
    requires SingleFlight(sys.client) && PresentedOnce(sys.client)
    ensures PresentedOnce(Apply(c, sys, Answer(i, unauthorized)).client)
  {
    var s, s' := sys.client, Apply(c, sys, Answer(i, unauthorized)).client;
    forall q | 0 <= q < |s'.refreshes| ensures Unspent(s', q) {
      if q < |s.refreshes| { assert Unspent(s, q); }
    }
  }

  /** The events that let a refresh end or leave it alone. */
  lemma {:induction false} PresentedRefresh(c: A.Config, sys: System, e: Event)
    requires SingleFlight(sys.client) && PresentedOnce(sys.client) && Harmless(sys, e)
    requires !e.Serve? && !e.Late? && !e.Lose? && !e.Gateway? && !e.Answer? && !e.PageSignIn? && !e.PageSignOut?
    ensures PresentedOnce(Apply(c, sys, e).client)
  {
    var s, s' := sys.client, Apply(c, sys, e).client;
    assert s'.presented == s.presented && s'.adrift == s.adrift;
    if (e.Deliver? || e.Finally?) && e.refresh < |s.refreshes| { assert Unspent(s, e.refresh); }
    forall q | 0 <= q < |s'.refreshes| ensures Unspent(s', q) { assert Unspent(s, q); }
  }

  lemma {:induction false} FlightRun(c: A.Config, sys: System, events: seq<Event>)
    requires SingleFlight(sys.client) && AllSendsFit(sys.client)
    ensures SingleFlight(Run(c, sys, events).client) && AllSendsFit(Run(c, sys, events).client)
    decreases |events|
  {
    if events != [] {
      FlightStep(c, sys, events[0]);
      SendsStep(c, sys, events[0]);
      FlightRun(c, Apply(c, sys, events[0]), events[1..]);
    }
  }

  lemma {:induction false} SoundRun(c: A.Config, sys: System, events: seq<Event>)
    requires Sound(sys) && AllFresh(c, sys, events) && AllHarmless(c, sys, events)
    ensures Sound(Run(c, sys, events))
    decreases |events|
  {
    if events != [] {
      FlightStep(c, sys, events[0]);
      PresentedStep(c, sys, events[0]);
      IssuedStep(c, sys, events[0]);
      SoundRun(c, Apply(c, sys, events[0]), events[1..]);
    }
  }

  /** Over every interleaving, lost replies included: at most one refresh in flight and at
      most two sends per call. */
  lemma {:induction false} SingleFlightHolds(c: A.Config, w: A.World, events: seq<Event>, q: nat, r: nat, i: nat)
    ensures var s := Run(c, Start(w), events).client;
            && (q < |s.refreshes| && r < |s.refreshes| && !s.refreshes[q].Finished? && !s.refreshes[r].Finished?
                ==> q == r)
            && (i < |s.calls| ==> |s.calls[i].sent| <= 2)
  {
    FlightRun(c, Start(w), events);
    var s := Run(c, Start(w), events).client;
    if i < |s.calls| { assert SendsFit(s.calls[i]); }
  }

  /** No refresh token is presented twice over any run whose rejected refreshes and sign-ins
      are harmless. */
  lemma {:induction false} PresentedAtMostOnce(c: A.Config, w: A.World, events: seq<Event>, token: string)
    requires AllFresh(c, Start(w), events) && AllHarmless(c, Start(w), events)
    ensures Run(c, Start(w), events).client.presented[token] <= 1
  {
    SoundRun(c, Start(w), events);
    var s := Run(c, Start(w), events).client;
    assert s.presented[token] + s.adrift[token] <= 1;
  }

  // -------------------------------------------------------------------------
  // Which rejected refreshes do harm
  // -------------------------------------------------------------------------

  ghost predicate PresentsTwice(c: A.Config, sys: System, events: seq<Event>) {
    && AllFresh(c, sys, events) && AllHarmless(c, sys, events)
    && exists t :: Run(c, sys, events).client.presented[t] >= 2
  }

  /** A call that is answered 401. */
  function Call401(s: Client): seq<Event> {
    [Open(true)] + ([Begin(|s.calls|)] + [Answer(|s.calls|, true)])
  }

  /** Such a call up to the server's handling of the refresh it starts. */
  function CallAndRefresh(s: Client, raw: string, id: string): seq<Event> {
    Call401(s) + [Serve(|s.refreshes|, raw, id)]
  }

  lemma {:induction false} RunCons(c: A.Config, sys: System, e: Event, rest: seq<Event>)
    ensures Run(c, sys, [e] + rest) == Run(c, Apply(c, sys, e), rest)
    ensures AllFresh(c, sys, [e] + rest) <==> Fresh(sys, e) && AllFresh(c, Apply(c, sys, e), rest)
    ensures AllHarmless(c, sys, [e] + rest) <==> Harmless(sys, e) && AllHarmless(c, Apply(c, sys, e), rest)
  {
    assert ([e] + rest)[1..] == rest;
  }

  lemma {:induction false} RunOne(c: A.Config, sys: System, e: Event)
    ensures Run(c, sys, [e]) == Apply(c, sys, e)
    ensures AllFresh(c, sys, [e]) <==> Fresh(sys, e)
    ensures AllHarmless(c, sys, [e]) <==> Harmless(sys, e)
  {
    assert [e] == [e] + [];
    RunCons(c, sys, e, []);
  }

  lemma {:induction false} RunConcat(c: A.Config, sys: System, a: seq<Event>, b: seq<Event>)
    ensures Run(c, sys, a + b) == Run(c, Run(c, sys, a), b)
    ensures AllFresh(c, sys, a + b) <==> AllFresh(c, sys, a) && AllFresh(c, Run(c, sys, a), b)
    ensures AllHarmless(c, sys, a + b) <==> AllHarmless(c, sys, a) && AllHarmless(c, Run(c, sys, a), b)
    decreases |a|
  {
    if a == [] {
      assert a + b == b;
    } else {
      assert (a + b)[1..] == a[1..] + b;
      RunConcat(c, Apply(c, sys, a[0]), a[1..], b);
    }
  }

  /** With an access token and no refresh under way, such a call sends the current cookie. */
  lemma {:induction false} CallSends(c: A.Config, sys: System)
    requires sys.client.refreshPromise.None? && sys.client.accessToken.Some?
    ensures var s, t := sys.client, Run(c, sys, Call401(sys.client));
            && AllFresh(c, sys, Call401(s)) && AllHarmless(c, sys, Call401(s)) && t.server == sys.server
            && t.client == s.(calls := t.client.calls, refreshPromise := Some(|s.refreshes|),
                              refreshes := s.refreshes + [Sent(s.cookie)])
  {
    var s := sys.client;
    var e1, e2, e3 := Open(true), Begin(|s.calls|), Answer(|s.calls|, true);
    var s1 := Apply(c, sys, e1);
    var s2 := Apply(c, s1, e2);
    assert s2.client.calls[|s.calls|] == Call(true, First, [s.accessToken]) && s2.client.refreshes == s.refreshes;
    RunCons(c, sys, e1, [e2] + [e3]);
    RunCons(c, s1, e2, [e3]);
    RunOne(c, s2, e3);
  }

  /** Once handled, it presents that cookie. */
  lemma {:induction false} CallPresents(c: A.Config, sys: System, raw: string, id: string)
    requires sys.client.refreshPromise.None? && sys.client.accessToken.Some? && sys.client.cookie != ""
    requires raw != "" && raw !in sys.server.lineage
    ensures var events, s := CallAndRefresh(sys.client, raw, id), sys.client;
            var t := Run(c, sys, events);
            && AllFresh(c, sys, events) && AllHarmless(c, sys, events)
            && t.client.presented == s.presented + multiset{s.cookie} && t.client.adrift == s.adrift
            && t.client.refreshPromise == Some(|s.refreshes|) && |t.client.refreshes| == |s.refreshes| + 1
            && t.client.refreshes[|s.refreshes|].Served?
            && t.client.accessToken == s.accessToken && t.client.cookie == s.cookie
            && t.client.signIns == s.signIns
            && t.server.lineage.Keys <= sys.server.lineage.Keys + {raw}
  {
    var s := sys.client;
    var serve := Serve(|s.refreshes|, raw, id);
    CallSends(c, sys);
    RunConcat(c, sys, Call401(s), [serve]);
    RunOne(c, Run(c, sys, Call401(s)), serve);
    NewKeys(c, sys.server, s.cookie, raw, id);
  }

  lemma {:induction false} NewKeys(c: A.Config, w: A.World, cookie: string, raw: string, id: string)
    ensures A.Apply(c, w, A.Rotate(cookie, raw, id)).lineage.Keys <= w.lineage.Keys + {raw}
  {
  }

  /** The next call after a refresh that settled. */
  function NextRefresh(s: Client, r: nat, raw: string, id: string): seq<Event> {
    [Finally(r)] + CallAndRefresh(s, raw, id)
  }

  lemma {:induction false} NextPresents(c: A.Config, sys: System, r: nat, raw: string, id: string)
    requires r < |sys.client.refreshes| && sys.client.refreshes[r].Settled? && sys.client.refreshPromise == Some(r)
    requires sys.client.accessToken.Some? && sys.client.cookie != "" && raw != "" && raw !in sys.server.lineage
    ensures var events := NextRefresh(sys.client, r, raw, id);
            && AllFresh(c, sys, events) && AllHarmless(c, sys, events)
            && Run(c, sys, events).client.presented == sys.client.presented + multiset{sys.client.cookie}
            && Run(c, sys, events).client.adrift == sys.client.adrift
            && Run(c, sys, events).server.lineage.Keys <= sys.server.lineage.Keys + {raw}
  {
    var settled := Apply(c, sys, Finally(r));
    assert CallAndRefresh(settled.client, raw, id) == CallAndRefresh(sys.client, raw, id);
    RunCons(c, sys, Finally(r), CallAndRefresh(sys.client, raw, id));
    CallPresents(c, settled, raw, id);
  }

  /** The next call, and then what is still under way with the same token. */
  function NextAndLate(s: Client, r: nat, one: string, two: string, id: string): seq<Event> {
    NextRefresh(s, r, one, id) + [Late(s.cookie, two, id)]
  }

  lemma {:induction false} LatePresents(c: A.Config, sys: System, r: nat, one: string, two: string, id: string)
    requires r < |sys.client.refreshes| && sys.client.refreshes[r].Settled? && sys.client.refreshPromise == Some(r)
    requires sys.client.accessToken.Some? && sys.client.cookie != "" && sys.client.cookie in sys.client.adrift
    requires one != "" && two != "" && one != two && one !in sys.server.lineage && two !in sys.server.lineage
    ensures var events, k := NextAndLate(sys.client, r, one, two, id), sys.client.cookie;
            && AllFresh(c, sys, events) && AllHarmless(c, sys, events)
            && Run(c, sys, events).client.presented == sys.client.presented + multiset{k} + multiset{k}
  {
    var next, late := NextRefresh(sys.client, r, one, id), Late(sys.client.cookie, two, id);
    NextPresents(c, sys, r, one, id);
    RunConcat(c, sys, next, [late]);
    RunOne(c, Run(c, sys, next), late);
  }

  /** With no refresh under way, the next call presents a used cookie again. */
  lemma {:induction false} ReplayIdle(c: A.Config, sys: System, one: string, two: string, id: string)
    requires sys.client.refreshPromise.None? && WouldReplay(sys.client)
    requires one != "" && two != "" && one != two && one !in sys.server.lineage && two !in sys.server.lineage
    ensures exists events :: PresentsTwice(c, sys, events)
  {
    var k, next := sys.client.cookie, CallAndRefresh(sys.client, one, id);
    CallPresents(c, sys, one, id);
    if k in sys.client.presented {
      assert Run(c, sys, next).client.presented[k] >= 2;
      assert PresentsTwice(c, sys, next);
    } else {
      var late := Late(k, two, id);
      RunConcat(c, sys, next, [late]);
      RunOne(c, Run(c, sys, next), late);
      assert Run(c, sys, next + [late]).client.presented[k] >= 2;
      assert PresentsTwice(c, sys, next + [late]);
    }
  }

  lemma {:induction false} ReplayHappens(c: A.Config, sys: System, r: nat, one: string, two: string, id: string)
    requires r < |sys.client.refreshes| && sys.client.refreshes[r].Settled? && sys.client.refreshPromise == Some(r)
    requires WouldReplay(sys.client)
    requires one != "" && two != "" && one != two && one !in sys.server.lineage && two !in sys.server.lineage
    ensures exists events :: PresentsTwice(c, sys, events)
  {
    var settled := Apply(c, sys, Finally(r));
    ReplayIdle(c, settled, one, two, id);
    var events :| PresentsTwice(c, settled, events);
    RunCons(c, sys, Finally(r), events);
    assert PresentsTwice(c, sys, [Finally(r)] + events);
  }

  /** A refresh that rejects, before or after the server handled it, lets a token be
      presented twice exactly when the page still has an access token and holds a cookie
      that was presented or that a request under way carries. */
  lemma {:induction false} LossHarmfulExactly(c: A.Config, sys: System, r: nat, one: string, two: string, id: string)
    requires Sound(sys) && r < |sys.client.refreshes|
    requires sys.client.refreshes[r].Sent? || sys.client.refreshes[r].Served?
    requires one != "" && two != "" && one != two && one !in sys.server.lineage && two !in sys.server.lineage
    ensures (exists events :: PresentsTwice(c, Apply(c, sys, Lose(r)), events)) <==> Harmful(sys.client, r)
  {
    var lost := Apply(c, sys, Lose(r));
    if Harmful(sys.client, r) {
      ReplayHappens(c, lost, r, one, two, id);
    } else {
      NeverTwice(c, sys, Lose(r));
    }
  }

  /** So does setting the token of a sign-in exactly when the cookie has been used since and
      no refresh is under way that will replace it. */
  lemma {:induction false} AdoptHarmfulExactly(
      c: A.Config, sys: System, token: string, one: string, two: string, id: string)
    requires Sound(sys)
    requires one != "" && two != "" && one != two && one !in sys.server.lineage && two !in sys.server.lineage
    ensures (exists events :: PresentsTwice(c, Apply(c, sys, Adopt(token)), events)) <==> Outdated(sys.client)
  {
    var adopted := Apply(c, sys, Adopt(token));
    if !Outdated(sys.client) {
      NeverTwice(c, sys, Adopt(token));
    } else if adopted.client.refreshPromise.None? {
      ReplayIdle(c, adopted, one, two, id);
    } else {
      ReplayHappens(c, adopted, adopted.client.refreshPromise.value, one, two, id);
    }
  }

  lemma {:induction false} NeverTwice(c: A.Config, sys: System, e: Event)
    requires Sound(sys) && Fresh(sys, e) && Harmless(sys, e)
    ensures forall events :: !PresentsTwice(c, Apply(c, sys, e), events)
  {
    var next := Apply(c, sys, e);
    FlightStep(c, sys, e);
    PresentedStep(c, sys, e);
    IssuedStep(c, sys, e);
    forall events ensures !PresentsTwice(c, next, events) {
      if AllFresh(c, next, events) && AllHarmless(c, next, events) {
        SoundRun(c, next, events);
        assert forall t :: Run(c, next, events).client.presented[t] + Run(c, next, events).client.adrift[t] <= 1;
      }
    }
  }

  /** After sign-in: one call whose refresh reply is lost. */
  function LostReply(s: Client, raw: string, id: string): seq<Event> {
    CallAndRefresh(s, raw, id) + [Lose(|s.refreshes|)]
  }

  lemma {:induction false} LostThenNext(c: A.Config, sys: System, one: string, two: string, id: string)
    requires sys.client.refreshPromise.None? && sys.client.accessToken.Some? && sys.client.cookie != ""
    requires one != "" && two != "" && one != two && one !in sys.server.lineage && two !in sys.server.lineage
    ensures var s := sys.client;
            var lost := Run(c, sys, LostReply(s, one, id));
            var next := NextRefresh(lost.client, |s.refreshes|, two, id);
            && AllFresh(c, sys, LostReply(s, one, id)) && AllFresh(c, lost, next)
            && Run(c, lost, next).client.presented == s.presented + multiset{s.cookie} + multiset{s.cookie}
  {
    var m, events := |sys.client.refreshes|, CallAndRefresh(sys.client, one, id);
    CallPresents(c, sys, one, id);
    RunConcat(c, sys, events, [Lose(m)]);
    RunOne(c, Run(c, sys, events), Lose(m));
    NextPresents(c, Run(c, sys, LostReply(sys.client, one, id)), m, two, id);
  }

  lemma {:induction false} SignedIn(
      c: A.Config, w: A.World, username: string, password: string, raw: string, id: string, token: string)
    requires A.Login(c, w.state, username, password, w.now, raw, id).1.Granted? && raw !in w.lineage && raw != ""
    ensures var signIn := [PageSignIn(username, password, raw, id)] + [Adopt(token)];
            var sys := Run(c, Start(w), signIn);
            && AllFresh(c, Start(w), signIn)
            && sys.client == Start(w).client.(cookie := raw, accessToken := Some(token))
            && sys.server == A.Apply(c, w, A.SignIn(username, password, raw, id))
            && sys.server.lineage.Keys == w.lineage.Keys + {raw}
  {
    var signIn := PageSignIn(username, password, raw, id);
    RunCons(c, Start(w), signIn, [Adopt(token)]);
    RunOne(c, Apply(c, Start(w), signIn), Adopt(token));
  }

  /** From start-up: sign in, lose the reply to the first refresh, call again. The token of
      the sign-in is presented twice. */
  lemma {:induction false} LostReplyPresentsTwice(
      c: A.Config, w: A.World, username: string, password: string, raw: string, id: string, token: string,
      one: string, two: string)
    requires A.Login(c, w.state, username, password, w.now, raw, id).1.Granted? && raw !in w.lineage && raw != ""
    requires one != "" && two != "" && one != two && one !in w.lineage && two !in w.lineage && one != raw && two != raw
    ensures exists events :: AllFresh(c, Start(w), events) && Run(c, Start(w), events).client.presented[raw] == 2
  {
    var signIn := [PageSignIn(username, password, raw, id)] + [Adopt(token)];
    var sys := Run(c, Start(w), signIn);
    SignedIn(c, w, username, password, raw, id, token);
    LostThenNext(c, sys, one, two, id);
    var first := LostReply(sys.client, one, id);
    var next := NextRefresh(Run(c, sys, first).client, 0, two, id);
    RunConcat(c, sys, first, next);
    RunConcat(c, Start(w), signIn, first + next);
    var events := signIn + (first + next);
    assert AllFresh(c, Start(w), events) && Run(c, Start(w), events).client.presented[raw] == 2;
  }

  /** A call whose refresh request is given up before the server handles it. */
  function LostRequest(s: Client): seq<Event> {
    Call401(s) + [Lose(|s.refreshes|)]
  }

  lemma {:induction false} LostRequestDrifts(c: A.Config, sys: System)
    requires sys.client.refreshPromise.None? && sys.client.accessToken.Some? && sys.client.cookie != ""
    ensures var s, t := sys.client, Run(c, sys, LostRequest(sys.client));
            && AllFresh(c, sys, LostRequest(s)) && t.server == sys.server
            && t.client.refreshPromise == Some(|s.refreshes|) && |t.client.refreshes| == |s.refreshes| + 1
            && t.client.refreshes[|s.refreshes|].Settled?
            && t.client.accessToken == s.accessToken && t.client.cookie == s.cookie
            && t.client.presented == s.presented && t.client.adrift == s.adrift + multiset{s.cookie}
  {
    var s := sys.client;
    CallSends(c, sys);
    RunConcat(c, sys, Call401(s), [Lose(|s.refreshes|)]);
    RunOne(c, Run(c, sys, Call401(s)), Lose(|s.refreshes|));
  }

  /** From start-up: sign in, give the first refresh up while its request is under way, call
      again; then the first request arrives. The token of the sign-in is presented twice. */
  lemma {:induction false} LostRequestPresentsTwice(
      c: A.Config, w: A.World, username: string, password: string, raw: string, id: string, token: string,
      one: string, two: string)
    requires A.Login(c, w.state, username, password, w.now, raw, id).1.Granted? && raw !in w.lineage && raw != ""
    requires one != "" && two != "" && one != two && one !in w.lineage && two !in w.lineage && one != raw && two != raw
    ensures exists events :: AllFresh(c, Start(w), events) && Run(c, Start(w), events).client.presented[raw] == 2
  {
    var signIn := [PageSignIn(username, password, raw, id)] + [Adopt(token)];
    var sys := Run(c, Start(w), signIn);
    SignedIn(c, w, username, password, raw, id, token);
    var first := LostRequest(sys.client);
    var lost := Run(c, sys, first);
    LostRequestDrifts(c, sys);
    LatePresents(c, lost, 0, one, two, id);
    var next := NextAndLate(lost.client, 0, one, two, id);
    RunConcat(c, sys, first, next);
    RunConcat(c, Start(w), signIn, first + next);
    var events := signIn + (first + next);
    assert AllFresh(c, Start(w), events) && Run(c, Start(w), events).client.presented[raw] == 2;
  }

  /** A sign-in is answered; before it sets its token a call refreshes with the new cookie and
      the reply is an error. */
  function LateToken(s: Client, raw: string, id: string, token: string): seq<Event> {
    CallAndRefresh(s, raw, id) + ([Gateway(|s.refreshes|)] + [Adopt(token)])
  }

  lemma {:induction false} LateTokenReplays(
      c: A.Config, sys: System, token: string, one: string, two: string, id: string)
    requires sys.client.refreshPromise.None? && sys.client.accessToken.Some? && sys.client.cookie != ""
    requires sys.client.signIns > 0
    requires one != "" && two != "" && one != two && one !in sys.server.lineage && two !in sys.server.lineage
    ensures exists events :: AllFresh(c, sys, events) && Run(c, sys, events).client.presented
              == sys.client.presented + multiset{sys.client.cookie} + multiset{sys.client.cookie}
  {
    var m, events := |sys.client.refreshes|, CallAndRefresh(sys.client, one, id);
    CallPresents(c, sys, one, id);
    RunConcat(c, sys, events, [Gateway(m)] + [Adopt(token)]);
    var called := Run(c, sys, events);
    RunCons(c, called, Gateway(m), [Adopt(token)]);
    RunOne(c, Apply(c, called, Gateway(m)), Adopt(token));
    var first := LateToken(sys.client, one, id, token);
    var late := Run(c, sys, first);
    NextPresents(c, late, m, two, id);
    RunConcat(c, sys, first, NextRefresh(late.client, m, two, id));
    assert AllFresh(c, sys, first + NextRefresh(late.client, m, two, id));
  }

  lemma {:induction false} LoginAgain(c: A.Config, w: A.World, username: string, password: string, raw: string,
                                      id: string, again: string)
    requires A.Login(c, w.state, username, password, w.now, raw, id).1.Granted?
    ensures var w' := A.Apply(c, w, A.SignIn(username, password, raw, id));
            A.Login(c, w'.state, username, password, w'.now, again, id).1.Granted?
            && w'.lineage.Keys == w.lineage.Keys + {raw}
  {
    A.ByNameFinds(w.state.users, username);
  }

  /** Not empty, not issued, not among the ones before. */
  predicate NewAt(w: A.World, tokens: seq<string>, i: nat)
    requires i < |tokens|
  {
    tokens[i] != "" && tokens[i] !in w.lineage && tokens[i] !in tokens[..i]
  }

  predicate NewTokens(w: A.World, tokens: seq<string>) {
    forall i | 0 <= i < |tokens| :: NewAt(w, tokens, i)
  }

  function SecondSignIn(
      username: string, password: string, raw: string, again: string, id: string, token: string): seq<Event>
  {
    [PageSignIn(username, password, raw, id)] + [Adopt(token)] + [PageSignIn(username, password, again, id)]
  }

  /** Signed in, and a second sign-in answered whose token is not set yet. */
  lemma {:induction false} SecondPending(
      c: A.Config, w: A.World, username: string, password: string, raw: string, again: string, id: string,
      token: string)
    requires A.Login(c, w.state, username, password, w.now, raw, id).1.Granted? && NewTokens(w, [raw, again])
    ensures var events := SecondSignIn(username, password, raw, again, id, token);
            var sys := Run(c, Start(w), events);
            && AllFresh(c, Start(w), events)
            && sys.client == Start(w).client.(cookie := again, accessToken := Some(token), signIns := 1)
            && sys.server.lineage.Keys == w.lineage.Keys + {raw, again}
  {
    var signIn, second := [PageSignIn(username, password, raw, id)] + [Adopt(token)],
      PageSignIn(username, password, again, id);
    var sys := Run(c, Start(w), signIn);
    assert NewAt(w, [raw, again], 0) && NewAt(w, [raw, again], 1);
    SignedIn(c, w, username, password, raw, id, token);
    LoginAgain(c, w, username, password, raw, id, again);
    LoginAgain(c, sys.server, username, password, again, id, again);
    RunConcat(c, Start(w), signIn, [second]);
    RunOne(c, sys, second);
  }

  /** From start-up: sign in twice, where the second time a refresh that ends in an error comes
      between the reply and its token. The token of the second sign-in is presented twice. */
  lemma {:induction false} LateTokenPresentsTwice(
      c: A.Config, w: A.World, username: string, password: string, raw: string, again: string, id: string,
      token: string, one: string, two: string)
    requires A.Login(c, w.state, username, password, w.now, raw, id).1.Granted?
    requires NewTokens(w, [raw, again]) && NewTokens(w, [one, two]) && {raw, again} !! {one, two}
    ensures exists events :: AllFresh(c, Start(w), events) && Run(c, Start(w), events).client.presented[again] == 2
  {
    var first := SecondSignIn(username, password, raw, again, id, token);
    var pending := Run(c, Start(w), first);
    assert NewAt(w, [raw, again], 1) && NewAt(w, [one, two], 0) && NewAt(w, [one, two], 1);
    SecondPending(c, w, username, password, raw, again, id, token);
    LateTokenReplays(c, pending, token, one, two, id);
    var events :| AllFresh(c, pending, events) && Run(c, pending, events).client.presented
                    == pending.client.presented + multiset{again} + multiset{again};
    RunConcat(c, Start(w), first, events);
    assert AllFresh(c, Start(w), first + events) && Run(c, Start(w), first + events).client.presented[again] == 2;
  }

  /** The composed server is itself a run of the session service, so its guarantees
      (`AuthSessions.SingleUse`) hold of it. */
  lemma {:induction false} ServerRuns(c: A.Config, sys: System, events: seq<Event>)
    requires A.Sound(sys.server) && AllFresh(c, sys, events)
    ensures A.Sound(Run(c, sys, events).server)
    decreases |events|
  {
    if events != [] {
      ServerStep(c, sys, events[0]);
      ServerRuns(c, Apply(c, sys, events[0]), events[1..]);
    }
  }

  /** What an event means at the server. */
  function ServerEvent(s: Client, e: Event): Option<A.Event> {
    match e
    case Serve(r, raw, id) =>
      if r < |s.refreshes| && s.refreshes[r].Sent? then Some(A.Rotate(s.refreshes[r].cookie, raw, id)) else None
    case Late(cookie, raw, id) => if cookie in s.adrift then Some(A.Rotate(cookie, raw, id)) else None
    case PageSignIn(username, password, raw, id) => Some(A.SignIn(username, password, raw, id))
    case PageSignOut(who) => Some(A.SignOut(s.cookie, who))
    case Elsewhere(event) => Some(event)
    case _ => None
  }

  lemma {:induction false} ServerOnly(c: A.Config, sys: System, e: Event)
    ensures var a := ServerEvent(sys.client, e);
            && Apply(c, sys, e).server == (if a.Some? then A.Apply(c, sys.server, a.value) else sys.server)
            && (a.Some? && Fresh(sys, e) ==> A.Fresh(sys.server, a.value))
  {
  }

  lemma {:induction false} ServerStep(c: A.Config, sys: System, e: Event)
    requires A.Sound(sys.server) && Fresh(sys, e)
    ensures A.Sound(Apply(c, sys, e).server)
  {
    ServerOnly(c, sys, e);
    var a := ServerEvent(sys.client, e);
    if a.Some? { A.SoundStep(c, sys.server, a.value); }
  }

  /** The first attempt carries the access token of its moment if the call is to carry one. */
  lemma {:induction false} FirstAttempt(c: A.Config, sys: System, i: nat)
    requires i < |sys.client.calls| && sys.client.calls[i].phase.Ready? && sys.client.calls[i].sent == []
    ensures var s, t := sys.client, Apply(c, sys, Begin(i)).client;
            t == SetCall(s, i, Call(s.calls[i].auth, First, [if s.calls[i].auth then s.accessToken else None]))
  {
    var token := if sys.client.calls[i].auth then sys.client.accessToken else None;
    assert [] + [token] == [token];
  }

  /** A 401 to the first attempt of a call that is to carry a token, while the page has one,
      makes the call wait for the refresh that the shared promise names: the one under way, or
      a new one with the current cookie. Any other answer ends the call. */
  lemma {:induction false} FirstAnswer(c: A.Config, sys: System, i: nat, unauthorized: bool)
    requires SingleFlight(sys.client) && i < |sys.client.calls| && sys.client.calls[i].phase.First?
    ensures var s, t := sys.client, Apply(c, sys, Answer(i, unauthorized)).client;
            if s.calls[i].auth && unauthorized && s.accessToken.Some? then
              && t.refreshPromise.Some? && t.calls[i] == s.calls[i].(phase := Waiting(t.refreshPromise.value))
              && (if s.refreshPromise.Some? then t.refreshPromise == s.refreshPromise && t.refreshes == s.refreshes
                  else t.refreshPromise == Some(|s.refreshes|) && t.refreshes == s.refreshes + [Sent(s.cookie)])
            else t == SetCall(s, i, s.calls[i].(phase := Done))
  {
  }

  /** A fetch that rejects ends its call, first attempt or second, and nothing else. */
  lemma {:induction false} BrokenAttemptEnds(c: A.Config, sys: System, i: nat)
    requires i < |sys.client.calls| && (sys.client.calls[i].phase.First? || sys.client.calls[i].phase.Second?)
    ensures Apply(c, sys, Break(i)) == sys.(client := SetCall(sys.client, i, sys.client.calls[i].(phase := Done)))
  {
  }

  /** A call whose refresh rejected ends without a second attempt and without giving the
      session up. */
  lemma {:induction false} RejectedRefreshEnds(c: A.Config, sys: System, i: nat)
    requires i < |sys.client.calls| && sys.client.calls[i].phase.Waiting?
    requires sys.client.calls[i].phase.refresh < |sys.client.refreshes|
    requires sys.client.refreshes[sys.client.calls[i].phase.refresh] == Finished(true)
    ensures Apply(c, sys, Resume(i)).client == SetCall(sys.client, i, sys.client.calls[i].(phase := Done))
  {
  }

  /** A call that resumes after its refresh is sent once more, with the access token the page
      has then, exactly when it has one; then it ends whatever the answer: it never loops. */
  lemma {:induction false} ReplayOnce(c: A.Config, sys: System, i: nat, unauthorized: bool)
    requires i < |sys.client.calls| && SendsFit(sys.client.calls[i]) && sys.client.calls[i].phase.Waiting?
    requires sys.client.calls[i].phase.refresh < |sys.client.refreshes|
    requires sys.client.refreshes[sys.client.calls[i].phase.refresh] == Finished(false)
    ensures var s1 := Apply(c, sys, Resume(i));
            var s2 := Apply(c, s1, Answer(i, unauthorized));
            var held := sys.client.accessToken;
            && (s1.client.calls[i].phase.Second? <==> held.Some?)
            && s2.client.calls[i].phase.Done?
            && s2.client.calls[i].sent == sys.client.calls[i].sent + (if held.Some? then [held] else [])
            && s2.client.refreshes == sys.client.refreshes
            && s2.client.authLost == sys.client.authLost + (if held.Some? then 0 else 1)
  {
  }

  // -------------------------------------------------------------------------
  // What a refresh brings
  // -------------------------------------------------------------------------

  /** Handled by the server and answered, a refresh leaves the page with the access token of
      the reply and the cookie just issued if the server rotated the session, and with no
      access token and the cookie it had if the server refused; the shared promise is clear. */
  lemma {:induction false} RefreshInstalls(
      c: A.Config, sys: System, r: nat, raw: string, id: string, access: Option<string>)
    requires r < |sys.client.refreshes| && sys.client.refreshes[r].Sent? && sys.client.refreshPromise == Some(r)
    ensures var s := sys.client;
            var served := Apply(c, sys, Serve(r, raw, id));
            var t := Apply(c, Apply(c, served, Deliver(r, access)), Finally(r));
            var w, token := sys.server, s.refreshes[r].cookie;
            var rotated := A.Refresh(c, w.state, token, w.now, raw, id).1 == A.Rotated(raw);
            && t.client.refreshes[r] == Finished(false) && t.client.refreshPromise.None?
            && t.client.accessToken == (if rotated then access else None)
            && t.client.cookie == (if rotated then raw else s.cookie)
            && t.client.calls == s.calls && t.server == served.server
  {
  }

  /** A refresh that rejects keeps token and cookie and passes the rejection on; one answered
      with an error on the way clears the token and passes on that there is none. */
  lemma {:induction false} GivenUpExactly(c: A.Config, sys: System, r: nat)
    requires r < |sys.client.refreshes| && (sys.client.refreshes[r].Sent? || sys.client.refreshes[r].Served?)
    ensures var s, lost, refused := sys.client, Apply(c, sys, Lose(r)), Apply(c, sys, Gateway(r));
            && lost.server == refused.server == sys.server
            && lost.client.refreshes == s.refreshes[r := Settled(true)]
            && refused.client.refreshes == s.refreshes[r := Settled(false)]
            && lost.client.accessToken == s.accessToken && refused.client.accessToken == None
            && lost.client.cookie == refused.client.cookie == s.cookie
            && lost.client.presented == refused.client.presented == s.presented
  {
  }

  /** A sign-out ends the session of the cookie at the server and leaves the page with neither
      token nor cookie; one that failed, and a lost session, leaves it without token only. */
  lemma {:induction false} SignedOut(c: A.Config, sys: System, who: Option<string>)
    ensures var s, t := sys.client, Apply(c, sys, PageSignOut(who));
            && t.client == s.(accessToken := None, cookie := "")
            && (s.cookie != "" ==> !A.Live(t.server.state, A.Sha256(s.cookie)))
    ensures Apply(c, sys, Forget) == sys.(client := sys.client.(accessToken := None))
  {
  }

  /** The events that may set or clear the access token or the cookie. */
  predicate Quiet(e: Event) {
    !e.Deliver? && !e.Gateway? && !e.PageSignIn? && !e.PageSignOut? && !e.Forget? && !e.Adopt?
  }

  lemma {:induction false} QuietStep(c: A.Config, sys: System, e: Event)
    requires Quiet(e)
    ensures var t := Apply(c, sys, e).client; t.accessToken == sys.client.accessToken && t.cookie == sys.client.cookie
  {
  }

  lemma {:induction false} QuietRun(c: A.Config, sys: System, events: seq<Event>)
    requires forall e | e in events :: Quiet(e)
    ensures var t := Run(c, sys, events).client;
            t.accessToken == sys.client.accessToken && t.cookie == sys.client.cookie
    decreases |events|
  {
    if events != [] {
      QuietStep(c, sys, events[0]);
      QuietRun(c, Apply(c, sys, events[0]), events[1..]);
    }
  }

  /** A call waiting for a refresh whose reply brings a new access token: whatever other
      calls do in between, when it resumes it is sent again with that token. */
  lemma {:induction false} ReplayCarriesNewToken(
      c: A.Config, sys: System, r: nat, access: string, between: seq<Event>, i: nat)
    requires r < |sys.client.refreshes| && sys.client.refreshes[r].Served? && sys.client.refreshes[r].issued.Some?
    requires forall e | e in between :: Quiet(e)
    requires var t := Run(c, Apply(c, sys, Deliver(r, Some(access))), between).client;
             && i < |t.calls| && SendsFit(t.calls[i]) && t.calls[i].phase == Waiting(r)
             && r < |t.refreshes| && t.refreshes[r] == Finished(false)
    ensures var t := Run(c, Apply(c, sys, Deliver(r, Some(access))), between);
            var call := Apply(c, t, Resume(i)).client.calls[i];
            call.phase.Second? && |call.sent| == 2 && call.sent[1] == Some(access)
            && t.client.cookie == sys.client.refreshes[r].issued.value
  {
    QuietRun(c, Apply(c, sys, Deliver(r, Some(access))), between);
  }
}
