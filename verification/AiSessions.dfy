/**
 The short-lived AI session store: time-to-live, a size cap with oldest-first eviction,
 pair isolation.  Clock readings and fresh identifiers are inputs.
*/
module AiSessions {
  import opened Options
  import opened Strings

  datatype Answer = Answer(text: string, evidenceRefs: nat)

  /** The value of a session object. */
  datatype View = View(
    pairId: string, createdAt: real, lastAccessed: real, questions: seq<string>, answers: seq<Answer>)

  datatype Outcome = Resolved(id: string) | IsolationError

  const HISTORY := 8

  function Cut(s: string, n: nat): (r: string)
    ensures r <= s && |r| == if |s| < n then |s| else n
  {
    if |s| <= n then s else s[..n]
  }

  /** `deque(maxlen=8).append` */
  function Append<T>(d: seq<T>, x: T): (r: seq<T>)
    ensures |d| <= HISTORY ==> |r| <= HISTORY
    ensures r != [] && r[|r| - 1] == x
  {
    if |d| < HISTORY then d + [x] else d[|d| - HISTORY + 1..] + [x]
  }

  /** The last eight of everything appended so far. */
  function LastEight<T>(all: seq<T>): seq<T> {
    if |all| <= 8 then all else all[|all| - 8..]
  }

  lemma {:induction false} AppendKeepsLast<T>(all: seq<T>, x: T)
    ensures Append(LastEight(all), x) == LastEight(all + [x])
  {
  }

  predicate Expired(v: View, ttl: real, now: real) {
    now - v.lastAccessed > ttl
  }

  type Store = map<string, View>

  function Pruned(s: Store, ttl: real, now: real): Store {
    map k | k in s && !Expired(s[k], ttl, now) :: s[k]
  }

  ghost predicate Oldest(s: Store, k: string) {
    k in s && forall j | j in s :: s[k].lastAccessed <= s[j].lastAccessed
  }

  /** What `resolve` may leave and answer; the choice of the oldest is open only on ties. */
  ghost predicate ResolveStep(max: nat, ttl: real, s: Store, t: Store, id: string, pairId: string, now: real,
                              newId: string, out: Outcome)
  {
    var p := Pruned(s, ttl, now);
    if id != "" && id in p then
      if p[id].pairId != pairId then t == p && out == IsolationError
      else t == p[id := p[id].(lastAccessed := now)] && out == Resolved(id)
    else
      out == Resolved(newId) && Opened(max, p, t, pairId, now, newId)
  }

  /** A new session joins `p`; over the cap, one with the oldest access leaves. */
  ghost predicate Opened(max: nat, p: Store, t: Store, pairId: string, now: real, newId: string) {
    var q := p[newId := View(pairId, now, now, [], [])];
    if |q| > max then exists k :: Oldest(q, k) && t == q - {k} else t == q
  }

  function Noted(v: View, question: string, answer: Option<Answer>): View {
    var q := if Strip(question) == "" then v.questions else Append(v.questions, Cut(Strip(question), 300));
    var a := if answer.None? || answer.value.text == "" then v.answers
             else Append(v.answers, Answer(Cut(answer.value.text, 200), answer.value.evidenceRefs));
    v.(questions := q, answers := a)
  }

  /** A recorded exchange: a question and perhaps an answer. */
  datatype Exchange = Exchange(question: string, answer: Option<Answer>)

  /** The part of a question and of an answer that is kept, if there is any. */
  function Heard(e: Exchange): seq<string> {
    if Strip(e.question) == "" then [] else [Cut(Strip(e.question), 300)]
  }

  function Told(e: Exchange): seq<Answer> {
    if e.answer.None? || e.answer.value.text == "" then []
    else [Answer(Cut(e.answer.value.text, 200), e.answer.value.evidenceRefs)]
  }

  function AllHeard(es: seq<Exchange>): seq<string> {
    if es == [] then [] else AllHeard(es[..|es| - 1]) + Heard(es[|es| - 1])
  }

  function AllTold(es: seq<Exchange>): seq<Answer> {
    if es == [] then [] else AllTold(es[..|es| - 1]) + Told(es[|es| - 1])
  }

  /** If a session holds the last eight questions that were not blank and the last eight
      answers that were not empty, cut to 300 and 200 characters, it still does after one
      more exchange, and is otherwise as it was. */
  lemma {:induction false} NotedStep(v: View, es: seq<Exchange>, e: Exchange)
    requires v.questions == LastEight(AllHeard(es)) && v.answers == LastEight(AllTold(es))
    ensures Noted(v, e.question, e.answer)
         == v.(questions := LastEight(AllHeard(es + [e])), answers := LastEight(AllTold(es + [e])))
  {
    assert (es + [e])[..|es|] == es;
    assert AllHeard(es + [e]) == AllHeard(es) + Heard(e) && AllTold(es + [e]) == AllTold(es) + Told(e);
    if Heard(e) == [] { assert AllHeard(es) + [] == AllHeard(es); }
    else { AppendKeepsLast(AllHeard(es), Cut(Strip(e.question), 300)); }
    if Told(e) == [] { assert AllTold(es) + [] == AllTold(es); }
    else { AppendKeepsLast(AllTold(es), Answer(Cut(e.answer.value.text, 200), e.answer.value.evidenceRefs)); }
  }

  function Recorded(s: Store, id: string, question: string, answer: Option<Answer>): Store {
    if id !in s then s else s[id := Noted(s[id], question, answer)]
  }

  // -------------------------------------------------------------------------
  // The objects
  // -------------------------------------------------------------------------

  class AISession {
    const sessionId: string
    const pairId: string
    const createdAt: real
    var lastAccessed: real
    var questions: seq<string>
    var answers: seq<Answer>

    constructor (sessionId: string, pairId: string, now: real)
      ensures this.sessionId == sessionId && Value() == View(pairId, now, now, [], [])
    {
      this.sessionId, this.pairId, createdAt, lastAccessed := sessionId, pairId, now, now;
      questions, answers := [], [];
    }

    function Value(): View
      reads this
    {
      View(pairId, createdAt, lastAccessed, questions, answers)
    }

    method Note(question: string, answer: Option<Answer>)
      modifies this
      ensures Value() == Noted(old(Value()), question, answer)
    {
      var q := Strip(question);
      if q != "" { questions := Append(questions, Cut(q, 300)); }
      if answer.Some? && answer.value.text != "" {
        answers := Append(answers, Answer(Cut(answer.value.text, 200), answer.value.evidenceRefs));
      }
    }
  }

  class SessionStore {
    const max: nat
    const ttl: real
    var sessions: map<string, AISession>

    ghost predicate Valid()
      reads this, sessions.Values
    {
      max >= 1 && forall k | k in sessions :: sessions[k].sessionId == k
    }

    ghost function State(): Store
      reads this, sessions.Values
    {
      map k | k in sessions :: sessions[k].Value()
    }

    constructor (maxSessions: int, ttlSeconds: int)
      ensures Valid() && State() == map[] && fresh(sessions.Values)
      ensures max == (if maxSessions < 1 then 1 else maxSessions)
      ensures ttl == (if ttlSeconds < 60 then 60 else ttlSeconds) as real
    {
      max := if maxSessions < 1 then 1 else maxSessions;
      ttl := (if ttlSeconds < 60 then 60 else ttlSeconds) as real;
      sessions := map[];
    }

    method Prune(now: real)
      requires Valid()
      modifies this`sessions
      ensures Valid() && State() == Pruned(old(State()), ttl, now)
      ensures sessions.Values <= old(sessions.Values)
    {
      sessions := map k | k in sessions && !(now - sessions[k].lastAccessed > ttl) :: sessions[k];
    }

    method EvictOldest()
      requires Valid() && sessions != map[]
      modifies this`sessions
      ensures Valid() && exists k :: Oldest(old(State()), k) && State() == old(State()) - {k}
      ensures sessions.Values <= old(sessions.Values)
    {
      var rest := sessions.Keys;
      var oldest :| oldest in rest;
      rest := rest - {oldest};
      while rest != {}
        invariant oldest in sessions && rest <= sessions.Keys
        invariant forall k | k in sessions && k !in rest :: sessions[oldest].lastAccessed <= sessions[k].lastAccessed
        decreases |rest|
      {
        var k :| k in rest;
        rest := rest - {k};
        if sessions[k].lastAccessed < sessions[oldest].lastAccessed { oldest := k; }
      }
      assert Oldest(State(), oldest);
      sessions := sessions - {oldest};
      assert State() == old(State()) - {oldest};
    }

    method Touch(id: string, now: real)
      requires Valid() && id in sessions
      modifies sessions[id]
      ensures Valid() && State() == old(State())[id := old(State())[id].(lastAccessed := now)]
    {
      sessions[id].lastAccessed := now;
    }

    method Insert(id: string, pairId: string, now: real)
      requires Valid() && id !in sessions
      modifies this`sessions
      ensures Valid() && State() == old(State())[id := View(pairId, now, now, [], [])]
      ensures fresh(sessions.Values - old(sessions.Values)) && sessions.Keys == old(sessions.Keys) + {id}
    {
      var session := new AISession(id, pairId, now);
      sessions := sessions[id := session];
    }

    method Open(pairId: string, now: real, newId: string)
      requires Valid() && newId !in sessions
      modifies this`sessions
      ensures Valid() && Opened(max, old(State()), State(), pairId, now, newId)
      ensures fresh(sessions.Values - old(sessions.Values))
    {
      Insert(newId, pairId, now);
      assert State().Keys == sessions.Keys;
      if |sessions| > max { EvictOldest(); }
    }

    method Resolve(id: string, pairId: string, now: real, newId: string) returns (out: Outcome)
      requires Valid() && newId !in sessions
      modifies this`sessions, sessions.Values
      ensures Valid() && ResolveStep(max, ttl, old(State()), State(), id, pairId, now, newId, out)
      ensures fresh(sessions.Values - old(sessions.Values))
    {
      Prune(now);
      assert State().Keys == sessions.Keys;
      if id != "" && id in sessions {
        if sessions[id].pairId != pairId { return IsolationError; }
        Touch(id, now);
        out := Resolved(id);
      } else {
        Open(pairId, now, newId);
        out := Resolved(newId);
      }
    }

    method Record(id: string, question: string, answer: Option<Answer>)
      requires Valid()
      modifies if id in sessions then {sessions[id]} else {}
      ensures Valid() && State() == Recorded(old(State()), id, question, answer)
    {
      if id !in sessions { return; }
      sessions[id].Note(question, answer);
      assert State() == old(State())[id := sessions[id].Value()];
    }

    method Reset(id: string) returns (removed: bool)
      requires Valid()
      modifies this`sessions
      ensures Valid() && State() == old(State()) - {id} && (removed <==> id in old(State()))
      ensures sessions.Values <= old(sessions.Values)
    {
      removed := id in sessions;
      sessions := sessions - {id};
    }
  }
}
