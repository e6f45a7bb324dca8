/** What the session store keeps over every run under a strictly increasing clock. */
module AiSessionRuns {
  import opened Options
  import opened AiSessions

  /** `last` and `pairs` remember, for every session ever opened, its most recent resolve
      and its pair; `now` is the time of the latest resolve. */
  datatype World = World(live: Store, last: map<string, real>, pairs: map<string, string>, now: real)

  datatype Event =
    | Resolve(id: string, pairId: string, at: real, newId: string, out: Outcome)
    | Record(id: string, question: string, answer: Option<Answer>)
    | Reset(id: string)

  ghost predicate Next(max: nat, ttl: real, w: World, e: Event, w': World) {
    match e
    case Resolve(id, pairId, at, newId, out) =>
      && at > w.now && newId !in w.last && newId != "" && w'.now == at
      && ResolveStep(max, ttl, w.live, w'.live, id, pairId, at, newId, out)
      && (if out.IsolationError? then w'.last == w.last && w'.pairs == w.pairs
          else w'.last == w.last[out.id := at]
               && w'.pairs == if out.id in w.pairs then w.pairs else w.pairs[out.id := pairId])
    case Record(id, question, answer) => w' == w.(live := Recorded(w.live, id, question, answer))
    case Reset(id) => w' == w.(live := w.live - {id})
  }

  ghost predicate IsRun(max: nat, ttl: real, ws: seq<World>, es: seq<Event>) {
    && |ws| == |es| + 1 && ws[0] == World(map[], map[], map[], 0.0)
    && forall i | 0 <= i < |es| :: Next(max, ttl, ws[i], es[i], ws[i + 1])
  }

  // -------------------------------------------------------------------------
  // With or without resets
  // -------------------------------------------------------------------------

  /** A live session carries its last resolve time and its pair. */
  predicate Known(w: World, k: string)
    requires k in w.live
  {
    && k in w.last && w.live[k].lastAccessed == w.last[k]
    && k in w.pairs && w.live[k].pairId == w.pairs[k]
    && |w.live[k].questions| <= HISTORY && |w.live[k].answers| <= HISTORY
  }

  ghost predicate Consistent(max: nat, w: World) {
    && |w.live| <= max
    && w.last.Keys == w.pairs.Keys
    && (forall k | k in w.live :: Known(w, k))
    && (forall k | k in w.last :: w.last[k] <= w.now)
  }

  lemma {:induction false} PrunedFewer(s: Store, ttl: real, now: real)
    ensures |Pruned(s, ttl, now)| <= |s|
  {
    var p := Pruned(s, ttl, now);
    assert p.Keys <= s.Keys;
    KeysFewer(p.Keys, s.Keys);
  }

  lemma {:induction false} KeysFewer<T>(a: set<T>, b: set<T>)
    requires a <= b
    ensures |a| <= |b|
  {
    if a != {} {
      var x :| x in a;
      KeysFewer(a - {x}, b - {x});
    }
  }

  lemma {:induction false} OpenedSize(max: nat, p: Store, t: Store, pairId: string, now: real, newId: string)
    requires max >= 1 && |p| <= max && newId !in p && Opened(max, p, t, pairId, now, newId)
    ensures |t| <= max
  {
    var q := p[newId := View(pairId, now, now, [], [])];
    assert q.Keys == p.Keys + {newId};
    if |q| > max {
      var k :| Oldest(q, k) && t == q - {k};
      assert t.Keys == q.Keys - {k};
    }
  }

  lemma {:induction false} ResolveSize(max: nat, ttl: real, w: World, e: Event, w': World)
    requires max >= 1 && Consistent(max, w) && Next(max, ttl, w, e, w') && e.Resolve?
    ensures |w'.live| <= max
  {
    PrunedFewer(w.live, ttl, e.at);
    var p := Pruned(w.live, ttl, e.at);
    if e.id != "" && e.id in p {
      if p[e.id].pairId == e.pairId {
        assert w'.live.Keys == p.Keys;
      }
    } else {
      OpenedSize(max, p, w'.live, e.pairId, e.at, e.newId);
    }
  }

  /** A just opened session is not the one that is evicted. */
  lemma {:induction false} OpenedStays(max: nat, p: Store, t: Store, pairId: string, now: real, newId: string)
    requires max >= 1 && newId !in p && Opened(max, p, t, pairId, now, newId)
    requires forall k | k in p :: p[k].lastAccessed < now
    ensures newId in t && t[newId] == View(pairId, now, now, [], [])
    ensures forall k | k in t && k != newId :: k in p && t[k] == p[k]
  {
    var q := p[newId := View(pairId, now, now, [], [])];
    if |q| > max {
      assert q.Keys == p.Keys + {newId};
      assert p.Keys != {};
      var j :| j in p;
      assert q[j].lastAccessed < q[newId].lastAccessed;
    }
  }

  lemma {:induction false} TouchConsistent(max: nat, ttl: real, w: World, e: Event, w': World)
    requires max >= 1 && Consistent(max, w) && Next(max, ttl, w, e, w') && e.Resolve?
    requires e.id != "" && e.id in Pruned(w.live, ttl, e.at)
    ensures Consistent(max, w')
    ensures e.out.Resolved? ==> e.out.id in w'.live && w'.live[e.out.id].pairId == e.pairId
  {
    ResolveSize(max, ttl, w, e, w');
    assert Known(w, e.id);
    forall k | k in w'.live ensures Known(w', k) { assert Known(w, k); }
  }

  lemma {:induction false} OpenConsistent(max: nat, ttl: real, w: World, e: Event, w': World)
    requires max >= 1 && Consistent(max, w) && Next(max, ttl, w, e, w') && e.Resolve?
    requires !(e.id != "" && e.id in Pruned(w.live, ttl, e.at))
    ensures Consistent(max, w')
    ensures e.out == Resolved(e.newId) && e.newId in w'.live && w'.live[e.newId].pairId == e.pairId
  {
    ResolveSize(max, ttl, w, e, w');
    OpenedStays(max, Pruned(w.live, ttl, e.at), w'.live, e.pairId, e.at, e.newId);
    forall k | k in w'.live ensures Known(w', k) {
      if k != e.newId { assert Known(w, k); }
    }
  }

  lemma {:induction false} ConsistentStep(max: nat, ttl: real, w: World, e: Event, w': World)
    requires max >= 1 && Consistent(max, w) && Next(max, ttl, w, e, w')
    ensures Consistent(max, w')
    ensures e.Resolve? && e.out.Resolved? ==> e.out.id in w'.live && w'.live[e.out.id].pairId == e.pairId
    ensures forall k | k in w.pairs :: k in w'.pairs && w'.pairs[k] == w.pairs[k]
  {
    match e
    case Resolve(id, pairId, at, newId, out) =>
      if id != "" && id in Pruned(w.live, ttl, at) {
        TouchConsistent(max, ttl, w, e, w');
      } else {
        OpenConsistent(max, ttl, w, e, w');
      }
    case Record(id, question, answer) => RecordConsistent(max, w, id, question, answer);
    case Reset(id) => ResetConsistent(max, w, id);
  }

  lemma {:induction false} RecordConsistent(max: nat, w: World, id: string, question: string, answer: Option<Answer>)
    requires Consistent(max, w)
    ensures Consistent(max, w.(live := Recorded(w.live, id, question, answer)))
  {
    var w' := w.(live := Recorded(w.live, id, question, answer));
    assert w'.live.Keys == w.live.Keys;
    forall k | k in w'.live ensures Known(w', k) { assert Known(w, k); }
  }

  lemma {:induction false} ResetConsistent(max: nat, w: World, id: string)
    requires Consistent(max, w)
    ensures Consistent(max, w.(live := w.live - {id}))
  {
    var w' := w.(live := w.live - {id});
    KeysFewer(w'.live.Keys, w.live.Keys);
    forall k | k in w'.live ensures Known(w', k) { assert Known(w, k); }
  }

  lemma {:induction false} ConsistentRun(max: nat, ttl: real, ws: seq<World>, es: seq<Event>, i: nat)
    requires max >= 1 && IsRun(max, ttl, ws, es) && i <= |es|
    ensures Consistent(max, ws[i])
  {
    if i > 0 {
      ConsistentRun(max, ttl, ws, es, i - 1);
      ConsistentStep(max, ttl, ws[i - 1], es[i - 1], ws[i]);
    }
  }

  /** Over every run the store keeps to its size, a resolved session is present under the
      pair it was resolved for, and no session ever changes its pair. */
  lemma {:induction false} StoreBounded(max: nat, ttl: real, ws: seq<World>, es: seq<Event>, i: nat, k: string)
    requires max >= 1 && IsRun(max, ttl, ws, es) && i < |es|
    ensures |ws[i + 1].live| <= max
    ensures es[i].Resolve? && es[i].out.Resolved? ==>
              es[i].out.id in ws[i + 1].live && ws[i + 1].live[es[i].out.id].pairId == es[i].pairId
    ensures k in ws[i].live && k in ws[i + 1].live ==> ws[i + 1].live[k].pairId == ws[i].live[k].pairId
  {
    ConsistentRun(max, ttl, ws, es, i);
    ConsistentStep(max, ttl, ws[i], es[i], ws[i + 1]);
    if k in ws[i].live && k in ws[i + 1].live { assert Known(ws[i], k) && Known(ws[i + 1], k); }
  }

  /** In every run a resolve of a live session that has not expired resumes it under its own
      pair and is refused under another; any other resolve opens the new session. */
  lemma {:induction false} ResolveExactly(max: nat, ttl: real, ws: seq<World>, es: seq<Event>, i: nat)
    requires max >= 1 && IsRun(max, ttl, ws, es) && i < |es| && es[i].Resolve?
    ensures var w, e := ws[i], es[i];
            var alive := e.id != "" && e.id in w.live && e.id in w.last && e.at - w.last[e.id] <= ttl;
            if alive && e.id in w.pairs && w.pairs[e.id] == e.pairId then e.out == Resolved(e.id)
            else if alive then e.out == IsolationError && ws[i + 1].live.Keys <= w.live.Keys
            else e.out == Resolved(e.newId) && e.newId !in w.live
  {
    ConsistentRun(max, ttl, ws, es, i);
    RunStep(max, ttl, ws, es, i);
    forall k | k in ws[i].live ensures k in ws[i].last { assert Known(ws[i], k); }
    if es[i].id in ws[i].live { assert Known(ws[i], es[i].id); }
  }

  lemma {:induction false} RunStep(max: nat, ttl: real, ws: seq<World>, es: seq<Event>, i: nat)
    requires IsRun(max, ttl, ws, es) && i < |es|
    ensures Next(max, ttl, ws[i], es[i], ws[i + 1])
  {
  }

  // -------------------------------------------------------------------------
  // What a live session remembers
  // -------------------------------------------------------------------------

  /** The exchanges recorded for a session while it was live. */
  function Exchanged(ws: seq<World>, es: seq<Event>, i: nat, k: string): seq<Exchange>
    requires i <= |es| && |ws| == |es| + 1
  {
    if i == 0 then []
    else Exchanged(ws, es, i - 1, k) + Heeded(ws[i - 1], es[i - 1], k)
  }

  function Heeded(w: World, e: Event, k: string): seq<Exchange> {
    if e.Record? && e.id == k && k in w.live then [Exchange(e.question, e.answer)] else []
  }

  ghost predicate Remembers(w: World, k: string, told: seq<Exchange>) {
    && (k in w.live ==>
          w.live[k].questions == LastEight(AllHeard(told)) && w.live[k].answers == LastEight(AllTold(told)))
    && (k !in w.last ==> told == [])
  }

  lemma {:induction false} RememberRecord(
      max: nat, ttl: real, w: World, e: Event, w': World, k: string, told: seq<Exchange>)
    requires Consistent(max, w) && Next(max, ttl, w, e, w') && e.Record? && Remembers(w, k, told)
    ensures Remembers(w', k, told + Heeded(w, e, k))
  {
    if e.id == k && k in w.live {
      assert Known(w, k);
      NotedStep(w.live[k], told, Exchange(e.question, e.answer));
    } else {
      assert told + [] == told;
    }
  }

  lemma {:induction false} RememberResolve(
      max: nat, ttl: real, w: World, e: Event, w': World, k: string, told: seq<Exchange>)
    requires Consistent(max, w) && Next(max, ttl, w, e, w') && e.Resolve? && Remembers(w, k, told)
    ensures Remembers(w', k, told)
  {
    if k in w'.live && k !in w.live { assert k == e.newId; }
  }

  lemma {:induction false} RememberStep(
      max: nat, ttl: real, w: World, e: Event, w': World, k: string, told: seq<Exchange>)
    requires Consistent(max, w) && Next(max, ttl, w, e, w') && Remembers(w, k, told)
    ensures Remembers(w', k, told + Heeded(w, e, k))
  {
    if e.Record? {
      RememberRecord(max, ttl, w, e, w', k, told);
    } else {
      assert told + [] == told;
      if e.Resolve? { RememberResolve(max, ttl, w, e, w', k, told); }
    }
  }

  /** In every run a live session holds the last eight questions that were not blank and the
      last eight answers that were not empty of all that was recorded for it. */
  lemma {:induction false} LiveRemembers(max: nat, ttl: real, ws: seq<World>, es: seq<Event>, i: nat, k: string)
    requires max >= 1 && IsRun(max, ttl, ws, es) && i <= |es|
    ensures Remembers(ws[i], k, Exchanged(ws, es, i, k))
  {
    if i > 0 {
      LiveRemembers(max, ttl, ws, es, i - 1, k);
      ConsistentRun(max, ttl, ws, es, i - 1);
      RunStep(max, ttl, ws, es, i - 1);
      RememberStep(max, ttl, ws[i - 1], es[i - 1], ws[i], k, Exchanged(ws, es, i - 1, k));
    } else {
      assert ws[0].live == map[] && Exchanged(ws, es, 0, k) == [];
    }
  }

  // -------------------------------------------------------------------------
  // Without resets: least recently used
  // -------------------------------------------------------------------------

  function Newer(last: map<string, real>, d: string): set<string>
    requires d in last
  {
    set x | x in last && last[x] > last[d]
  }

  ghost predicate Distinct(last: map<string, real>) {
    forall j, k | j in last && k in last && j != k :: last[j] != last[k]
  }

  predicate Fresh(last: map<string, real>, d: string, ttl: real, now: real)
    requires d in last
  {
    now - last[d] <= ttl
  }

  /** A session that is gone is stale, or older than all that remain and outnumbered. */
  ghost predicate Gone(max: nat, ttl: real, live: set<string>, last: map<string, real>, now: real, d: string)
    requires live <= last.Keys && d in last
  {
    Fresh(last, d, ttl, now) ==> |Newer(last, d)| >= max && forall l | l in live :: last[d] < last[l]
  }

  ghost predicate Ranked(max: nat, ttl: real, live: set<string>, last: map<string, real>, now: real)
    requires live <= last.Keys
  {
    && (forall l | l in live :: Fresh(last, l, ttl, now))
    && (forall d | d in last && d !in live :: Gone(max, ttl, live, last, now, d))
  }

  lemma {:induction false} NewerGrows(last: map<string, real>, id: string, at: real, d: string)
    requires d in last && d != id && forall k | k in last :: last[k] < at
    ensures |Newer(last[id := at], d)| >= |Newer(last, d)|
  {
    KeysFewer(Newer(last, d), Newer(last[id := at], d));
  }

  /** Pruning at a later time keeps the ranking. */
  lemma {:induction false} PruneRanked(
      max: nat, ttl: real, live: set<string>, kept: set<string>, last: map<string, real>, now: real, at: real)
    requires live <= last.Keys && Ranked(max, ttl, live, last, now) && now <= at
    requires kept == set k | k in live && Fresh(last, k, ttl, at)
    ensures Ranked(max, ttl, kept, last, at)
  {
    forall d | d in last && d !in kept ensures Gone(max, ttl, kept, last, at, d) {
      if d !in live { assert Gone(max, ttl, live, last, now, d); }
    }
  }

  /** Giving `id` the newest time keeps it, whether `id` was there or is new. */
  lemma {:induction false} TouchRanked(
      max: nat, ttl: real, live: set<string>, last: map<string, real>, id: string, at: real)
    requires live <= last.Keys && Ranked(max, ttl, live, last, at) && ttl >= 0.0
    requires (id in live || id !in last) && forall k | k in last :: last[k] < at
    ensures Ranked(max, ttl, live + {id}, last[id := at], at)
  {
    var last' := last[id := at];
    forall d | d in last' && d !in live + {id} ensures Gone(max, ttl, live + {id}, last', at, d) {
      assert Gone(max, ttl, live, last, at, d);
      NewerGrows(last, id, at, d);
    }
  }

  /** So does evicting the oldest of more than `max`. */
  lemma {:induction false} EvictRanked(
      max: nat, ttl: real, live: set<string>, last: map<string, real>, now: real, k: string)
    requires live <= last.Keys && Ranked(max, ttl, live, last, now) && Distinct(last)
    requires |live| > max && k in live && forall j | j in live :: last[k] <= last[j]
    ensures Ranked(max, ttl, live - {k}, last, now)
  {
    KeysFewer(live - {k}, Newer(last, k));
    forall d | d in last && d !in live - {k} ensures Gone(max, ttl, live - {k}, last, now, d) {
      if d != k { assert Gone(max, ttl, live, last, now, d); }
    }
  }

  lemma {:induction false} PrunedRanked(max: nat, ttl: real, w: World, at: real)
    requires Consistent(max, w) && w.live.Keys <= w.last.Keys && w.now <= at
    requires Ranked(max, ttl, w.live.Keys, w.last, w.now)
    ensures Pruned(w.live, ttl, at).Keys <= w.last.Keys
    ensures Ranked(max, ttl, Pruned(w.live, ttl, at).Keys, w.last, at)
  {
    forall k | k in w.live ensures Expired(w.live[k], ttl, at) <==> !Fresh(w.last, k, ttl, at) {
      assert Known(w, k);
    }
    PruneRanked(max, ttl, w.live.Keys, Pruned(w.live, ttl, at).Keys, w.last, w.now, at);
  }

  lemma {:induction false} ResolveRanked(max: nat, ttl: real, w: World, e: Event, w': World)
    requires max >= 1 && ttl >= 0.0 && Consistent(max, w) && Next(max, ttl, w, e, w') && e.Resolve?
    requires w.live.Keys <= w.last.Keys && Distinct(w.last) && Ranked(max, ttl, w.live.Keys, w.last, w.now)
    requires w'.live.Keys <= w'.last.Keys
    ensures Ranked(max, ttl, w'.live.Keys, w'.last, w'.now)
  {
    var p := Pruned(w.live, ttl, e.at);
    PrunedRanked(max, ttl, w, e.at);
    if e.id != "" && e.id in p {
      if e.out.Resolved? {
        TouchRanked(max, ttl, p.Keys, w.last, e.id, e.at);
        assert w'.live.Keys == p.Keys + {e.id};
      } else {
        assert w'.live.Keys == p.Keys;
      }
    } else {
      TouchRanked(max, ttl, p.Keys, w.last, e.newId, e.at);
      OpenedRanked(max, ttl, w, e, w', p);
    }
  }

  lemma {:induction false} DistinctStep(max: nat, ttl: real, w: World, e: Event, w': World)
    requires Consistent(max, w) && Next(max, ttl, w, e, w') && e.Resolve? && Distinct(w.last)
    ensures Distinct(w'.last)
  {
  }

  lemma {:induction false} DistinctGrows(last: map<string, real>, id: string, at: real)
    requires Distinct(last) && forall k | k in last :: last[k] < at
    ensures Distinct(last[id := at])
  {
  }

  lemma {:induction false} OldestLeaves(
      max: nat, ttl: real, q: Store, t: Store, last: map<string, real>, now: real, k: string)
    requires Oldest(q, k) && t == q - {k} && |q| > max && q.Keys <= last.Keys
    requires Distinct(last) && Ranked(max, ttl, q.Keys, last, now)
    requires forall j | j in q :: q[j].lastAccessed == last[j]
    ensures Ranked(max, ttl, t.Keys, last, now)
  {
    forall j | j in q.Keys ensures last[k] <= last[j] { assert q[k].lastAccessed <= q[j].lastAccessed; }
    EvictRanked(max, ttl, q.Keys, last, now, k);
    assert t.Keys == q.Keys - {k};
  }

  lemma {:induction false} AccessIsLast(
      max: nat, ttl: real, w: World, at: real, newId: string, pairId: string, k: string)
    requires Consistent(max, w) && newId !in w.last
    requires var q := Pruned(w.live, ttl, at)[newId := View(pairId, at, at, [], [])]; k in q
    ensures k in w.last[newId := at]
    ensures Pruned(w.live, ttl, at)[newId := View(pairId, at, at, [], [])][k].lastAccessed == w.last[newId := at][k]
  {
    if k != newId { assert Known(w, k); }
  }

  lemma {:induction false} OpenedRanked(max: nat, ttl: real, w: World, e: Event, w': World, p: Store)
    requires e.Resolve? && p == Pruned(w.live, ttl, e.at) && Consistent(max, w)
    requires e.newId !in w.last && w'.last == w.last[e.newId := e.at] && w'.now == e.at > w.now
    requires Opened(max, p, w'.live, e.pairId, e.at, e.newId)
    requires Distinct(w.last) && p.Keys <= w.last.Keys && w'.live.Keys <= w'.last.Keys
    requires Ranked(max, ttl, p.Keys + {e.newId}, w'.last, e.at)
    ensures Ranked(max, ttl, w'.live.Keys, w'.last, w'.now)
  {
    var q := p[e.newId := View(e.pairId, e.at, e.at, [], [])];
    assert q.Keys == p.Keys + {e.newId};
    if |q| > max {
      var k :| Oldest(q, k) && w'.live == q - {k};
      forall j | j in q ensures q[j].lastAccessed == w'.last[j] {
        AccessIsLast(max, ttl, w, e.at, e.newId, e.pairId, j);
      }
      DistinctGrows(w.last, e.newId, e.at);
      OldestLeaves(max, ttl, q, w'.live, w'.last, e.at, k);
    }
  }

  ghost predicate Lru(max: nat, ttl: real, w: World) {
    Consistent(max, w) && w.live.Keys <= w.last.Keys && Distinct(w.last) && Ranked(max, ttl, w.live.Keys, w.last, w.now)
  }

  lemma {:induction false} LruStep(max: nat, ttl: real, w: World, e: Event, w': World)
    requires max >= 1 && ttl >= 0.0 && Lru(max, ttl, w) && Next(max, ttl, w, e, w') && !e.Reset?
    ensures Lru(max, ttl, w')
  {
    ConsistentStep(max, ttl, w, e, w');
    forall k | k in w'.live ensures k in w'.last { assert Known(w', k); }
    if e.Resolve? {
      DistinctStep(max, ttl, w, e, w');
      ResolveRanked(max, ttl, w, e, w');
    } else {
      assert w'.live.Keys == w.live.Keys;
    }
  }

  /** The `max` most recently resolved sessions among those still within the time to live. */
  function MostRecent(max: nat, ttl: real, w: World): set<string> {
    set k | k in w.last && Fresh(w.last, k, ttl, w.now) && |Newer(w.last, k)| < max
  }

  lemma {:induction false} LiveIsMostRecent(max: nat, ttl: real, w: World)
    requires Lru(max, ttl, w)
    ensures w.live.Keys == MostRecent(max, ttl, w)
  {
    forall l | l in w.live ensures l in MostRecent(max, ttl, w) {
      forall x | x in w.last && x !in w.live ensures x !in Newer(w.last, l) {
        assert Gone(max, ttl, w.live.Keys, w.last, w.now, x);
      }
      KeysFewer(Newer(w.last, l), w.live.Keys - {l});
      assert |w.live.Keys| == |w.live|;
    }
    forall k | k in MostRecent(max, ttl, w) ensures k in w.live {
      assert k in w.live || Gone(max, ttl, w.live.Keys, w.last, w.now, k);
    }
  }

  lemma {:induction false} LruRun(max: nat, ttl: real, ws: seq<World>, es: seq<Event>, i: nat)
    requires max >= 1 && ttl >= 0.0 && IsRun(max, ttl, ws, es) && i <= |es|
    requires forall j | 0 <= j < i :: !es[j].Reset?
    ensures Lru(max, ttl, ws[i])
  {
    if i > 0 {
      LruRun(max, ttl, ws, es, i - 1);
      LruStep(max, ttl, ws[i - 1], es[i - 1], ws[i]);
    }
  }

  /** In runs without resets the live sessions are, after every call, exactly the most
      recently resolved unexpired ones. */
  lemma {:induction false} LiveSetExactly(max: nat, ttl: real, ws: seq<World>, es: seq<Event>, i: nat)
    requires max >= 1 && ttl >= 0.0 && IsRun(max, ttl, ws, es) && i <= |es|
    requires forall j | 0 <= j < i :: !es[j].Reset?
    ensures ws[i].live.Keys == MostRecent(max, ttl, ws[i])
  {
    LruRun(max, ttl, ws, es, i);
    LiveIsMostRecent(max, ttl, ws[i]);
  }
}
