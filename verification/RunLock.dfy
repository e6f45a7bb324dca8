/**
 The two-level run lock: an in-process registry plus an O_CREAT|O_EXCL lock file.

 Every event of the machine is one registry update, one operating-system call or one
 clock reading of one `RunLock` object, so a sequence of events is an interleaving of
 any number of threads and processes.  Calls that the source lets fail with `OSError`
 carry a flag saying whether they did.
*/
module RunLock {
  import opened Options

  /** A run directory: its last component and its resolved path, the two registry keys. */
  datatype Directory = Directory(name: string, path: string)

  datatype Key = ByName(name: string) | ByPath(path: string)

  /** A `RunLock` object.  Its identifier in a `World` doubles as its token. */
  datatype Lock = Lock(dir: Directory, pid: nat, budget: real)

  type Id = nat
  type World = map<Id, Lock>

  /** Where a lock object stands.  `Failed` is an acquire that raised after registering. */
  datatype Phase =
    | Idle
    | Opening
    | Testing
    | ReadingClock
    | Statting(now: real)
    | Unlinking
    | Reopening
    | Writing(inode: nat)
    | Held(inode: nat)
    | ReleaseTesting(inode: nat)
    | ReleaseReading(inode: nat)
    | ReleaseUnlinking(inode: nat)
    | Unregistering
    | Failed
    | Crashed

  /** A lock file; `token` is what its content names, None while still empty. */
  datatype File = File(inode: nat, creator: Id, token: Option<Id>, mtime: real)

  datatype State = State(
    clock: real,
    files: map<string, File>,
    registry: map<(nat, Key), Id>,
    phase: map<Id, Phase>,
    nextInode: nat)

  datatype Event =
    | Tick(elapsed: real)
    | Acquire(id: Id)
    | Step(id: Id, ok: bool)
    | Crash(pid: nat)

  predicate Formed(w: World, s: State) {
    s.phase.Keys == w.Keys
  }

  function Initial(w: World): State {
    State(0.0, map[], map[], map l | l in w :: Idle, 0)
  }

  /** `age > max(self._budget, 1.0)` */
  function Limit(lock: Lock): real {
    if lock.budget < 1.0 then 1.0 else lock.budget
  }

  predicate Stale(lock: Lock, now: real, file: File) {
    var age := if now - file.mtime < 0.0 then 0.0 else now - file.mtime;
    age > Limit(lock)
  }

  function Moved(s: State, id: Id, p: Phase): State {
    s.(phase := s.phase[id := p])
  }

  // -------------------------------------------------------------------------
  // The steps
  // -------------------------------------------------------------------------

  predicate Conflict(s: State, lock: Lock) {
    (lock.pid, ByName(lock.dir.name)) in s.registry || (lock.pid, ByPath(lock.dir.path)) in s.registry
  }

  /** `_register`, atomic under the registry mutex: a taken key raises and changes nothing. */
  function Register(w: World, s: State, id: Id): (r: State)
    requires Formed(w, s) && id in w
    ensures Formed(w, r)
  {
    var lock := w[id];
    if Conflict(s, lock) then s
    else
      Moved(s, id, Opening).(registry :=
        s.registry[(lock.pid, ByName(lock.dir.name)) := id][(lock.pid, ByPath(lock.dir.path)) := id])
  }

  /** `_unregister`: only entries that carry this lock's token are deleted. */
  function Unregister(w: World, s: State, id: Id): (r: State)
    requires Formed(w, s) && id in w
    ensures Formed(w, r)
  {
    var lock := w[id];
    var mine := set k | k in {(lock.pid, ByName(lock.dir.name)), (lock.pid, ByPath(lock.dir.path))}
                        && k in s.registry && s.registry[k] == id :: k;
    Moved(s, id, Idle).(registry := s.registry - mine)
  }

  /** A successful O_CREAT|O_EXCL open; the file is empty until the payload is written. */
  function Create(w: World, s: State, id: Id): (r: State)
    requires Formed(w, s) && id in w
    ensures Formed(w, r)
  {
    Moved(s, id, Writing(s.nextInode)).(
      files := s.files[w[id].dir.path := File(s.nextInode, id, None, s.clock)],
      nextInode := s.nextInode + 1)
  }

  /** One operating-system call of lock `id`; `ok` is false when it fails with `OSError`. */
  function Advance(w: World, s: State, id: Id, ok: bool): (r: State)
    requires Formed(w, s) && id in w
    ensures Formed(w, r)
  {
    var path := w[id].dir.path;
    match s.phase[id]
    case Opening =>
      if !ok then Moved(s, id, Failed)
      else if path in s.files then Moved(s, id, Testing)
      else Create(w, s, id)
    case Testing => // a vanished file also counts as stale
      if ok && path in s.files then Moved(s, id, ReadingClock) else Moved(s, id, Unlinking)
    case ReadingClock => Moved(s, id, Statting(s.clock))
    case Statting(now) => // so does a failing stat
      if ok && path in s.files && !Stale(w[id], now, s.files[path]) then Moved(s, id, Failed)
      else Moved(s, id, Unlinking)
    case Unlinking =>
      if ok then Moved(s, id, Reopening).(files := s.files - {path}) else Moved(s, id, Reopening)
    case Reopening =>
      if !ok || path in s.files then Moved(s, id, Failed) else Create(w, s, id)
    case Writing(inode) =>
      if !ok then Moved(s, id, Failed)
      else if path in s.files && s.files[path].inode == inode then
        Moved(s, id, Held(inode)).(files := s.files[path := s.files[path].(token := Some(id), mtime := s.clock)])
      else Moved(s, id, Held(inode)) // the payload went to a file that is no longer in the directory
    case Held(inode) => Moved(s, id, ReleaseTesting(inode))
    case ReleaseTesting(inode) =>
      if ok && path in s.files then Moved(s, id, ReleaseReading(inode)) else Moved(s, id, Unregistering)
    case ReleaseReading(inode) =>
      if ok && path in s.files && s.files[path].token == Some(id) then Moved(s, id, ReleaseUnlinking(inode))
      else Moved(s, id, Unregistering)
    case ReleaseUnlinking(inode) =>
      if ok then Moved(s, id, Unregistering).(files := s.files - {path}) else Moved(s, id, Unregistering)
    case Unregistering => Unregister(w, s, id)
    case Idle | Failed | Crashed => s
  }

  /** A process dies: its locks and its registry vanish, its lock files stay. */
  function Killed(w: World, s: State, pid: nat): (r: State)
    requires Formed(w, s)
    ensures Formed(w, r)
  {
    s.(phase := map l | l in s.phase :: if w[l].pid == pid then Crashed else s.phase[l],
       registry := map k | k in s.registry && k.0 != pid :: s.registry[k])
  }

  function Apply(w: World, s: State, e: Event): (r: State)
    requires Formed(w, s)
    ensures Formed(w, r)
  {
    match e
    case Tick(elapsed) => if elapsed > 0.0 then s.(clock := s.clock + elapsed) else s
    case Acquire(id) => if id in w && s.phase[id] in {Idle, Failed} then Register(w, s, id) else s
    case Step(id, ok) => if id in w then Advance(w, s, id, ok) else s
    case Crash(pid) => Killed(w, s, pid)
  }

  function Run(w: World, s: State, events: seq<Event>): (r: State)
    requires Formed(w, s)
    ensures Formed(w, r)
    decreases |events|
  {
    if events == [] then s else Run(w, Apply(w, s, events[0]), events[1..])
  }

  // -------------------------------------------------------------------------
  // The registry alone
  // -------------------------------------------------------------------------

  predicate Registered(p: Phase) {
    !p.Idle? && !p.Crashed?
  }

  ghost predicate RegistryAgrees(w: World, s: State)
    requires Formed(w, s)
  {
    forall l | l in w && Registered(s.phase[l]) :: Enters(w, s, l)
  }

  lemma {:induction false} RegistryStep(w: World, s: State, e: Event)
    requires Formed(w, s) && RegistryAgrees(w, s)
    ensures RegistryAgrees(w, Apply(w, s, e))
  {
    forall l | l in w && Registered(Apply(w, s, e).phase[l]) ensures Enters(w, Apply(w, s, e), l) {
      if Registered(s.phase[l]) { assert Enters(w, s, l); }
      EntryStep(w, s, e, l);
    }
  }

  /** Both keys of this lock carry its token. */
  predicate Enters(w: World, s: State, l: Id)
    requires l in w
  {
    && (w[l].pid, ByName(w[l].dir.name)) in s.registry && s.registry[(w[l].pid, ByName(w[l].dir.name))] == l
    && (w[l].pid, ByPath(w[l].dir.path)) in s.registry && s.registry[(w[l].pid, ByPath(w[l].dir.path))] == l
  }

  lemma {:induction false} EntryStep(w: World, s: State, e: Event, l: Id)
    requires Formed(w, s) && l in w && (Registered(s.phase[l]) ==> Enters(w, s, l))
    ensures Registered(Apply(w, s, e).phase[l]) ==> Enters(w, Apply(w, s, e), l)
  {
    match e
    case Acquire(id) => if id in w { EntryRegister(w, s, id, l); }
    case Step(id, ok) => if id in w { EntryAdvance(w, s, id, ok, l); }
    case _ =>
  }

  lemma {:induction false} EntryRegister(w: World, s: State, id: Id, l: Id)
    requires Formed(w, s) && l in w && id in w && (Registered(s.phase[l]) ==> Enters(w, s, l))
    ensures Registered(Register(w, s, id).phase[l]) ==> Enters(w, Register(w, s, id), l)
  {
  }

  lemma {:induction false} EntryAdvance(w: World, s: State, id: Id, ok: bool, l: Id)
    requires Formed(w, s) && l in w && id in w && (Registered(s.phase[l]) ==> Enters(w, s, l))
    ensures Registered(Advance(w, s, id, ok).phase[l]) ==> Enters(w, Advance(w, s, id, ok), l)
  {
    if s.phase[id].Unregistering? {
      EntryUnregister(w, s, id, l);
    } else {
      RegistryStays(w, s, id, ok);
    }
  }

  lemma {:induction false} EntryUnregister(w: World, s: State, id: Id, l: Id)
    requires Formed(w, s) && l in w && id in w && (Registered(s.phase[l]) ==> Enters(w, s, l))
    ensures Registered(Unregister(w, s, id).phase[l]) ==> Enters(w, Unregister(w, s, id), l)
  {
  }

  /** Up to the last step a lock's own calls leave the registry and who is in it alone. */
  lemma {:induction false} RegistryStays(w: World, s: State, id: Id, ok: bool)
    requires Formed(w, s) && id in w && !s.phase[id].Unregistering?
    ensures Advance(w, s, id, ok).registry == s.registry
    ensures Registered(Advance(w, s, id, ok).phase[id]) == Registered(s.phase[id])
    ensures forall l | l in w && l != id :: Advance(w, s, id, ok).phase[l] == s.phase[l]
  {
  }

  // -------------------------------------------------------------------------
  // The lock file, under three named hypotheses
  // -------------------------------------------------------------------------

  /** From the creation of its file until release has unlinked it. */
  predicate Owning(p: Phase) {
    p.Writing? || p.Held? || p.ReleaseTesting? || p.ReleaseReading? || p.ReleaseUnlinking?
  }

  predicate SamePath(w: World, l: Id, m: Id)
    requires l in w && m in w
  {
    w[l].dir.path == w[m].dir.path
  }

  /** When a contender has read the clock to judge a lock file, no owner's file is older than
      that contender's budget. */
  ghost predicate HoldersInBudget(w: World, s: State)
    requires Formed(w, s)
  {
    forall o, c | o in w && c in w && o != c && SamePath(w, o, c) && Owning(s.phase[o]) && s.phase[c].Statting?
                  && w[o].dir.path in s.files ::
      s.clock - s.files[w[o].dir.path].mtime <= Limit(w[c])
  }

  /** No other process creates the file between a contender's stale verdict and its unlink. */
  ghost predicate NoCreateInWindow(w: World, s: State, e: Event)
    requires Formed(w, s)
  {
    e.Step? && e.ok && e.id in w && (s.phase[e.id].Opening? || s.phase[e.id].Reopening?) && w[e.id].dir.path !in s.files
    ==> forall c | c in w && SamePath(w, c, e.id) && w[c].pid != w[e.id].pid :: !s.phase[c].Unlinking?
  }

  /** `is_file` and `stat` do not fail on a file that exists. */
  predicate StatWorks(w: World, s: State, e: Event)
    requires Formed(w, s)
  {
    e.Step? && e.id in w && (s.phase[e.id].Testing? || s.phase[e.id].Statting?) && w[e.id].dir.path in s.files ==> e.ok
  }

  ghost predicate Allowed(w: World, s: State, e: Event)
    requires Formed(w, s)
  {
    HoldersInBudget(w, s) && NoCreateInWindow(w, s, e) && StatWorks(w, s, e)
  }

  ghost predicate AllAllowed(w: World, s: State, events: seq<Event>)
    requires Formed(w, s)
    decreases |events|
  {
    events != [] ==> Allowed(w, s, events[0]) && AllAllowed(w, Apply(w, s, events[0]), events[1..])
  }

  /** Its own file is at the path, and names it once written. */
  predicate OwnsFile(w: World, s: State, l: Id)
    requires Formed(w, s) && l in w
  {
    Owning(s.phase[l]) ==>
      && w[l].dir.path in s.files
      && var f := s.files[w[l].dir.path];
         f.inode == s.phase[l].inode && f.creator == l && (s.phase[l].Writing? || f.token == Some(l))
  }

  ghost predicate OwnersOwn(w: World, s: State)
    requires Formed(w, s)
  {
    forall l | l in w :: OwnsFile(w, s, l)
  }

  ghost predicate UnlinkersSafe(w: World, s: State)
    requires Formed(w, s)
  {
    forall c, o | c in w && o in w && SamePath(w, c, o) && s.phase[c].Unlinking? :: !Owning(s.phase[o])
  }

  ghost predicate ClocksPast(w: World, s: State)
    requires Formed(w, s)
  {
    forall l | l in w && s.phase[l].Statting? :: s.phase[l].now <= s.clock
  }

  ghost predicate Safe(w: World, s: State)
    requires Formed(w, s)
  {
    RegistryAgrees(w, s) && OwnersOwn(w, s) && UnlinkersSafe(w, s) && ClocksPast(w, s)
  }

  lemma {:induction false} OwnersStep(w: World, s: State, e: Event)
    requires Formed(w, s) && Safe(w, s) && Allowed(w, s, e)
    ensures OwnersOwn(w, Apply(w, s, e))
  {
    forall l | l in w ensures OwnsFile(w, Apply(w, s, e), l) {
      assert OwnsFile(w, s, l);
      if e.Step? && e.id in w {
        assert OwnsFile(w, s, e.id);
        if l == e.id { OwnStep(w, s, l, e.ok); } else { OtherStep(w, s, e.id, e.ok, l); }
      }
    }
  }

  lemma {:induction false} OwnStep(w: World, s: State, l: Id, ok: bool)
    requires Formed(w, s) && l in w && OwnsFile(w, s, l)
    ensures OwnsFile(w, Advance(w, s, l, ok), l)
  {
  }

  lemma {:induction false} OtherStep(w: World, s: State, id: Id, ok: bool, l: Id)
    requires Formed(w, s) && id in w && l in w && l != id
    requires OwnsFile(w, s, id) && OwnsFile(w, s, l)
    requires SamePath(w, id, l) && s.phase[id].Unlinking? ==> !Owning(s.phase[l])
    ensures OwnsFile(w, Advance(w, s, id, ok), l)
  {
  }

  lemma {:induction false} UnlinkersStep(w: World, s: State, e: Event)
    requires Formed(w, s) && Safe(w, s) && Allowed(w, s, e)
    ensures UnlinkersSafe(w, Apply(w, s, e))
  {
    var t := Apply(w, s, e);
    forall c, o | c in w && o in w && SamePath(w, c, o) && t.phase[c].Unlinking?
      ensures !Owning(t.phase[o])
    {
      assert OwnsFile(w, s, o);
      if e.Step? {
        UnlinkerStep(w, s, e.id, e.ok, c, o);
      } else {
        PhasesStay(w, s, e, c);
        PhasesStay(w, s, e, o);
      }
    }
  }

  /** Only a call of its own takes a lock into or within the acquire and release phases. */
  lemma {:induction false} PhasesStay(w: World, s: State, e: Event, l: Id)
    requires Formed(w, s) && l in w && !e.Step?
    ensures var p := Apply(w, s, e).phase[l]; p == s.phase[l] || p.Opening? || p.Crashed?
  {
  }

  lemma {:induction false} UnlinkerStep(w: World, s: State, id: Id, ok: bool, c: Id, o: Id)
    requires Formed(w, s) && Safe(w, s) && Allowed(w, s, Step(id, ok)) && c in w && o in w && SamePath(w, c, o)
    requires Apply(w, s, Step(id, ok)).phase[c].Unlinking?
    ensures !Owning(Apply(w, s, Step(id, ok)).phase[o])
  {
    assert OwnsFile(w, s, o);
    if id == c {
      Verdict(w, s, c, ok, o);
    } else if id == o {
      NoNewOwner(w, s, o, ok, c);
    }
  }

  /** A stale verdict is only reached when nobody owns the file. */
  lemma {:induction false} Verdict(w: World, s: State, c: Id, ok: bool, o: Id)
    requires Formed(w, s) && c in w && o in w && SamePath(w, c, o) && OwnsFile(w, s, o)
    requires ClocksPast(w, s) && HoldersInBudget(w, s) && StatWorks(w, s, Step(c, ok))
    requires Advance(w, s, c, ok).phase[c].Unlinking?
    ensures !Owning(Advance(w, s, c, ok).phase[o])
  {
  }

  /** While a contender is about to unlink, nobody becomes an owner. */
  lemma {:induction false} NoNewOwner(w: World, s: State, o: Id, ok: bool, c: Id)
    requires Formed(w, s) && c in w && o in w && c != o && SamePath(w, c, o) && s.phase[c].Unlinking?
    requires !Owning(s.phase[o]) && RegistryAgrees(w, s) && NoCreateInWindow(w, s, Step(o, ok))
    ensures !Owning(Advance(w, s, o, ok).phase[o])
  {
    if w[c].pid == w[o].pid {
      assert s.registry[(w[c].pid, ByPath(w[c].dir.path))] == c;
    }
  }

  lemma {:induction false} ClocksStep(w: World, s: State, e: Event)
    requires Formed(w, s) && ClocksPast(w, s)
    ensures ClocksPast(w, Apply(w, s, e))
  {
  }

  lemma {:induction false} SafeRun(w: World, s: State, events: seq<Event>)
    requires Formed(w, s) && Safe(w, s) && AllAllowed(w, s, events)
    ensures Safe(w, Run(w, s, events))
    decreases |events|
  {
    if events != [] {
      RegistryStep(w, s, events[0]);
      OwnersStep(w, s, events[0]);
      UnlinkersStep(w, s, events[0]);
      ClocksStep(w, s, events[0]);
      SafeRun(w, Apply(w, s, events[0]), events[1..]);
    }
  }

  // -------------------------------------------------------------------------
  // What holds over every run
  // -------------------------------------------------------------------------

  /** Mutual exclusion: one owner per directory, across all threads and processes. */
  lemma {:induction false} MutualExclusion(w: World, events: seq<Event>, l: Id, m: Id)
    requires AllAllowed(w, Initial(w), events)
    requires l in w && m in w && SamePath(w, l, m)
    requires Owning(Run(w, Initial(w), events).phase[l]) && Owning(Run(w, Initial(w), events).phase[m])
    ensures l == m
  {
    SafeRun(w, Initial(w), events);
    var s := Run(w, Initial(w), events);
    assert OwnsFile(w, s, l) && OwnsFile(w, s, m);
  }

  /** Whatever file a step removes, it was the remover's own or had no owner. */
  lemma {:induction false} UnlinkIsSafe(w: World, events: seq<Event>, e: Event, path: string)
    requires AllAllowed(w, Initial(w), events)
    requires Allowed(w, Run(w, Initial(w), events), e)
    requires var s := Run(w, Initial(w), events); path in s.files && path !in Apply(w, s, e).files
    ensures var s := Run(w, Initial(w), events);
            && e.Step? && e.id in w && w[e.id].dir.path == path
            && (s.phase[e.id].ReleaseUnlinking? ==>
                  s.files[path].creator == e.id && s.files[path].token == Some(e.id))
            && (forall o | o in w && o != e.id && w[o].dir.path == path :: !Owning(s.phase[o]))
  {
    SafeRun(w, Initial(w), events);
    RemovalIsSafe(w, Run(w, Initial(w), events), e, path);
  }

  lemma {:induction false} RemovalIsSafe(w: World, s: State, e: Event, path: string)
    requires Formed(w, s) && Safe(w, s) && path in s.files && path !in Apply(w, s, e).files
    ensures e.Step? && e.id in w && w[e.id].dir.path == path
    ensures s.phase[e.id].ReleaseUnlinking? ==> s.files[path].creator == e.id && s.files[path].token == Some(e.id)
    ensures forall o | o in w && o != e.id && w[o].dir.path == path :: !Owning(s.phase[o])
  {
    Remover(w, s, e, path);
    assert OwnsFile(w, s, e.id);
    forall o | o in w && o != e.id && w[o].dir.path == path ensures !Owning(s.phase[o]) {
      assert OwnsFile(w, s, o) && SamePath(w, e.id, o);
    }
  }

  /** Files disappear only in the two unlink steps. */
  lemma {:induction false} Remover(w: World, s: State, e: Event, path: string)
    requires Formed(w, s) && path in s.files && path !in Apply(w, s, e).files
    ensures e.Step? && e.id in w && w[e.id].dir.path == path
    ensures s.phase[e.id].Unlinking? || s.phase[e.id].ReleaseUnlinking?
  {
  }

  lemma {:induction false} RegistryRun(w: World, s: State, events: seq<Event>)
    requires Formed(w, s) && RegistryAgrees(w, s)
    ensures RegistryAgrees(w, Run(w, s, events))
    decreases |events|
  {
    if events != [] {
      RegistryStep(w, s, events[0]);
      RegistryRun(w, Apply(w, s, events[0]), events[1..]);
    }
  }

  /** Inside one process exclusion needs no hypothesis at all. */
  lemma {:induction false} InProcessExclusion(w: World, events: seq<Event>, l: Id, m: Id)
    requires l in w && m in w && w[l].pid == w[m].pid && SamePath(w, l, m)
    requires Registered(Run(w, Initial(w), events).phase[l]) && Registered(Run(w, Initial(w), events).phase[m])
    ensures l == m
  {
    RegistryRun(w, Initial(w), events);
    var s := Run(w, Initial(w), events);
    assert s.registry[(w[l].pid, ByPath(w[l].dir.path))] == l;
  }

  /** An acquire that fails at the file step leaves its registry entries behind for good:
      until the process dies, every later acquire on that directory (or on one of the
      same name) is refused in that process, retries of the same object included. */
  lemma {:induction false} FailedAcquireBlocks(w: World, s: State, f: Id, events: seq<Event>, l: Id)
    requires Formed(w, s) && RegistryAgrees(w, s)
    requires f in w && s.phase[f].Failed? && l in w && w[l].pid == w[f].pid
    requires w[l].dir.name == w[f].dir.name || SamePath(w, l, f)
    requires Crash(w[f].pid) !in events
    ensures var t := Run(w, s, events);
            t.phase[f].Failed? && Apply(w, t, Acquire(l)) == t
    decreases |events|
  {
    assert Enters(w, s, f);
    if events != [] {
      RegistryStep(w, s, events[0]);
      assert Crash(w[f].pid) != events[0];
      FailedStays(w, s, events[0], f);
      FailedAcquireBlocks(w, Apply(w, s, events[0]), f, events[1..], l);
    }
  }

  lemma {:induction false} FailedStays(w: World, s: State, e: Event, f: Id)
    requires Formed(w, s) && f in w && s.phase[f].Failed? && Enters(w, s, f) && e != Crash(w[f].pid)
    ensures Apply(w, s, e).phase[f].Failed?
  {
  }

  // -------------------------------------------------------------------------
  // What single acquires do
  // -------------------------------------------------------------------------

  /** `n` successful calls of one lock in a row. */
  function Stepped(w: World, s: State, id: Id, n: nat): (r: State)
    requires Formed(w, s) && id in w
    ensures Formed(w, r)
    decreases n
  {
    if n == 0 then s else Stepped(w, Advance(w, s, id, true), id, n - 1)
  }

  /** Acquire then release, undisturbed, on a free directory: held in between, and
      afterwards the directory, the registry and the lock are as before. */
  lemma {:induction false} AcquireReleaseRoundTrip(w: World, s: State, id: Id)
    requires Formed(w, s) && id in w && s.phase[id].Idle?
    requires !Conflict(s, w[id]) && w[id].dir.path !in s.files
    ensures var held := Stepped(w, Apply(w, s, Acquire(id)), id, 2);
            && held.phase[id].Held?
            && held.files == s.files[w[id].dir.path := File(s.nextInode, id, Some(id), s.clock)]
            && Stepped(w, held, id, 5) == s.(nextInode := s.nextInode + 1)
  {
    AcquireFree(w, s, id);
    var held := Stepped(w, Apply(w, s, Acquire(id)), id, 2);
    ReleaseHeld(w, held, id);
    Restored(w, s, id, held);
  }

  lemma {:induction false} Restored(w: World, s: State, id: Id, held: State)
    requires Formed(w, s) && id in w && s.phase[id].Idle? && !Conflict(s, w[id]) && w[id].dir.path !in s.files
    requires held == Moved(Register(w, s, id), id, Held(s.nextInode)).(
                       files := s.files[w[id].dir.path := File(s.nextInode, id, Some(id), s.clock)],
                       nextInode := s.nextInode + 1)
    ensures Unregister(w, held, id).(files := held.files - {w[id].dir.path}) == s.(nextInode := s.nextInode + 1)
  {
    var r := Unregister(w, held, id);
    assert held.files - {w[id].dir.path} == s.files;
    assert r.phase == s.phase;
    assert r.registry == s.registry;
  }

  lemma {:induction false} AcquireFree(w: World, s: State, id: Id)
    requires Formed(w, s) && id in w && s.phase[id].Idle?
    requires !Conflict(s, w[id]) && w[id].dir.path !in s.files
    ensures Stepped(w, Apply(w, s, Acquire(id)), id, 2)
         == Moved(Register(w, s, id), id, Held(s.nextInode)).(
              files := s.files[w[id].dir.path := File(s.nextInode, id, Some(id), s.clock)],
              nextInode := s.nextInode + 1)
  {
    var a := Apply(w, s, Acquire(id));
    var b := Advance(w, a, id, true);
    assert b.phase[id] == Writing(s.nextInode) && b.phase[id := Held(s.nextInode)] == a.phase[id := Held(s.nextInode)];
    var held := Advance(w, b, id, true);
    assert Stepped(w, a, id, 2) == Stepped(w, b, id, 1) == held;
  }

  lemma {:induction false} ReleaseHeld(w: World, s: State, id: Id)
    requires Formed(w, s) && id in w && s.phase[id].Held? && w[id].dir.path in s.files
    requires s.files[w[id].dir.path].token == Some(id)
    ensures Stepped(w, s, id, 5) == Unregister(w, s, id).(files := s.files - {w[id].dir.path})
  {
    var i := s.phase[id].inode;
    var r1 := Advance(w, s, id, true);
    var r2 := Advance(w, r1, id, true);
    var r3 := Advance(w, r2, id, true);
    var r4 := Advance(w, r3, id, true);
    assert r4.phase == s.phase[id := Unregistering];
    assert Stepped(w, r4, id, 1) == Advance(w, r4, id, true);
    assert Stepped(w, r2, id, 3) == Stepped(w, r3, id, 2) == Stepped(w, r4, id, 1);
    assert Stepped(w, s, id, 5) == Stepped(w, r1, id, 4) == Stepped(w, r2, id, 3);
    assert Unregister(w, r4, id) == Unregister(w, s, id).(files := s.files - {w[id].dir.path});
  }

  /** Release of a held lock, undisturbed, whatever happened to its file before: it is
      unlinked if and only if it names this lock, and the lock is unregistered either way. */
  lemma {:induction false} ReleaseExactly(w: World, s: State, id: Id)
    requires Formed(w, s) && id in w && s.phase[id].Held?
    ensures var path := w[id].dir.path;
            var mine := path in s.files && s.files[path].token == Some(id);
            Stepped(w, s, id, 5) == Unregister(w, s, id).(files := if mine then s.files - {path} else s.files)
  {
    var path := w[id].dir.path;
    if path in s.files && s.files[path].token == Some(id) {
      ReleaseHeld(w, s, id);
    } else {
      ReleaseForeign(w, s, id);
    }
  }

  lemma {:induction false} ReleaseForeign(w: World, s: State, id: Id)
    requires Formed(w, s) && id in w && s.phase[id].Held?
    requires w[id].dir.path in s.files ==> s.files[w[id].dir.path].token != Some(id)
    ensures Stepped(w, s, id, 5) == Unregister(w, s, id)
  {
    var r1 := Advance(w, s, id, true);
    var r2 := Advance(w, r1, id, true);
    if w[id].dir.path in s.files {
      ForeignRead(w, s, id);
      LastSteps(w, s, id, 2);
      assert Stepped(w, s, id, 5) == Stepped(w, r1, id, 4) == Stepped(w, r2, id, 3);
      assert Stepped(w, r2, id, 3) == Stepped(w, Advance(w, r2, id, true), id, 2);
    } else {
      assert r2 == Moved(s, id, Unregistering);
      LastSteps(w, s, id, 3);
      assert Stepped(w, s, id, 5) == Stepped(w, r1, id, 4) == Stepped(w, r2, id, 3);
    }
  }

  lemma {:induction false} ForeignRead(w: World, s: State, id: Id)
    requires Formed(w, s) && id in w && s.phase[id].Held? && w[id].dir.path in s.files
    requires s.files[w[id].dir.path].token != Some(id)
    ensures Advance(w, Advance(w, Advance(w, s, id, true), id, true), id, true) == Moved(s, id, Unregistering)
  {
    var i := s.phase[id].inode;
    assert Advance(w, s, id, true) == Moved(s, id, ReleaseTesting(i));
    assert Advance(w, Moved(s, id, ReleaseTesting(i)), id, true) == Moved(s, id, ReleaseReading(i));
  }

  /** From the step that unregisters on. */
  lemma {:induction false} LastSteps(w: World, s: State, id: Id, n: nat)
    requires Formed(w, s) && id in w && n > 0
    ensures Stepped(w, Moved(s, id, Unregistering), id, n) == Unregister(w, s, id)
  {
    var last := Moved(s, id, Unregistering);
    assert Unregister(w, last, id) == Unregister(w, s, id);
    IdleStays(w, Unregister(w, s, id), id, n - 1);
  }

  lemma {:induction false} IdleStays(w: World, s: State, id: Id, n: nat)
    requires Formed(w, s) && id in w && s.phase[id].Idle?
    ensures Stepped(w, s, id, n) == s
    decreases n
  {
    if n > 0 { IdleStays(w, s, id, n - 1); }
  }

  // -------------------------------------------------------------------------
  // What one step may do, whatever else happens
  // -------------------------------------------------------------------------

  /** The call of a lock of the directory at `path`. */
  predicate CallAt(w: World, e: Event, path: string) {
    e.Step? && e.id in w && w[e.id].dir.path == path
  }

  /** A file appears empty, where there was none, by a create; it is written only by the lock
      that created that very file; it vanishes only in an unlink. */
  lemma {:induction false} FileChanges(w: World, s: State, e: Event, path: string)
    requires Formed(w, s)
    ensures var t := Apply(w, s, e);
            && (path !in s.files && path in t.files ==>
                  && CallAt(w, e, path) && (s.phase[e.id].Opening? || s.phase[e.id].Reopening?)
                  && t.files[path] == File(s.nextInode, e.id, None, s.clock) && t.nextInode == s.nextInode + 1
                  && t.phase[e.id] == Writing(s.nextInode))
            && (path in s.files && path !in t.files ==>
                  CallAt(w, e, path) && e.ok && (s.phase[e.id].Unlinking? || s.phase[e.id].ReleaseUnlinking?))
            && (path in s.files && path in t.files && s.files[path] != t.files[path] ==>
                  && CallAt(w, e, path) && e.ok && s.phase[e.id] == Writing(s.files[path].inode)
                  && t.files[path] == s.files[path].(token := Some(e.id), mtime := s.clock))
  {
    if e.Step? && e.id in w { CallChanges(w, s, e.id, e.ok, path); }
  }

  lemma {:induction false} CallChanges(w: World, s: State, id: Id, ok: bool, path: string)
    requires Formed(w, s) && id in w
    ensures var t := Advance(w, s, id, ok);
            && (path !in s.files && path in t.files ==>
                  && w[id].dir.path == path && (s.phase[id].Opening? || s.phase[id].Reopening?)
                  && t.files[path] == File(s.nextInode, id, None, s.clock) && t.nextInode == s.nextInode + 1
                  && t.phase[id] == Writing(s.nextInode))
            && (path in s.files && path !in t.files ==>
                  w[id].dir.path == path && ok && (s.phase[id].Unlinking? || s.phase[id].ReleaseUnlinking?))
            && (path in s.files && path in t.files && s.files[path] != t.files[path] ==>
                  && w[id].dir.path == path && ok && s.phase[id] == Writing(s.files[path].inode)
                  && t.files[path] == s.files[path].(token := Some(id), mtime := s.clock))
  {
  }

  /** A release goes on to unlink only when it has just read its own token in the file at the
      path; with no hypothesis on budgets, windows or calls. */
  lemma {:induction false} ReleaseReadsOwn(w: World, s: State, e: Event, l: Id)
    requires Formed(w, s) && l in w
    requires Apply(w, s, e).phase[l].ReleaseUnlinking? && !s.phase[l].ReleaseUnlinking?
    ensures w[l].dir.path in s.files && s.files[w[l].dir.path].token == Some(l)
    ensures e == Step(l, true) && s.phase[l].ReleaseReading?
  {
  }

  /** A contender goes on to unlink only when the test or the stat failed, the file has
      vanished, or it is stale at the time the clock was read. */
  lemma {:induction false} UnlinkVerdict(w: World, s: State, e: Event, l: Id)
    requires Formed(w, s) && l in w && Apply(w, s, e).phase[l].Unlinking? && !s.phase[l].Unlinking?
    ensures e.Step? && e.id == l && (s.phase[l].Testing? || s.phase[l].Statting?)
    ensures || !e.ok || w[l].dir.path !in s.files
            || (s.phase[l].Statting? && Stale(w[l], s.phase[l].now, s.files[w[l].dir.path]))
  {
  }

  /** Where the verdict falls: a failing test or stat and a vanished file count as stale. */
  lemma {:induction false} VerdictExactly(w: World, s: State, l: Id, ok: bool)
    requires Formed(w, s) && l in w && (s.phase[l].Testing? || s.phase[l].Statting?)
    ensures var t, path := Apply(w, s, Step(l, ok)), w[l].dir.path;
            var gone := !ok || path !in s.files;
            && t == Moved(s, l, t.phase[l])
            && (t.phase[l].Unlinking? <==>
                  gone || (s.phase[l].Statting? && Stale(w[l], s.phase[l].now, s.files[path])))
            && (t.phase[l].Failed? <==> s.phase[l].Statting? && !t.phase[l].Unlinking?)
            && (t.phase[l].ReadingClock? <==> s.phase[l].Testing? && !t.phase[l].Unlinking?)
  {
  }

  /** A call that fails touches neither the files nor the registry; a failing create or write
      ends the acquire, a failing unlink does not, and release goes on to unregister. */
  lemma {:induction false} FailingCall(w: World, s: State, l: Id)
    requires Formed(w, s) && l in w && !s.phase[l].Unregistering?
    ensures var t := Apply(w, s, Step(l, false));
            && t == Moved(s, l, t.phase[l])
            && (s.phase[l].Opening? || s.phase[l].Reopening? || s.phase[l].Writing? ==> t.phase[l].Failed?)
            && (s.phase[l].Unlinking? ==> t.phase[l].Reopening?)
            && (s.phase[l].ReleaseTesting? || s.phase[l].ReleaseReading? || s.phase[l].ReleaseUnlinking? ==>
                  t.phase[l].Unregistering?)
  {
    assert s.phase[l := s.phase[l]] == s.phase;
  }

  /** Stale is older than the budget and than one second. */
  lemma {:induction false} StaleExactly(lock: Lock, now: real, file: File)
    ensures Stale(lock, now, file) <==> now - file.mtime > lock.budget && now - file.mtime > 1.0
  {
  }

  /** The death of a process ends its locks and empties its registry; every file stays, and so
      does everything of other processes. */
  lemma {:induction false} CrashExactly(w: World, s: State, pid: nat)
    requires Formed(w, s)
    ensures var t := Apply(w, s, Crash(pid));
            && t.files == s.files && t.clock == s.clock
            && (forall l | l in w :: t.phase[l] == if w[l].pid == pid then Crashed else s.phase[l])
            && (forall k | k in s.registry :: k in t.registry <==> k.0 != pid)
            && (forall k | k in t.registry :: k in s.registry && t.registry[k] == s.registry[k])
  {
  }

  /** Unregistering takes the lock's own entries and no other. */
  lemma {:induction false} UnregisterOwn(w: World, s: State, id: Id)
    requires Formed(w, s) && id in w
    ensures forall k | k in s.registry && s.registry[k] != id ::
              k in Unregister(w, s, id).registry && Unregister(w, s, id).registry[k] == s.registry[k]
    ensures RegistryAgrees(w, s) && Registered(s.phase[id]) ==>
              !Conflict(Unregister(w, s, id), w[id])
  {
    if RegistryAgrees(w, s) && Registered(s.phase[id]) { assert Enters(w, s, id); }
  }

  /** A contender that meets an owner whose file is within its budget is refused and
      touches no file. */
  lemma {:induction false} ContenderRefused(w: World, s: State, c: Id, o: Id)
    requires Formed(w, s) && Safe(w, s)
    requires c in w && o in w && c != o && SamePath(w, c, o) && Owning(s.phase[o]) && s.phase[c].Opening?
    requires w[o].dir.path in s.files ==> s.clock - s.files[w[o].dir.path].mtime <= Limit(w[c])
    ensures Stepped(w, s, c, 4) == Moved(s, c, Failed)
  {
    assert OwnsFile(w, s, o);
    FreshFileRefused(w, s, c);
  }

  lemma {:induction false} FreshFileRefused(w: World, s: State, c: Id)
    requires Formed(w, s) && c in w && s.phase[c].Opening? && w[c].dir.path in s.files
    requires !Stale(w[c], s.clock, s.files[w[c].dir.path])
    ensures Stepped(w, s, c, 4) == Moved(s, c, Failed)
  {
    var s1, s2, s3 := Moved(s, c, Testing), Moved(s, c, ReadingClock), Moved(s, c, Statting(s.clock));
    assert Advance(w, s, c, true) == s1;
    assert Advance(w, s1, c, true) == s2;
    assert Advance(w, s2, c, true) == s3;
    assert Advance(w, s3, c, true) == Moved(s, c, Failed);
    assert Stepped(w, s, c, 4) == Stepped(w, s1, c, 3) == Stepped(w, s2, c, 2) == Stepped(w, s3, c, 1);
  }

  /** An abandoned file past the budget is removed and replaced by the contender's own. */
  lemma {:induction false} StaleTakeover(w: World, s: State, c: Id)
    requires Formed(w, s) && c in w && s.phase[c].Opening? && w[c].dir.path in s.files
    requires s.clock - s.files[w[c].dir.path].mtime > Limit(w[c])
    ensures var t := Stepped(w, s, c, 7);
            t.phase[c].Held? && t.files == s.files[w[c].dir.path := File(s.nextInode, c, Some(c), s.clock)]
  {
    StaleVerdict(w, s, c);
    UnlinkAndCreate(w, Moved(s, c, Unlinking), c);
  }

  lemma {:induction false} UnlinkAndCreate(w: World, s: State, c: Id)
    requires Formed(w, s) && c in w && s.phase[c].Unlinking?
    ensures var t := Stepped(w, s, c, 3);
            t.phase[c].Held? && t.files == s.files[w[c].dir.path := File(s.nextInode, c, Some(c), s.clock)]
  {
    var path := w[c].dir.path;
    var s1 := Advance(w, s, c, true);
    var s2 := Advance(w, s1, c, true);
    assert s1.files == s.files - {path};
    assert s2.phase[c] == Writing(s.nextInode) && s2.files == s.files[path := File(s.nextInode, c, None, s.clock)];
    var s3 := Advance(w, s2, c, true);
    assert Stepped(w, s, c, 3) == Stepped(w, s1, c, 2) == Stepped(w, s2, c, 1) == s3;
  }

  lemma {:induction false} StaleVerdict(w: World, s: State, c: Id)
    requires Formed(w, s) && c in w && s.phase[c].Opening? && w[c].dir.path in s.files
    requires s.clock - s.files[w[c].dir.path].mtime > Limit(w[c])
    ensures Stepped(w, s, c, 7) == Stepped(w, Moved(s, c, Unlinking), c, 3)
  {
    var s1, s2, s3 := Moved(s, c, Testing), Moved(s, c, ReadingClock), Moved(s, c, Statting(s.clock));
    assert Advance(w, s, c, true) == s1;
    assert Advance(w, s1, c, true) == s2;
    assert Advance(w, s2, c, true) == s3;
    assert Advance(w, s3, c, true) == Moved(s, c, Unlinking);
    assert Stepped(w, s, c, 7) == Stepped(w, s1, c, 6) == Stepped(w, s2, c, 5) == Stepped(w, s3, c, 4);
  }

  // -------------------------------------------------------------------------
  // None of the three hypotheses can be dropped: two locks end up held
  // -------------------------------------------------------------------------

  datatype Hypothesis = Budget | Window | Stat

  /** The two hypotheses other than `h`. */
  ghost predicate Others(h: Hypothesis, w: World, s: State, e: Event)
    requires Formed(w, s)
  {
    && (h.Budget? || HoldersInBudget(w, s))
    && (h.Window? || NoCreateInWindow(w, s, e))
    && (h.Stat? || StatWorks(w, s, e))
  }

  ghost predicate AllOthers(h: Hypothesis, w: World, s: State, events: seq<Event>)
    requires Formed(w, s)
    decreases |events|
  {
    events != [] ==> Others(h, w, s, events[0]) && AllOthers(h, w, Apply(w, s, events[0]), events[1..])
  }

  /** Two processes with one lock each on one directory. */
  ghost predicate TwoProcesses(w: World) {
    && w.Keys == {0, 1} && w[0].dir == w[1].dir
    && w[0].pid == 0 && w[1].pid == 1 && w[0].budget == w[1].budget == 1.0
  }

  /** What such runs depend on: the clock, the one lock file, the two phases. */
  datatype Pair = Pair(clock: real, file: Option<File>, p0: Phase, p1: Phase, nextInode: nat)

  function PhaseOf(v: Pair, id: Id): Phase {
    if id == 0 then v.p0 else v.p1
  }

  function MovedTo(v: Pair, id: Id, p: Phase): Pair {
    if id == 0 then v.(p0 := p) else v.(p1 := p)
  }

  ghost predicate Looks(w: World, s: State, v: Pair)
    requires TwoProcesses(w) && Formed(w, s)
  {
    LooksInside(w, s, v) && InOrOut(w, s, 0) && InOrOut(w, s, 1)
  }

  ghost predicate LooksInside(w: World, s: State, v: Pair)
    requires TwoProcesses(w) && Formed(w, s)
  {
    var path := w[0].dir.path;
    && s.clock == v.clock && s.nextInode == v.nextInode && s.phase[0] == v.p0 && s.phase[1] == v.p1
    && (path in s.files <==> v.file.Some?) && (v.file.Some? ==> s.files[path] == v.file.value)
  }

  predicate InOrOut(w: World, s: State, id: Id)
    requires Formed(w, s) && id in w
  {
    if Registered(s.phase[id]) then Enters(w, s, id) else !Conflict(s, w[id])
  }

  /** `Create`, `Advance` and `Apply` on what matters here. */
  function CreateIn(v: Pair, id: Id): Pair {
    MovedTo(v, id, Phase.Writing(v.nextInode)).(
      file := Some(File(v.nextInode, id, None, v.clock)), nextInode := v.nextInode + 1)
  }

  function AdvanceIn(v: Pair, id: Id, ok: bool): Pair {
    match PhaseOf(v, id)
    case Opening =>
      if !ok then MovedTo(v, id, Failed) else if v.file.Some? then MovedTo(v, id, Testing) else CreateIn(v, id)
    case Testing => if ok && v.file.Some? then MovedTo(v, id, ReadingClock) else MovedTo(v, id, Unlinking)
    case ReadingClock => MovedTo(v, id, Statting(v.clock))
    case Statting(now) =>
      if ok && v.file.Some? && now - v.file.value.mtime <= 1.0 then MovedTo(v, id, Failed)
      else MovedTo(v, id, Unlinking)
    case Unlinking => if ok then MovedTo(v, id, Reopening).(file := None) else MovedTo(v, id, Reopening)
    case Reopening => if !ok || v.file.Some? then MovedTo(v, id, Failed) else CreateIn(v, id)
    case Writing(inode) =>
      if !ok then MovedTo(v, id, Failed)
      else if v.file.Some? && v.file.value.inode == inode then
        MovedTo(v, id, Held(inode)).(file := Some(v.file.value.(token := Some(id), mtime := v.clock)))
      else MovedTo(v, id, Held(inode))
    case Held(inode) => MovedTo(v, id, ReleaseTesting(inode))
    case ReleaseTesting(inode) =>
      if ok && v.file.Some? then MovedTo(v, id, ReleaseReading(inode)) else MovedTo(v, id, Unregistering)
    case ReleaseReading(inode) =>
      if ok && v.file.Some? && v.file.value.token == Some(id) then MovedTo(v, id, ReleaseUnlinking(inode))
      else MovedTo(v, id, Unregistering)
    case ReleaseUnlinking(inode) =>
      if ok then MovedTo(v, id, Unregistering).(file := None) else MovedTo(v, id, Unregistering)
    case Unregistering => MovedTo(v, id, Idle)
    case Idle | Failed | Crashed => v
  }

  /** Acquires here are of idle locks only, and nobody crashes. */
  function NextIn(v: Pair, e: Event): Pair {
    match e
    case Tick(elapsed) => if elapsed > 0.0 then v.(clock := v.clock + elapsed) else v
    case Acquire(id) => MovedTo(v, id, Opening)
    case Step(id, ok) => AdvanceIn(v, id, ok)
    case Crash(_) => v
  }

  predicate Possible(v: Pair, e: Event) {
    match e
    case Tick(_) => true
    case Acquire(id) => id <= 1 && PhaseOf(v, id).Idle?
    case Step(id, _) => id <= 1
    case Crash(_) => false
  }

  predicate InBudget(v: Pair, owner: Phase, contender: Phase) {
    Owning(owner) && contender.Statting? && v.file.Some? ==> v.clock - v.file.value.mtime <= 1.0
  }

  predicate OthersIn(h: Hypothesis, v: Pair, e: Event) {
    && (h.Budget? || (InBudget(v, v.p0, v.p1) && InBudget(v, v.p1, v.p0)))
    && (e.Step? ==>
          var p := PhaseOf(v, e.id);
          && (h.Window? || (e.ok && (p.Opening? || p.Reopening?) && v.file.None? ==>
                              !PhaseOf(v, if e.id == 0 then 1 else 0).Unlinking?))
          && (h.Stat? || ((p.Testing? || p.Statting?) && v.file.Some? ==> e.ok)))
  }

  lemma {:induction false} OthersLook(h: Hypothesis, w: World, s: State, v: Pair, e: Event)
    requires TwoProcesses(w) && Formed(w, s) && LooksInside(w, s, v) && Possible(v, e) && OthersIn(h, v, e)
    ensures Others(h, w, s, e)
  {
    if !h.Budget? {
      forall o, c | o in w && c in w && o != c && Owning(s.phase[o]) && s.phase[c].Statting? && w[o].dir.path in s.files
        ensures s.clock - s.files[w[o].dir.path].mtime <= Limit(w[c])
      {
        assert (o == 0 && c == 1) || (o == 1 && c == 0);
      }
    }
  }

  lemma {:induction false} AdvanceLooks(w: World, s: State, v: Pair, id: Id, ok: bool)
    requires TwoProcesses(w) && Formed(w, s) && LooksInside(w, s, v) && id <= 1
    ensures LooksInside(w, Advance(w, s, id, ok), AdvanceIn(v, id, ok))
  {
    if Acquiring(s.phase[id]) { AcquiringLooks(w, s, v, id, ok); } else { ReleasingLooks(w, s, v, id, ok); }
  }

  predicate Acquiring(p: Phase) {
    p.Opening? || p.Testing? || p.ReadingClock? || p.Statting? || p.Unlinking? || p.Reopening?
  }

  lemma {:induction false} AcquiringLooks(w: World, s: State, v: Pair, id: Id, ok: bool)
    requires TwoProcesses(w) && Formed(w, s) && LooksInside(w, s, v) && id <= 1 && Acquiring(s.phase[id])
    ensures LooksInside(w, Advance(w, s, id, ok), AdvanceIn(v, id, ok))
  {
  }

  lemma {:induction false} ReleasingLooks(w: World, s: State, v: Pair, id: Id, ok: bool)
    requires TwoProcesses(w) && Formed(w, s) && LooksInside(w, s, v) && id <= 1 && !Acquiring(s.phase[id])
    ensures LooksInside(w, Advance(w, s, id, ok), AdvanceIn(v, id, ok))
  {
  }

  lemma {:induction false} AdvanceInOrOut(w: World, s: State, id: Id, ok: bool, l: Id)
    requires TwoProcesses(w) && Formed(w, s) && id <= 1 && l <= 1 && InOrOut(w, s, l)
    ensures InOrOut(w, Advance(w, s, id, ok), l)
  {
    if s.phase[id].Unregistering? {
      UnregisterInOrOut(w, s, id, l);
    } else {
      StayInOrOut(w, s, id, ok, l);
    }
  }

  lemma {:induction false} StayInOrOut(w: World, s: State, id: Id, ok: bool, l: Id)
    requires Formed(w, s) && id in w && l in w && InOrOut(w, s, l) && !s.phase[id].Unregistering?
    ensures InOrOut(w, Advance(w, s, id, ok), l)
  {
    RegistryStays(w, s, id, ok);
    var t := Advance(w, s, id, ok);
    assert Registered(t.phase[l]) == Registered(s.phase[l]);
    SameInOrOut(w, s, t, l);
  }

  lemma {:induction false} UnregisterInOrOut(w: World, s: State, id: Id, l: Id)
    requires TwoProcesses(w) && Formed(w, s) && id <= 1 && l <= 1 && InOrOut(w, s, l) && Registered(s.phase[id])
    ensures InOrOut(w, Unregister(w, s, id), l)
  {
  }

  lemma {:induction false} SameInOrOut(w: World, s: State, t: State, l: Id)
    requires Formed(w, s) && Formed(w, t) && l in w && InOrOut(w, s, l)
    requires t.registry == s.registry && Registered(t.phase[l]) == Registered(s.phase[l])
    ensures InOrOut(w, t, l)
  {
  }

  lemma {:induction false} AcquireLooks(w: World, s: State, v: Pair, id: Id)
    requires TwoProcesses(w) && Formed(w, s) && Looks(w, s, v) && Possible(v, Acquire(id))
    ensures Looks(w, Apply(w, s, Acquire(id)), NextIn(v, Acquire(id)))
  {
    assert InOrOut(w, s, id) && s.phase[id].Idle?;
  }

  lemma {:induction false} NextLooks(w: World, s: State, v: Pair, e: Event)
    requires TwoProcesses(w) && Formed(w, s) && Looks(w, s, v) && Possible(v, e)
    ensures Looks(w, Apply(w, s, e), NextIn(v, e))
  {
    match e
    case Step(id, ok) => StepLooks(w, s, v, id, ok);
    case Acquire(id) => AcquireLooks(w, s, v, id);
    case Tick(elapsed) => TickLooks(w, s, v, elapsed);
    case Crash(_) =>
  }

  lemma {:induction false} TickLooks(w: World, s: State, v: Pair, elapsed: real)
    requires TwoProcesses(w) && Formed(w, s) && Looks(w, s, v)
    ensures Looks(w, Apply(w, s, Tick(elapsed)), NextIn(v, Tick(elapsed)))
  {
    SameInOrOut(w, s, Apply(w, s, Tick(elapsed)), 0);
    SameInOrOut(w, s, Apply(w, s, Tick(elapsed)), 1);
  }

  lemma {:induction false} StepLooks(w: World, s: State, v: Pair, id: Id, ok: bool)
    requires TwoProcesses(w) && Formed(w, s) && Looks(w, s, v) && id <= 1
    ensures Looks(w, Apply(w, s, Step(id, ok)), NextIn(v, Step(id, ok)))
  {
    var t, u := Advance(w, s, id, ok), AdvanceIn(v, id, ok);
    AdvanceLooks(w, s, v, id, ok);
    AdvanceInOrOut(w, s, id, ok, 0);
    AdvanceInOrOut(w, s, id, ok, 1);
    StepIsAdvance(w, s, v, id, ok, t, u);
  }

  lemma {:induction false} StepIsAdvance(w: World, s: State, v: Pair, id: Id, ok: bool, t: State, u: Pair)
    requires Formed(w, s) && id in w && t == Advance(w, s, id, ok) && u == AdvanceIn(v, id, ok)
    ensures Apply(w, s, Step(id, ok)) == t && NextIn(v, Step(id, ok)) == u
  {
  }

  /** A run that meets the other two hypotheses at every step. */
  predicate Good(h: Hypothesis, v: Pair, events: seq<Event>)
    decreases |events|
  {
    events != [] ==> Possible(v, events[0]) && OthersIn(h, v, events[0]) && Good(h, NextIn(v, events[0]), events[1..])
  }

  function RunIn(v: Pair, events: seq<Event>): Pair
    decreases |events|
  {
    if events == [] then v else RunIn(NextIn(v, events[0]), events[1..])
  }

  lemma {:induction false} GoodRun(h: Hypothesis, w: World, s: State, v: Pair, events: seq<Event>)
    requires TwoProcesses(w) && Formed(w, s) && Looks(w, s, v) && Good(h, v, events)
    ensures AllOthers(h, w, s, events) && Looks(w, Run(w, s, events), RunIn(v, events))
    decreases |events|
  {
    if events != [] {
      OthersLook(h, w, s, v, events[0]);
      NextLooks(w, s, v, events[0]);
      GoodRun(h, w, Apply(w, s, events[0]), NextIn(v, events[0]), events[1..]);
    }
  }

  lemma {:induction false} GoodSnoc(h: Hypothesis, v: Pair, events: seq<Event>, e: Event)
    requires Good(h, v, events) && Possible(RunIn(v, events), e) && OthersIn(h, RunIn(v, events), e)
    ensures Good(h, v, events + [e]) && RunIn(v, events + [e]) == NextIn(RunIn(v, events), e)
    decreases |events|
  {
    if events == [] {
      assert [e][1..] == [];
    } else {
      assert (events + [e])[1..] == events[1..] + [e];
      GoodSnoc(h, NextIn(v, events[0]), events[1..], e);
    }
  }

  const START := Pair(0.0, None, Idle, Idle, 0)

  ghost predicate Reaches(h: Hypothesis, v: Pair) {
    exists events :: Good(h, START, events) && RunIn(START, events) == v
  }

  lemma {:induction false} Then(h: Hypothesis, v: Pair, e: Event) returns (v': Pair)
    requires Reaches(h, v) && Possible(v, e) && OthersIn(h, v, e)
    ensures v' == NextIn(v, e) && Reaches(h, v')
  {
    var events :| Good(h, START, events) && RunIn(START, events) == v;
    GoodSnoc(h, START, events, e);
    v' := NextIn(v, e);
    assert Good(h, START, events + [e]) && RunIn(START, events + [e]) == v';
  }

  /** The lock of the first process is taken: acquire, create, write. */
  lemma {:induction false} FirstHolds(h: Hypothesis) returns (v: Pair)
    ensures v == Pair(0.0, Some(File(0, 0, Some(0), 0.0)), Held(0), Idle, 1) && Reaches(h, v)
  {
    var none: seq<Event> := [];
    assert Good(h, START, none) && RunIn(START, none) == START;
    v := Then(h, START, Acquire(0));
    v := Then(h, v, Step(0, true));
    v := Then(h, v, Step(0, true));
  }

  /** A contender about to unlink then unlinks, creates and writes its own file. */
  lemma {:induction false} ContenderTakes(h: Hypothesis, before: Pair) returns (v: Pair)
    requires Reaches(h, before) && before.p0.Held? && before.p1.Unlinking?
    ensures Reaches(h, v) && v.p0.Held? && v.p1.Held?
  {
    v := Then(h, before, Step(1, true));
    v := Then(h, v, Step(1, true));
    v := Then(h, v, Step(1, true));
  }

  /** The holder outlives the contender's budget. */
  lemma {:induction false} BudgetFails() returns (v: Pair)
    ensures Reaches(Budget, v) && v.p0.Held? && v.p1.Held?
  {
    v := FirstHolds(Budget);
    v := Then(Budget, v, Tick(2.0));
    v := Then(Budget, v, Acquire(1));
    v := Then(Budget, v, Step(1, true));
    v := Then(Budget, v, Step(1, true));
    v := Then(Budget, v, Step(1, true));
    v := Then(Budget, v, Step(1, true));
    v := ContenderTakes(Budget, v);
  }

  /** `is_file` fails on a live lock file. */
  lemma {:induction false} StatFails() returns (v: Pair)
    ensures Reaches(Stat, v) && v.p0.Held? && v.p1.Held?
  {
    v := FirstHolds(Stat);
    v := Then(Stat, v, Acquire(1));
    v := Then(Stat, v, Step(1, true));
    v := Then(Stat, v, Step(1, false));
    v := ContenderTakes(Stat, v);
  }

  /** The holder releases between the contender's failed create and its test, and takes the
      lock again between that test and the unlink. */
  lemma {:induction false} WindowFails() returns (v: Pair)
    ensures Reaches(Window, v) && v.p0.Held? && v.p1.Held?
  {
    v := FirstHolds(Window);
    v := Then(Window, v, Acquire(1));
    v := Then(Window, v, Step(1, true));
    v := Released(Window, v);
    v := Then(Window, v, Step(1, true));
    v := Then(Window, v, Acquire(0));
    v := Then(Window, v, Step(0, true));
    v := Then(Window, v, Step(0, true));
    v := ContenderTakes(Window, v);
  }

  lemma {:induction false} Released(h: Hypothesis, before: Pair) returns (v: Pair)
    requires Reaches(h, before) && before.p0.Held? && before.p1.Testing?
    requires before.file.Some? && before.file.value.token == Some(0)
    ensures v == before.(p0 := Idle, file := None) && Reaches(h, v)
  {
    v := Then(h, before, Step(0, true));
    v := Then(h, v, Step(0, true));
    v := Then(h, v, Step(0, true));
    v := Then(h, v, Step(0, true));
    v := Then(h, v, Step(0, true));
  }

  ghost predicate TwoHeld(h: Hypothesis, w: World, events: seq<Event>, l: Id, m: Id) {
    && l in w && m in w && l != m && SamePath(w, l, m) && AllOthers(h, w, Initial(w), events)
    && Run(w, Initial(w), events).phase[l].Held? && Run(w, Initial(w), events).phase[m].Held?
  }

  /** For each hypothesis there is a run from start-up that meets the other two at every
      step and ends with two locks of one directory held. */
  lemma {:induction false} EachIsNeeded(h: Hypothesis)
    ensures exists w, events, l, m :: TwoHeld(h, w, events, l, m)
  {
    var v: Pair;
    match h {
      case Budget => v := BudgetFails();
      case Window => v := WindowFails();
      case Stat => v := StatFails();
    }
    var events :| Good(h, START, events) && RunIn(START, events) == v;
    var d := Directory("run", "/data/run");
    var w: World := map[0 := Lock(d, 0, 1.0), 1 := Lock(d, 1, 1.0)];
    GoodRun(h, w, Initial(w), START, events);
    assert TwoHeld(h, w, events, 0, 1);
  }
}
