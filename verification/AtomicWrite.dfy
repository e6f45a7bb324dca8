/**
 Temp-file, fsync, rename, directory fsync: the atomic writers over a file system with
 volatile and durable contents.

 An event is one operating-system call of one writer, one piece of write-back the kernel
 decides on, or a crash.  Any number of writers run interleaved, on any destinations,
 before and after any number of crashes.  Temporary names carry a fresh identifier.
*/
module AtomicWrite {
  import opened Options

  type Bytes = seq<int>

  datatype Name = Dest(path: string) | Temp(writer: nat)

  /** `durable` is what a crash leaves of `volatile`; `owner` is the writer that made it. */
  datatype Inode = Inode(volatile: Bytes, durable: Bytes, owner: Option<nat>)

  datatype Phase =
    | New
    | Writing(inode: nat, written: nat)
    | Synced(inode: nat)
    | Renamed
    | Cleaning(renamed: bool)
    | Ended(renamed: bool)

  /** `fsyncs`: text and byte writers call fsync on the file, the npy and npz ones do not. */
  datatype Writer = Writer(path: string, payload: Bytes, fsyncs: bool, phase: Phase)

  datatype State = State(
    inodes: map<nat, Inode>,
    dir: map<Name, nat>,
    disk: map<Name, nat>,
    writers: seq<Writer>,
    origin: map<string, Bytes>,
    crashes: nat)

  datatype Event =
    | Call(path: string, payload: Bytes, fsyncs: bool)
    | Open(writer: nat, inode: nat)
    | Write(writer: nat, upTo: nat)
    | Fsync(writer: nat)
    | Rename(writer: nat)
    | FsyncDir(writer: nat, ok: bool)
    | Fail(writer: nat)
    | CleanUp(writer: nat, ok: bool)
    | FlushInode(inode: nat, upTo: nat)
    | FlushEntry(name: Name)
    | Crash

  function SetPhase(s: State, i: nat, p: Phase): State
    requires i < |s.writers|
  {
    s.(writers := s.writers[i := s.writers[i].(phase := p)])
  }

  predicate PastRename(w: Writer) {
    w.phase.Renamed? || ((w.phase.Cleaning? || w.phase.Ended?) && w.phase.renamed)
  }

  /** Killed by a crash: what was renamed stays renamed, nothing more will happen. */
  function Killed(w: Writer): Writer {
    w.(phase := Ended(PastRename(w)))
  }

  function Apply(s: State, e: Event): State {
    match e
    case Call(path, payload, fsyncs) => s.(writers := s.writers + [Writer(path, payload, fsyncs, New)])
    case Open(i, j) =>
      if i < |s.writers| && s.writers[i].phase.New? && j !in s.inodes then
        SetPhase(s, i, Writing(j, 0)).(inodes := s.inodes[j := Inode([], [], Some(i))], dir := s.dir[Temp(i) := j])
      else s
    case Write(i, n) =>
      if i < |s.writers| && s.writers[i].phase.Writing? && s.writers[i].phase.inode in s.inodes
         && s.writers[i].phase.written <= n <= |s.writers[i].payload| then
        var j := s.writers[i].phase.inode;
        SetPhase(s, i, Writing(j, n)).(inodes := s.inodes[j := s.inodes[j].(volatile := s.writers[i].payload[..n])])
      else s
    case Fsync(i) => // the npy and npz writers pass this point without the call
      if i < |s.writers| && s.writers[i].phase.Writing? && s.writers[i].phase.inode in s.inodes
         && s.writers[i].phase.written == |s.writers[i].payload| then
        var j := s.writers[i].phase.inode;
        SetPhase(s, i, Synced(j)).(
          inodes := if s.writers[i].fsyncs then s.inodes[j := s.inodes[j].(durable := s.inodes[j].volatile)]
                    else s.inodes)
      else s
    case Rename(i) =>
      if i < |s.writers| && s.writers[i].phase.Synced? then
        SetPhase(s, i, Renamed).(dir := (s.dir - {Temp(i)})[Dest(s.writers[i].path) := s.writers[i].phase.inode])
      else s
    case FsyncDir(i, ok) => // best effort: a failure is swallowed
      if i < |s.writers| && s.writers[i].phase.Renamed? then
        SetPhase(s, i, Cleaning(true)).(disk := if ok then s.dir else s.disk)
      else s
    case Fail(i) =>
      if i < |s.writers| && (s.writers[i].phase.New? || s.writers[i].phase.Writing? || s.writers[i].phase.Synced?)
      then SetPhase(s, i, Cleaning(false)) else s
    case CleanUp(i, ok) =>
      if i < |s.writers| && s.writers[i].phase.Cleaning? then
        SetPhase(s, i, Ended(s.writers[i].phase.renamed)).(dir := if ok then s.dir - {Temp(i)} else s.dir)
      else s
    case FlushInode(j, n) =>
      if j in s.inodes && |s.inodes[j].durable| <= n <= |s.inodes[j].volatile|
      then s.(inodes := s.inodes[j := s.inodes[j].(durable := s.inodes[j].volatile[..n])]) else s
    case FlushEntry(name) =>
      s.(disk := if name in s.dir then s.disk[name := s.dir[name]] else s.disk - {name})
    case Crash =>
      s.(inodes := map j | j in s.inodes :: s.inodes[j].(volatile := s.inodes[j].durable),
         dir := s.disk,
         writers := seq(|s.writers|, i requires 0 <= i < |s.writers| => Killed(s.writers[i])),
         crashes := s.crashes + 1)
  }

  function Run(s: State, events: seq<Event>): State
    decreases |events|
  {
    if events == [] then s else Run(Apply(s, events[0]), events[1..])
  }

  /** What a reader of `path` sees. */
  function Read(s: State, path: string): Option<Bytes> {
    if Dest(path) in s.dir && s.dir[Dest(path)] in s.inodes then Some(s.inodes[s.dir[Dest(path)]].volatile) else None
  }

  // -------------------------------------------------------------------------
  // Invariant
  // -------------------------------------------------------------------------

  /** A file reachable as `path` is an original one or the complete payload of a writer
      on that path that got past its rename. */
  predicate Complete(s: State, path: string, j: nat) {
    && j in s.inodes
    && match s.inodes[j].owner
       case None => path in s.origin && s.inodes[j].volatile == s.inodes[j].durable == s.origin[path]
       case Some(i) =>
         && i < |s.writers| && s.writers[i].path == path && PastRename(s.writers[i])
         && (s.writers[i].fsyncs ==> s.inodes[j].durable == s.inodes[j].volatile == s.writers[i].payload)
         && (s.crashes == 0 ==> s.inodes[j].volatile == s.writers[i].payload)
  }

  ghost predicate EntriesComplete(s: State, entries: map<Name, nat>) {
    forall path | Dest(path) in entries :: Complete(s, path, entries[Dest(path)])
  }

  predicate OwnsInode(s: State, i: nat)
    requires i < |s.writers|
  {
    var w := s.writers[i];
    match w.phase
    case Writing(j, n) =>
      j in s.inodes && s.inodes[j].owner == Some(i) && n <= |w.payload| && s.inodes[j].volatile == w.payload[..n]
    case Synced(j) =>
      && j in s.inodes && s.inodes[j].owner == Some(i) && s.inodes[j].volatile == w.payload
      && (w.fsyncs ==> s.inodes[j].durable == w.payload)
    case _ => true
  }

  ghost predicate Sound(s: State) {
    && EntriesComplete(s, s.dir)
    && EntriesComplete(s, s.disk)
    && (forall i | 0 <= i < |s.writers| :: OwnsInode(s, i))
    && (forall j | j in s.inodes :: PrefixAt(s, j))
  }

  /** A file system holding `files`, all durable. */
  ghost predicate Initial(s: State) {
    && s.writers == [] && s.crashes == 0 && s.dir == s.disk
    && (forall path | path in s.origin :: Dest(path) in s.dir)
    && (forall name | name in s.dir :: name.Dest? && name.path in s.origin && s.dir[name] in s.inodes
          && s.inodes[s.dir[name]] == Inode(s.origin[name.path], s.origin[name.path], None))
    && (forall j | j in s.inodes :: s.inodes[j].owner.None? && s.inodes[j].durable == s.inodes[j].volatile)
  }

  /** The writer an event is about owns the inode it works on. */
  predicate ActorOwns(s: State, e: Event) {
    (e.Write? || e.Fsync? || e.Rename?) && e.writer < |s.writers| ==> OwnsInode(s, e.writer)
  }

  lemma {:induction false} OwnsStep(s: State, e: Event, i: nat)
    requires i < |s.writers| && OwnsInode(s, i) && ActorOwns(s, e)
    ensures i < |Apply(s, e).writers| && OwnsInode(Apply(s, e), i)
  {
  }

  lemma {:induction false} CompleteStep(s: State, e: Event, path: string, j: nat)
    requires Complete(s, path, j) && ActorOwns(s, e)
    requires e.FlushInode? && e.inode in s.inodes ==> PrefixAt(s, e.inode)
    ensures Complete(Apply(s, e), path, j)
  {
  }

  lemma {:induction false} EntryStep(s: State, e: Event, path: string)
    requires Sound(s)
    ensures var t := Apply(s, e);
            && (Dest(path) in t.dir ==> Complete(t, path, t.dir[Dest(path)]))
            && (Dest(path) in t.disk ==> Complete(t, path, t.disk[Dest(path)]))
  {
    assert ActorOwns(s, e);
    if Dest(path) in s.dir { CompleteStep(s, e, path, s.dir[Dest(path)]); }
    if Dest(path) in s.disk { CompleteStep(s, e, path, s.disk[Dest(path)]); }
    NewEntry(s, e, path);
  }

  /** A step leaves an entry pointing where one pointed before, or makes a finished file
      visible. */
  lemma {:induction false} NewEntry(s: State, e: Event, path: string)
    requires ActorOwns(s, e)
    ensures var t := Apply(s, e);
            && (Dest(path) in t.dir ==> From(s, path, t.dir[Dest(path)]) || Complete(t, path, t.dir[Dest(path)]))
            && (Dest(path) in t.disk ==> From(s, path, t.disk[Dest(path)]))
  {
  }

  predicate From(s: State, path: string, j: nat) {
    (Dest(path) in s.dir && s.dir[Dest(path)] == j) || (Dest(path) in s.disk && s.disk[Dest(path)] == j)
  }

  /** The only new destination entry a step can make is a rename of a finished file. */
  lemma {:induction false} EntriesStep(s: State, e: Event)
    requires Sound(s)
    ensures EntriesComplete(Apply(s, e), Apply(s, e).dir) && EntriesComplete(Apply(s, e), Apply(s, e).disk)
  {
    forall path | Dest(path) in Apply(s, e).dir ensures Complete(Apply(s, e), path, Apply(s, e).dir[Dest(path)]) {
      EntryStep(s, e, path);
    }
    forall path | Dest(path) in Apply(s, e).disk ensures Complete(Apply(s, e), path, Apply(s, e).disk[Dest(path)]) {
      EntryStep(s, e, path);
    }
  }

  lemma {:induction false} SoundStep(s: State, e: Event)
    requires Sound(s)
    ensures Sound(Apply(s, e))
  {
    EntriesStep(s, e);
    var t := Apply(s, e);
    assert ActorOwns(s, e);
    forall i | 0 <= i < |t.writers| ensures OwnsInode(t, i) {
      if i < |s.writers| { OwnsStep(s, e, i); }
    }
    PrefixStep(s, e);
  }

  lemma {:induction false} PrefixStep(s: State, e: Event)
    requires Sound(s)
    ensures forall j | j in Apply(s, e).inodes :: PrefixAt(Apply(s, e), j)
  {
    forall j | j in Apply(s, e).inodes ensures PrefixAt(Apply(s, e), j) {
      if j in s.inodes {
        if e.Write? && e.writer < |s.writers| { assert OwnsInode(s, e.writer); WritePrefix(s, e, j); }
      }
    }
  }

  predicate PrefixAt(s: State, j: nat)
    requires j in s.inodes
  {
    var x := s.inodes[j];
    x.durable <= x.volatile && (x.owner.Some? ==> x.owner.value < |s.writers|)
  }

  lemma {:induction false} WritePrefix(s: State, e: Event, j: nat)
    requires e.Write? && e.writer < |s.writers| && OwnsInode(s, e.writer) && j in s.inodes && PrefixAt(s, j)
    ensures PrefixAt(Apply(s, e), j)
  {
    var w := s.writers[e.writer];
    if w.phase.Writing? && w.phase.written <= e.upTo <= |w.payload| && j == w.phase.inode {
      assert w.payload[..w.phase.written] <= w.payload[..e.upTo];
    }
  }

  lemma {:induction false} SoundRun(s: State, events: seq<Event>)
    requires Sound(s)
    ensures Sound(Run(s, events))
    decreases |events|
  {
    if events != [] {
      SoundStep(s, events[0]);
      SoundRun(Apply(s, events[0]), events[1..]);
    }
  }

  // -------------------------------------------------------------------------
  // What a reader can find
  // -------------------------------------------------------------------------

  ghost predicate AllFsync(s: State, path: string) {
    forall i | 0 <= i < |s.writers| && s.writers[i].path == path :: s.writers[i].fsyncs
  }

  /** `content` is the original content or the complete payload of a renamed write. */
  ghost predicate Offered(s: State, path: string, content: Bytes) {
    || (path in s.origin && s.origin[path] == content)
    || exists i :: 0 <= i < |s.writers| && s.writers[i].path == path && PastRename(s.writers[i])
                   && s.writers[i].payload == content
  }

  lemma {:induction false} CompleteIsOffered(s: State, path: string, j: nat)
    requires Complete(s, path, j) && (AllFsync(s, path) || s.crashes == 0)
    ensures Offered(s, path, s.inodes[j].volatile)
    ensures AllFsync(s, path) ==> s.inodes[j].durable == s.inodes[j].volatile
  {
    match s.inodes[j].owner
    case None =>
    case Some(i) => assert s.writers[i].path == path;
  }

  /** The destination has a visible and a durable entry. */
  predicate Entered(s: State, path: string) {
    Dest(path) in s.dir && Dest(path) in s.disk
  }

  lemma {:induction false} EnteredStep(s: State, e: Event, path: string)
    requires Entered(s, path)
    ensures Entered(Apply(s, e), path)
  {
  }

  lemma {:induction false} EnteredRun(s: State, events: seq<Event>, path: string)
    requires Entered(s, path)
    ensures Entered(Run(s, events), path)
    decreases |events|
  {
    if events != [] {
      EnteredStep(s, events[0], path);
      EnteredRun(Apply(s, events[0]), events[1..], path);
    }
  }

  /** A destination with both entries can be read, and again after a crash; what is read is
      one complete payload if its writers sync. */
  lemma {:induction false} EnteredReads(s: State, path: string)
    requires Sound(s) && Entered(s, path)
    ensures Read(s, path).Some? && Read(Apply(s, Crash), path).Some?
  {
    assert Complete(s, path, s.dir[Dest(path)]) && Complete(s, path, s.disk[Dest(path)]);
  }

  lemma {:induction false} OriginStep(s: State, e: Event)
    ensures Apply(s, e).origin == s.origin
  {
  }

  lemma {:induction false} OriginRun(s: State, events: seq<Event>)
    ensures Run(s, events).origin == s.origin
    decreases |events|
  {
    if events != [] {
      OriginStep(s, events[0]);
      OriginRun(Apply(s, events[0]), events[1..]);
    }
  }

  lemma {:induction false} SoundRead(s: State, path: string)
    requires Sound(s) && AllFsync(s, path)
    ensures Read(s, path).Some? ==> Offered(s, path, Read(s, path).value)
    ensures Read(Apply(s, Crash), path).Some? ==> Offered(s, path, Read(Apply(s, Crash), path).value)
  {
    if Read(s, path).Some? { CompleteIsOffered(s, path, s.dir[Dest(path)]); }
    if Read(Apply(s, Crash), path).Some? { CompleteIsOffered(s, path, s.disk[Dest(path)]); }
  }

  /** Crash atomicity: after any run, and also if the machine crashes right then, a
      destination written by text and byte writers holds its original content or one complete
      payload; one that existed at the start is still there. */
  lemma {:induction false} CrashAtomicity(s: State, events: seq<Event>, path: string)
    requires Initial(s) && AllFsync(Run(s, events), path)
    ensures var t := Run(s, events);
            && (Read(t, path).Some? ==> Offered(t, path, Read(t, path).value))
            && (Read(Apply(t, Crash), path).Some? ==> Offered(t, path, Read(Apply(t, Crash), path).value))
            && (path in s.origin ==> Read(t, path).Some? && Read(Apply(t, Crash), path).Some?)
  {
    assert forall j | j in s.inodes :: PrefixAt(s, j);
    SoundRun(s, events);
    SoundRead(Run(s, events), path);
    if path in s.origin {
      EnteredRun(s, events, path);
      EnteredReads(Run(s, events), path);
    }
  }

  /** The same for a destination from the moment a renamed write has been synced. */
  lemma {:induction false} SyncedStaysThere(s: State, i: nat, events: seq<Event>)
    requires Sound(s) && i < |s.writers| && s.writers[i].phase.Renamed? && Dest(s.writers[i].path) in s.dir
    ensures var path, t := s.writers[i].path, Run(Apply(s, FsyncDir(i, true)), events);
            && Read(t, path).Some? && Read(Apply(t, Crash), path).Some?
            && (AllFsync(t, path) ==>
                  Offered(t, path, Read(t, path).value) && Offered(t, path, Read(Apply(t, Crash), path).value))
  {
    var synced := Apply(s, FsyncDir(i, true));
    var path, t := s.writers[i].path, Run(synced, events);
    SoundStep(s, FsyncDir(i, true));
    SoundRun(synced, events);
    EnteredRun(synced, events, path);
    EnteredReads(t, path);
    if AllFsync(t, path) { SoundRead(t, path); }
  }

  /** Without a crash no reader ever sees a partial file, npy and npz writers included. */
  lemma {:induction false} NeverHalfVisible(s: State, events: seq<Event>, path: string)
    requires Initial(s) && Run(s, events).crashes == 0
    ensures var t := Run(s, events); Read(t, path).Some? ==> Offered(t, path, Read(t, path).value)
  {
    assert forall j | j in s.inodes :: PrefixAt(s, j);
    SoundRun(s, events);
    var t := Run(s, events);
    if Read(t, path).Some? { CompleteIsOffered(t, path, t.dir[Dest(path)]); }
  }

  // -------------------------------------------------------------------------
  // Durability after a return
  // -------------------------------------------------------------------------

  /** Nobody renames onto `path` during the run. */
  ghost predicate Unrenamed(s: State, events: seq<Event>, path: string)
    decreases |events|
  {
    events != [] ==>
      && !(events[0].Rename? && events[0].writer < |s.writers| && s.writers[events[0].writer].path == path)
      && Unrenamed(Apply(s, events[0]), events[1..], path)
  }

  lemma {:induction false} EntryStaysStep(s: State, e: Event, path: string, j: nat)
    requires !(e.Rename? && e.writer < |s.writers| && s.writers[e.writer].path == path)
    requires Dest(path) in s.dir && Dest(path) in s.disk && s.dir[Dest(path)] == s.disk[Dest(path)] == j
    ensures var t := Apply(s, e);
            Dest(path) in t.dir && Dest(path) in t.disk && t.dir[Dest(path)] == t.disk[Dest(path)] == j
  {
  }

  lemma {:induction false} EntryStays(s: State, events: seq<Event>, path: string, j: nat)
    requires Unrenamed(s, events, path)
    requires Dest(path) in s.dir && Dest(path) in s.disk && s.dir[Dest(path)] == s.disk[Dest(path)] == j
    ensures var t := Run(s, events);
            Dest(path) in t.dir && Dest(path) in t.disk && t.dir[Dest(path)] == t.disk[Dest(path)] == j
    decreases |events|
  {
    if events != [] {
      EntryStaysStep(s, events[0], path, j);
      EntryStays(Apply(s, events[0]), events[1..], path, j);
    }
  }

  lemma {:induction false} OwnerStays(s: State, e: Event, j: nat)
    requires j in s.inodes
    ensures j in Apply(s, e).inodes && Apply(s, e).inodes[j].owner == s.inodes[j].owner
  {
  }

  lemma {:induction false} CompleteRun(s: State, events: seq<Event>, path: string, j: nat)
    requires Sound(s) && Complete(s, path, j)
    ensures Complete(Run(s, events), path, j)
    ensures Run(s, events).inodes[j].owner == s.inodes[j].owner
    decreases |events|
  {
    if events != [] {
      assert ActorOwns(s, events[0]);
      CompleteStep(s, events[0], path, j);
      OwnerStays(s, events[0], j);
      SoundStep(s, events[0]);
      CompleteRun(Apply(s, events[0]), events[1..], path, j);
    }
  }

  lemma {:induction false} WriterKept(s: State, events: seq<Event>, i: nat)
    requires i < |s.writers|
    ensures var t := Run(s, events);
            i < |t.writers| && t.writers[i] == s.writers[i].(phase := t.writers[i].phase)
    decreases |events|
  {
    if events != [] {
      WriterStays(s, events[0], i);
      WriterKept(Apply(s, events[0]), events[1..], i);
    }
  }

  lemma {:induction false} WriterStays(s: State, e: Event, i: nat)
    requires i < |s.writers|
    ensures var t := Apply(s, e);
            i < |t.writers| && t.writers[i] == s.writers[i].(phase := t.writers[i].phase)
  {
  }

  /** While a writer is past its rename and before its directory sync, its file is under
      the destination unless somebody else renamed onto it. */
  predicate RenamedHere(s: State, i: nat, path: string, j: nat) {
    && i < |s.writers| && PastRename(s.writers[i])
    && (s.writers[i].phase.Renamed? ==> Dest(path) in s.dir && s.dir[Dest(path)] == j)
  }

  lemma {:induction false} RenamedHereStep(s: State, e: Event, i: nat, path: string, j: nat)
    requires RenamedHere(s, i, path, j)
    requires !(e.Rename? && e.writer < |s.writers| && s.writers[e.writer].path == path)
    ensures RenamedHere(Apply(s, e), i, path, j)
  {
  }

  lemma {:induction false} RenamedHereRun(s: State, events: seq<Event>, i: nat, path: string, j: nat)
    requires RenamedHere(s, i, path, j) && Unrenamed(s, events, path)
    ensures RenamedHere(Run(s, events), i, path, j)
    decreases |events|
  {
    if events != [] {
      RenamedHereStep(s, events[0], i, path, j);
      RenamedHereRun(Apply(s, events[0]), events[1..], i, path, j);
    }
  }

  /** A text or byte writer that renamed, and after any events of others synced the
      directory, survives every later run and crash until somebody renames onto the path. */
  lemma {:induction false} DurableAfterReturn(s: State, i: nat, between: seq<Event>, events: seq<Event>)
    requires Sound(s) && i < |s.writers| && s.writers[i].fsyncs && s.writers[i].phase.Synced?
    requires Unrenamed(Apply(s, Rename(i)), between, s.writers[i].path)
    requires var u := Run(Apply(s, Rename(i)), between);
             && i < |u.writers| && u.writers[i].phase.Renamed?
             && Unrenamed(Apply(u, FsyncDir(i, true)), events, s.writers[i].path)
    ensures var t := Run(Apply(Run(Apply(s, Rename(i)), between), FsyncDir(i, true)), events);
            && Read(t, s.writers[i].path) == Some(s.writers[i].payload)
            && Read(Apply(t, Crash), s.writers[i].path) == Some(s.writers[i].payload)
  {
    assert OwnsInode(s, i);
    var path, j := s.writers[i].path, s.writers[i].phase.inode;
    var r := Apply(s, Rename(i));
    SoundStep(s, Rename(i));
    RenamedHereRun(r, between, i, path, j);
    CompleteRun(r, between, path, j);
    SoundRun(r, between);
    WriterKept(r, between, i);
    SyncedSurvives(Run(r, between), i, j, events);
  }

  lemma {:induction false} SyncedSurvives(u: State, i: nat, j: nat, events: seq<Event>)
    requires Sound(u) && i < |u.writers| && u.writers[i].fsyncs && u.writers[i].phase.Renamed?
    requires RenamedHere(u, i, u.writers[i].path, j) && j in u.inodes && u.inodes[j].owner == Some(i)
    requires Unrenamed(Apply(u, FsyncDir(i, true)), events, u.writers[i].path)
    ensures var t := Run(Apply(u, FsyncDir(i, true)), events);
            && Read(t, u.writers[i].path) == Some(u.writers[i].payload)
            && Read(Apply(t, Crash), u.writers[i].path) == Some(u.writers[i].payload)
  {
    var path, v := u.writers[i].path, Apply(u, FsyncDir(i, true));
    SoundStep(u, FsyncDir(i, true));
    EntryStays(v, events, path, j);
    CompleteRun(v, events, path, j);
    WriterKept(v, events, i);
  }

  function WrittenUnsynced(s: State, path: string, payload: Bytes, j: nat): State {
    Apply(Apply(Apply(Apply(s, Call(path, payload, false)), Open(0, j)), Write(0, |payload|)), Fsync(0))
  }

  lemma {:induction false} NothingWrittenBack(s: State, path: string, payload: Bytes, j: nat)
    requires s.writers == [] && j !in s.inodes
    ensures var t := WrittenUnsynced(s, path, payload, j);
            && t.writers == [Writer(path, payload, false, Synced(j))]
            && j in t.inodes && t.inodes[j] == Inode(payload, [], Some(0))
  {
    var s1 := Apply(s, Call(path, payload, false));
    assert s1.writers == [Writer(path, payload, false, New)];
    var s2 := Apply(s1, Open(0, j));
    assert s2.writers == [Writer(path, payload, false, Writing(j, 0))] && s2.inodes[j] == Inode([], [], Some(0));
    var s3 := Apply(s2, Write(0, |payload|));
    assert payload[..|payload|] == payload;
    assert s3.writers == [Writer(path, payload, false, Writing(j, |payload|))];
  }

  /** The npy and npz writers skip the fsync: nothing need be written back when they
      return, and a crash then leaves an empty file under the final name. */
  lemma {:induction false} UnsyncedWriteLost(s: State, path: string, payload: Bytes, j: nat)
    requires s.writers == [] && j !in s.inodes
    ensures var u := WrittenUnsynced(s, path, payload, j);
            var t := Apply(Apply(Apply(u, Rename(0)), FsyncDir(0, true)), CleanUp(0, true));
            Read(t, path) == Some(payload) && Read(Apply(t, Crash), path) == Some([])
  {
    NothingWrittenBack(s, path, payload, j);
    RenamedUnsynced(WrittenUnsynced(s, path, payload, j), path, payload, j);
  }

  lemma {:induction false} RenamedUnsynced(s: State, path: string, payload: Bytes, j: nat)
    requires s.writers == [Writer(path, payload, false, Synced(j))]
    requires j in s.inodes && s.inodes[j] == Inode(payload, [], Some(0))
    ensures var t := Apply(Apply(Apply(s, Rename(0)), FsyncDir(0, true)), CleanUp(0, true));
            Read(t, path) == Some(payload) && Read(Apply(t, Crash), path) == Some([])
  {
    var s1 := Apply(s, Rename(0));
    assert s1.dir[Dest(path)] == j && s1.inodes == s.inodes && |s1.writers| == 1 && s1.writers[0].phase == Renamed;
    var s2 := Apply(s1, FsyncDir(0, true));
    assert s2.dir == s2.disk == s1.dir && s2.inodes == s.inodes;
  }

  // -------------------------------------------------------------------------
  // Writes that fail, and what they leave
  // -------------------------------------------------------------------------

  /** A writer gets past its rename only by renaming its synced file, and stays past it. */
  lemma {:induction false} RenamedExactly(s: State, e: Event, i: nat)
    requires i < |s.writers|
    ensures i < |Apply(s, e).writers|
    ensures PastRename(Apply(s, e).writers[i]) <==>
              PastRename(s.writers[i]) || (e == Rename(i) && s.writers[i].phase.Synced?)
  {
    if ActsOn(e, i) { RenamedByOwn(s, e, i); } else { RenamedByOther(s, e, i); }
  }

  /** The call of a writer. */
  predicate ActsOn(e: Event, i: nat) {
    (e.Open? || e.Write? || e.Fsync? || e.Rename? || e.FsyncDir? || e.Fail? || e.CleanUp?) && e.writer == i
  }

  lemma {:induction false} RenamedByOwn(s: State, e: Event, i: nat)
    requires i < |s.writers| && ActsOn(e, i)
    ensures i < |Apply(s, e).writers|
    ensures PastRename(Apply(s, e).writers[i]) <==>
              PastRename(s.writers[i]) || (e == Rename(i) && s.writers[i].phase.Synced?)
  {
  }

  lemma {:induction false} RenamedByOther(s: State, e: Event, i: nat)
    requires i < |s.writers| && !ActsOn(e, i)
    ensures i < |Apply(s, e).writers| && PastRename(Apply(s, e).writers[i]) == PastRename(s.writers[i])
  {
    if e != Crash { OtherStays(s, e, i); }
  }

  lemma {:induction false} OtherStays(s: State, e: Event, i: nat)
    requires i < |s.writers| && !ActsOn(e, i) && e != Crash
    ensures i < |Apply(s, e).writers| && Apply(s, e).writers[i] == s.writers[i]
  {
  }

  predicate GivenUp(w: Writer) {
    (w.phase.Cleaning? || w.phase.Ended?) && !w.phase.renamed
  }

  lemma {:induction false} GivenUpStep(s: State, e: Event, i: nat)
    requires i < |s.writers| && GivenUp(s.writers[i])
    ensures GivenUp(Apply(s, e).writers[i])
  {
  }

  lemma {:induction false} GivenUpRun(s: State, events: seq<Event>, i: nat)
    requires i < |s.writers| && GivenUp(s.writers[i])
    ensures i < |Run(s, events).writers| && GivenUp(Run(s, events).writers[i])
    decreases |events|
  {
    if events != [] {
      GivenUpStep(s, events[0], i);
      WriterStays(s, events[0], i);
      GivenUpRun(Apply(s, events[0]), events[1..], i);
    }
  }

  /** A write that fails before its rename never becomes visible, whatever follows. */
  lemma {:induction false} FailedNeverRenames(s: State, i: nat, events: seq<Event>)
    requires i < |s.writers| && (s.writers[i].phase.New? || s.writers[i].phase.Writing? || s.writers[i].phase.Synced?)
    ensures var t := Run(Apply(s, Fail(i)), events); i < |t.writers| && !PastRename(t.writers[i])
  {
    GivenUpRun(Apply(s, Fail(i)), events, i);
  }

  /** Until somebody renames onto a path, and but for a crash, its readers see what they saw. */
  lemma {:induction false} ReadStep(s: State, e: Event, path: string)
    requires Sound(s) && e != Crash
    requires !(e.Rename? && e.writer < |s.writers| && s.writers[e.writer].path == path)
    ensures Read(Apply(s, e), path) == Read(s, path)
  {
    if Dest(path) in s.dir { assert Complete(s, path, s.dir[Dest(path)]); }
    assert ActorOwns(s, e);
  }

  lemma {:induction false} ReadStays(s: State, events: seq<Event>, path: string)
    requires Sound(s) && Unrenamed(s, events, path) && Crash !in events
    ensures Read(Run(s, events), path) == Read(s, path)
    decreases |events|
  {
    if events != [] {
      ReadStep(s, events[0], path);
      SoundStep(s, events[0]);
      ReadStays(Apply(s, events[0]), events[1..], path);
    }
  }

  /** The file a writer is at work on is in the directory under its temporary name; once it
      has been renamed or cleaned up that name is gone. */
  predicate TempFits(s: State, i: nat)
    requires i < |s.writers|
  {
    match s.writers[i].phase
    case New => Temp(i) !in s.dir
    case Writing(j, _) => Temp(i) in s.dir && s.dir[Temp(i)] == j
    case Synced(j) => Temp(i) in s.dir && s.dir[Temp(i)] == j
    case Renamed => Temp(i) !in s.dir
    case Cleaning(renamed) => renamed ==> Temp(i) !in s.dir
    case Ended(_) => true
  }

  ghost predicate TempsFit(s: State) {
    && (forall i | 0 <= i < |s.writers| :: TempFits(s, i))
    && (forall i: nat | i >= |s.writers| :: Temp(i) !in s.dir && Temp(i) !in s.disk)
  }

  lemma {:induction false} TempStep(s: State, e: Event, i: nat)
    requires i < |s.writers| && TempFits(s, i)
    ensures TempFits(Apply(s, e), i)
  {
  }

  lemma {:induction false} NewTempStep(s: State, e: Event, i: nat)
    requires i >= |Apply(s, e).writers| && Temp(i) !in s.dir && Temp(i) !in s.disk
    ensures Temp(i) !in Apply(s, e).dir && Temp(i) !in Apply(s, e).disk
  {
  }

  lemma {:induction false} WritersGrow(s: State, e: Event)
    ensures |Apply(s, e).writers| == |s.writers| + if e.Call? then 1 else 0
    ensures e.Call? ==> Apply(s, e).dir == s.dir && Apply(s, e).writers[|s.writers|].phase.New?
  {
  }

  lemma {:induction false} TempsFitRun(s: State, events: seq<Event>)
    requires TempsFit(s)
    ensures TempsFit(Run(s, events))
    decreases |events|
  {
    if events != [] {
      var e, t := events[0], Apply(s, events[0]);
      WritersGrow(s, e);
      forall i | 0 <= i < |t.writers| ensures TempFits(t, i) {
        if i < |s.writers| { TempStep(s, e, i); }
      }
      forall i: nat | i >= |t.writers| ensures Temp(i) !in t.dir && Temp(i) !in t.disk { NewTempStep(s, e, i); }
      TempsFitRun(t, events[1..]);
    }
  }

  /** No temporary file of a finished write stays behind: over every run from start-up, once
      its clean-up has unlinked, and until a crash, the name is not in the directory. */
  lemma {:induction false} NoLeftovers(s: State, events: seq<Event>, i: nat, later: seq<Event>)
    requires Initial(s)
    requires var t := Run(s, events); i < |t.writers| && t.writers[i].phase.Cleaning?
    requires Crash !in later
    ensures Temp(i) !in Run(Apply(Run(s, events), CleanUp(i, true)), later).dir
    ensures var t := Run(s, events);
            t.writers[i].phase.renamed ==> Temp(i) !in t.dir
  {
    TempsFitRun(s, events);
    var t := Run(s, events);
    assert TempFits(t, i);
    GoneRun(Apply(t, CleanUp(i, true)), later, i);
  }

  lemma {:induction false} GoneStep(s: State, e: Event, i: nat)
    requires i < |s.writers| && s.writers[i].phase.Ended? && Temp(i) !in s.dir && e != Crash
    ensures var t := Apply(s, e); i < |t.writers| && t.writers[i].phase.Ended? && Temp(i) !in t.dir
  {
  }

  lemma {:induction false} GoneRun(s: State, events: seq<Event>, i: nat)
    requires i < |s.writers| && s.writers[i].phase.Ended? && Temp(i) !in s.dir && Crash !in events
    ensures Temp(i) !in Run(s, events).dir
    decreases |events|
  {
    if events != [] {
      GoneStep(s, events[0], i);
      GoneRun(Apply(s, events[0]), events[1..], i);
    }
  }

  /** A directory sync that fails makes nothing durable; one that succeeds makes the whole
      directory so. The writer goes on to its clean-up either way. */
  lemma {:induction false} FsyncDirExactly(s: State, i: nat, ok: bool)
    requires i < |s.writers| && s.writers[i].phase.Renamed?
    ensures var t := Apply(s, FsyncDir(i, ok));
            t.disk == (if ok then s.dir else s.disk) && t.dir == s.dir && t.inodes == s.inodes
            && t.writers[i].phase == Cleaning(true)
  {
  }

  /** The kernel may write anything back early: an unsynced write it happened to write back
      survives a crash with no call of the writer after the rename. */
  lemma {:induction false} UnsyncedMaySurvive(s: State, path: string, payload: Bytes, j: nat)
    requires s.writers == [] && j !in s.inodes
    ensures var u := Apply(WrittenUnsynced(s, path, payload, j), FlushInode(j, |payload|));
            Read(Apply(Apply(Apply(u, Rename(0)), FlushEntry(Dest(path))), Crash), path) == Some(payload)
  {
    NothingWrittenBack(s, path, payload, j);
    var u := Apply(WrittenUnsynced(s, path, payload, j), FlushInode(j, |payload|));
    assert payload[..|payload|] == payload;
    assert u.inodes[j] == Inode(payload, payload, Some(0)) && u.writers == [Writer(path, payload, false, Synced(j))];
    WrittenBackSurvives(u, path, payload, j);
  }

  lemma {:induction false} WrittenBackSurvives(u: State, path: string, payload: Bytes, j: nat)
    requires |u.writers| == 1 && u.writers[0].path == path && u.writers[0].phase == Synced(j)
    requires j in u.inodes && u.inodes[j].durable == payload
    ensures Read(Apply(Apply(Apply(u, Rename(0)), FlushEntry(Dest(path))), Crash), path) == Some(payload)
  {
    var v := Apply(u, Rename(0));
    assert Dest(path) in v.dir && v.dir[Dest(path)] == j && v.inodes == u.inodes;
    var x := Apply(v, FlushEntry(Dest(path)));
    assert Dest(path) in x.disk && x.disk[Dest(path)] == j && x.inodes == u.inodes;
  }

  // -------------------------------------------------------------------------
  // The fsync decides
  // -------------------------------------------------------------------------

  ghost predicate AllWrite(s: State, path: string, fsyncs: bool) {
    forall i | 0 <= i < |s.writers| && s.writers[i].path == path :: s.writers[i].fsyncs == fsyncs
  }

  /** Now and after a crash: the original content, one complete payload, or nothing where
      there was nothing. */
  ghost predicate Atomic(s: State, path: string) {
    && (Read(s, path).Some? ==> Offered(s, path, Read(s, path).value))
    && (Read(Apply(s, Crash), path).Some? ==> Offered(s, path, Read(Apply(s, Crash), path).value))
    && (path in s.origin ==> Read(s, path).Some? && Read(Apply(s, Crash), path).Some?)
  }

  /** Crash atomicity of one kind of writer, over all runs from all file systems. */
  ghost predicate AlwaysAtomic(fsyncs: bool) {
    forall s, events, path | Initial(s) && AllWrite(Run(s, events), path, fsyncs) :: Atomic(Run(s, events), path)
  }

  /** Writers are crash atomic if and only if they call fsync before the rename. */
  lemma {:induction false} AtomicExactly(fsyncs: bool)
    ensures AlwaysAtomic(fsyncs) <==> fsyncs
  {
    if fsyncs {
      forall s, events, path | Initial(s) && AllWrite(Run(s, events), path, true)
        ensures Atomic(Run(s, events), path)
      {
        CrashAtomicity(s, events, path);
        OriginRun(s, events);
      }
    } else {
      var s, path := State(map[], map[], map[], [], map[], 0), "volume.npz";
      var calls := [Call(path, [0], false), Open(0, 0), Write(0, 1), Fsync(0)];
      var events := calls + [Rename(0), FsyncDir(0, true), CleanUp(0, true)];
      LostRun(s, path, [0], 0);
      assert !Atomic(Run(s, events), path);
    }
  }

  lemma {:induction false} RunSplit(s: State, first: seq<Event>, rest: seq<Event>)
    ensures Run(s, first + rest) == Run(Run(s, first), rest)
    decreases |first|
  {
    if first == [] {
      assert first + rest == rest;
    } else {
      assert (first + rest)[1..] == first[1..] + rest;
      RunSplit(Apply(s, first[0]), first[1..], rest);
    }
  }

  lemma {:induction false} Run1(s: State, a: Event)
    ensures Run(s, [a]) == Apply(s, a)
  {
    assert Run(s, [a]) == Run(Apply(s, a), [][..]);
  }

  lemma {:induction false} Run3(s: State, a: Event, b: Event, c: Event)
    ensures Run(s, [a, b, c]) == Apply(Apply(Apply(s, a), b), c)
  {
    Run1(s, a);
    RunSplit(s, [a], [b, c]);
    RunSplit(Apply(s, a), [b], [c]);
    Run1(Apply(s, a), b);
    Run1(Apply(Apply(s, a), b), c);
    assert [a, b, c] == [a] + [b, c] && [b, c] == [b] + [c];
  }

  /** The write that returned and left an empty file offers no such content. */
  lemma {:induction false} LostRun(s: State, path: string, payload: Bytes, j: nat)
    requires s.writers == [] && j !in s.inodes && path !in s.origin && payload != []
    ensures var calls := [Call(path, payload, false), Open(0, j), Write(0, |payload|), Fsync(0)];
            var t := Run(s, calls + [Rename(0), FsyncDir(0, true), CleanUp(0, true)]);
            AllWrite(t, path, false) && !Atomic(t, path)
  {
    var calls := [Call(path, payload, false), Open(0, j), Write(0, |payload|), Fsync(0)];
    var ending := [Rename(0), FsyncDir(0, true), CleanUp(0, true)];
    LostCalls(s, path, payload, j);
    RunSplit(s, calls, ending);
    Run3(WrittenUnsynced(s, path, payload, j), Rename(0), FsyncDir(0, true), CleanUp(0, true));
    OriginRun(s, calls + ending);
    UnsyncedWriteLost(s, path, payload, j);
    NothingWrittenBack(s, path, payload, j);
    OnlyWriter(WrittenUnsynced(s, path, payload, j), path, payload, ending);
    NotOffered(Run(s, calls + ending), path, payload);
  }

  lemma {:induction false} LostCalls(s: State, path: string, payload: Bytes, j: nat)
    ensures Run(s, [Call(path, payload, false), Open(0, j), Write(0, |payload|), Fsync(0)])
         == WrittenUnsynced(s, path, payload, j)
  {
    var call, rest := Call(path, payload, false), [Open(0, j), Write(0, |payload|), Fsync(0)];
    assert [call, Open(0, j), Write(0, |payload|), Fsync(0)] == [call] + rest;
    RunSplit(s, [call], rest);
    Run1(s, call);
    Run3(Apply(s, call), Open(0, j), Write(0, |payload|), Fsync(0));
  }

  lemma {:induction false} OnlyWriter(s: State, path: string, payload: Bytes, events: seq<Event>)
    requires |s.writers| == 1 && s.writers[0].path == path && s.writers[0].payload == payload && !s.writers[0].fsyncs
    requires forall e | e in events :: !e.Call?
    ensures var t := Run(s, events);
            |t.writers| == 1 && t.writers[0].path == path && t.writers[0].payload == payload && !t.writers[0].fsyncs
    decreases |events|
  {
    if events != [] {
      OneWriter(s, events[0]);
      OnlyWriter(Apply(s, events[0]), path, payload, events[1..]);
    }
  }

  lemma {:induction false} NotOffered(t: State, path: string, payload: Bytes)
    requires |t.writers| == 1 && t.writers[0].path == path && t.writers[0].payload == payload && !t.writers[0].fsyncs
    requires path !in t.origin && payload != [] && Read(Apply(t, Crash), path) == Some([])
    ensures AllWrite(t, path, false) && !Atomic(t, path)
  {
  }

  lemma {:induction false} OneWriter(s: State, e: Event)
    requires |s.writers| == 1 && !e.Call?
    ensures var t := Apply(s, e);
            |t.writers| == 1 && t.writers[0] == s.writers[0].(phase := t.writers[0].phase)
  {
  }
}
