/**
 The login throttle: per-name failure buckets with a sliding window, lockouts, and the
 registration guard that shares the same dictionary under an '@'-prefixed key.
 Names are lower-cased already; those of a run are stripped ones, as the service makes
 them.  Clock readings are exact reals.
*/
module LoginThrottle {
  import opened Strings

  datatype Limits = Limits(maxAttempts: int, window: real, lockout: real)

  datatype Throttle = Throttle(failures: map<string, seq<real>>, lockouts: map<string, real>)

  const EMPTY := Throttle(map[], map[])

  /** The entries younger than `window` at `now`, in order. */
  function Recent(times: seq<real>, now: real, window: real): (r: seq<real>)
    ensures |r| <= |times|
  {
    if times == [] then []
    else (if now - times[0] < window then [times[0]] else []) + Recent(times[1..], now, window)
  }

  function Bucket(t: Throttle, key: string): seq<real> {
    if key in t.failures then t.failures[key] else []
  }

  /** `_throttle_login` raises exactly when this holds. */
  predicate LockedOut(t: Throttle, name: string, now: real) {
    (if name in t.lockouts then t.lockouts[name] else 0.0) > now
  }

  function RecordFailure(c: Limits, t: Throttle, name: string, now: real): Throttle {
    var bucket := Recent(Bucket(t, name), now, c.window) + [now];
    if |bucket| >= c.maxAttempts
    then Throttle(t.failures - {name}, t.lockouts[name := now + c.lockout])
    else Throttle(t.failures[name := bucket], t.lockouts)
  }

  function Clear(t: Throttle, name: string): Throttle {
    Throttle(t.failures - {name}, t.lockouts - {name})
  }

  const REGISTER_WINDOW := 60.0
  const REGISTER_LIMIT := 10

  /** `_throttle_register` raises exactly when this holds. */
  predicate Full(t: Throttle, name: string, now: real) {
    |Recent(Bucket(t, "@" + name), now, REGISTER_WINDOW)| >= REGISTER_LIMIT
  }

  /** `_throttle_register`; a full bucket leaves the dictionary alone. */
  function GuardRegistration(t: Throttle, name: string, now: real): Throttle {
    if Full(t, name, now) then t
    else
      var seen := Recent(Bucket(t, "@" + name), now, REGISTER_WINDOW);
      Throttle(t.failures["@" + name := seen + [now]], t.lockouts)
  }

  // -------------------------------------------------------------------------
  // Runs of atomic attempts
  // -------------------------------------------------------------------------

  /** `good`: the password is right and the account is active. */
  datatype Event =
    | Attempt(name: string, good: bool, at: real)
    | Registration(name: string, at: real)

  datatype Entry = Failure(at: real) | Success(at: real)

  function Apply(c: Limits, t: Throttle, e: Event): Throttle {
    match e
    case Attempt(name, good, at) =>
      if LockedOut(t, name, at) then t
      else if good then Clear(t, name)
      else RecordFailure(c, t, name, at)
    case Registration(name, at) => GuardRegistration(t, name, at)
  }

  /** What the event adds to the history of `user`: refused attempts record nothing. */
  function Logged(t: Throttle, e: Event, user: string): seq<Entry> {
    if e.Attempt? && e.name == user && !LockedOut(t, user, e.at) then
      [if e.good then Success(e.at) else Failure(e.at)]
    else []
  }

  /** The history of `user` after a run that began with history `log`. */
  function History(c: Limits, t: Throttle, events: seq<Event>, user: string, log: seq<Entry>): seq<Entry>
    decreases |events|
  {
    if events == [] then log
    else History(c, Apply(c, t, events[0]), events[1..], user, log + Logged(t, events[0], user))
  }

  ghost predicate Chronological(events: seq<Event>) {
    && (forall i | 0 <= i < |events| :: events[i].at >= 0.0)
    && (forall i, j | 0 <= i <= j < |events| :: events[i].at <= events[j].at)
  }

  ghost predicate Normal(events: seq<Event>) {
    forall i | 0 <= i < |events| :: Stripped(events[i].name)
  }

  ghost predicate AllFailures(log: seq<Entry>, i: int, j: int)
    requires 0 <= i <= j < |log|
  {
    forall k | i <= k <= j :: log[k].Failure?
  }

  function Cap(c: Limits): int {
    if c.maxAttempts < 1 then 1 else c.maxAttempts
  }

  /** No stretch of failures shorter than the window, free of successes, exceeds the cap. */
  ghost predicate Bounded(c: Limits, log: seq<Entry>) {
    forall i, j | 0 <= i <= j < |log| && AllFailures(log, i, j) && log[j].at - log[i].at < c.window ::
      j - i + 1 <= Cap(c)
  }

  // -------------------------------------------------------------------------
  // The invariant that links the bucket to the history
  // -------------------------------------------------------------------------

  /** The bucket ends with at least `n` entries no older than `since`. */
  ghost predicate EndsWith(bucket: seq<real>, n: nat, since: real) {
    n <= |bucket| && forall k | |bucket| - n <= k < |bucket| :: bucket[k] >= since
  }

  /** The last failure locked the name out, or every stretch of failures up to it that is
      still inside the window is below the cap and in the bucket. */
  ghost predicate Tracks(c: Limits, t: Throttle, user: string, log: seq<Entry>, now: real)
    requires log != [] && log[|log| - 1].Failure?
  {
    var last := |log| - 1;
    || (user in t.lockouts && t.lockouts[user] == log[last].at + c.lockout)
    || forall i | 0 <= i <= last && AllFailures(log, i, last) && now - log[i].at < c.window ::
         last - i + 1 < c.maxAttempts && EndsWith(Bucket(t, user), last - i + 1, log[i].at)
  }

  ghost predicate Linked(c: Limits, t: Throttle, user: string, log: seq<Entry>, now: real) {
    && Bounded(c, log)
    && (forall i | 0 <= i < |log| :: log[i].at <= now)
    && (forall i, j | 0 <= i <= j < |log| :: log[i].at <= log[j].at)
    && (log != [] && log[|log| - 1].Failure? ==> Tracks(c, t, user, log, now))
  }

  lemma {:induction false} RecentKeeps(bucket: seq<real>, n: nat, since: real, now: real, window: real)
    requires EndsWith(bucket, n, since) && now - since < window
    ensures EndsWith(Recent(bucket, now, window), n, since)
  {
    if |bucket| > n {
      assert forall k | |bucket[1..]| - n <= k < |bucket[1..]| :: bucket[1..][k] == bucket[k + 1];
      RecentKeeps(bucket[1..], n, since, now, window);
    } else {
      RecentAll(bucket, now, window);
    }
  }

  lemma {:induction false} RecentAll(bucket: seq<real>, now: real, window: real)
    requires forall k | 0 <= k < |bucket| :: now - bucket[k] < window
    ensures Recent(bucket, now, window) == bucket
  {
    if bucket != [] {
      assert forall k | 0 <= k < |bucket[1..]| :: bucket[1..][k] == bucket[k + 1];
      RecentAll(bucket[1..], now, window);
    }
  }

  /** One more recorded failure keeps the link. */
  lemma {:induction false} FailureStep(c: Limits, t: Throttle, user: string, log: seq<Entry>, now: real)
    requires c.lockout >= c.window > 0.0 && Linked(c, t, user, log, now) && !LockedOut(t, user, now)
    ensures Linked(c, RecordFailure(c, t, user, now), user, log + [Failure(now)], now)
  {
    var log' := log + [Failure(now)];
    var last := |log|;
    var bucket := Recent(Bucket(t, user), now, c.window) + [now];
    forall i | 0 <= i <= last && AllFailures(log', i, last) && now - log'[i].at < c.window
      ensures EndsWith(bucket, last - i + 1, log'[i].at) && last - i + 1 <= Cap(c)
    {
      if i < last {
        assert log'[last - 1].Failure?;
        assert AllFailures(log, i, last - 1) by {
          forall k | i <= k <= last - 1 ensures log[k].Failure? { assert log'[k] == log[k]; }
        }
        assert !(user in t.lockouts && t.lockouts[user] == log[last - 1].at + c.lockout);
        assert EndsWith(Bucket(t, user), last - i, log[i].at);
        RecentKeeps(Bucket(t, user), last - i, log[i].at, now, c.window);
      }
    }
    forall i, j | 0 <= i <= j < |log'| && AllFailures(log', i, j) && log'[j].at - log'[i].at < c.window
      ensures j - i + 1 <= Cap(c)
    {
      if j < last {
        assert AllFailures(log, i, j) by {
          forall k | i <= k <= j ensures log[k].Failure? { assert log'[k] == log[k]; }
        }
      }
    }
  }

  /** Registrations write under '@' followed by a stripped name, so they cannot reach this
      one. */
  predicate Plain(user: string) {
    user == "" || user[0] != '@' || !Stripped(user[1..])
  }

  lemma {:induction false} SuccessStep(c: Limits, t: Throttle, user: string, log: seq<Entry>, now: real)
    requires Linked(c, t, user, log, now)
    ensures Linked(c, Clear(t, user), user, log + [Success(now)], now)
  {
    var log' := log + [Success(now)];
    forall i, j | 0 <= i <= j < |log'| && AllFailures(log', i, j) && log'[j].at - log'[i].at < c.window
      ensures j - i + 1 <= Cap(c)
    {
      assert log'[j].Failure?;
      assert AllFailures(log, i, j) by {
        forall k | i <= k <= j ensures log[k].Failure? { assert log'[k] == log[k]; }
      }
    }
  }

  /** What does not touch the user's bucket or lockout keeps the link. */
  lemma {:induction false} UntouchedStep(
      c: Limits, t: Throttle, t': Throttle, user: string, log: seq<Entry>, now: real, later: real)
    requires Linked(c, t, user, log, now) && now <= later
    requires Bucket(t', user) == Bucket(t, user)
    requires user in t.lockouts ==> user in t'.lockouts && t'.lockouts[user] == t.lockouts[user]
    ensures Linked(c, t', user, log, later)
  {
  }

  /** Whether the registration guard can drop no failure that still counts: the name has
      its own bucket, the guard's window is no shorter, or one failure is all that is ever
      pending. */
  predicate Undisturbed(c: Limits, user: string) {
    Plain(user) || c.window <= REGISTER_WINDOW || c.maxAttempts <= 2
  }

  lemma {:induction false} RegistrationStep(
      c: Limits, t: Throttle, user: string, log: seq<Entry>, now: real, name: string, at: real)
    requires c.window > 0.0 && Undisturbed(c, user) && Linked(c, t, user, log, now) && now <= at && Stripped(name)
    ensures Linked(c, GuardRegistration(t, name, at), user, log, at)
  {
    var t' := GuardRegistration(t, name, at);
    UntouchedStep(c, t, t, user, log, now, at);
    if "@" + name != user || t' == t {
      UntouchedStep(c, t, t', user, log, now, at);
    } else if log != [] && log[|log| - 1].Failure? {
      assert user[1..] == name && !Plain(user);
      var last := |log| - 1;
      if !(user in t.lockouts && t.lockouts[user] == log[last].at + c.lockout) {
        forall i | 0 <= i <= last && AllFailures(log, i, last) && at - log[i].at < c.window
          ensures last - i + 1 < c.maxAttempts && EndsWith(Bucket(t', user), last - i + 1, log[i].at)
        {
          if c.window <= REGISTER_WINDOW {
            RecentKeeps(Bucket(t, user), last - i + 1, log[i].at, at, REGISTER_WINDOW);
          }
        }
      }
    }
  }

  lemma {:induction false} EventStep(c: Limits, t: Throttle, user: string, log: seq<Entry>, now: real, e: Event)
    requires c.lockout >= c.window > 0.0 && Undisturbed(c, user) && Linked(c, t, user, log, now) && now <= e.at
    requires Stripped(e.name)
    ensures Linked(c, Apply(c, t, e), user, log + Logged(t, e, user), e.at)
  {
    UntouchedStep(c, t, t, user, log, now, e.at);
    if Logged(t, e, user) == [] {
      assert log + [] == log;
      if e.Registration? {
        RegistrationStep(c, t, user, log, now, e.name, e.at);
      } else {
        UntouchedStep(c, t, Apply(c, t, e), user, log, now, e.at);
      }
    } else if e.good {
      SuccessStep(c, t, user, log, e.at);
    } else {
      FailureStep(c, t, user, log, e.at);
    }
  }

  lemma {:induction false} ChronologicalTail(events: seq<Event>)
    requires Chronological(events) && Normal(events) && events != []
    ensures Chronological(events[1..]) && Normal(events[1..]) && (|events| > 1 ==> events[0].at <= events[1..][0].at)
  {
    assert forall i | 0 <= i < |events[1..]| :: events[1..][i] == events[i + 1];
  }

  lemma {:induction false} LinkedRun(
      c: Limits, t: Throttle, user: string, log: seq<Entry>, now: real, events: seq<Event>)
    requires c.lockout >= c.window > 0.0 && Undisturbed(c, user) && Linked(c, t, user, log, now)
    requires Chronological(events) && Normal(events) && (events != [] ==> now <= events[0].at)
    ensures Bounded(c, History(c, t, events, user, log))
    decreases |events|
  {
    if events != [] {
      EventStep(c, t, user, log, now, events[0]);
      ChronologicalTail(events);
      LinkedRun(c, Apply(c, t, events[0]), user, log + Logged(t, events[0], user), events[0].at, events[1..]);
    }
  }

  /** The lockout bound, over every chronological run from start-up. */
  lemma {:induction false} LockoutBound(c: Limits, user: string, events: seq<Event>)
    requires c.lockout >= c.window > 0.0 && Undisturbed(c, user) && Chronological(events) && Normal(events)
    ensures Bounded(c, History(c, EMPTY, events, user, []))
  {
    LinkedRun(c, EMPTY, user, [], 0.0, events);
  }

  // -------------------------------------------------------------------------
  // The lockout must be at least as long as the window
  // -------------------------------------------------------------------------

  function Burst(user: string, n: nat, tail: seq<Event>): seq<Event> {
    if n == 0 then tail else [Attempt(user, false, 0.0)] + Burst(user, n - 1, tail)
  }

  lemma {:induction false} BurstLocks(c: Limits, t: Throttle, user: string, n: nat, at: real, log: seq<Entry>)
    requires c.window > 0.0 && c.lockout <= at && at >= 0.0
    requires 1 <= n && |Bucket(t, user)| == |log| == Cap(c) - n && !LockedOut(t, user, 0.0)
    requires forall k | 0 <= k < |log| :: Bucket(t, user)[k] == 0.0 && log[k] == Failure(0.0)
    ensures var h := History(c, t, Burst(user, n, [Attempt(user, false, at)]), user, log);
            |h| == Cap(c) + 1 && h[Cap(c)] == Failure(at) && forall k | 0 <= k < Cap(c) :: h[k] == Failure(0.0)
    decreases n
  {
    var tail := [Attempt(user, false, at)];
    var t' := RecordFailure(c, t, user, 0.0);
    var log' := log + [Failure(0.0)];
    RecentAll(Bucket(t, user), 0.0, c.window);
    assert Burst(user, n, tail)[1..] == Burst(user, n - 1, tail);
    if n == 1 {
      assert t'.lockouts[user] == c.lockout;
      assert tail[1..] == [];
      assert History(c, t', tail, user, log') == log' + [Failure(at)];
    } else {
      BurstLocks(c, t', user, n - 1, at, log');
    }
  }

  lemma {:induction false} BurstTimes(user: string, n: nat, at: real)
    requires at >= 0.0 && Stripped(user)
    ensures var b := Burst(user, n, [Attempt(user, false, at)]);
            && |b| == n + 1 && Chronological(b) && Normal(b)
            && forall k | 0 <= k <= n :: b[k].at == if k < n then 0.0 else at
  {
    if n > 0 { BurstTimes(user, n - 1, at); }
  }

  ghost predicate AlwaysBounded(c: Limits, user: string) {
    forall events | Chronological(events) && Normal(events) :: Bounded(c, History(c, EMPTY, events, user, []))
  }

  lemma {:induction false} ShortLockoutBreaks(c: Limits, user: string)
    requires c.window > c.lockout && c.window > 0.0 && Stripped(user)
    ensures !AlwaysBounded(c, user)
  {
    var at := if c.lockout < 0.0 then 0.0 else c.lockout;
    var n := Cap(c);
    var events := Burst(user, n, [Attempt(user, false, at)]);
    BurstTimes(user, n, at);
    BurstLocks(c, EMPTY, user, n, at, []);
    var log := History(c, EMPTY, events, user, []);
    assert AllFailures(log, 0, n);
    assert !Bounded(c, log);
  }

  // -------------------------------------------------------------------------
  // Names that start with '@' share a bucket with the registration guard
  // -------------------------------------------------------------------------

  function With(user: string, bucket: seq<real>): Throttle {
    if bucket == [] then EMPTY else Throttle(map[user := bucket], map[])
  }

  function Copies<T>(n: nat, x: T): (r: seq<T>)
    ensures |r| == n && forall k | 0 <= k < n :: r[k] == x
  {
    seq(n, i => x)
  }

  lemma {:induction false} CopiesFront<T>(q: seq<T>, n: nat, x: T)
    requires n > 0
    ensures q + [x] + Copies(n - 1, x) == q + Copies(n, x)
  {
  }

  lemma {:induction false} FailOnce(c: Limits, user: string, b: seq<real>, at: real, rest: seq<Event>, log: seq<Entry>)
    requires c.window > 0.0 && |b| + 1 < c.maxAttempts && at >= 0.0 && forall k | 0 <= k < |b| :: b[k] == at
    ensures History(c, With(user, b), [Attempt(user, false, at)] + rest, user, log)
         == History(c, With(user, b + [at]), rest, user, log + [Failure(at)])
  {
    RecentAll(b, at, c.window);
    assert RecordFailure(c, With(user, b), user, at) == With(user, b + [at]);
    assert ([Attempt(user, false, at)] + rest)[1..] == rest;
  }

  /** `n` failures at one instant, from a bucket of that instant. */
  lemma {:induction false} FailTogether(
      c: Limits, user: string, n: nat, b: seq<real>, at: real, tail: seq<Event>, log: seq<Entry>)
    requires c.window > 0.0 && |b| + n < c.maxAttempts && at >= 0.0 && forall k | 0 <= k < |b| :: b[k] == at
    ensures History(c, With(user, b), Copies(n, Attempt(user, false, at)) + tail, user, log)
         == History(c, With(user, b + Copies(n, at)), tail, user, log + Copies(n, Failure(at)))
    decreases n
  {
    var again := Attempt(user, false, at);
    if n == 0 {
      assert Copies(n, again) + tail == tail && b + Copies(n, at) == b && log + Copies(n, Failure(at)) == log;
    } else {
      assert Copies(n, again) + tail == [again] + (Copies(n - 1, again) + tail);
      FailOnce(c, user, b, at, Copies(n - 1, again) + tail, log);
      FailTogether(c, user, n - 1, b + [at], at, tail, log + [Failure(at)]);
      CopiesFront(b, n, at);
      CopiesFront(log, n, Failure(at));
    }
  }

  lemma {:induction false} RecentNone(bucket: seq<real>, now: real, window: real)
    requires forall k | 0 <= k < |bucket| :: now - bucket[k] >= window
    ensures Recent(bucket, now, window) == []
  {
    if bucket != [] { RecentNone(bucket[1..], now, window); }
  }

  /** A registration 60 s later empties the bucket but for its own entry. */
  lemma {:induction false} RegistrationDrops(c: Limits, user: string, n: nat, rest: seq<Event>, log: seq<Entry>)
    requires !Plain(user)
    ensures History(c, With(user, Copies(n, 0.0)), [Registration(user[1..], 60.0)] + rest, user, log)
         == History(c, With(user, [60.0]), rest, user, log)
  {
    var t := With(user, Copies(n, 0.0));
    assert "@" + user[1..] == user;
    RecentNone(Bucket(t, user), 60.0, REGISTER_WINDOW);
    var none: seq<real> := [];
    assert none + [60.0] == [60.0];
    assert t.failures[user := [60.0]] == map[user := [60.0]];
    assert GuardRegistration(t, user[1..], 60.0) == With(user, [60.0]);
    assert ([Registration(user[1..], 60.0)] + rest)[1..] == rest;
    assert log + [] == log;
  }

  /** One failure below the cap, a registration, two more failures. */
  function SharedBucketRun(c: Limits, user: string): seq<Event>
    requires !Plain(user) && c.maxAttempts >= 3
  {
    Copies(c.maxAttempts - 1, Attempt(user, false, 0.0))
      + ([Registration(user[1..], 60.0)] + ([Attempt(user, false, 60.0)] + [Attempt(user, false, 60.0)]))
  }

  lemma {:induction false} SharedBucketHistory(c: Limits, user: string)
    requires !Plain(user) && c.maxAttempts >= 3 && c.window > 0.0
    ensures History(c, EMPTY, SharedBucketRun(c, user), user, [])
         == Copies(c.maxAttempts - 1, Failure(0.0)) + [Failure(60.0)] + [Failure(60.0)]
  {
    var n := c.maxAttempts - 1;
    var more := Attempt(user, false, 60.0);
    var log := [] + Copies(n, Failure(0.0));
    FailTogether(c, user, n, [], 0.0, [Registration(user[1..], 60.0)] + ([more] + [more]), []);
    assert [] + Copies(n, 0.0) == Copies(n, 0.0);
    RegistrationDrops(c, user, n, [more] + [more], log);
    FailOnce(c, user, [60.0], 60.0, [more], log);
    LastFailure(c, With(user, [60.0] + [60.0]), user, 60.0, log + [Failure(60.0)]);
    assert log == Copies(n, Failure(0.0));
  }

  lemma {:induction false} LastFailure(c: Limits, t: Throttle, user: string, at: real, log: seq<Entry>)
    requires !LockedOut(t, user, at)
    ensures History(c, t, [Attempt(user, false, at)], user, log) == log + [Failure(at)]
  {
    assert [Attempt(user, false, at)][1..] == [];
  }

  lemma {:induction false} SharedBucketBreaks(c: Limits, user: string)
    requires !Undisturbed(c, user) && Stripped(user)
    ensures !AlwaysBounded(c, user)
  {
    var run := SharedBucketRun(c, user);
    SharedBucketHistory(c, user);
    var log := History(c, EMPTY, run, user, []);
    TooMany(c, c.maxAttempts - 1);
    SharedRunChronological(c, user);
    assert Chronological(run) && Normal(run) && !Bounded(c, log);
  }

  lemma {:induction false} SharedRunChronological(c: Limits, user: string)
    requires !Plain(user) && c.maxAttempts >= 3 && Stripped(user)
    ensures Chronological(SharedBucketRun(c, user)) && Normal(SharedBucketRun(c, user))
  {
  }

  lemma {:induction false} TooMany(c: Limits, n: nat)
    requires c.window > 60.0 && n == c.maxAttempts - 1 >= 2
    ensures !Bounded(c, Copies(n, Failure(0.0)) + [Failure(60.0)] + [Failure(60.0)])
  {
    var log := Copies(n, Failure(0.0)) + [Failure(60.0)] + [Failure(60.0)];
    assert AllFailures(log, 0, n + 1);
  }

  /** The bound holds over all runs exactly when the lockout outlasts the window and the
      registration guard cannot drop failures that still count. */
  lemma {:induction false} LockoutBoundExactly(c: Limits, user: string)
    requires c.window > 0.0 && Stripped(user)
    ensures AlwaysBounded(c, user) <==> c.lockout >= c.window && Undisturbed(c, user)
  {
    if c.lockout < c.window {
      ShortLockoutBreaks(c, user);
    } else if !Undisturbed(c, user) {
      SharedBucketBreaks(c, user);
    } else {
      forall events | Chronological(events) && Normal(events) ensures Bounded(c, History(c, EMPTY, events, user, [])) {
        LockoutBound(c, user, events);
      }
    }
  }

  // -------------------------------------------------------------------------
  // Nobody is locked out without cause
  // -------------------------------------------------------------------------

  function After(c: Limits, t: Throttle, events: seq<Event>): Throttle
    decreases |events|
  {
    if events == [] then t else After(c, Apply(c, t, events[0]), events[1..])
  }

  /** The `Cap` entries before the `k`-th are failures inside one window, no success among
      them. */
  ghost predicate Earned(c: Limits, log: seq<Entry>, k: nat)
    requires Cap(c) <= k <= |log|
  {
    AllFailures(log, k - Cap(c), k - 1) && log[k - 1].at - log[k - Cap(c)].at < c.window
  }

  /** Such a stretch ended less than the lockout ago. */
  ghost predicate Justified(c: Limits, log: seq<Entry>, now: real) {
    exists k: nat :: Cap(c) <= k <= |log| && Earned(c, log, k) && now < log[k - 1].at + c.lockout
  }

  /** The bucket is the end of the history, all failures. */
  ghost predicate Tail(bucket: seq<real>, log: seq<Entry>) {
    |bucket| <= |log| && forall k | 0 <= k < |bucket| :: log[|log| - |bucket| + k] == Failure(bucket[k])
  }

  /** The lockout in force is a past one or was earned. */
  ghost predicate LockEarned(c: Limits, t: Throttle, user: string, log: seq<Entry>, past: real) {
    user in t.lockouts ==>
      || t.lockouts[user] <= past
      || exists k: nat :: Cap(c) <= k <= |log| && Earned(c, log, k) && t.lockouts[user] == log[k - 1].at + c.lockout
  }

  ghost predicate Honest(c: Limits, t: Throttle, user: string, log: seq<Entry>, now: real, past: real) {
    && (Plain(user) ==> Tail(Bucket(t, user), log))
    && (forall i | 0 <= i < |log| :: log[i].at <= now)
    && (forall i, j | 0 <= i <= j < |log| :: log[i].at <= log[j].at)
    && LockEarned(c, t, user, log, past)
  }

  ghost predicate Ordered(times: seq<real>) {
    forall i, j | 0 <= i <= j < |times| :: times[i] <= times[j]
  }

  /** What is recent among ordered times is their end. */
  lemma {:induction false} RecentIsEnd(times: seq<real>, now: real, window: real) returns (m: nat)
    requires Ordered(times)
    ensures m <= |times| && Recent(times, now, window) == times[m..]
    ensures forall k | 0 <= k < |times| :: now - times[k] < window <==> k >= m
  {
    if times == [] {
      m := 0;
    } else if now - times[0] < window {
      RecentAll(times, now, window);
      m := 0;
    } else {
      var rest := times[1..];
      m := RecentIsEnd(rest, now, window);
      forall k | 0 <= k < |times| ensures now - times[k] < window <==> k >= m + 1 {
        if k > 0 { assert times[k] == rest[k - 1]; }
      }
      assert rest[m..] == times[m + 1..];
      m := m + 1;
    }
  }

  lemma {:induction false} EarnedLater(c: Limits, log: seq<Entry>, more: seq<Entry>, k: nat)
    requires Cap(c) <= k <= |log| && Earned(c, log, k)
    ensures Earned(c, log + more, k)
  {
    forall i | k - Cap(c) <= i <= k - 1 ensures (log + more)[i].Failure? { assert log[i].Failure?; }
  }

  lemma {:induction false} LockStaysEarned(
      c: Limits, t: Throttle, t': Throttle, user: string, log: seq<Entry>, more: seq<Entry>, past: real)
    requires LockEarned(c, t, user, log, past)
    requires user in t'.lockouts ==> user in t.lockouts && t'.lockouts[user] == t.lockouts[user]
    ensures LockEarned(c, t', user, log + more, past)
  {
    if user in t'.lockouts && t.lockouts[user] > past {
      var k: nat :| Cap(c) <= k <= |log| && Earned(c, log, k) && t.lockouts[user] == log[k - 1].at + c.lockout;
      EarnedLater(c, log, more, k);
      assert (log + more)[k - 1] == log[k - 1];
    }
  }

  /** A failure that fills the bucket earns its lockout. */
  lemma {:induction false} FailureEarns(
      c: Limits, t: Throttle, user: string, log: seq<Entry>, now: real, past: real)
    requires c.window > 0.0 && Honest(c, t, user, log, now, past) && (Plain(user) || c.maxAttempts <= 1)
    requires |Recent(Bucket(t, user), now, c.window)| + 1 >= c.maxAttempts
    ensures Earned(c, log + [Failure(now)], |log| + 1) && Cap(c) <= |log| + 1
  {
    if Cap(c) > 1 { RecentTail(Bucket(t, user), log, now, c.window, c.maxAttempts); }
    var log' := log + [Failure(now)];
    forall i | |log| + 1 - Cap(c) <= i <= |log| ensures log'[i].Failure? { if i < |log| { assert log'[i] == log[i]; } }
  }

  /** So many recent entries of the bucket are as many recent failures at the end of the
      history. */
  lemma {:induction false} RecentTail(bucket: seq<real>, log: seq<Entry>, now: real, window: real, n: int)
    requires Tail(bucket, log) && |Recent(bucket, now, window)| + 1 >= n > 1
    requires forall i, j | 0 <= i <= j < |log| :: log[i].at <= log[j].at
    ensures n <= |log| + 1
    ensures forall i | |log| + 1 - n <= i < |log| :: log[i].Failure? && now - log[i].at < window
  {
    OrderedTail(bucket, log);
    var m := RecentIsEnd(bucket, now, window);
    var offset := |log| - |bucket|;
    forall i | |log| + 1 - n <= i < |log| ensures log[i].Failure? && now - log[i].at < window {
      assert log[offset + (i - offset)] == Failure(bucket[i - offset]);
      assert now - bucket[i - offset] < window;
    }
  }

  lemma {:induction false} OrderedTail(bucket: seq<real>, log: seq<Entry>)
    requires Tail(bucket, log) && forall i, j | 0 <= i <= j < |log| :: log[i].at <= log[j].at
    ensures Ordered(bucket)
  {
    var n := |log| - |bucket|;
    forall i, j | 0 <= i <= j < |bucket| ensures bucket[i] <= bucket[j] {
      assert log[n + i] == Failure(bucket[i]) && log[n + j] == Failure(bucket[j]);
    }
  }

  lemma {:induction false} TailGrows(bucket: seq<real>, log: seq<Entry>, now: real, window: real)
    requires Tail(bucket, log) && forall i, j | 0 <= i <= j < |log| :: log[i].at <= log[j].at
    ensures Tail(Recent(bucket, now, window) + [now], log + [Failure(now)])
  {
    OrderedTail(bucket, log);
    var m := RecentIsEnd(bucket, now, window);
    forall k | 0 <= k < |bucket| - m ensures log[|log| - (|bucket| - m) + k] == Failure(bucket[m..][k]) {
      assert bucket[m..][k] == bucket[m + k];
    }
  }

  lemma {:induction false} HonestFailure(c: Limits, t: Throttle, user: string, log: seq<Entry>, now: real, past: real)
    requires c.window > 0.0 && Honest(c, t, user, log, now, past) && (Plain(user) || c.maxAttempts <= 1)
    ensures Honest(c, RecordFailure(c, t, user, now), user, log + [Failure(now)], now, past)
  {
    var t' := RecordFailure(c, t, user, now);
    if |Recent(Bucket(t, user), now, c.window)| + 1 >= c.maxAttempts {
      FailureEarns(c, t, user, log, now, past);
      assert (log + [Failure(now)])[|log|].at + c.lockout == t'.lockouts[user];
    } else {
      LockStaysEarned(c, t, t', user, log, [Failure(now)], past);
      if Plain(user) { TailGrows(Bucket(t, user), log, now, c.window); }
    }
  }

  lemma {:induction false} HonestStep(
      c: Limits, t: Throttle, user: string, log: seq<Entry>, now: real, e: Event, past: real)
    requires c.window > 0.0 && Honest(c, t, user, log, now, past) && (Plain(user) || c.maxAttempts <= 1)
    requires now <= e.at && Stripped(e.name)
    ensures Honest(c, Apply(c, t, e), user, log + Logged(t, e, user), e.at, past)
  {
    if Logged(t, e, user) == [] {
      assert log + [] == log;
      if e.Registration? && Plain(user) { assert ("@" + e.name)[1..] == e.name; }
      LockStaysEarned(c, t, Apply(c, t, e), user, log, [], past);
    } else if e.good {
      LockStaysEarned(c, t, Clear(t, user), user, log, [Success(e.at)], past);
    } else {
      assert Honest(c, t, user, log, e.at, past);
      HonestFailure(c, t, user, log, e.at, past);
    }
  }

  lemma {:induction false} HonestRun(
      c: Limits, t: Throttle, user: string, log: seq<Entry>, now: real, events: seq<Event>, past: real)
    requires c.window > 0.0 && Honest(c, t, user, log, now, past) && (Plain(user) || c.maxAttempts <= 1)
    requires Chronological(events) && Normal(events) && (events != [] ==> now <= events[0].at)
    ensures LockEarned(c, After(c, t, events), user, History(c, t, events, user, log), past)
    decreases |events|
  {
    if events != [] {
      HonestStep(c, t, user, log, now, events[0], past);
      ChronologicalTail(events);
      HonestRun(c, Apply(c, t, events[0]), user, log + Logged(t, events[0], user), events[0].at, events[1..], past);
    }
  }

  /** From any state in which no failure of the name is pending, and once a lockout of that
      state is over: whoever is locked out has since failed `Cap` times in a row inside one
      window, less than the lockout ago. */
  lemma {:induction false} LockoutJustified(c: Limits, t: Throttle, user: string, events: seq<Event>, now: real)
    requires c.window > 0.0 && (Plain(user) || c.maxAttempts <= 1) && Chronological(events) && Normal(events)
    requires Bucket(t, user) == [] && !LockedOut(t, user, now) && now >= 0.0
    ensures LockedOut(After(c, t, events), user, now) ==> Justified(c, History(c, t, events, user, []), now)
  {
    HonestRun(c, t, user, [], 0.0, events, now);
  }

  /** Such states are start-up and the moments after a success or a failure that locks. */
  lemma {:induction false} NothingPending(c: Limits, t: Throttle, user: string, good: bool, at: real)
    requires !LockedOut(t, user, at)
    ensures Bucket(EMPTY, user) == []
    ensures var t' := Apply(c, t, Attempt(user, good, at));
            && (good ==> Bucket(t', user) == [] && user !in t'.lockouts)
            && (!good && LockedOut(t', user, at) ==> Bucket(t', user) == [])
            && (!good && Bucket(t', user) == [] ==> user in t'.lockouts && t'.lockouts[user] == at + c.lockout)
  {
  }

  /** Every lockout of a run from start-up is justified. */
  ghost predicate AlwaysJustified(c: Limits, user: string) {
    forall events, now | Chronological(events) && Normal(events) && now >= 0.0 :: JustifiedAt(c, user, events, now)
  }

  ghost predicate JustifiedAt(c: Limits, user: string, events: seq<Event>, now: real) {
    LockedOut(After(c, EMPTY, events), user, now) ==> Justified(c, History(c, EMPTY, events, user, []), now)
  }

  lemma {:induction false} Fill(c: Limits, user: string, n: nat, b: seq<real>)
    requires c.window > 0.0 && |b| + n + 1 == c.maxAttempts && forall k | 0 <= k < |b| :: b[k] == 0.0
    ensures var events := Copies(n + 1, Attempt(user, false, 0.0));
            After(c, With(user, b), events).lockouts == map[user := c.lockout]
    decreases n
  {
    var again := Attempt(user, false, 0.0);
    var events := Copies(n + 1, again);
    assert events[0] == again && events[1..] == Copies(n, again);
    RecentAll(b, 0.0, c.window);
    if n == 0 {
      assert events[1..] == [];
      assert With(user, b).lockouts[user := c.lockout] == map[user := c.lockout];
    } else {
      assert RecordFailure(c, With(user, b), user, 0.0) == With(user, b + [0.0]);
      Fill(c, user, n - 1, b + [0.0]);
    }
  }

  lemma {:induction false} FewEntries(c: Limits, t: Throttle, events: seq<Event>, user: string, log: seq<Entry>)
    ensures |History(c, t, events, user, log)| <= |log| + |events|
    decreases |events|
  {
    if events != [] { FewEntries(c, Apply(c, t, events[0]), events[1..], user, log + Logged(t, events[0], user)); }
  }

  /** A registration counts as a failure of the name that shares its bucket: one failure less
      than the limit then locks it out. */
  lemma {:induction false} SharedBucketLocks(c: Limits, user: string)
    requires !Plain(user) && c.maxAttempts >= 2 && c.window > 0.0 && c.lockout > 0.0 && Stripped(user)
    ensures !AlwaysJustified(c, user)
  {
    var tail := Copies(c.maxAttempts - 1, Attempt(user, false, 0.0));
    var events := [Registration(user[1..], 0.0)] + tail;
    assert "@" + user[1..] == user && events[1..] == tail;
    var none: seq<real> := [];
    assert none + [0.0] == [0.0];
    assert GuardRegistration(EMPTY, user[1..], 0.0) == With(user, [0.0]);
    Fill(c, user, c.maxAttempts - 2, [0.0]);
    FewEntries(c, With(user, [0.0]), tail, user, []);
    assert [] + Logged(EMPTY, events[0], user) == [];
    assert Chronological(events) && Normal(events) && !JustifiedAt(c, user, events, 0.0);
  }

  /** Every lockout is justified exactly for names that share no bucket with the registration
      guard, or when one failure locks anyway. */
  lemma {:induction false} LockoutJustifiedExactly(c: Limits, user: string)
    requires c.window > 0.0 && c.lockout > 0.0 && Stripped(user)
    ensures AlwaysJustified(c, user) <==> Plain(user) || c.maxAttempts <= 1
  {
    if !Plain(user) && c.maxAttempts >= 2 {
      SharedBucketLocks(c, user);
    } else {
      forall events, now | Chronological(events) && Normal(events) && now >= 0.0
        ensures JustifiedAt(c, user, events, now)
      {
        LockoutJustified(c, EMPTY, user, events, now);
      }
    }
  }

  // -------------------------------------------------------------------------
  // The registration guard
  // -------------------------------------------------------------------------

  /** The times of the registrations of a name that were admitted. */
  function Admitted(c: Limits, t: Throttle, events: seq<Event>, name: string, log: seq<real>): seq<real>
    decreases |events|
  {
    if events == [] then log
    else Admitted(c, Apply(c, t, events[0]), events[1..], name, Noted(t, events[0], name, log))
  }

  function Noted(t: Throttle, e: Event, name: string, log: seq<real>): seq<real> {
    if e.Registration? && e.name == name && !Full(t, name, e.at) then log + [e.at] else log
  }

  /** The bucket is the end of the admitted registrations; the others are out of the window. */
  ghost predicate GuardAgrees(t: Throttle, name: string, log: seq<real>, now: real) {
    Ordered(log) && (forall k | 0 <= k < |log| :: log[k] <= now)
    && exists n: nat :: EndsAt(Bucket(t, "@" + name), log, n, now)
  }

  ghost predicate EndsAt(bucket: seq<real>, log: seq<real>, n: nat, now: real) {
    n <= |log| && bucket == log[n..] && forall k | 0 <= k < n :: now - log[k] >= REGISTER_WINDOW
  }

  lemma {:induction false} OrderedEnd(log: seq<real>, n: nat)
    requires n <= |log| && Ordered(log)
    ensures Ordered(log[n..])
  {
  }

  lemma {:induction false} AdmittedStep(bucket: seq<real>, log: seq<real>, n: nat, now: real, at: real)
    returns (m: nat)
    requires EndsAt(bucket, log, n, now) && now <= at && Ordered(log)
    ensures EndsAt(Recent(bucket, at, REGISTER_WINDOW), log, m, at)
    ensures forall k | 0 <= k < |log| :: at - log[k] < REGISTER_WINDOW <==> k >= m
  {
    OrderedEnd(log, n);
    var i := RecentIsEnd(bucket, at, REGISTER_WINDOW);
    m := n + i;
    assert bucket[i..] == log[m..];
    forall k | 0 <= k < |log| ensures at - log[k] < REGISTER_WINDOW <==> k >= m {
      if k >= n { assert log[k] == bucket[k - n]; }
    }
  }

  lemma {:induction false} GuardAdmits(t: Throttle, name: string, log: seq<real>, now: real, at: real)
    requires GuardAgrees(t, name, log, now) && now <= at && !Full(t, name, at)
    ensures GuardAgrees(GuardRegistration(t, name, at), name, log + [at], at)
  {
    var bucket := Bucket(t, "@" + name);
    var n: nat :| EndsAt(bucket, log, n, now);
    var m := AdmittedStep(bucket, log, n, now, at);
    OneMore(Recent(bucket, at, REGISTER_WINDOW), log, m, at);
    assert Bucket(GuardRegistration(t, name, at), "@" + name) == Recent(bucket, at, REGISTER_WINDOW) + [at];
  }

  lemma {:induction false} OneMore(recent: seq<real>, log: seq<real>, m: nat, at: real)
    requires EndsAt(recent, log, m, at) && Ordered(log) && forall k | 0 <= k < |log| :: log[k] <= at
    ensures EndsAt(recent + [at], log + [at], m, at) && Ordered(log + [at])
  {
    assert log[m..] + [at] == (log + [at])[m..];
  }

  lemma {:induction false} GuardUntouched(
      t: Throttle, t': Throttle, name: string, log: seq<real>, now: real, later: real)
    requires GuardAgrees(t, name, log, now) && now <= later && Bucket(t', "@" + name) == Bucket(t, "@" + name)
    ensures GuardAgrees(t', name, log, later)
  {
    var bucket := Bucket(t, "@" + name);
    var n: nat :| EndsAt(bucket, log, n, now);
    assert EndsAt(bucket, log, n, later);
  }

  /** Only sign-ins under a name and registrations of it touch its bucket. */
  lemma {:induction false} OtherBucket(c: Limits, t: Throttle, e: Event, name: string)
    requires e.Attempt? ==> e.name != "@" + name
    requires e.Registration? ==> e.name != name || Full(t, name, e.at)
    ensures Bucket(Apply(c, t, e), "@" + name) == Bucket(t, "@" + name)
  {
    if e.Registration? { assert ("@" + e.name)[1..] == e.name && ("@" + name)[1..] == name; }
  }

  lemma {:induction false} GuardStep(c: Limits, t: Throttle, e: Event, name: string, log: seq<real>, now: real)
    requires GuardAgrees(t, name, log, now) && now <= e.at && (e.Attempt? ==> e.name != "@" + name)
    ensures GuardAgrees(Apply(c, t, e), name, Noted(t, e, name, log), e.at)
  {
    if e.Registration? && e.name == name && !Full(t, name, e.at) {
      GuardAdmits(t, name, log, now, e.at);
    } else {
      OtherBucket(c, t, e, name);
      GuardUntouched(t, Apply(c, t, e), name, log, now, e.at);
    }
  }

  lemma {:induction false} GuardRun(
      c: Limits, t: Throttle, events: seq<Event>, name: string, log: seq<real>, now: real, later: real)
    requires GuardAgrees(t, name, log, now) && Chronological(events) && (events != [] ==> now <= events[0].at)
    requires now <= later && forall e | e in events :: e.at <= later && (e.Attempt? ==> e.name != "@" + name)
    ensures GuardAgrees(After(c, t, events), name, Admitted(c, t, events, name, log), later)
    decreases |events|
  {
    if events == [] {
      GuardUntouched(t, t, name, log, now, later);
    } else {
      var e, rest := events[0], events[1..];
      GuardStep(c, t, e, name, log, now);
      assert forall i | 0 <= i < |rest| :: rest[i] == events[i + 1];
      GuardRun(c, Apply(c, t, e), rest, name, Noted(t, e, name, log), e.at, later);
    }
  }

  /** In a run without sign-ins under the '@' name, a registration of a name is refused exactly
      when the tenth last admitted one was less than sixty seconds ago. */
  lemma {:induction false} GuardExactly(c: Limits, events: seq<Event>, name: string, now: real)
    requires Chronological(events) && now >= 0.0
    requires forall e | e in events :: e.at <= now && (e.Attempt? ==> e.name != "@" + name)
    ensures var log := Admitted(c, EMPTY, events, name, []);
            Full(After(c, EMPTY, events), name, now) <==> |log| >= 10 && now - log[|log| - 10] < 60.0
  {
    assert EndsAt(Bucket(EMPTY, "@" + name), [], 0, 0.0);
    GuardRun(c, EMPTY, events, name, [], 0.0, now);
    var log, bucket := Admitted(c, EMPTY, events, name, []), Bucket(After(c, EMPTY, events), "@" + name);
    var n: nat :| EndsAt(bucket, log, n, now);
    var m := AdmittedStep(bucket, log, n, now, now);
    assert |Recent(bucket, now, REGISTER_WINDOW)| == |log| - m;
  }
}
