# Chandrasutra: a verified model

Chandrasutra registers pairs of lunar images, runs a matching pipeline over them and freezes the
evidence. This project models the parts of it whose correctness spans several functions or whole
runs, and proves what those parts are for. `dafny verify dfyconfig.toml` checks the whole project.

* **Run lock and atomic writes** (`RunLock`, `AtomicWrite`): step machines with one system call per
  step. Mutual exclusion holds under three named hypotheses (`HoldersInBudget`, `NoCreateInWindow`,
  `StatWorks`), each shown to be needed; in-process exclusion needs none. Writes keep volatile and
  durable contents and directory entries apart, and a crash may come after any step.
* **Sessions and throttle** (`LoginThrottle`, `AuthSessions`, `TokenRefresh`): each public method is
  one atomic step on the users, the session table and the two throttle dictionaries. The browser's
  shared refresh promise is a step machine over its awaits, composed with the server.
* **Footprint geometry** (`Polygons`, `Clipping`, `ClipBoundary`, `ClipConvex`, `ClipIntersection`,
  `Longitudes`, `Overlap`): clipping, areas, longitude windows and the overlap verdict over exact reals.
* **Window sampling and histogram distance** (`WindowSampling`, `ChiSquare`).
* **Evidence package** (`EvidencePackage`): a directory tree is a map from paths to contents, a hash
  is a constructor and hence collision-free.
* **AI session store** (`AiSessions`, `AiSessionRuns`), **evidence reducer** (`Json`,
  `EvidenceReducer`), **packet trimmer and citation check** (`PromptBudget`, `ResponseGrounding`).
* **Pair registry** (`PairIds`, `PairRegistry`).

`Options`, `RealSums` and `Strings` are shared helpers.

Reals are exact: rounding of floating-point numbers is not modelled. Clock readings, fresh
identifiers and random tokens are inputs. Objects whose methods update fields are classes proved
against functions on values; runs are sequences of such steps.

## Where code and documentation differ

The model follows the code; each point below is proved.

* The lock promises one run per directory. Across processes this needs the three hypotheses: a
  vanished or unreadable lock file counts as stale, so a contender may unlink a file created since,
  and a holder past the contender's budget is taken over (`RunLock.EachIsNeeded`).
* An acquire that fails at the file step keeps its registry entries, because release does nothing
  for a lock that is not held (`RunLock.FailedAcquireBlocks`).
* The npy and npz writers are called atomic but do not sync the file: after a crash the final name
  can hold an empty file (`AtomicWrite.UnsyncedWriteLost`; `AtomicWrite.AtomicExactly`: that sync is
  what decides).
* Registration attempts for `x` write into the failure bucket of the login name `@x`, so with a window
  above 60 s and a limit of three or more the limit is not kept for such names
  (`LoginThrottle.SharedBucketBreaks`); nor is it kept when the lockout is shorter than the window.
  `LoginThrottle.LockoutBoundExactly` gives the exact condition. A restart empties the throttle and
  so ends the bound (`AuthSessions.RestartsBreak`). The other way round a registration counts as a
  failure of that name and can lock it out early (`LoginThrottle.SharedBucketLocks`;
  `LockoutJustifiedExactly` has the condition).
* A refresh reads, then updates without looking at the row count: single use needs each refresh to be
  atomic (`AuthSessions.AtomicityIsNeeded`).
* The page promises a single refresh and a single replay, and the server calls rotation safe against
  replay. When a refresh rejects, the page keeps its access token and its old cookie, and the next
  call presents the same token again: after a lost reply (`TokenRefresh.LostReplyPresentsTwice`) and
  after a request that is still under way (`LostRequestPresentsTwice`). The same happens when a sign-in
  sets its access token after a refresh has failed with its cookie (`LateTokenPresentsTwice`).
  `LossHarmfulExactly` and `AdoptHarmfulExactly` give the conditions.
* A stride above the window leaves valid pixels unsampled (`WindowSampling.EveryValidPixelSampled`
  says exactly when).
* The manifest attributes a file to the last artifact with its target, while the file holds the first
  (`EvidencePackage.CopiedFromExactly`, `EvidencePackage.SameNameMisattributed`).
* A packet whose `metrics` is null, a number or a boolean makes validation raise instead of answering
  (`ResponseGrounding.MetricUniverse`).
* Pair identifiers are sorted as strings: from 1000 on that is not the order of the numbers
  (`PairIds.NumericOrderExactly`).
* The registry skips entries it cannot read, and takes a file that cannot be parsed for an empty one;
  the next save then rewrites the file without them (`PairRegistry.SaveKeepsExactly`).

## Model

| member | source | states |
|---|---|---|
| `RunLock.MutualExclusion` | backend/app/hardening.py:243-336 | in every interleaving of registry updates, creates, tests, stats, unlinks, crashes and clock ticks of any number of threads and processes, two different locks of one directory are never both between the creation of their file and its removal, given the three named hypotheses |
| `RunLock.UnlinkIsSafe` | backend/app/hardening.py:267-302 | a step that makes a lock file vanish is an unlink of a lock of that directory; a release removes only a file it created and whose token is its own, and no other lock owned the file |
| `RunLock.InProcessExclusion` | backend/app/hardening.py:243-264 | inside one process at most one lock per resolved directory is past registration, with no hypothesis at all |
| `RunLock.FailedAcquireBlocks` | backend/app/hardening.py:322-336 | an acquire that fails at the file step leaves its registry entries, and until that process dies every later acquire on the directory or on one of the same name is refused there |
| `RunLock.AcquireReleaseRoundTrip` | backend/app/hardening.py:322-336 | acquire then release on a free directory holds the lock in between and restores files, registry and phases |
| `RunLock.ContenderRefused` | backend/app/hardening.py:267-284 | a contender that meets an owner whose file is within its budget fails and touches no file |
| `RunLock.FreshFileRefused` | backend/app/hardening.py:271-311 | a lock file that is not older than the budget refuses the contender |
| `RunLock.StaleTakeover` | backend/app/hardening.py:271-293 | an abandoned lock file past the budget is replaced by the contender's own |
| `RunLock.EachIsNeeded` | backend/app/hardening.py:243-336 | for each of the three hypotheses there is a run from start-up that meets the other two at every step and ends with two locks of one directory held |
| `RunLock.RegistryStep` | backend/app/hardening.py:243-264 | every step keeps both registry keys of every registered lock on its own token |
| `RunLock.OwnersStep` | backend/app/hardening.py:267-302 | every allowed step keeps each owner's own file at the path |
| `RunLock.UnlinkersStep` | backend/app/hardening.py:271-281 | every allowed step keeps owners away from directories some contender is about to unlink in |
| `RunLock.Verdict` | backend/app/hardening.py:304-311 | the stale verdict is reached only when nobody owns the file |
| `RunLock.NoNewOwner` | backend/app/hardening.py:267-282 | while a contender is about to unlink nobody becomes an owner |
| `RunLock.SafeRun` | backend/app/hardening.py:243-336 | the four invariants hold after every allowed run |
| `RunLock.ReleaseExactly` | backend/app/hardening.py:295-302 | an undisturbed release of a held lock, whatever became of its file, unlinks the file at the path exactly when it names this lock and unregisters the lock either way |
| `RunLock.ReleaseReadsOwn` | backend/app/hardening.py:295-302 | with no hypothesis, a release goes on to unlink only when it has just read its own token in the file at the path |
| `RunLock.FileChanges` | backend/app/hardening.py:267-302 | with no hypothesis, a lock file appears empty where there was none, is written only by the lock that created it and vanishes only in an unlink of a lock of that directory |
| `RunLock.UnlinkVerdict` | backend/app/hardening.py:271-311 | with no hypothesis, a contender goes on to unlink only after a failed or negative test, a failed stat or a stale file |
| `RunLock.VerdictExactly` | backend/app/hardening.py:304-311 | a failing test or stat and a vanished file count as stale; a file that is not stale ends the acquire |
| `RunLock.FailingCall` | backend/app/hardening.py:267-311 | a failing call touches neither files nor registry; a failing create or write ends the acquire, release goes on to unregister |
| `RunLock.StaleExactly` | backend/app/hardening.py:304-311 | stale is older than the budget and older than one second |
| `RunLock.UnregisterOwn` | backend/app/hardening.py:259-264 | unregistering leaves every entry of another lock, and frees both keys of its own directory |
| `RunLock.CrashExactly` | backend/app/hardening.py:241-264 | the death of a process ends its locks and empties its registry; every file stays, and everything of other processes |
| `AtomicWrite.CrashAtomicity` | backend/app/hardening.py:105-142 | after any run of writes, failures, flushes and crashes, and also if the machine crashes right then, a destination written by text and byte writers holds its original content or one complete payload, and one that existed at the start is still there |
| `AtomicWrite.SyncedStaysThere` | backend/app/hardening.py:105-142 | from the moment a renamed write has been synced its destination is there after every later run and crash, complete if its writers sync |
| `AtomicWrite.EnteredStep` | backend/app/hardening.py:115-122 | no step removes a destination that has a visible and a durable entry |
| `AtomicWrite.NeverHalfVisible` | backend/app/hardening.py:105-188 | until a crash no reader ever finds a partial file, whichever writer wrote it |
| `AtomicWrite.DurableAfterReturn` | backend/app/hardening.py:105-142 | whatever others do between the rename and the directory sync, the payload then survives every later run and crash until another write renames onto the path |
| `AtomicWrite.UnsyncedWriteLost` | backend/app/hardening.py:145-188 | an npy or npz write that returned can leave an empty file under the final name after a crash |
| `AtomicWrite.AtomicExactly` | backend/app/hardening.py:105-188 | writers are crash atomic over all runs from all file systems if and only if they sync the file before the rename |
| `AtomicWrite.CompleteStep` | backend/app/hardening.py:105-142 | no step damages a file that is reachable under a destination name |
| `AtomicWrite.EntryStep` | backend/app/hardening.py:105-142 | after every step what the visible and the durable directory name under a destination is complete |
| `AtomicWrite.SoundRun` | backend/app/hardening.py:105-188 | the invariant holds after every run |
| `AtomicWrite.RenamedExactly` | backend/app/hardening.py:105-122 | a writer gets past its rename only by renaming its synced file, and stays past it |
| `AtomicWrite.FailedNeverRenames` | backend/app/hardening.py:105-142 | a write that fails before its rename never becomes visible, whatever follows |
| `AtomicWrite.ReadStays` | backend/app/hardening.py:105-142 | until somebody renames onto a path, and but for a crash, its readers see what they saw |
| `AtomicWrite.NoLeftovers` | backend/app/hardening.py:105-142 | over every run the temporary name is gone once the writer has renamed, and, until a crash, once its clean-up has unlinked it |
| `AtomicWrite.TempsFitRun` | backend/app/hardening.py:105-142 | over every run the file a writer is at work on is in the directory under its temporary name |
| `AtomicWrite.FsyncDirExactly` | backend/app/hardening.py:118-142 | a directory sync that fails makes nothing durable and the writer goes on; one that succeeds makes the whole directory durable |
| `AtomicWrite.UnsyncedMaySurvive` | backend/app/hardening.py:145-188 | an unsynced write that the kernel happened to write back survives a crash |
| `LoginThrottle.LockoutBound` | backend/app/auth/service.py:270-302 | in every chronological run of stripped names no stretch of recorded failures shorter than the window and free of successes is longer than the attempt limit, if the lockout is at least the window and registrations cannot drop failures of that name |
| `LoginThrottle.LockoutBoundExactly` | backend/app/auth/service.py:270-302 | for a stripped name that bound holds over all runs exactly when the lockout is at least the window and the registration guard cannot drop failures that still count |
| `LoginThrottle.ShortLockoutBreaks` | backend/app/auth/service.py:277-286 | a lockout shorter than the window lets one failure too many in |
| `LoginThrottle.SharedBucketBreaks` | backend/app/auth/service.py:294-302 | a name that is an @ before a stripped name shares its bucket with the registrations of that name, which drop failures when the window exceeds 60 s and three or more attempts are allowed |
| `LoginThrottle.FailureStep` | backend/app/auth/service.py:277-286 | recording a failure keeps the link between bucket, lockout and history |
| `LoginThrottle.RegistrationStep` | backend/app/auth/service.py:294-302 | a registration attempt keeps that link where it cannot drop counting failures |
| `LoginThrottle.SuccessStep` | backend/app/auth/service.py:288-292 | a successful login keeps that link |
| `LoginThrottle.LockoutJustified` | backend/app/auth/service.py:270-292 | in every chronological run from a state with no failure pending and no lockout in force, a name that is locked out has since failed as often as the limit in a row, no success among the failures, inside one window and less than the lockout ago |
| `LoginThrottle.LockoutJustifiedExactly` | backend/app/auth/service.py:270-302 | every lockout of every run is justified in that sense exactly for names that share no bucket with a registration, or when one failure locks anyway |
| `LoginThrottle.SharedBucketLocks` | backend/app/auth/service.py:294-302 | a registration counts as a failure of the name that shares its bucket: one failure less than the limit then locks it out |
| `LoginThrottle.NothingPending` | backend/app/auth/service.py:277-292 | no failure is pending at start-up, after a success, which also ends any lockout, and after a failure that locks |
| `LoginThrottle.GuardExactly` | backend/app/auth/service.py:294-302 | in a run without sign-ins under the @ name a registration of a name is refused exactly when the tenth last admitted one was less than sixty seconds ago |
| `LoginThrottle.EventStep` | backend/app/auth/service.py:270-302 | every event keeps that link |
| `AuthSessions.AuthService.constructor` | backend/app/auth/service.py:710-721 | start-up begins with empty throttle state; every row kept is unchanged, every row gone was revoked or had expired thirty days before |
| `AuthSessions.AuthService.RecordLoginFailure` | backend/app/auth/service.py:277-286 | the dictionaries afterwards are those of the specified failure |
| `AuthSessions.AuthService.ThrottleRegister` | backend/app/auth/service.py:294-302 | the shared dictionary afterwards is that of the specified guard; a refusal changes nothing |
| `AuthSessions.AuthService.IssueSession` | backend/app/auth/service.py:365-391 | exactly one row is added, unrevoked, expiring at the earlier of the two limits |
| `AuthSessions.AuthService.SignIn` | backend/app/auth/service.py:304-352 | outcome and whole new state of a login, every refusal included |
| `AuthSessions.AuthService.Rotate` | backend/app/auth/service.py:396-459 | outcome and whole new state of a refresh, every refusal included |
| `AuthSessions.AuthService.SignOut` | backend/app/auth/service.py:464-498 | with a token only its row ends, otherwise every row of the user; a first revocation time is kept and no row disappears |
| `AuthSessions.AuthService.RevokeSession` | backend/app/auth/service.py:538-566 | the session of that id is revoked once and for all; an unknown id changes nothing |
| `AuthSessions.AuthService.NewPassword` | backend/app/auth/service.py:571-589 | succeeds exactly with the current password and an acceptable new one; then that user alone has the new hash and every row of the user ends, otherwise nothing changes |
| `AuthSessions.SingleUse` | backend/app/auth/service.py:365-459 | after any run each login's chain of rotations has at most one unrevoked session and no refresh token was accepted twice |
| `AuthSessions.RevocationIsFinal` | backend/app/auth/service.py:454-498 | a set revocation time is never cleared or moved by any later run |
| `AuthSessions.PasswordChangeSignsOut` | backend/app/auth/service.py:571-589 | no session a user had at a successful password change is ever accepted afterwards |
| `AuthSessions.ReplayChangesNothing` | backend/app/auth/service.py:405-436 | presenting a rotated token again is refused, changes nothing and leaves its successor live |
| `AuthSessions.StepIsCall` | backend/app/auth/service.py:304-589 | a step of a run is one call of the service at the time of the clock, or one change by an administrator |
| `AuthSessions.RefusedRefresh` | backend/app/auth/service.py:402-431 | which refusal a refresh answers; an expired session and one of an inactive or absent user is revoked by it, any other refusal changes nothing |
| `AuthSessions.ByNameFinds` | backend/app/auth/service.py:304-316 | a lookup by name finds a user of that name exactly when there is one |
| `AuthSessions.GrantedToHolder` | backend/app/auth/service.py:304-391 | a sign-in that is not throttled is granted exactly to the active user of that name with that password; it then adds one unrevoked session of that user, and a refusal adds none |
| `AuthSessions.SessionsKeepTheirUser` | backend/app/auth/service.py:365-452 | over every run from start-up each session is of the user who signed in at the start of its chain of rotations |
| `AuthSessions.SignInIsAccepted` | backend/app/auth/service.py:304-452 | the session of a granted sign-in is accepted exactly within both its limits, and the session that replaces it exactly within its own |
| `AuthSessions.IssuedIsAccepted` | backend/app/auth/service.py:365-452 | the same from the issue of a session to an active user |
| `AuthSessions.SignOutIsFinal` | backend/app/auth/service.py:464-566 | a session signed out or revoked by an administrator is never accepted again, and no other session is touched |
| `AuthSessions.ThrottledJustified` | backend/app/auth/service.py:270-352 | from any moment with an empty throttle until the next restart nobody is throttled who has not been refused as often as the limit, in a row and inside one window, less than the lockout ago |
| `AuthSessions.RefreshInHalves` | backend/app/auth/service.py:402-436 | a refresh is its reading half followed by its writing half |
| `AuthSessions.AtomicityIsNeeded` | backend/app/auth/service.py:402-436 | two refreshes of one token that both read before either writes leave two live sessions: single use is a property of atomic methods |
| `AuthSessions.CleanupIsInvisible` | backend/app/auth/service.py:405-436 | running the cleanup at any moment does not change which tokens later runs accept, and after them every token is answered as without it, except that a revoked or expired one whose row was deleted counts as unknown |
| `AuthSessions.RotationStep` | backend/app/auth/service.py:429-436 | a rotation accepts only a token never accepted before, and kills it |
| `AuthSessions.DeadStep` | backend/app/auth/service.py:405-431 | a token that is revoked or past its expiry stays unacceptable whatever happens next |
| `AuthSessions.LiveBefore` | backend/app/auth/service.py:454-459 | no event revives a session or moves it to another login |
| `AuthSessions.NewIsAlone` | backend/app/auth/service.py:429-436 | a new session shares its login with no session that is still live |
| `AuthSessions.OneLiveStep` | backend/app/auth/service.py:396-452 | every event keeps at most one live session per login |
| `AuthSessions.TrackedStep` | backend/app/auth/service.py:365-459 | every event keeps the record of issued and accepted tokens truthful |
| `AuthSessions.SoundRun` | backend/app/auth/service.py:365-459 | both invariants hold after every run |
| `AuthSessions.SameAnswer` | backend/app/auth/service.py:405-436 | refresh answers alike on the full and the cleaned table, but for that same exception |
| `AuthSessions.ThrottleRun` | backend/app/auth/service.py:270-352 | between restarts the throttle of a service run is that of the throttle run of its sign-ins and registrations, and the answers of the sign-ins are its history |
| `AuthSessions.SignInsBounded` | backend/app/auth/service.py:270-352 | from any moment with an empty throttle until the next restart, no stretch of refused sign-ins under one name shorter than the window and free of successes exceeds the attempt limit |
| `AuthSessions.RestartsBreak` | backend/app/auth/service.py:270-292 | with a restart after each guess, more guesses than the limit are answered at one instant |
| `TokenRefresh.SingleFlightHolds` | frontend/src/api.js:85-151 | over every interleaving of concurrent calls, lost replies included, at most one refresh is in flight and each call sends its request at most twice |
| `TokenRefresh.PresentedAtMostOnce` | frontend/src/api.js:85-151 | no refresh token is presented twice over any run without two kinds of step: a refresh that rejects, or a sign-in that sets its access token, leaving the page with an access token and a cookie that was presented or that a request still under way carries, and with no refresh that will replace it |
| `TokenRefresh.LossHarmfulExactly` | frontend/src/api.js:85-151 | a refresh that rejects, before or after the server handled its request, lets some token be presented twice later exactly when the page then has an access token and a cookie that was presented or that a request under way carries |
| `TokenRefresh.AdoptHarmfulExactly` | frontend/src/auth.jsx:75-86 | a sign-in that sets its access token does so exactly when the cookie has been used since its reply and no refresh is under way that will replace it |
| `TokenRefresh.LostReplyPresentsTwice` | frontend/src/api.js:85-151 | from start-up: after a sign-in, one call whose refresh reply is lost and one more call, the token of the sign-in was presented twice |
| `TokenRefresh.LostRequestPresentsTwice` | frontend/src/api.js:85-151 | from start-up: after a sign-in, one call whose refresh rejects while its request is under way, one more call and the late arrival, the token of the sign-in was presented twice |
| `TokenRefresh.LateTokenPresentsTwice` | frontend/src/api.js:85-151 | from start-up: when a refresh that ends in an error comes between the reply of a second sign-in and its access token, the next call presents the token of that sign-in again |
| `TokenRefresh.ReplayOnce` | frontend/src/api.js:136-150 | a call resumed after a refresh is sent again, with the access token the page has then, exactly when it has one, and then ends; it starts no further refresh |
| `TokenRefresh.FirstAttempt` | frontend/src/api.js:115-134 | the first attempt carries the access token of its moment if the call is to carry one |
| `TokenRefresh.FirstAnswer` | frontend/src/api.js:133-151 | a 401 to the first attempt, while the page has a token, makes the call wait for the refresh under way or a new one with the current cookie; any other answer ends the call |
| `TokenRefresh.RejectedRefreshEnds` | frontend/src/api.js:137-151 | a call whose refresh rejected ends without a second attempt and without giving the session up |
| `TokenRefresh.RefreshInstalls` | frontend/src/api.js:85-102 | a refresh that was handled and answered leaves the page with the access token of the reply and the new cookie if the session was rotated, and without access token and with the old cookie if it was refused |
| `TokenRefresh.GivenUpExactly` | frontend/src/api.js:85-142 | a refresh that rejects keeps token and cookie and passes the rejection on; one answered with an error on the way clears the token |
| `TokenRefresh.SignedOut` | frontend/src/auth.jsx:98-105 | a sign-out ends the session of the cookie at the server and leaves the page with neither token nor cookie; a failed one leaves it without token |
| `TokenRefresh.BrokenAttemptEnds` | frontend/src/api.js:104-151 | a fetch that rejects ends its call and nothing else |
| `TokenRefresh.ReplayCarriesNewToken` | frontend/src/api.js:85-151 | a call that waited for a refresh that brought an access token, whatever other calls do in between, is sent again with that token |
| `TokenRefresh.FlightStep` | frontend/src/api.js:137-142 | every step keeps the shared promise naming the one unfinished refresh |
| `TokenRefresh.SendsStep` | frontend/src/api.js:135-150 | every step keeps the send count of each call in line with where it stands |
| `TokenRefresh.PresentedStep` | frontend/src/api.js:85-151 | every harmless step keeps tokens presented or under way at most once, and the page unable to start a refresh with a used cookie |
| `TokenRefresh.IssuedStep` | frontend/src/api.js:85-102 | every cookie value the browser holds or sends was issued by the server |
| `TokenRefresh.ServerRuns` | backend/app/auth/service.py:396-459 | under all browser events, late requests included, the server keeps one live session per login and single use |
| `TokenRefresh.ServerOnly` | backend/app/auth/service.py:396-459 | what a browser event does to the server is one event of the session service |
| `Polygons.PolygonArea` | backend/app/pairs.py:451-460 | the modular-index loop yields the absolute value of the zip-based area |
| `Polygons.SignedAreaIsChain` | backend/app/pairs.py:471-472 | twice the signed area is the sum along the chain plus the closing edge |
| `Polygons.RotationKeepsArea` | backend/app/pairs.py:471-472 | starting at another vertex changes no area |
| `Polygons.ReversalNegatesArea` | backend/app/pairs.py:474-475 | walking backwards negates the area |
| `Polygons.OrientedIsCounterClockwise` | backend/app/pairs.py:474-475 | the normalised clip polygon has non-negative area, and is the given one, or its reversal exactly when the given one has negative area |
| `Polygons.ThinHasNoArea` | backend/app/pairs.py:452-454 | fewer than three vertices have no area in the zip-based sense either |
| `ClipIntersection.AreaIsFan` | backend/app/pairs.py:471-478 | twice the signed area is the sum of the triangles fanned out from the first vertex, each by the cross product the half-plane test uses |
| `ClipIntersection.BoxArea` | backend/app/pairs.py:451-472 | an axis-parallel box walked counter-clockwise has width times height |
| `ClipIntersection.AreaOfTurns` | backend/app/pairs.py:471-475 | a polygon in convex position that turns left has non-negative area, one that turns right non-positive |
| `Clipping.ClipAgainst` | backend/app/pairs.py:494-505 | the inner loop computes one pass |
| `Clipping.ClipPolygon` | backend/app/pairs.py:463-506 | the loops compute the specified clipping, early exits included |
| `Clipping.SideOfLerp` | backend/app/pairs.py:477-489 | the tested cross product is affine along a segment |
| `Clipping.CrossingPoint` | backend/app/pairs.py:480-489 | the point computed for a crossing edge lies on that edge, on the line itself or, in the degenerate branch, within 1e-12 of it |
| `Clipping.PassBounds` | backend/app/pairs.py:491-505 | a pass bounds every vertex against its own edge by -1e-12 and keeps every lower bound against any other edge |
| `Clipping.HullIsConvex` | backend/app/pairs.py:488-489 | a point between two convex combinations of the subject vertices is one |
| `Clipping.ClipFromSound` | backend/app/pairs.py:491-506 | bounds and convexity hold through all later edges |
| `Clipping.ClipSound` | backend/app/pairs.py:463-506 | every returned vertex has cross product at least -1e-12 against every edge of the oriented clip polygon and is a convex combination of subject vertices |
| `ClipBoundary.BoundaryKept` | backend/app/pairs.py:477-506 | if no crossing is degenerate, every point of the subject's closed boundary inside all half-planes lies on the closed boundary of the output |
| `ClipBoundary.BoundaryKeptWithMargin` | backend/app/pairs.py:477-506 | points inside by 1e-12 are kept without that proviso |
| `ClipBoundary.VertexKept` | backend/app/pairs.py:499-502 | every subject vertex inside all half-planes is returned |
| `ClipBoundary.PassKeepsBoundary` | backend/app/pairs.py:494-505 | one pass keeps the boundary inside its half-plane |
| `ClipBoundary.SegmentKept` | backend/app/pairs.py:498-505 | what is kept of a subject edge contains all its points inside the half-plane |
| `ClipBoundary.DegenerateEmits` | backend/app/pairs.py:486-487 | where a boundary point can be lost: a degenerate crossing puts out the end point of the edge itself |
| `ClipConvex.IntersectionExactly` | backend/app/pairs.py:463-506 | for a subject in convex position and without a degenerate crossing, the hull of the output is exactly the part of the subject's hull inside all half-planes of the clip polygon |
| `ClipConvex.IntersectionWithin` | backend/app/pairs.py:463-506 | without that proviso the hull of the output contains what is inside by 1e-12 and nothing outside by more |
| `ClipConvex.PassKeepsHull` | backend/app/pairs.py:494-505 | one pass keeps the hull inside its half-plane |
| `ClipConvex.ClipEdgeTurns` | backend/app/pairs.py:494-505 | one pass keeps convex position, degenerate crossings included |
| `ClipConvex.PassInside` | backend/app/pairs.py:498-505 | without a degenerate crossing a pass puts out nothing outside its half-plane |
| `ClipConvex.HullBesideEdge` | backend/app/pairs.py:477-478 | a polygon in convex position has its hull on one side of each of its edges |
| `ClipConvex.HullOfHull` | backend/app/pairs.py:488-489 | convex combinations of points of a hull are in that hull |
| `ClipIntersection.OrientedTurnsLeft` | backend/app/pairs.py:474-475 | a clip polygon in convex position with area, whichever way it is given, is used turning left, with the same hull |
| `ClipIntersection.HalfPlanesAreHull` | backend/app/pairs.py:474-478 | inside all half-planes of such a clip polygon is exactly inside its hull |
| `ClipIntersection.BesideInHull` | backend/app/pairs.py:477-478 | a point beside all edges of a polygon with positive area is in its hull |
| `ClipIntersection.ClipIsIntersection` | backend/app/pairs.py:463-506 | of two polygons in convex position, the second with area, clipping leaves exactly what their hulls have in common, if no crossing was degenerate |
| `Longitudes.LonWindowIntersection` | backend/app/pairs.py:376-390 | the nested loops compute the first longest candidate |
| `Longitudes.ScanSound` | backend/app/pairs.py:382-389 | the result is a candidate above the tolerance and no candidate is longer |
| `Longitudes.FirstLongest` | backend/app/pairs.py:376-390 | the window reported is the first of the longest of the nine candidates in the order of the loops, and without shifts the plain intersection; none exactly when no candidate exceeds 1e-9 |
| `Longitudes.LongestOverTurns` | backend/app/pairs.py:341-390 | for box longitudes in [-180, 360] the nine shift pairs find the longest overlap over every integer number of turns, and none exactly when no turn gives more than 1e-9 |
| `Longitudes.OutOfRangeIsMissed` | backend/app/pairs.py:382-390 | beyond that range an overlap at three turns is not found |
| `Longitudes.CloserIsLonger` | backend/app/pairs.py:376-390 | between the nearest turn and any other overlaps only shrink |
| `Longitudes.CompleteSearchExactly` | backend/app/pairs.py:376-390 | for any two windows the nine pairs answer for every number of turns exactly when the nearest turn gives no overlap that counts or none longer than the nearest of the turns tried |
| `Longitudes.IntersectionSymmetric` | backend/app/pairs.py:376-390 | swapping the windows changes neither whether there is an overlap nor its length |
| `Longitudes.UnwrapLongitude` | backend/app/pairs.py:442-446 | the two loops compute the specified representative |
| `Longitudes.NearSound` | backend/app/pairs.py:438-448 | the result is on the same meridian, within half a turn of the reference |
| `Longitudes.NearUnique` | backend/app/pairs.py:438-448 | away from the opposite meridian the turn a longitude is given in makes no difference |
| `Overlap.DedupeVertices` | backend/app/pairs.py:393-402 | the loop keeps the first vertex of each key, in order |
| `Overlap.DedupedDistinct` | backend/app/pairs.py:393-402 | kept vertices are given ones with pairwise different keys |
| `Overlap.DedupedCovers` | backend/app/pairs.py:393-402 | every given vertex shares its key with a kept one |
| `Overlap.ToleranceIsPerVertex` | backend/app/pairs.py:405-435 | the box test holds exactly when every vertex is within the slack of the label box |
| `Overlap.SlackExactly` | backend/app/pairs.py:405-435 | the slack is a fifth of the span, but never less than one degree |
| `Overlap.TrustedExactly` | backend/app/pairs.py:515-524 | trusted is a polygon of three to six hundred vertices, three or more with different keys, all of these near the label box |
| `Overlap.ReferenceIsMean` | backend/app/pairs.py:525-531 | the reference meridian is half-way between the middles of the boxes |
| `Overlap.SharedIsCommon` | backend/app/pairs.py:463-543 | for footprints in convex position the clipped polygon has exactly the points both have in common, if the second has area and no crossing was degenerate |
| `Overlap.UnwrapLongitudes` | backend/app/pairs.py:438-448 | the loop moves every vertex |
| `Overlap.UnwrappedAllSound` | backend/app/pairs.py:438-448 | each vertex keeps its latitude and meridian and ends within half a turn of the reference |
| `Overlap.PolygonOverlap` | backend/app/pairs.py:509-543 | the polygon path answers as specified, every fallback included |
| `Overlap.TrustedSound` | backend/app/pairs.py:515-524 | a trusted polygon consists of three or more documented vertices with distinct keys, all near the label box, and no documented vertex is lost but for its key |
| `Overlap.PolygonVerdictBacked` | backend/app/pairs.py:525-543 | a polygon confirmation rests on a clipped polygon of three or more vertices and more than 1e-6 of area, inside the hull of one footprint and within 1e-12 of every half-plane of the other |
| `Overlap.BoxOverlap` | backend/app/pairs.py:336-373 | the bounding-box path answers as specified |
| `Overlap.BoxExactly` | backend/app/pairs.py:336-373 | for boxes in range it confirms exactly when the latitudes overlap and some number of turns makes the longitudes overlap; it reports the common latitudes, a longest window, and a wraparound exactly when the windows do not overlap as they stand |
| `Overlap.BoxSymmetric` | backend/app/pairs.py:336-373 | swapping the products changes neither the status, the latitudes, the length of the longitude window nor the wraparound warning |
| `Overlap.StructuralOverlap` | backend/app/pairs.py:298-373 | the method priority and its fallbacks |
| `Overlap.CompleteExactly` | backend/app/pairs.py:298-336 | a box is complete when all four corners are there and not null; each comes from its own key |
| `Overlap.StructuralExactly` | backend/app/pairs.py:298-373 | the case split of the verdict: boxes missing or empty, corners missing, two trusted polygons that share more than 1e-6 of area, and otherwise the boxes |
| `Overlap.ConfirmedIsBacked` | backend/app/pairs.py:298-373 | no overlap is invented: every confirmation rests on complete boxes and on one of the two kinds of evidence |
| `Overlap.DisjointIsApart` | backend/app/pairs.py:337-353 | boxes in range that are called disjoint stay apart at every number of turns |
| `PairIds.RoundTrip` | backend/app/pairs.py:207-214 | the printed identifier of every number is well formed and reads back as that number |
| `PairIds.WellFormedExactly` | backend/app/pairs.py:216-217 | well formed is the prefix, three or more digits and perhaps one final newline |
| `PairIds.PrintLength` | backend/app/pairs.py:213-214 | numbers below a thousand are padded to three digits, others printed as they are |
| `PairIds.OrderOfValues` | backend/app/pairs.py:228 | on digit strings of one length the string order is the order of the numbers |
| `PairIds.SortedLikeNumbers` | backend/app/pairs.py:228 | identifiers of one length sort as their numbers |
| `PairIds.ThousandSortsFirst` | backend/app/pairs.py:228 | the identifier of 1000 sorts before that of 999 |
| `PairIds.NumericOrderExactly` | backend/app/pairs.py:228 | the identifiers of the numbers up to a bound sort as the numbers do exactly when the bound is below 1000 |
| `PairRegistry.Registry.List` | backend/app/pairs.py:183-199 | corrupt entries are skipped, a missing or unparsable file counts as empty, JSON of another shape raises |
| `PairRegistry.Registry.Get` | backend/app/pairs.py:201-205 | the first record with the identifier |
| `PairRegistry.Registry.NextPairId` | backend/app/pairs.py:207-214 | one more than the greatest number in use, printed |
| `PairRegistry.Registry.ValidatePairId` | backend/app/pairs.py:216-221 | accepts exactly the well-formed unregistered identifiers |
| `PairRegistry.Registry.Save` | backend/app/pairs.py:224-231 | the whole new file; after an exception the old one |
| `PairRegistry.NextIdIsFresh` | backend/app/pairs.py:207-221 | the next identifier is accepted by validation, carried by no record, and one more than the greatest number in use |
| `PairRegistry.AcceptableExactly` | backend/app/pairs.py:216-221 | acceptable are exactly the well-formed identifiers that no record has |
| `PairRegistry.SortSound` | backend/app/pairs.py:228 | the sorted list is ordered by identifier and a permutation |
| `PairRegistry.SortFind` | backend/app/pairs.py:228 | sorting does not change which record a lookup finds |
| `PairRegistry.SaveStep` | backend/app/pairs.py:224-231 | a save leaves a file that reads back sorted with distinct identifiers and changes one identifier's record only |
| `PairRegistry.RunSound` | backend/app/pairs.py:224-231 | after any run of saves identifiers are distinct and sorted and each has the last record saved under it or the one it had before |
| `PairRegistry.AllocationNeverReplaces` | backend/app/pairs.py:207-231 | registering under the next identifier any number of times replaces no record, and the one just registered is found |
| `PairRegistry.SaveKeepsExactly` | backend/app/pairs.py:183-231 | a save keeps as many copies of every entry but the records it replaces if and only if it could read all of them; a corrupt entry is gone afterwards, and so is everything an unreadable file held |
| `PairRegistry.SaveOverUnreadable` | backend/app/pairs.py:183-231 | a save over an unreadable registry leaves the saved record alone |
| `PairRegistry.SavedCopies` | backend/app/pairs.py:224-231 | a save writes every other record exactly as often as it was read, and no corrupt entry |
| `WindowSampling.GridStride` | backend/app/conditions/metrics.py:22-34 | the doubling loop computes the specified stride and ends |
| `WindowSampling.StartsExactly` | backend/app/conditions/metrics.py:27-28 | the number of grid starts is that of the multiples of the stride below the extent |
| `WindowSampling.StrideIsFirst` | backend/app/conditions/metrics.py:22-34 | the stride used is the first of the stride, twice it, four times it and so on with few enough windows or no smaller than the image |
| `WindowSampling.WindowsBounded` | backend/app/conditions/metrics.py:27-34 | the grid has no more windows than allowed, except one when none are allowed |
| `WindowSampling.FirstIsLeast` | backend/app/conditions/metrics.py:58-65 | the specified first window is the least start whose window reaches a coordinate |
| `WindowSampling.SampledInUnion` | backend/app/conditions/metrics.py:58-65 | a pixel counts as sampled exactly when it is valid and some window of the grid contains it |
| `WindowSampling.FirstInScanOrder` | backend/app/conditions/metrics.py:58-65 | the first window of a pixel is a grid window that contains it, and no window that does comes earlier in row-by-row order |
| `WindowSampling.ValidExactly` | backend/app/conditions/metrics.py:124-125 | a mask value is valid when its low byte is zero |
| `WindowSampling.CoverageExactly` | backend/app/conditions/metrics.py:58-65 | every coordinate is covered exactly when the stride is at most the window or the extent is |
| `WindowSampling.EveryValidPixelSampled` | backend/app/conditions/metrics.py:103-156 | every valid pixel of a non-empty image is sampled, whatever the mask, exactly when both extents are covered |
| `WindowSampling.Planes.Examine` | backend/app/conditions/metrics.py:122-156 | one window writes its fresh pixels and the edge plane and nothing else |
| `WindowSampling.Planes.FreshExactly` | backend/app/conditions/metrics.py:126 | a pixel is fresh in a window exactly when it is valid and this is its first window |
| `WindowSampling.Planes.ExamineAt` | backend/app/conditions/metrics.py:122-156 | one step of the scan keeps the invariant |
| `WindowSampling.Planes.Scan` | backend/app/conditions/metrics.py:122-156 | afterwards the seen plane is exactly the valid pixels in the union of windows, and each holds the values of its first window in scan order |
| `WindowSampling.Planes.Pool` | backend/app/conditions/metrics.py:158-172 | the pooled values are those of the seen pixels in row order |
| `WindowSampling.Planes.LaplacianStatistics` | backend/app/conditions/metrics.py:158-172 | mean and non-negative variance of the pooled sample, or nothing for an empty one |
| `WindowSampling.Planes.PooledSquares` | backend/app/conditions/metrics.py:154-155 | the pooled squares are the squares of the pooled values |
| `WindowSampling.PairSpreadSums` | backend/app/conditions/metrics.py:171-172 | the sums behind the variance add up the squared differences of all pairs |
| `WindowSampling.VarianceNonNegative` | backend/app/conditions/metrics.py:171-172 | the pooled variance is never negative, and zero exactly for a constant sample |
| `ChiSquare.DistanceLaws` | backend/app/conditions/metrics.py:337-343 | the distance is symmetric, in [0, 1], zero exactly for equal normalised histograms and one exactly for disjoint non-empty ones |
| `ChiSquare.ZeroIsProportional` | backend/app/conditions/metrics.py:337-343 | zero distance means proportional counts |
| `ChiSquare.SumBounds` | backend/app/conditions/metrics.py:340-343 | the sum lies between zero and the joint mass, with both ends characterised |
| `ChiSquare.TermBounds` | backend/app/conditions/metrics.py:340-342 | what one bin contributes, with both ends characterised |
| `ChiSquare.NormalisedSum` | backend/app/conditions/metrics.py:338-339 | a normalised histogram is non-negative and sums to one, or to zero when empty |
| `ChiSquare.DistanceIsHarmonic` | backend/app/conditions/metrics.py:337-343 | the distance of non-empty histograms is one less the sum of the harmonic means of the normalised bins |
| `ChiSquare.TermIsHarmonic` | backend/app/conditions/metrics.py:340-342 | a bin contributes its joint mass less twice the harmonic mean of its sides |
| `EvidencePackage.EvidenceStore.CopyArtifacts` | backend/app/m12/package.py:73-88 | the package and the log after copying |
| `EvidencePackage.EvidenceStore.ListArtifacts` | backend/app/m12/package.py:137-149 | one entry with the right hash for every file but the manifest |
| `EvidencePackage.EvidenceStore.Build` | backend/app/m12/package.py:91-178 | the whole frozen tree; its manifest lists exactly the other files of that moment |
| `EvidencePackage.EvidenceStore.Verify` | backend/app/m12/package.py:181-233 | the status, exception included, and the exact contents of the missing, modified and extra lists |
| `EvidencePackage.EvidenceStore.CheckListed` | backend/app/m12/package.py:197-204 | which listed files are missing or modified |
| `EvidencePackage.EvidenceStore.FindExtra` | backend/app/m12/package.py:205-210 | which unlisted files are reported |
| `EvidencePackage.FrozenVerifies` | backend/app/m12/package.py:181-233 | a package verifies right after it is frozen |
| `EvidencePackage.VerifiedExactly` | backend/app/m12/package.py:181-233 | with manifest and digest files unchanged it verifies exactly when the tree is the frozen one but for unlisted files of the two reserved names |
| `EvidencePackage.ManifestChangeDetected` | backend/app/m12/package.py:212-216 | a changed manifest with an unchanged digest file is never called verified |
| `EvidencePackage.CopyChainFirst` | backend/app/m12/package.py:73-88 | each target holds the content of the first artifact copied to it |
| `EvidencePackage.ChainTargets` | backend/app/m12/package.py:73-88 | copying adds only files of data artifacts below the stage directories and touches no other |
| `EvidencePackage.TargetExactly` | backend/app/m12/package.py:73-88 | a copy goes below the directory of its milestone under its base name; two artifacts share a target exactly when they share both |
| `EvidencePackage.ChainCopied` | backend/app/m12/package.py:73-88 | the copy log is the list of data artifacts of the provenance chain with their targets |
| `EvidencePackage.CopiedFromExactly` | backend/app/m12/package.py:131-149 | every source recorded for a copied file is truthful if and only if, for each target, the first and the last data artifact of the chain with that milestone and base name have equal contents |
| `EvidencePackage.ManifestTruthfulExactly` | backend/app/m12/package.py:131-165 | the same for the manifest of a whole package |
| `EvidencePackage.SameNameMisattributed` | backend/app/m12/package.py:131-149 | two artifacts of one milestone with one base name end with the first content and the second attribution |
| `AiSessions.AISession.constructor` | backend/app/ai/sessions.py:66-71 | a new session |
| `AiSessions.AISession.Note` | backend/app/ai/sessions.py:81-88 | what a recorded exchange adds to the bounded histories |
| `AiSessions.NotedStep` | backend/app/ai/sessions.py:81-88 | one more exchange keeps a session holding the last eight questions that were not blank and the last eight answers that were not empty, cut to 300 and 200 characters |
| `AiSessionRuns.ResolveExactly` | backend/app/ai/sessions.py:48-75 | in every run a resolve of a live session that has not expired resumes it under its own pair and is refused under another; any other resolve opens the new session |
| `AiSessionRuns.LiveRemembers` | backend/app/ai/sessions.py:81-88 | in every run with or without resets a live session holds the last eight such questions and answers of all that was recorded for it |
| `AiSessions.SessionStore.constructor` | backend/app/ai/sessions.py:42-45 | limits are at least one session and sixty seconds |
| `AiSessions.SessionStore.Prune` | backend/app/ai/sessions.py:95-101 | exactly the expired sessions leave |
| `AiSessions.SessionStore.EvictOldest` | backend/app/ai/sessions.py:103-109 | exactly one session leaves, one with the least access time |
| `AiSessions.SessionStore.Open` | backend/app/ai/sessions.py:66-75 | a new session joins and over the cap an oldest one leaves |
| `AiSessions.SessionStore.Resolve` | backend/app/ai/sessions.py:48-75 | outcome and whole new store, isolation error included |
| `AiSessions.SessionStore.Record` | backend/app/ai/sessions.py:77-88 | only that session changes; an unknown one changes nothing |
| `AiSessions.SessionStore.Reset` | backend/app/ai/sessions.py:90-92 | exactly that session leaves |
| `AiSessionRuns.StoreBounded` | backend/app/ai/sessions.py:48-92 | in every run with or without resets the store never exceeds its cap, a resolved session is present with the pair it was asked for, and pairs never change |
| `AiSessionRuns.LiveSetExactly` | backend/app/ai/sessions.py:48-75 | in every run without resets the live sessions are exactly the most recently resolved ones, up to the cap, that have not expired |
| `AiSessionRuns.LiveIsMostRecent` | backend/app/ai/sessions.py:48-75 | that ranking determines the live set |
| `AiSessionRuns.ConsistentStep` | backend/app/ai/sessions.py:48-92 | every step keeps size, access times and pairs |
| `AiSessionRuns.LruStep` | backend/app/ai/sessions.py:48-75 | every resolve or record keeps the ranking |
| `AiSessionRuns.OpenedStays` | backend/app/ai/sessions.py:66-75 | a session just opened is not the one that is evicted |
| `AiSessionRuns.EvictRanked` | backend/app/ai/sessions.py:103-109 | evicting the oldest of too many keeps the ranking |
| `AiSessionRuns.PruneRanked` | backend/app/ai/sessions.py:95-101 | pruning keeps the ranking |
| `EvidenceReducer.Reduce` | backend/app/ai/evidence.py:48-76 | the recursion with its loops and early breaks computes the specified reduction |
| `EvidenceReducer.CompactReduced` | backend/app/ai/evidence.py:48-76 | a result has short strings, few items per container, no nulls inside containers and no scalar under a volatile key |
| `EvidenceReducer.CompactIdempotent` | backend/app/ai/evidence.py:48-76 | reducing twice is reducing once |
| `EvidenceReducer.ReducedFixed` | backend/app/ai/evidence.py:48-76 | a value already within all bounds is returned unchanged |
| `EvidenceReducer.CompactKind` | backend/app/ai/evidence.py:48-76 | above the depth limit a string keeps its first 400 characters, other scalars are kept and containers stay of their kind; below it nothing is left |
| `EvidenceReducer.SkippedExactly` | backend/app/ai/evidence.py:48-76 | skipped are the scalars under the seven clock keys |
| `EvidenceReducer.ItemsExactly` | backend/app/ai/evidence.py:67-75 | a reduced list is the first sixty of its reduced items that are not null |
| `EvidenceReducer.FieldsExactly` | backend/app/ai/evidence.py:56-66 | a reduced object has the first sixty of its fields that are neither clock scalars nor reduced to null |
| `EvidenceReducer.PacketBounded` | backend/app/ai/evidence.py:48-76 | a reduced packet nests at most four containers deep |
| `EvidenceReducer.CompactTimeless` | backend/app/ai/evidence.py:57-60 | scalars under volatile keys do not matter, whether they are there or not |
| `EvidenceReducer.ClockInsensitive` | backend/app/ai/evidence.py:57-60 | inputs that differ only in scalars under volatile keys reduce to the same value |
| `Json.SizeIsTextLength` | backend/app/ai/prompts.py:242-243 | the size is the length of the compact ASCII text |
| `Json.StringReadsBack` | backend/app/ai/prompts.py:242-243 | the ASCII text of a string, escapes and surrogate pairs included, reads back as that string |
| `Json.GetExactly` | backend/app/ai/prompts.py:223-236 | a lookup answers the value of the first field of that key |
| `Json.DeleteShrinks` | backend/app/ai/prompts.py:242-243 | deleting a present key makes the compact text shorter |
| `Json.SetShrinks` | backend/app/ai/prompts.py:242-243 | so does replacing a value by a shorter one |
| `PromptBudget.CollectRemovable` | backend/app/ai/prompts.py:223-230 | the loops list the present removable parts in order with their sizes |
| `PromptBudget.PickLargest` | backend/app/ai/prompts.py:233 | the first part of the greatest size |
| `PromptBudget.PickSlot` | backend/app/ai/prompts.py:223-233 | what one pass takes |
| `PromptBudget.TrimOnce` | backend/app/ai/prompts.py:221-238 | what one pass of the loop does |
| `PromptBudget.Trim` | backend/app/ai/prompts.py:219-239 | the bounded loop computes the specified passes |
| `PromptBudget.Fit` | backend/app/ai/prompts.py:214-239 | the whole trimming, early exits included |
| `PromptBudget.BestIsFirstLargest` | backend/app/ai/prompts.py:233 | the first largest listed part is the one the specification takes |
| `PromptBudget.RemoveShrinks` | backend/app/ai/prompts.py:234-237 | every removing pass makes the packet strictly smaller |
| `PromptBudget.RemoveOnly` | backend/app/ai/prompts.py:234-237 | a removal takes its own part away and leaves every other path and entry as it was; an emptied entry does not stay behind |
| `PromptBudget.OnceSound` | backend/app/ai/prompts.py:220-238 | one pass keeps the account of what was dropped; a pass that stops fits or has nothing left |
| `PromptBudget.TrimSound` | backend/app/ai/prompts.py:219-239 | more passes than parts always finish the job |
| `PromptBudget.FitSound` | backend/app/ai/prompts.py:214-239 | the trimmed packet is within budget or has nothing removable left, so the thirty passes always suffice; each reported part was there, is reported once and is gone, and nothing else is |
| `PromptBudget.OptionalExactly` | backend/app/ai/prompts.py:224-230 | the parts that may go are summary and metrics of m1 to m10 |
| `PromptBudget.OptionalInOrder` | backend/app/ai/prompts.py:223-230 | the parts are listed milestone by milestone, summary before metrics, which settles ties |
| `PromptBudget.LookupExactly` | backend/app/ai/prompts.py:223-230 | a part is found exactly where the milestone entry is an object with that key |
| `PromptBudget.PassNeeded` | backend/app/ai/prompts.py:220-238 | before every removal the packet was over budget, and the removal took a part of the greatest size |
| `ResponseGrounding.MetricUniverse` | backend/app/ai/validator.py:234-246 | the identifiers that may be cited, or an exception exactly when some metrics value is no container |
| `ResponseGrounding.AllowedMilestones` | backend/app/ai/validator.py:219-231 | the milestone names that may be cited |
| `ResponseGrounding.CheckReference` | backend/app/ai/validator.py:97-116 | one reference: its normal form or the code it is rejected with |
| `ResponseGrounding.CheckEvidence` | backend/app/ai/validator.py:94-116 | all references in order or the code of the first bad one |
| `ResponseGrounding.Validate` | backend/app/ai/validator.py:69-144 | verdict of the whole validation with the order of its checks |
| `ResponseGrounding.JudgeAllExactly` | backend/app/ai/validator.py:94-116 | the evidence passes exactly when each reference does |
| `ResponseGrounding.AcceptedExactly` | backend/app/ai/validator.py:69-144 | acceptance is exactly the conjunction of the documented requirements, whatever the order of the checks |
| `ResponseGrounding.AcceptedIsGrounded` | backend/app/ai/validator.py:94-144 | an accepted answer has one reference for each given one, each with a claim, a citable milestone and a citable metric if any |
| `ResponseGrounding.AcceptedIsFaithful` | backend/app/ai/validator.py:69-144 | an accepted answer says what the provider said, each text stripped: the answer, one reference for each given one in order, the limitations and the suggestions |
| `ResponseGrounding.RejectionIsTrue` | backend/app/ai/validator.py:69-144 | a rejection names a defect that the response has |
| `ResponseGrounding.RaisesExactly` | backend/app/ai/validator.py:234-246 | validation raises for a milestone whose metrics are null, a boolean or a number |
| `ResponseGrounding.MilestonesExactly` | backend/app/ai/validator.py:218-231 | of the ten milestones those may be cited that the packet has an object for or whose pipeline state lists, in whatever case; the nine static names always may |
| `ResponseGrounding.OffersExactly` | backend/app/ai/validator.py:234-246 | a milestone offers the string identifiers of the objects in its list of metrics |
| `ResponseGrounding.StringsExactly` | backend/app/ai/validator.py:193-205 | the texts searched are exactly the strings that occur inside the evidence, object keys apart |
| `ResponseGrounding.CoercedExactly` | backend/app/ai/validator.py:173-184 | a list of strings is taken stripped, nothing as the empty list, anything else not at all |
| `ResponseGrounding.UpperExactly` | backend/app/ai/validator.py:218-231 | upper-casing capitalises each small ASCII letter and leaves every other character |
| `ResponseGrounding.UniverseAfter` | backend/app/ai/validator.py:234-246 | dropping parts takes the metrics of the dropped milestones out of what may be cited and nothing else |
| `ResponseGrounding.TrimmedUniverse` | backend/app/ai/prompts.py:186-190 | what may be cited of the packet that is sent |
| `ResponseGrounding.CitedMetricWasSent` | backend/app/ai/service.py:200-216 | whatever metric an accepted answer cites is one of the two fixed identifiers, the reference metric, or a metric of a milestone whose metrics were sent |

## Left out

- Floating-point rounding and the final `round(...)` calls: all arithmetic is over exact reals.
- SHA-256, PBKDF2, JWT, random tokens and identifiers: injective constructors or fresh inputs.
- Access tokens: only refresh sessions are modelled; an access token is an opaque string.
- User-name lower-casing: names are taken as lower-cased, and in throttle runs as stripped. The pattern the
  HTTP layer demands of user names (`backend/app/auth/models.py`) is not modelled; the service accepts others.
- AuthSessions.SingleUse: each service method is one atomic step; `AtomicityIsNeeded` shows what two
  interleaved refreshes of one token do.
- TokenRefresh.PresentedAtMostOnce: is about one page from its start-up on. The page's own refresh at start-up
  in `frontend/src/auth.jsx`, which bypasses the shared promise, and other tabs, which share the cookie but not
  the promise, are not part of this model; the network delivers a request at most once.
- RunLock.StaleTakeover: rewriting status files of the interrupted run (`mark_run_interrupted`) happens
  between the verdict and the unlink and is not modelled; it touches no lock file.
- RunLock.MutualExclusion: a lock is counted from the creation of its file until release has unlinked
  it; the `_held` flag stays set a little longer, until the registry entry is gone.
- AtomicWrite.DurableAfterReturn: speaks of a directory sync that succeeded; the code ignores a failing one.
- AtomicWrite.CrashAtomicity: file system metadata other than directory entries is not modelled, nor the
  two candidate names of the npy and npz writers.
- WindowSampling.Planes.Scan: Sobel, Laplacian and Canny values are arbitrary functions of a window; the
  reported pixel and sample fractions, `mask_statistics` and the entropy and dynamic-range metrics are left out.
- ChiSquare.DistanceLaws: `shared_histograms` (binning) is left out; histograms are given counts.
- EvidencePackage.EvidenceStore.Build: file sizes, the contents of the secret scan and the generated reports
  are given; milestone names that contain path separators are not modelled.
- Overlap.PolygonOverlap: the rounding used as de-duplication key is an arbitrary function of a vertex; label
  values that are not numbers are not modelled.
- Longitudes.LongestOverTurns: stated for box longitudes in [-180, 360]; `CompleteSearchExactly` has the
  condition for all windows.
- EvidencePackage.EvidenceStore.Verify: a manifest that is JSON of another shape is one kind of content, for
  which the whole check raises.
- PairIds.RoundTrip: decimal digits are ASCII; Python's pattern also admits other decimal digits. Very long
  digit strings, which Python refuses to convert, are not modelled.
- PairRegistry.Registry.Save: the CSV export and the temporary file are left out; a record is its identifier
  and one opaque value.
- AiSessionRuns.LiveSetExactly: assumes a strictly increasing clock; with equal times the choice of the oldest is open.
- EvidenceReducer.CompactReduced: stated for at least one item per container; the code always uses sixty.
  Values that are neither JSON nor tuples are not modelled.
- PromptBudget.Fit: values that need the `default=str` fallback are not modelled; a dropped part is a pair
  rather than the text `milestone.key`.
- ResponseGrounding.Validate: stripping, JSON parsing, leak patterns and forbidden terms are given functions;
  upper-casing is ASCII.
- `guarded_run` is acquire and release around a body; status-file reconciliation and the run-event ring share no
  state with the parts modelled.
- The Gemini client, redaction, routers, middleware, pages, configuration loading, image kernels and label parsing.
