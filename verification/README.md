# César Core: a Dafny model of its stores, limiters and policies

César Core is a gateway in front of AI, Search and Fetch providers. Its hard parts are small state
machines over shared stores (a Redis database, an SQLite file), a two-call AI protocol under one token
ceiling, and rule tables built by nested loops. This project models them and proves what holds of every
input, every run and every interleaving.

Every component has the same shape. Transactions and atomic commands are functions on values; the classes
and methods that change state in place are proved equal to those functions; runs are folds over sequences
of atomic steps, so that one sequence is one interleaving of any number of clients, processes and crashes;
the theorems are about all sequences.

| file | component |
|---|---|
| `Common.dfy` | result types, `str.strip`, text order |
| `FixedWindows.dfy` | counting admissions of consecutive windows in any interval |
| `Redis.dfy`, `Keys.dfy` | counters with deadlines under a nondecreasing clock, and their names |
| `Quota.dfy` | the `CONSUME` script, `QuotaLimiter.check`, runs with lost replies and changing limits |
| `LoginLimiter.dfy` | INCR and EXPIRE as separate steps, with clients dying in between |
| `Timestamps.dfy` | the calendar, `isoformat()`, and the order of the text |
| `Usage.dfy` | hourly rollups, retention and queries against the log of calls |
| `Sessions.dfy` | administrator sessions and `require_session` |
| `SessionRaces.dfy` | the same with the two statements of a validation apart |
| `Migrations.dfy` | schema migrations by several processes that may crash |
| `CredentialTokens.dfy` | printing, parsing and authenticating tokens |
| `ControlPlane.dfy`, `AdminRuns.dfy` | the Control Plane tables, their transactions, and interleaved admin handlers |
| `AuditTrail.dfy` | what the update route's audit records among other handlers |
| `Activation.dfy` | what the update route's checks for active applications guarantee over those runs |
| `Authentication.dfy` | `authenticate`, `authorize_capability` and `_authorized_context` over those runs |
| `Grounding.dfy` | grounded AI completion over arbitrary JSON replies |
| `Policy.dfy` | the AI and Search rule tables and their `resolve` |

Assumptions are visible in the statements: Redis scripts and SQL transactions are atomic and durable; the
random strings of issuing, the clock and every upstream reply are inputs; SHA-256 and HMAC are arbitrary
functions, and the HMAC is assumed injective only where `AcceptedTokenWasIssued` says so. A Redis key is
gone once the clock has passed its deadline; at the deadline itself it may be seen either way, and every
result holds for both. JSON numbers are integers or reals, and `json.loads` is an arbitrary partial
function from text to values.

Where the code and what is written about it differ, the model follows the code:

- A grounded completion whose second reply has no usage object is accepted on the first call's count
  (`_sum_usage`), although `_verify_max_tokens` is described as failing closed. `GroundedBudget` gives the
  bound in both cases, `SilentSecondReplyExactly` says exactly what is let through, and `UnprovenCeiling`
  is a concrete case.
- A start re-adds a capability that an administrator removed from `gg_oferta`; names, states and limits
  survive. `RestartIsNeutralExactly` is the exact condition, `RestartRestores` a case.
- `is_configured` looks at the models of both profiles, so the administrators' model can decide whether
  users are served at all, and the other way round. `ProfilesIndependentExactly` says when,
  `EnablingCouplesProfiles` is a case.
- After retention was lengthened, a call can be newer than the latest cutoff and be gone. The rollup
  theorem is therefore about the highest cutoff. `FoldFromLowerExactly` says when the latest one does as
  well, `LatestCutoffIsHighest` when the two are the same; `GrowingRetentionDoesNotRestore` is a case.
- A session refused as idle comes back if the idle limit is raised in time (`IdleRevivedExactly`,
  `IdleRevived`).
- A client that creates the login counter and dies before its EXPIRE leaves a counter that never ends: after N
  attempts the address is locked out for good (`DyingClientSticks`, `AbandonedForever`).
- Updating a disabled application with a capability that has no limit answers 404 (`UpdateRoute`).
- The update route refuses to activate an application without capabilities, limits and a live credential
  (or a file secret, for `gg_oferta`). The first two hold for ever (`ActiveHasQuota`). The third holds in
  every run without revocations (`UnrevokedHasCredential`), except for `gg_oferta`, which the first start
  makes active without a credential (`FirstStartIsBare`). With revocations it is lost in exactly two ways
  (`BareExactly`): the last credential of an active application is revoked, or an activation is written
  while the application has none, because the last one was revoked after the check (`ActivationRace`) or
  because `gg_oferta` passed the check with its file secret.
- SQLite opens the transaction of a session validation only at its UPDATE. `Sessions.dfy` takes a validation
  as one step; `SessionRaces.dfy` takes its two halves apart. Then a request can be accepted after logout
  (`AcceptedAfterLogout`), a refused session can come back (`RefusedThenAccepted`), and an active one can be
  refused early (`RefusedTooEarly`); `FinalExactly`, `RefusalFinalExactly` and `LatestRememberedExactly` say
  exactly when not.
- The update route compares two readings with other transactions in between, so its audit can miss its own
  changes or report those of others (`CrossingUpdatesHide`); `RecordsOwnExactly` says when it does not, and
  `QuietUpdateRecordsOwn` that it never does while nobody else writes that application.
- Two processes migrating at once never apply a script twice, but one of them can fail (`TwoStartTogether`);
  `FailsExactlyOnLostRace` says when, and processes that migrate one after the other never do
  (`SequentialNeverFails`).

## Model

| member | source | states |
|---|---|---|
| Quota.ConsumeScript | src/cesar_core/security/quota.py:20-34 | the script, command by command, has the effect and reply of the atomic step `Consume` |
| Quota.QuotaLimiter.CheckQuota | src/cesar_core/security/quota.py:120-132 | outcome and store after a check, for an invalid policy, a refusal before sending, bad durability settings, a lost reply, an exceeded and a granted quota |
| Quota.AnswersExactly | src/cesar_core/security/quota.py:120-132 | every answer on the entry and the fault alone: a check passes if and only if the policy is valid, nothing broke, and the counter is missing or live, an integer, at least 1 and below the limit |
| Quota.LeavesExactly | src/cesar_core/security/quota.py:20-34 | what each check leaves in the store: a new window, one more, or nothing; a check that failed before the script leaves everything |
| Quota.RunKeepsInvariant | src/cesar_core/security/quota.py:20-34 | in every run: a live counter equals the admissions of its window and expires with it; each window's admissions lie between min(attempts, smallest limit) and the largest limit passed; passed plus lost equals admitted |
| Quota.PassesWithinCounter | src/cesar_core/security/quota.py:43-82 | with lost replies and limits edited mid-window, what passes never exceeds the server counter, nor the counter the largest limit of the window |
| Quota.EveryPassIsLogged | src/cesar_core/security/quota.py:120-132 | over every run the checks that passed, whether they reached Redis or not, are the passes of the windows and never more than the admissions; those that reached it are the attempts |
| Quota.ExactPasses | src/cesar_core/security/quota.py:120-132 | when every check of a run passes one limit and none loses its reply, n attempts of a window pass exactly min(n, limit) |
| Quota.RateBound | src/cesar_core/security/quota.py:18-34 | each window admits at most L, starts are at least W apart, any interval of length k·W holds at most (k+1)·L admissions |
| Quota.OtherBudgetsUnchanged | src/cesar_core/security/quota.py:124-128 | traffic on other applications, capabilities, namespaces and logins never touches a budget, which only ends at its deadline |
| Quota.CeilSecondsMeans | src/cesar_core/admin/routes.py:302-309 | the ceiling of ttl/1000 is the usage screen's integer rounding and the least number of seconds covering a positive ttl |
| Quota.RetryAfterBounds | src/cesar_core/security/quota.py:131-132 | in every reachable state Retry-After (delay-seconds, section 10.2.3 of RFC 9110) is between 1 and the window, covers the remaining ttl, and is the least that does |
| Quota.LoneRetryAdmitted | src/cesar_core/security/quota.py:22-25 | a refused client that waits until Retry-After has passed, with any traffic on other keys meanwhile, is admitted |
| Keys.QuotaKeyInjective | src/cesar_core/security/quota.py:125 | a quota key determines namespace, application and capability, although namespaces may contain ':' |
| Keys.LoginKeyIsNoQuotaKey | src/cesar_core/admin/auth.py:43-44 | no login key is a quota key, whatever the namespaces |
| Keys.LoginKeyInjective | src/cesar_core/admin/auth.py:43-44 | a login key determines namespace and subject |
| LoginLimiter.RateLimitLogin | src/cesar_core/admin/auth.py:41-53 | store and outcome without interference, for every point at which the exchange can break |
| LoginLimiter.AttemptExactly | src/cesar_core/admin/auth.py:41-53 | answer, counter and deadline of an uninterrupted attempt on the counter and the fault alone |
| LoginLimiter.RunKeepsInvariant | src/cesar_core/admin/auth.py:46-49 | in every interleaving: a key without deadline has exactly one client on its way to expire it, or that client failed; counters match the attempts of their life |
| LoginLimiter.ExpireHitsOwnLife | src/cesar_core/admin/auth.py:48-49 | an EXPIRE finds the key alive, without deadline, in the life its sender's INCR created, and is the only one for it |
| LoginLimiter.LoggedExactly | src/cesar_core/admin/auth.py:47-53 | an attempt is counted at its instant exactly when the number INCR returned is within the limit |
| LoginLimiter.AttemptBound | src/cesar_core/admin/auth.py:41-53 | any interval of k minutes lets at most (k+1)·N attempts through, with clients dying anywhere |
| LoginLimiter.AbandonedForever | src/cesar_core/admin/auth.py:47-51 | a life whose expirer died never ends: no new life and never more than N attempts |
| LoginLimiter.DyingClientSticks | src/cesar_core/admin/auth.py:47-49 | a client that creates the counter and dies before its EXPIRE leaves such a life |
| LoginLimiter.AloneIsSequential | src/cesar_core/admin/auth.py:41-53 | the method leaves the store of the interleaved machine's steps taken without interference, and allows an attempt exactly when INCR returned a number within the limit and nothing broke |
| LoginLimiter.PassesWithinLog | src/cesar_core/admin/auth.py:46-53 | over every interleaving, in any interval, the attempts let through, together with a creator still to send its EXPIRE, are at most those of the log |
| LoginLimiter.PassBound | src/cesar_core/admin/auth.py:41-53 | any interval of k minutes sees at most (k+1)·N attempts that pass, with clients dying and replies lost anywhere |
| LoginLimiter.PassesAlone | src/cesar_core/admin/auth.py:46-53 | what the machine calls a pass is, without interference, what the method allows |
| Timestamps.FieldOrder | src/cesar_core/admin/storage.py:16-17 | field-by-field order of valid datetimes is the order of their instants, leap years included |
| Timestamps.IsoOrder | src/cesar_core/admin/storage.py:16-17 | isoformat texts compare as text exactly as their instants, also when the fraction is absent (outside the premise of section 5.1 of RFC 3339) |
| Timestamps.IsoLooksLike | src/cesar_core/admin/storage.py:16-17 | the text field by field, with and without microseconds |
| Timestamps.CalendarStands | src/cesar_core/admin/storage.py:16-17 | the calendar on known days, leap years included |
| Timestamps.At | src/cesar_core/admin/storage.py:389-400 | every instant of the years 1 to 9999 has a valid datetime with that instant |
| Timestamps.TextOrderIsTimeOrder | src/cesar_core/admin/storage.py:389-405 | the SQL comparison of two timestamps is the comparison of their instants, and equal texts are equal instants |
| Timestamps.ReplaceIsHourFloor | src/cesar_core/admin/storage.py:367-369 | zeroing minute, second and microsecond gives the start of the instant's hour |
| Usage.UsageStore.RecordUsage | src/cesar_core/admin/storage.py:356-386 | the upsert adds one request and the tokens and queries to the row of the call's hour; a constraint violation changes nothing |
| Usage.UsageStore.PruneUsage | src/cesar_core/admin/storage.py:399-406 | removes exactly the rows whose bucket text is below the cutoff, and returns their number |
| Usage.UsageStore.UsageRows | src/cesar_core/admin/storage.py:388-397 | returns exactly the rows whose bucket text is not below the cutoff, each once, ordered by that text |
| Usage.RollupIsFold | src/cesar_core/admin/storage.py:356-406 | after any history the table is, key by key, the requests, tokens and queries of the logged calls whose hour is at or after the highest cutoff, and nothing else |
| Usage.RollupIsSums | src/cesar_core/admin/storage.py:356-406 | each row holds the number of its logged calls from the highest cutoff on, the sum of their tokens and the sum of their queries, where a call belongs to a row by its hour and all five columns |
| Usage.LatestCutoffIsHighest | src/cesar_core/admin/storage.py:399-406 | a prune has the highest cutoff exactly when no other cut later; with one retention setting the latest prune has |
| Usage.FoldFromLowerExactly | src/cesar_core/admin/storage.py:356-406 | the table is also the fold from a lower cutoff, such as the latest, exactly when no logged call has its hour between that and the highest |
| Usage.GrowingRetentionDoesNotRestore | src/cesar_core/admin/storage.py:399-406 | with growing retention the statement about the latest cutoff fails |
| Usage.PruningIsInvisible | src/cesar_core/admin/storage.py:388-406 | pruning with retention R changes no later query of at most R days, whatever happens in between |
| Usage.QuerySelectsRecentHours | src/cesar_core/admin/storage.py:388-397 | a recorded call's hour is in the answer exactly when it starts within the period and no cutoff has passed it |
| Sessions.SessionStore.CreateSession | src/cesar_core/admin/storage.py:270-286 | inserts one row with unique id and token hash, or nothing |
| Sessions.SessionStore.ValidateSession | src/cesar_core/admin/storage.py:288-313 | accepts and touches the row, or refuses and changes nothing |
| Sessions.SessionStore.RevokeSession | src/cesar_core/admin/storage.py:315-320 | marks the row of the token revoked |
| Sessions.AcceptedInTime | src/cesar_core/admin/storage.py:288-313 | over every run, each accepted request is less than the lifetime after login and within the idle limit of the previous acceptance |
| Sessions.AcceptedExactly | src/cesar_core/admin/auth.py:80-98 | every answer on the request and the row alone; a request is accepted if and only if its token's session is not revoked, expired or idle and, for writes, origin and CSRF value fit; a refused one changes no row |
| Sessions.LoginLasts | src/cesar_core/admin/storage.py:270-313 | a login succeeds exactly when id and token hash are new, and lasts until the sooner of lifetime and idle limit |
| Sessions.LogoutIsLocal | src/cesar_core/admin/auth.py:101-104 | a logout revokes the row of its own cookie and touches no other |
| Sessions.RevokedOrExpiredStays | src/cesar_core/admin/storage.py:315-320 | a revoked or expired session is never accepted again, over any run |
| Sessions.DeadStaysDead | src/cesar_core/admin/storage.py:299-306 | once expired, idle or revoked, a session stays refused over any run whose idle limit does not grow |
| Sessions.IdleRevivedExactly | src/cesar_core/admin/storage.py:301-306 | after any run under limits no longer than the one it was refused under, an idle session revives exactly when nobody logged it out and a longer limit still covers its last acceptance |
| Sessions.IdleRevived | src/cesar_core/admin/storage.py:301-306 | a run from the empty table in which a session refused as idle is accepted under a longer limit |
| Sessions.LogoutIsFinal | src/cesar_core/admin/auth.py:101-104 | after logout no request with that cookie is accepted |
| SessionRaces.AcceptedInTime | src/cesar_core/admin/storage.py:288-313 | with the SELECT and the UPDATE of a validation apart: each acceptance is before the absolute expiry and within the idle limit of an earlier one |
| SessionRaces.OnlyInFlightAfterEnd | src/cesar_core/admin/storage.py:292-312 | after logout or expiry at most the validations already between their SELECT and UPDATE are accepted, each once |
| SessionRaces.FinalExactly | src/cesar_core/admin/storage.py:292-312 | logout and expiry are final, over every run, exactly when no validation is in flight |
| SessionRaces.AcceptedAfterLogout | src/cesar_core/admin/storage.py:292-320 | a run from the empty table that accepts a request of a revoked session |
| SessionRaces.DeadStaysDead | src/cesar_core/admin/storage.py:299-312 | an idle session stays refused and no validation begins, if those in flight are as old |
| SessionRaces.RefusalFinalExactly | src/cesar_core/admin/storage.py:299-312 | being refused is final, over every run whose idle limit does not grow, exactly when the session is revoked or expired or every validation in flight is as old as the limit |
| SessionRaces.RefusedThenAccepted | src/cesar_core/admin/storage.py:301-312 | a run from the empty table in which a session is refused as idle and accepted at the same instant |
| SessionRaces.LatestRememberedExactly | src/cesar_core/admin/storage.py:308-312 | the row remembers the last UPDATE; that is the latest acceptance throughout a run exactly when no UPDATE is overtaken by that of a younger validation |
| SessionRaces.RefusedTooEarly | src/cesar_core/admin/storage.py:301-312 | a run from the empty table in which an overtaken UPDATE makes an active session count as idle |
| Migrations.Database.Migrate | src/cesar_core/admin/storage.py:40-65 | alone, migrate applies exactly the missing scripts, in order |
| Migrations.MissingAfterPrefix | src/cesar_core/admin/storage.py:48-57 | once a prefix of the list is applied, the rest is missing, in order |
| Migrations.RunKeepsInvariant | src/cesar_core/admin/storage.py:48-65 | for several processes and crashes: the applied set is a prefix of the list, its scripts took effect once and in order, and a completed process implies that all are applied |
| Migrations.EffectsOnce | src/cesar_core/admin/storage.py:60-65 | no script takes effect twice or again |
| Migrations.RerunChangesNothing | src/cesar_core/admin/storage.py:48-57 | once all are applied, further runs change nothing and none fails |
| Migrations.SequentialNeverFails | src/cesar_core/admin/storage.py:40-65 | if every process begins when no other is at work, no process of the run ever fails, whatever crashes in between |
| Migrations.FailsExactlyOnLostRace | src/cesar_core/admin/storage.py:48-65 | over any run of any number of processes, one has failed exactly when, after its last beginning, another committed a script before it came to that script itself |
| Migrations.TwoStartTogether | src/cesar_core/admin/storage.py:48-65 | two processes starting together on a new database: one fails, the script is applied once |
| CredentialTokens.IssueCredential | src/cesar_core/admin/crypto.py:27-37 | the id is the random one with '-' and '_' replaced, the token is "cc_", id, point and secret, it parses to its parts, and its MAC is that of the token without "cc_" |
| CredentialTokens.ParsesExactly | src/cesar_core/admin/crypto.py:40-46 | what parses, on the text alone |
| CredentialTokens.IssuedParses | src/cesar_core/admin/crypto.py:40-46 | parsing a printed token returns its id and secret |
| CredentialTokens.ParsedPrints | src/cesar_core/admin/crypto.py:22-46 | a successful parse reprints to the same token, and its MAC message is the token without "cc_" |
| CredentialTokens.ParseInjective | src/cesar_core/admin/crypto.py:22-46 | distinct parseable tokens have distinct parts and distinct MAC messages |
| ControlPlane.ControlPlaneStore.BootstrapStore | src/cesar_core/admin/storage.py:67-108 | the inserts that ignore conflicts, all or nothing |
| ControlPlane.ControlPlaneStore.CreateApplication | src/cesar_core/admin/storage.py:152-163 | inserts a disabled, unprotected application, or nothing if its id or client id is taken |
| ControlPlane.ControlPlaneStore.WritePolicies | src/cesar_core/admin/storage.py:189-199 | the sorted loop succeeds exactly for known capabilities with positive limits, and then has written all their rows; otherwise the first faulty capability names the exception |
| ControlPlane.ControlPlaneStore.UpdateApplication | src/cesar_core/admin/storage.py:24-38 | the update happens entirely or every table is as before, with the exception that each cause raises |
| ControlPlane.UpdateExactly | src/cesar_core/admin/storage.py:165-208 | an update on the tables, row by row: nothing, or name, state, capabilities and the limits of those |
| ControlPlane.InsertsExactly | src/cesar_core/admin/storage.py:152-259 | creation, credential insert and revocation on the tables, row by row |
| ControlPlane.BootstrapExactly | src/cesar_core/admin/storage.py:96-108 | a start on the tables, row by row, whatever the limits |
| ControlPlane.ControlPlaneStore.InsertCredentialRow | src/cesar_core/admin/storage.py:222-243 | inserts a live credential of an existing application under a new id, or nothing |
| ControlPlane.ControlPlaneStore.RevokeCredential | src/cesar_core/admin/storage.py:253-259 | revokes a live credential and returns true, or changes nothing and returns false |
| AdminRuns.FirstBootstrap | src/cesar_core/admin/storage.py:67-108 | the first start sets up gg_oferta with three limits, and claudiao reserved and protected, consistently |
| AdminRuns.LaterBootstrap | src/cesar_core/admin/storage.py:96-108 | a later start keeps applications, credentials and limits, adds missing limits and gg_oferta's three capabilities |
| AdminRuns.RestartIsNeutralExactly | src/cesar_core/admin/storage.py:96-108 | a start changes nothing if and only if gg_oferta has all three capabilities |
| AdminRuns.RestartRestores | src/cesar_core/admin/storage.py:96-108 | a reachable state in which a start gives gg_oferta back a capability that was removed |
| AdminRuns.UpdateProceedsExactly | src/cesar_core/admin/routes.py:161-176 | when an update gets past the route's checks, on the tables and the payload alone |
| AdminRuns.IssueProceedsExactly | src/cesar_core/admin/routes.py:246-257 | when a credential is issued |
| AdminRuns.UpdateRoute | src/cesar_core/admin/routes.py:156-222 | status, tables and audit events for every payload, including the 404 for a capability without a limit |
| AdminRuns.UnauditedIsUnchanged | src/cesar_core/admin/routes.py:193-221 | without interference an update that records no change of state, capabilities or limits changed nothing but the display name |
| AuditTrail.QuietUpdateRecordsOwn | src/cesar_core/admin/routes.py:160-221 | over any run in which nobody else writes the application between the two readings of the route, it records exactly its own changes, and recording none it changed nothing but the name |
| AuditTrail.RecordsOwnExactly | src/cesar_core/admin/routes.py:193-221 | for whatever others write between the readings, exactly when the record is the handler's own: what it changed was not there at first and still is at the end, what it left alone is as at first |
| AuditTrail.CrossingUpdatesHide | src/cesar_core/admin/routes.py:160-221 | two crossing updates that each change the capabilities and record no change |
| AuditTrail.CrossingIsReachable | src/cesar_core/admin/routes.py:156-192 | such updates are possible right after the first start |
| AdminRuns.PriorReadStands | src/cesar_core/admin/storage.py:174-178 | what an update read before its transaction still holds when it writes, whatever happened in between |
| AdminRuns.RunKeepsInvariant | src/cesar_core/admin/routes.py:156-270 | in every run of interleaved handlers: capabilities have quota rows, limits are at least 1, owners exist, every credential's MAC is that of an issued token, and the tables only evolve |
| AdminRuns.RunsGuarantee | src/cesar_core/admin/storage.py:165-259 | from the first start on, between any two points of a run: no quota row, application or credential disappears, protection and ownership do not change, revocation is not undone, claudiao stays apart |
| AdminRuns.RevocationHasOneWinner | src/cesar_core/admin/storage.py:253-259 | a credential is revoked exactly when exactly one revoke call on it returned true |
| Activation.ActiveHasQuota | src/cesar_core/admin/routes.py:167-188 | in every run of interleaved handlers an active application has a capability and for it a limit of at least 1 |
| Activation.RevokeCounts | src/cesar_core/admin/storage.py:253-268 | a winning revoke takes exactly one from the owner's live credentials, a losing one none, and applications stay as they are |
| Activation.BareExactly | src/cesar_core/admin/routes.py:167-188 | for every step of every handler: an application becomes active without a live credential exactly when its last one is revoked while it is active, or its activation is written while it has none |
| Activation.UnrevokedHasCredential | src/cesar_core/admin/routes.py:174-176 | over every run without revocations every active application but gg_oferta has a live credential |
| Activation.FirstStartIsBare | src/cesar_core/admin/storage.py:67-108 | from the first start on gg_oferta, and it alone, is active without a credential |
| Activation.ActivationRace | src/cesar_core/admin/routes.py:174-188 | an activation that passed its check is written although the only credential was revoked meanwhile |
| Activation.ReadyIsReachable | src/cesar_core/admin/routes.py:246-278 | the state in which that race can happen is two requests away from the first start |
| Authentication.AcceptedTokenWasIssued | src/cesar_core/security/authentication.py:25-74 | with an injective MAC, an accepted credential is the file secret, or literally a token issued for a credential live at look-up whose application is active |
| Authentication.AcceptedExactly | src/cesar_core/security/authentication.py:25-74 | over every run, with an injective MAC: a header is accepted as an application if and only if that is active and the candidate is the file secret and no token, or literally an issued token of a live credential |
| Authentication.FileSecretExactly | src/cesar_core/security/authentication.py:58-76 | every answer to a candidate that is no token |
| Authentication.TokenExactly | src/cesar_core/security/authentication.py:39-56 | every answer to a candidate that is a token, on the stored row and the registry |
| Authentication.CandidateExactly | src/cesar_core/security/authentication.py:32-37 | the candidate is the text between white space after "Bearer " |
| Authentication.IssuedTokenAccepted | src/cesar_core/security/authentication.py:39-56 | an issued token of a live credential is accepted exactly while its application is active |
| Authentication.RevokedNeverAccepted | src/cesar_core/security/authentication.py:43-52 | after revocation, no later run accepts the token |
| Authentication.ClaudiaoNeverAuthenticated | src/cesar_core/security/authentication.py:53-56 | in every run the protected application stays reserved, without capability, limit or credential, and is never authenticated |
| Authentication.AuthorizedContext | src/cesar_core/api/deps.py:112-125 | reads capability and limit, then consumes one unit of the shared quota, in that order |
| Authentication.AdmitExactly | src/cesar_core/api/deps.py:112-125 | an authorized request is one of an active application with the capability; it passes exactly below its stored limit under its own counter, and no other counter changes |
| Authentication.AuthorizedHasPolicy | src/cesar_core/api/deps.py:119-125 | an authorized request never meets the missing or invalid quota policy, whatever is administered between its reads; a denied one consumes nothing |
| Grounding.CompleteCall | src/cesar_core/ai/providers/omniroute.py:30-147 | result and payloads sent equal the specification, for every upstream |
| Grounding.GroundedCalls | src/cesar_core/ai/providers/omniroute.py:75-104 | with grounding there is a second call exactly when the first reply grounds it; the last reply or fault decides |
| Grounding.PlainCall | src/cesar_core/ai/providers/omniroute.py:50-74 | without grounding there is one call |
| Grounding.FirstPayloadExactly | src/cesar_core/ai/providers/omniroute.py:30-48 | the first payload on the request's own fields |
| Grounding.FollowupPayload | src/cesar_core/ai/providers/omniroute.py:209-224 | the second payload: same model and provider, no search, what is left of the ceiling |
| Grounding.RespondExactly | src/cesar_core/ai/providers/omniroute.py:106-147 | a reply becomes a response if and only if it is text, within the ceiling by its usage, and no source is blank; and every field of the response |
| Grounding.RespondRefusesExactly | src/cesar_core/ai/providers/omniroute.py:106-131 | why it does not |
| Grounding.UsageExactly | src/cesar_core/ai/providers/omniroute.py:243-250 | the three counts of a usage object, each from its own field |
| Grounding.SumExactly | src/cesar_core/ai/providers/omniroute.py:227-240 | counts are added when both are there; one usage alone stands |
| Grounding.GroundedFollowup | src/cesar_core/ai/providers/omniroute.py:150-224 | the follow-up payload and sources, or the refusal, for every body |
| Grounding.CollectEvidence | src/cesar_core/ai/providers/omniroute.py:177-202 | the loops gather sources and tool messages up to the first refusal |
| Grounding.EvidenceExactly | src/cesar_core/ai/providers/omniroute.py:177-193 | a tool result is accepted with these items if and only if it answers a declared web-search call with the text of an object that reports success and this non-empty list |
| Grounding.FollowupAcceptsExactly | src/cesar_core/ai/providers/omniroute.py:150-208 | there is a second call if and only if the first reply carries identified web-search calls and results that are all evidence with some URL, and leaves something of the ceiling |
| Grounding.FollowupRefusesExactly | src/cesar_core/ai/providers/omniroute.py:167-208 | why there is none, in this order |
| Grounding.UngroundedExactly | src/cesar_core/ai/providers/omniroute.py:157-166 | a reply counts as not grounded at all exactly when it carries no calls or no tool results |
| Grounding.CollectRefusesExactly | src/cesar_core/ai/providers/omniroute.py:177-193 | the first tool result that is no evidence decides the refusal |
| Grounding.EvidenceRefusesExactly | src/cesar_core/ai/providers/omniroute.py:180-192 | why a tool result is no evidence |
| Grounding.CeilingHolds | src/cesar_core/ai/providers/omniroute.py:253-274 | a completion returned under a ceiling reports a completion usage, at most the ceiling |
| Grounding.GroundedBudget | src/cesar_core/ai/providers/omniroute.py:206-240 | the second call is sent the ceiling M - c1, at least 1; with a second usage object c1 + c2 is reported and at most M; without one, c1 |
| Grounding.UnprovenUsageRefused | src/cesar_core/ai/providers/omniroute.py:206-208 | a usage object without a completion count is refused in either call |
| Grounding.SilentSecondReplyExactly | src/cesar_core/ai/providers/omniroute.py:227-231 | a second reply without a usage object is accepted, on the first call's count, exactly when it carries text and no source is blank |
| Grounding.UnprovenCeiling | src/cesar_core/ai/providers/omniroute.py:227-231 | a concrete pair of replies: a completion of unknown length accepted under a ceiling of 2 |
| Grounding.Transcript | src/cesar_core/ai/providers/omniroute.py:167-219 | the follow-up is the original messages, the assistant message, one tool message per result in order, each with the id and text of a result that is evidence for a declared web-search call |
| Grounding.DedupMeans | src/cesar_core/ai/providers/omniroute.py:224 | deduplication keeps exactly the elements, once, in the order of first occurrence |
| Grounding.Sources | src/cesar_core/ai/providers/omniroute.py:177-224 | the source list is not empty, duplicate-free, in the order in which URLs first occur in the results, and a URL is in it exactly when it is the non-empty text under "url" of some item of evidence |
| Grounding.ResponseSources | src/cesar_core/ai/contracts.py:156-164 | a response lists sources exactly when grounding was asked for, and none is blank |
| PolicyBasics.ActiveIds | src/cesar_core/api/deps.py:173-178 | the ids of exactly the active applications with the capability |
| AIPolicy.WriteTarget | src/cesar_core/api/deps.py:182-210 | the nested loops write one target to exactly the keys they range over |
| AIPolicy.BuildRules | src/cesar_core/api/deps.py:167-210 | the table after both passes holds exactly the declared rule of every key |
| AIPolicy.ResolvesToChoice | src/cesar_core/ai/policy.py:47-87 | a request resolves to a target if and only if that is the declared choice, and it satisfies the cost policy and the max_tokens rules |
| AIPolicy.ResolvesOnFields | src/cesar_core/ai/config.py:27-55 | the same on the configuration's own fields: model, provider, price and limits of the target, one clause for each service class |
| AIPolicy.RefusedExactly | src/cesar_core/ai/policy.py:47-87 | why a request is refused |
| AIPolicy.ResolvesFromRules | src/cesar_core/ai/policy.py:47-87 | on any rules: the rule of the request's own purpose first, then the wildcard's |
| AIPolicy.ProfileWins | src/cesar_core/ai/config.py:35-55 | a profile's own model wins for every class, free for users, paid for administrators; otherwise the class model; never a blank one |
| AIPolicy.ProfilesIndependentExactly | src/cesar_core/ai/config.py:27-33 | either profile's model affects a rule of the other profile exactly when it switches the gateway on or off for it |
| AIPolicy.EnablingCouplesProfiles | src/cesar_core/ai/config.py:27-33 | a concrete configuration where it does |
| SearchPolicy.BuildRules | src/cesar_core/api/deps.py:246-282 | the table holds exactly the declared rule of every key, although the applications are listed anew for every class and purpose |
| SearchPolicy.ResolvesToChoice | src/cesar_core/search/policy.py:43-72 | a request resolves to the documentation provider for documentation, else to the class provider, if and only if the application was listed for it and cost and result limit allow it |
| SearchPolicy.ResolvesOnFields | src/cesar_core/api/deps.py:246-282 | the same on the configuration's own fields, with the health URL that searxng-search needs |
| SearchPolicy.RefusedExactly | src/cesar_core/search/policy.py:43-72 | why a request is refused |
| SearchPolicy.ResolvesFromRules | src/cesar_core/search/policy.py:43-72 | on any rules: the rule of the request's own purpose first, then the wildcard's |

## Left out

- Quota.QuotaLimiter.CheckQuota: configuration, secret files and the durability probe are reduced to the faults they cause; a counter is an unbounded integer, so INCR's overflow at 2^63 is not modelled.
- ControlPlane.ControlPlaneStore.UpdateApplication: the columns created_at and updated_at are not modelled, and its read before the transaction is one step with it, which `AdminRuns.PriorReadStands` justifies.
- Sessions.SessionStore.ValidateSession: instants replace the stored text, whose parsing is the inverse of printing because equal texts are equal instants; SELECT and UPDATE are one step here, and two in `SessionRaces`.
- Migrations.Database.ExecuteScript: a script is its version; the SQL inside the scripts is not modelled.
- AdminRuns.UpdateRoute: its transactions run one after the other here, and among others in `AuditTrail`; the correlation id of its audit rows and the response body are not modelled, nor are the audit rows of the other handlers.
- The Fetch rule table and the Search and Fetch response adapters, which repeat the AI ones with less state.
- The OmniRoute HTTP client, health and readiness, tracing, metrics and the web interface.
- URL, DNS and address checks of Fetch requests.
- Validation of request bodies: its bounds appear as preconditions where they matter.
- Argon2 password verification and the login route around the limiter and the session.
