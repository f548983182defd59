# VisiOnRoute protocols, verified

A Dafny model of the parts of VisiOnRoute whose correctness depends on more than one function:
step protocols over database rows, greedy algorithms over streams, and bounded data structures
that stand in for unbounded ones. `dafny verify dfyconfig.toml` checks everything.

Every transaction of the original is one atomic step; rows are records in sequences and are
identified by their position, so ids and opaque tokens are fresh and distinct by construction.
Instants are whole microseconds (seconds as reals for the rate limiter); rates, distances and
scores are reals. Code that changes rows in place is a class whose methods are proved equal to a
function of the old state; what the code promises is then proved about those functions, over
every input or every run. Laws with the conditions and the constants of the code written out say which
answer each operation gives and what it leaves.

| file | what it models |
|---|---|
| `refresh_tokens.dfy` | refresh-token families at the server: rotation, grace-window retry, reuse alarm, logout, global revocation |
| `refresh_client.dfy` | the single-flight client of that protocol on a lossy network |
| `account_lockout.dfy` | the failed-login counter and lock of an account |
| `rate_limit.dfy` | the sliding-window limiter: decision, in-memory counters with pruning, Redis counters with expiry |
| `safety_engine.dfy` | rule hits of a telemetry sample and their 30-second deduplication |
| `trips.dfy` | telemetry points, trips, distance, and the stale-trip sweep |
| `ingestion.dfy`, `outbox.dfy` | validation, natural keys, quarantine and announcement of raw events |
| `worker.dfy`, `batch_isolation.dfy` | the outbox worker: claims, savepoints, retries, dead letters |
| `pipeline_effects.dfy` | what one dispatch does to telemetry and safety events, said without the handlers |
| `exactly_once.dfy`, `pipeline_runs.dfy`, `pipeline_traces.dfy`, `outbox_drain.dfy` | whole runs of ingest, worker, replay, loss and sweep steps; where every point and every occurrence comes from |
| `mail_delivery.dfy` | mail delivery with leases, crashes and late workers |
| `event_stream.dfy` | the incremental server-sent-event reader of the browser and the server's printer |
| `road_risk.dfy` | greedy spatial clustering and the rebuild of a tenant's road risks |
| `options.dfy`, `powers.dfy`, `geography.dfy` | shared vocabulary |

## What the proofs found

Some statements one would expect are false of the code; each has a lemma with the exact condition
or a concrete run.

- A refresh request that the browser gave up and that reaches the server after a later token has
  reached the browser makes the browser look like a thief, at once or at its next refresh, also
  within the grace (`RefreshClient.LateRequestIsTakenForTheft`, exact condition in
  `RefreshClient.NeverFlaggedIff`).
- A retry after a lost rotation answer is taken for theft when the client's user agent is empty or
  longer than 400 characters, or has changed since the login: the stored agent is normalised, the
  presented one is not (`RefreshTokens.LostAnswerRetryIff`).
- The account row is not locked while a password is checked, so logins that overlap are all checked
  and together count as one: at one instant any number of wrong passwords can be
  (`AccountLockout.OverlappingLoginsCountOnce`). The rate holds with eleven more for each of them
  (`AccountLockout.LockoutRate`).
- The in-memory limiter prunes by window number across window lengths. It decides every run like a
  limiter that never forgets exactly when all keys share one window length
  (`RateLimit.OneWindowIff`); otherwise 50,003 hits at one instant end with one that is wrongly allowed
  (`RateLimit.MixedWindowsMisjudge`, `RateLimit.HourlyCountersAreForgotten`).
- A quarantined event keeps its natural key, so the same event sent again in good order is a
  duplicate and is never accepted: acceptance needs, beside an event that passes the checks and can
  be stored, a key that no row holds (`Ingestion.AcceptedIff`, `Ingestion.QuarantineHoldsTheKey`).
- An event that cannot be stored makes the whole ingest batch fail, although a rejected one is meant
  to be quarantined: a rejected event with an id longer than its column, a timestamp whose time zone
  puts it outside the years 1 to 9999 of universal time, or any event with U+0000 or a lone
  surrogate in a text or with a number that JSON lacks (`Ingestion.BatchGoesThroughIff`,
  `Ingestion.OneOverlongIdLosesTheBatch`).
- Equal or decreasing timestamps bypass the 400 km/h check; the span of a trip bounds its distance
  exactly when its timestamps rise (`Trips.SpanBoundsIffRising`, `Trips.StepIsCheckedIff`,
  `Trips.NoTimeBypassesTheCheck`, `Trips.SameInstantBypassesTheCheck`).
- Mail attempts exceed the configured maximum exactly when a message is claimed whose attempts are
  used up, which the claim does not check (`MailDelivery.MaximumExceededIff`): by at most one per
  takeover of an expired lease, and every takeover can count (`MailDelivery.AttemptsAreBounded`,
  `MailDelivery.BoundIsMet`).
- A CRLF cut in two by the network is not recognised as a line end
  (`EventStream.ChunkingInvisibleIff`). The event of a block changes exactly when the line cut is a
  data line, or names the event of a block with data (`EventStream.SplitLineEndSeenIff`); cut at the
  blank line, the event is held back
  (`EventStream.SplitBlankLineHoldsTheEvent`).
- The outbox retry delay never reaches its cap of 300 seconds, because an event is a dead letter
  first (`OutboxWorker.RetryDelays`).
- The safety evaluation divides by zero exactly when a rule fires whose threshold is zero, and the
  worker sees a failing handler (`SafetyEngine.EvaluationFailsIff`, `SafetyEngine.ZeroThresholdFails`).
  Thresholds are read from `risk_thresholds` of the organisation settings
  (`src/visionroute/application/safety/engine.py:168-177`); no code writes that column, so such a
  value comes from stored data.

## Model

| member | source | states |
|---|---|---|
| RefreshTokens.IdentityService.StartSession | src/visionroute/application/identity/service.py:201-231 | a login appends one open session that starts a family of its own, with the normalised user agent |
| RefreshTokens.IdentityService.RevokeFamily | src/visionroute/application/identity/service.py:329-337 | exactly the open sessions of the family are closed, marked for reuse only on an alarm |
| RefreshTokens.IdentityService.RotateRefreshToken | src/visionroute/application/identity/service.py:235-303 | the new table and the answer for every case: unknown, reused, retried, expired, inactive user, rotated; an error leaves the table unless the alarm committed first |
| RefreshTokens.IdentityService.Logout | src/visionroute/application/identity/service.py:339-344 | the family of a known token is closed, an unknown token changes nothing |
| RefreshTokens.IdentityService.RevokeAllSessions | src/visionroute/application/identity/account_security.py:370-379 | exactly the open sessions of the user are closed |
| RefreshTokens.StepKeepsValid | src/visionroute/application/identity/service.py:246-304 | every step keeps one open session per family at most and links inside the family that point forward |
| RefreshTokens.ReachableStatesAreValid | src/visionroute/application/identity/service.py:201-304 | the same, spelled out for every state that any run reaches |
| RefreshTokens.AnsweredIff | src/visionroute/application/identity/service.py:235-327 | which answer every presentation gets: a new token for one that is open or may be retried, in time and for an active user; the alarm for one that is revoked and may not be retried; a refusal else |
| RefreshTokens.RowsAfterPresentation | src/visionroute/application/identity/service.py:246-297 | a refusal changes no row; a new token changes the presented row, revoked and linked to it, and the successor that a retry replaces, and no other |
| RefreshTokens.NewSession | src/visionroute/application/identity/service.py:206-231 | a new session is one open row at the end, of the right user, family and agent, whichever step created it |
| RefreshTokens.TokenLivesItsTtl | src/visionroute/application/identity/service.py:213-291 | a token, from a login or a rotation, is accepted on its first presentation exactly while less than the configured time has passed since it was created and its user is active, whatever happens to other families meanwhile; else it is refused without an alarm |
| RefreshTokens.DeadFamilyIsRefused | src/visionroute/application/identity/service.py:246-261 | a token of a family without an open session only ever raises the alarm |
| RefreshTokens.DeadStaysDead | src/visionroute/application/identity/service.py:246-304 | in no later run does a dead family open a session or have a token accepted |
| RefreshTokens.FamilyIsKilled | src/visionroute/application/identity/service.py:329-344 | logout, alarm and global revocation each leave the family dead |
| RefreshTokens.KilledFamilyNeverReopens | src/visionroute/application/identity/service.py:246-344 | after any of the three, no run reopens the family |
| RefreshTokens.AcceptedWithinGrace | src/visionroute/application/identity/service.py:281-297 | every later acceptance of a token lies within the grace of its first rotation and comes from the same agent, whatever happened between |
| RefreshTokens.LostAnswerRetryIff | src/visionroute/application/identity/service.py:211-321 | a retry of a lost rotation is no alarm exactly when a grace is configured, it is in time, and its agent is the one stored at login, for an unchanged agent one that is absent or has 1 to 400 characters |
| RefreshTokens.NormalizedAgentFixpoint | src/visionroute/application/identity/service.py:211 | which user agents are stored as they are presented |
| RefreshClient.ApiClient.RefreshSession | apps/web/src/lib/api.ts:117-140 | a request is sent exactly when none is in flight |
| RefreshClient.ApiClient.Settle | apps/web/src/lib/api.ts:119-137 | the flight ends in every case, also with an answer of the rate limit, only a readable session replaces the access token, and an OK answer sets the cookie whatever its body |
| RefreshClient.HonestPresentation | src/visionroute/application/identity/service.py:246-279 | while its family lives, a request of an honest client is answered with a token exactly while less than the configured time has passed since the server issued the token it holds, and the user is active |
| RefreshClient.NextKeepsHonest | apps/web/src/lib/api.ts:117-140 | every client event, loss, foreign traffic and harmless late arrival keeps the two-party invariant |
| RefreshClient.SafeIffHarmless | src/visionroute/application/identity/service.py:246-272 | of all events after which an honest client could be taken for a thief, exactly the harmful late arrivals and overtaken answers do it |
| RefreshClient.LossIsHarmless | apps/web/src/lib/api.ts:117-140 | a network that only loses requests and answers does no harm in any run |
| RefreshClient.OwnEventsKeepFamilyAlive | src/visionroute/application/identity/service.py:246-304 | the client's own events never close its family |
| RefreshClient.NeverFlaggedIff | src/visionroute/application/identity/service.py:246-327 | throughout a run the client is safe exactly when no request it gave up arrives for an older token or after the grace, unless turned away, and no overtaken answer is delivered |
| RefreshClient.HonestClientIsNeverFlagged | src/visionroute/application/identity/service.py:246-327 | in any run without that harm no session of the client's family is marked, and while the family lives its next refresh yields a token exactly within the configured time since the last one was issued, for an active user |
| RefreshClient.LateRequestIsTakenForTheft | src/visionroute/application/identity/service.py:246-264 | a run in which a late request within the grace makes the client's next refresh an alarm |
| AccountLockout.Account.Authenticate | src/visionroute/application/identity/service.py:165-199 | counter, lock and answer for every login attempt |
| AccountLockout.Account.ResetPassword | src/visionroute/application/identity/account_security.py:113-117 | a reset clears counter and lock |
| AccountLockout.AloneItIsOneStep | src/visionroute/application/identity/service.py:170-199 | a login that nothing overlaps does to the row, and answers, what reading and committing at once does |
| AccountLockout.WhoIsLetIn | src/visionroute/application/identity/service.py:165-199 | at any point of any run an attempt is let in exactly when its address is known, its password matches and no lock reaches past its instant, and told of the lock exactly when known and locked; a refusal without a check leaves the row, a success clears it |
| AccountLockout.WhoIsLetInMeanwhile | src/visionroute/application/identity/service.py:165-199 | the same for an overlapping login: the lock is told when the row is read, the password decides when it commits |
| AccountLockout.OverlappedCommit | src/visionroute/application/identity/service.py:180-199 | an overlapped login writes the columns it changed, computed from the row it read, and leaves the others as the overlapping ones wrote them |
| AccountLockout.LockedIff | src/visionroute/application/identity/service.py:176-199 | by the answers alone: in a run without overlaps a login is refused as locked exactly when the wrong passwords since the last success or reset have reached a multiple of ten, the last less than 15 minutes ago |
| AccountLockout.PeriodBound | src/visionroute/application/identity/service.py:170-199 | in any run, overlapping logins included, at most ten checked wrong passwords in any 15 minutes, plus what successes, resets and overlaps give back |
| AccountLockout.TenthWrongPasswordLocks | src/visionroute/application/identity/service.py:176-195 | exactly ten wrong passwords in a row are checked, then any password is refused for 15 minutes and no longer |
| AccountLockout.LockoutRate | src/visionroute/application/identity/service.py:170-199 | at most ten per period over any number of periods, plus nine per success, ten per reset and eleven per overlapping login |
| AccountLockout.OverlappingLoginsCountOnce | src/visionroute/application/identity/service.py:170-194 | any number of logins that read the same unlocked row are all checked and raise the counter by one |
| RateLimit.Decide | src/visionroute/domain/ratelimit.py:37-46 | a hit is allowed exactly when the estimate is within the limit, the retry delay lies within the window, nothing remains of a refused hit |
| RateLimit.AllowedIff | src/visionroute/domain/ratelimit.py:26-43 | the answer to a request allows it exactly when the hits of its window and those of the previous one, in the proportion of the time left of its own, come to at most the limit |
| RateLimit.RetryReachesTheNextWindow | src/visionroute/domain/ratelimit.py:41-45 | the retry delay is the least whole number of seconds after which the window number has gone up |
| RateLimit.RemainingIsExact | src/visionroute/domain/ratelimit.py:42-46 | of the answers: exactly so many more hits at the same instant are allowed as are reported to remain |
| RateLimit.RefusedBetween | src/visionroute/domain/ratelimit.py:30-43 | no answer refuses while both windows together are within the limit, none allows beyond the limit of its own |
| RateLimit.WindowIndexBounds | src/visionroute/domain/ratelimit.py:26-27 | an instant lies in the window its number names |
| RateLimit.BurstBound | src/visionroute/domain/ratelimit.py:30-46 | a whole window and the share e of the next admit at most limit * (1 + e) hits of a key |
| RateLimit.IntervalBurstBound | src/visionroute/infrastructure/ratelimit.py:45-55 | of answers that allow what the complete history allows, any interval of one window length that starts at share f holds at most limit * (1 + f) allowed hits, fewer than two limits |
| RateLimit.InMemoryRateLimiter.Hit | src/visionroute/infrastructure/ratelimit.py:45-55 | the decision and the pruned, updated counters |
| RateLimit.PrunedRefinesHistory | src/visionroute/infrastructure/ratelimit.py:48-55 | while no prune drops a live counter, every hit reads the counts of a limiter that never forgets |
| RateLimit.OneWindowRefinesHistory | src/visionroute/infrastructure/ratelimit.py:48-55 | with one window length for all keys that is so in every run |
| RateLimit.MemoryAgrees | src/visionroute/infrastructure/ratelimit.py:45-55 | with one window length the in-memory limiter gives the very answers of the complete history, in every run |
| RateLimit.PruneInvisibleIff | src/visionroute/infrastructure/ratelimit.py:49-50 | a prune changes no answer exactly when it drops no live counter |
| RateLimit.DroppedCounterIsMissed | src/visionroute/infrastructure/ratelimit.py:49-55 | a dropped live counter is a hit that is allowed and should not be |
| RateLimit.MinutePruneDropsHours | src/visionroute/infrastructure/ratelimit.py:49-50 | a prune by a one-minute window drops every live counter of a one-hour window |
| RateLimit.MixedWindowsMisjudge | src/visionroute/infrastructure/ratelimit.py:48-55 | at any instant at which two window numbers are more than one apart, a run from the empty limiter whose last hit is answered as allowed and is refused by the complete history |
| RateLimit.HourlyCountersAreForgotten | src/visionroute/infrastructure/ratelimit.py:48-55 | that run for windows of a minute and an hour, at any instant later than an hour after the epoch |
| RateLimit.OneWindowIff | src/visionroute/infrastructure/ratelimit.py:48-55 | the answers of the in-memory limiter allow what the complete history allows, for every hit of every run, exactly when all keys share one window length |
| RateLimit.RedisRateLimiter.Hit | src/visionroute/infrastructure/ratelimit.py:73-90 | the decision and the expiring counters; an outage allows the hit |
| RateLimit.StillVisible | src/visionroute/infrastructure/ratelimit.py:80-83 | a counter still to be read has not expired |
| RateLimit.ExpiringRefinesHistory | src/visionroute/infrastructure/ratelimit.py:78-90 | every hit reads the counts of a limiter that never forgets |
| RateLimit.RedisAgrees | src/visionroute/infrastructure/ratelimit.py:73-90 | the Redis limiter gives the very answers of the complete history, in every run that reaches it, whatever the windows |
| RateLimit.CounterLifetime | src/visionroute/infrastructure/ratelimit.py:79-81 | a counter lives for two windows and a second from its first hit on, and no longer, however often it is hit |
| RateLimit.LimitersBoundBursts | src/visionroute/infrastructure/ratelimit.py:45-90 | the burst bound for the answers that the two limiters return |
| SafetyEngine.EvaluatePoint | src/visionroute/domain/safety.py:120-199 | the hits of the four rules in order, or a division by a zero threshold |
| SafetyEngine.HitsAreTheFiringRules | src/visionroute/domain/safety.py:120-199 | one hit for every rule that fires and no other, the condition of each rule written out: at most four, at most three with positive thresholds |
| SafetyEngine.HitsAreInTurn | src/visionroute/domain/safety.py:120-199 | the hits come in the order braking, acceleration, cornering, speed |
| SafetyEngine.EvaluationFailsIff | src/visionroute/domain/safety.py:127-182 | the evaluation raises exactly when a rule fires whose threshold is zero |
| SafetyEngine.ZeroThresholdFails | src/visionroute/domain/safety.py:162-164 | with a cornering threshold of zero every sample with a lateral acceleration fails |
| SafetyEngine.SeverityIsTheExcess | src/visionroute/domain/safety.py:102-197 | what a hit measured and against which threshold; it lies past a positive threshold, and its severity is how far: 1.25, 1.6 and 2 times, or the sustained limit for speed |
| SafetyEngine.Existing | src/visionroute/application/safety/engine.py:76-89 | the earliest stored event in the window, if there is one |
| SafetyEngine.Engine.Persist | src/visionroute/application/safety/engine.py:66-166 | a hit bumps the event in its window or stores one with evidence and a message |
| SafetyEngine.Engine.Evaluate | src/visionroute/application/safety/engine.py:54-64 | every hit of a point is persisted in order, none when the evaluation fails |
| SafetyEngine.ConflictIsUnreachable | src/visionroute/application/safety/engine.py:94-136 | under the lock the ON CONFLICT branch is never taken |
| SafetyEngine.PersistedKeepsValid | src/visionroute/application/safety/engine.py:66-166 | one evidence row and one message per event, events of a key pairwise outside the window |
| SafetyEngine.PersistedIsOneHit | src/visionroute/application/safety/engine.py:76-166 | a hit is counted on an event of its key within 30 s of it, or, when there is none, stored with its own instant and severity, a piece of evidence and a message |
| SafetyEngine.SeverityIsThatOfTheFirstHit | src/visionroute/application/safety/engine.py:90-128 | in every run each stored event has the key, the instant and the severity of the hit that inserted it |
| SafetyEngine.HitsOfPointCount | src/visionroute/application/safety/engine.py:54-64 | the hits of a point raise the counts of its own keys, by one each |
| SafetyEngine.HitsOfPointTouch | src/visionroute/application/safety/engine.py:54-64 | the events they touch are of the point's vehicle, of rules that hit and within 30 s of it |
| SafetyEngine.HitsAreConserved | src/visionroute/application/safety/engine.py:90-92 | the occurrence counts of a key add up to its hits, in every run |
| SafetyEngine.RunStoresTheNet | src/visionroute/application/safety/engine.py:76-136 | the stored instants are the greedy net of the hit instants, whatever other keys do |
| SafetyEngine.StoredEventsAreAMaximalNet | src/visionroute/application/safety/engine.py:76-136 | stored events are more than 30 s apart and every hit lies within 30 s of one |
| SafetyEngine.OnePerCell | src/visionroute/application/safety/engine.py:76-92 | packing: a separated net has at most one element per 30-second cell |
| SafetyEngine.AtMostTwicePerCentre | src/visionroute/application/safety/engine.py:76-92 | covering: at most two elements around each element of a covering net |
| SafetyEngine.NetIsOrderRobust | src/visionroute/application/safety/engine.py:76-92 | for one set of instants, any order gives at most as many events as time order, which gives at most twice as many |
| SafetyEngine.DeduplicationIsOrderRobust | src/visionroute/application/safety/engine.py:76-92 | the same for the events that the engine stores in whole runs |
| SafetyEngine.FactorTwoIsReached | src/visionroute/application/safety/engine.py:76-92 | three hits on which the factor of two is reached |
| Trips.TelemetryService.ActiveTrip | src/visionroute/application/telemetry/service.py:148-183 | the open trip for an instant, the idle one completed at its last point |
| Trips.TelemetryService.ProcessReading | src/visionroute/application/telemetry/service.py:62-115 | one point and the new trip head, an implausible jump adding no distance |
| Trips.TelemetryService.CloseStaleTrips | src/visionroute/scheduler/runner.py:143-150 | exactly the active trips idle for over 15 minutes become stale; how many |
| Trips.ProcessedKeepsValid | src/visionroute/application/telemetry/service.py:62-183 | counts, spans, distance, top speed and end of every trip row are what its points say; only the latest trip is active |
| Trips.SweptKeepsValid | src/visionroute/scheduler/runner.py:143-150 | so does a sweep |
| Trips.TopSpeedIsHighest | src/visionroute/application/telemetry/service.py:111-112 | a trip's top speed is the highest its points report, none if they report none |
| Trips.TripsAreMaximalRuns | src/visionroute/application/telemetry/service.py:148-183 | without sweeps two readings share a trip exactly when no idle gap lies between them |
| Trips.SweepsOnlySplit | src/visionroute/scheduler/runner.py:143-150 | with sweeps, trips are unbroken stretches without idle gaps |
| Trips.SweepClosesTheStale | src/visionroute/scheduler/runner.py:143-150 | at any point of any run a sweep leaves active exactly the active trips whose last point is at most 15 minutes old, and changes nothing but the status |
| Trips.AtMostOneActive | src/visionroute/application/telemetry/service.py:153-162 | in every run only the latest trip can be active |
| Trips.SpansAreOrdered | src/visionroute/application/telemetry/service.py:148-183 | with readings in time order, trip spans are ordered and do not overlap |
| Trips.StepIsCheckedIff | src/visionroute/domain/telemetry_rules.py:56-62 | a step is within 400 km/h exactly when time passes, or none passes and nothing moves |
| Trips.ImplausibleIff | src/visionroute/domain/telemetry_rules.py:56-62 | a jump is implausible exactly when time passes and it goes farther than 400 km/h go in it, without a division |
| Trips.StepCounts | src/visionroute/domain/telemetry_rules.py:56-62 | a step counts in full when it is within 400 km/h or takes no time, and not at all otherwise |
| Trips.AnomalyIff | src/visionroute/application/telemetry/service.py:64-77 | in every run a reading is flagged exactly when it continues a trip and goes farther than 400 km/h go in the time since the point before it |
| Trips.DistanceBound | src/visionroute/application/telemetry/service.py:64-110 | for any order of timestamps: 400 km/h over the forward steps plus the unchecked steps |
| Trips.DistanceWithinSpan | src/visionroute/application/telemetry/service.py:64-110 | with rising timestamps a trip's distance is at most 400 km/h times its span |
| Trips.SpanBoundsIffRising | src/visionroute/application/telemetry/service.py:64-110 | of readings without an idle gap, the span bounds the distance for every non-negative metric and all positions exactly when the instants rise |
| Trips.NoTimeBypassesTheCheck | src/visionroute/domain/telemetry_rules.py:59-60 | a second reading at the same or an earlier instant, any distance away, counts in full |
| Trips.SameInstantBypassesTheCheck | src/visionroute/domain/telemetry_rules.py:59-60 | the runs with equal instants and with instants an hour apart the wrong way round |
| Ingestion.IngestionService.Insert | src/visionroute/application/ingestion/service.py:170-192 | a row is stored unless its id, document or instant cannot be stored or its natural key is there |
| Ingestion.IngestionService.StoreAccepted | src/visionroute/application/ingestion/service.py:167-205 | a new key is stored and announced, a known one is a duplicate |
| Ingestion.IngestionService.StoreQuarantine | src/visionroute/application/ingestion/service.py:207-238 | a rejected event is stored once under the envelope's or the source's key, never announced |
| Ingestion.IngestionService.IngestOne | src/visionroute/application/ingestion/service.py:82-165 | rows, outbox and outcome of one raw event, checks in the code's order |
| Ingestion.IngestionService.IngestEvents | src/visionroute/application/ingestion/service.py:61-72 | the events one after the other, counted by outcome; None as soon as an insert raises |
| Ingestion.IngestionService.IngestBatch | src/visionroute/application/ingestion/service.py:51-80 | exactly when every event can be kept, the batch is the fold of its events, the counts are those of the outcomes and add up, and the source's counters follow |
| Ingestion.KeyIsFixed | src/visionroute/application/ingestion/service.py:90-165 | an event has one key whatever its verdict |
| Ingestion.KeysAfterBatch | src/visionroute/application/ingestion/service.py:64-72 | the stored keys are the old ones and those of the batch |
| Ingestion.BatchAppends | src/visionroute/application/ingestion/service.py:184-186 | a batch only appends and keeps natural keys unique |
| Ingestion.ReplayAddsNothing | src/visionroute/application/ingestion/service.py:164-192 | the same batch again, at any time and with any fleet, stores and announces nothing |
| Ingestion.AcceptedIff | src/visionroute/application/ingestion/service.py:152-192 | stored as accepted exactly when schema, structure, document, instant, age and vehicle are in order and no row, quarantined ones included, has the key |
| Ingestion.WhyRejected | src/visionroute/application/ingestion/service.py:90-165 | the reason of every rejection: the first check that the event fails, with the five minutes and the three days |
| Ingestion.FirstOfItsKeyIsStored | src/visionroute/application/ingestion/service.py:167-238 | of the events of a batch with a new key the first is stored under it, with its message, accepted or quarantined for its reason |
| Ingestion.QuarantineHoldsTheKey | src/visionroute/application/ingestion/service.py:217-238 | a concrete event whose good retry is a duplicate |
| Ingestion.BatchGoesThroughIff | src/visionroute/application/ingestion/service.py:170-237 | a batch goes through exactly when the document of every event, the instant of every well-formed one and the id of every other one can be stored |
| Ingestion.OneOverlongIdLosesTheBatch | src/visionroute/infrastructure/db/migrations/versions/4681a4f1b1a3_ingestion_tables.py:76-88 | a good event that is accepted alone and lost together with an overlong id, a text with U+0000 or an instant before the year 1 |
| Ingestion.AcceptedRowsAreAnnounced | src/visionroute/application/ingestion/service.py:194-205 | accepted outcomes, accepted rows and outbox messages are the same number, one message for each row |
| OutboxWorker.Worker.ProcessPosition | src/visionroute/application/telemetry/pipeline.py:21-28 | one point, one processed row, the safety events and their messages; false when a step raises |
| OutboxWorker.Worker.ProcessAccepted | src/visionroute/application/telemetry/pipeline.py:14-28 | only an accepted row is processed; non-positions, unknown vehicles and bad payloads as in the code |
| OutboxWorker.Worker.Dispatch | src/visionroute/worker/runner.py:144-196 | the handler by event type; unknown types and missing rows are acknowledged |
| OutboxWorker.Worker.MarkRetry | src/visionroute/worker/runner.py:188-196 | one more attempt, then a delayed retry or a dead letter |
| OutboxWorker.Worker.Claim | src/visionroute/worker/runner.py:126-142 | exactly the claimed rows become processing |
| OutboxWorker.Worker.Settle | src/visionroute/worker/runner.py:91-110 | a failing handler leaves nothing but the retry fields, however far it got |
| OutboxWorker.Worker.ProcessOutboxBatch | src/visionroute/worker/runner.py:86-112 | the batch is the fold of its settled events; how many were handled |
| OutboxWorker.RetryDelays | src/visionroute/worker/runner.py:191-196 | a failure counts one attempt; the event is due again after 2, 4, ... 128 seconds and not before, and the eighth failure makes it a dead letter |
| OutboxWorker.NewMessageIsDue | src/visionroute/worker/runner.py:129-133 | a new message has no attempts and is due from its transaction on |
| BatchIsolation.BatchRows | src/visionroute/worker/runner.py:90-111 | a batch changes exactly the rows it claimed: done, or retry fields only |
| BatchIsolation.SucceedsIff | src/visionroute/worker/runner.py:92-110 | a dispatch succeeds exactly when no fault strikes it and its handler does |
| BatchIsolation.PoisonIsIsolated | src/visionroute/worker/runner.py:90-111 | the business state is the fold of the successful handlers alone |
| BatchIsolation.AllPoison | src/visionroute/worker/runner.py:92-107 | a batch whose every event fails, for whatever reason, leaves the business state alone |
| ExactlyOnce.HandledIsGood | src/visionroute/application/telemetry/pipeline.py:14-28 | every handler places its row once, moves rows on, keeps trips and events in order, and publishes at most four events |
| ExactlyOnce.HitsPublish | src/visionroute/application/safety/engine.py:138-165 | the hits of a point publish exactly the events they add, one each at most |
| ExactlyOnce.TripCountsAddUp | src/visionroute/application/telemetry/service.py:107 | the point counts of a vehicle's trips add up to its points |
| PipelineEffects.PositionEffect | src/visionroute/application/telemetry/pipeline.py:14-28 | a successful dispatch of an accepted position: exactly one point, with the instant, position and speed of the message, on the registered vehicle and no other; one occurrence more for the keys of exactly the rules that fire; the row processed; nothing else |
| PipelineEffects.OccurrencesOfPosition | src/visionroute/application/safety/engine.py:54-64 | the occurrences of each key after a position |
| PipelineEffects.EventsOfPosition | src/visionroute/application/safety/engine.py:76-136 | every event it touches is of its vehicle, of a rule that fires and within 30 s of its instant |
| PipelineEffects.PositionFailsIff | src/visionroute/application/telemetry/pipeline.py:25-27 | it fails exactly when a rule fires whose threshold is zero |
| PipelineEffects.OtherEffects | src/visionroute/worker/runner.py:144-186 | what every other message does: processed without a point, quarantined for an unknown vehicle, failed, notified, or nothing |
| PipelineRuns.StepKeeps | src/visionroute/worker/runner.py:86-112 | every committed step keeps the invariant of the whole pipeline |
| PipelineRuns.KnownIff | src/visionroute/application/ingestion/service.py:240-244 | ingestion knows exactly the vehicles registered in the organization |
| PipelineRuns.RefusedBatchIsLost | src/visionroute/application/ingestion/service.py:64-72 | a batch with an event that cannot be kept leaves rows and outbox as they were |
| PipelineRuns.PointsExactlyOnce | src/visionroute/application/telemetry/pipeline.py:17-28 | in every run a processed position row has one point on one vehicle, every other row none |
| PipelineTraces.PointsAreTraced | src/visionroute/application/telemetry/service.py:52-116 | in every run the one point of a processed position row carries its instant, position and speed and lies on a vehicle that a worker batch found its name registered as; every other row has none |
| PipelineTraces.OccurrencesAreTraced | src/visionroute/application/telemetry/pipeline.py:21-28 | in every run the occurrences of a key add up to the rows of its organization with their point on its vehicle for which its rule fires |
| PipelineTraces.DoneEventsWereNotified | src/visionroute/worker/runner.py:166-177 | in every run the message of a safety event is only done when the event was notified of, and only announced events were |
| PipelineRuns.AcceptedRowsAreRemembered | src/visionroute/application/ingestion/service.py:194-205 | an accepted row always has a message that is pending or a dead letter |
| PipelineRuns.SafetyEventsAnnouncedOnce | src/visionroute/application/safety/engine.py:154-165 | one message per safety event, one row per natural key, nothing half processed after a commit |
| PipelineRuns.NoneLeftProcessing | src/visionroute/worker/runner.py:86-111 | a committed batch leaves no message in processing |
| OutboxDrain.BatchLowers | src/visionroute/worker/runner.py:144-196 | a committed batch lowers the measure by at least its size |
| OutboxDrain.DrainedIff | src/visionroute/worker/runner.py:126-142 | the measure is zero exactly when every message is done or a dead letter |
| OutboxDrain.OutboxDrains | src/visionroute/worker/runner.py:86-196 | over any stretch of any run dispatches are bounded by the measure and 40 per arrival |
| OutboxDrain.AtMostEightDispatches | src/visionroute/worker/runner.py:188-196 | no message is dispatched more than eight times in commits unless it is put back |
| MailDelivery.BackoffGrows | src/visionroute/application/mail/delivery.py:69-70 | the delay is a minute, then doubles up to an hour |
| MailDelivery.SelectedTakesTheOldest | src/visionroute/application/mail/delivery.py:103-115 | a claim takes messages that are pending or sending and due, and when it leaves one behind it took its limit of older ones |
| MailDelivery.MailDeliveryService.Claim | src/visionroute/application/mail/delivery.py:100-133 | the selected rows get the lease and an attempt, the worker their tickets |
| MailDelivery.MailDeliveryService.Record | src/visionroute/application/mail/delivery.py:191-212 | the outcome takes effect only while the message is sending |
| MailDelivery.RecordingDecides | src/visionroute/application/mail/delivery.py:135-212 | what each trial leaves of a message that is being sent: sent, a dead letter, or pending until its delay is over while attempts are left; its secret kept only while pending; any other message untouched |
| MailDelivery.LeaseIsFiveMinutes | src/visionroute/application/mail/delivery.py:117-120 | a claimed message has one attempt more and is due again in five minutes, not before |
| MailDelivery.TurnDecides | src/visionroute/application/mail/delivery.py:88-90 | in a pass, whatever others do between, each turn does exactly that to its message and nothing to others |
| MailDelivery.MailDeliveryService.DeliverDue | src/visionroute/application/mail/delivery.py:86-98 | a pass claims the selected messages that other claims do not hold, then tries each and records it at its own instant, whatever other transactions do between; its statistics are the numbers of trials by what they come to |
| MailDelivery.MailDeliveryService.RecordAll | src/visionroute/application/mail/delivery.py:88-98 | sent are the accepted trials, retried those that failed for now with attempts left, dead-lettered the others; they add up |
| MailDelivery.PassHandlesEachOnce | src/visionroute/application/mail/delivery.py:86-98 | left alone, a pass leaves each selected message as its trial says, with one attempt more, and every other as it was |
| MailDelivery.StepKeepsInv | src/visionroute/application/mail/delivery.py:100-212 | every step of every worker keeps the lease invariant |
| MailDelivery.SecretAndDeliverySafety | src/visionroute/application/mail/delivery.py:196-212 | in every interleaving the secret is intact until sent or dead-lettered and then gone; sent means a send succeeded, a dead letter that it failed for good or used up its attempts |
| MailDelivery.ReportDecides | src/visionroute/application/mail/delivery.py:191-212 | in every interleaving a report that finds the message being sent does what the trial of its claim says, any other nothing |
| MailDelivery.TrialWasMade | src/visionroute/application/mail/delivery.py:135-182 | the trial that is reported was made by that claim |
| MailDelivery.SentIff | src/visionroute/application/mail/delivery.py:135-212 | in every interleaving a message is sent exactly when an accepted trial was reported while it was being sent, and a dead letter exactly when one that failed for good or the last time was |
| MailDelivery.TerminalIsAbsorbing | src/visionroute/application/mail/delivery.py:196-197 | sent and dead-lettered messages never change again |
| MailDelivery.AttemptsAreBounded | src/visionroute/application/mail/delivery.py:119-189 | attempts are at most the maximum plus one per takeover of an expired lease |
| MailDelivery.MaximumExceededIff | src/visionroute/application/mail/delivery.py:103-120 | attempts exceed the maximum exactly when a message is claimed whose attempts are used up |
| MailDelivery.BoundIsMet | src/visionroute/application/mail/delivery.py:103-120 | for every maximum and number of takeovers a run in which each takeover adds an attempt |
| MailDelivery.CrashExceedsTheMaximum | src/visionroute/application/mail/delivery.py:105-120 | a run with one crash that exceeds the maximum |
| MailDelivery.ClaimsAreALeaseApart | src/visionroute/application/mail/delivery.py:105-120 | claims with no record between them are at least five minutes apart |
| MailDelivery.RetriesWait | src/visionroute/application/mail/delivery.py:204-207 | the claim after a recorded retry comes no sooner than the delay of that attempt |
| EventStream.ParseEventBlock | apps/web/src/lib/stream.ts:16-28 | last event name, data lines joined, nothing without data |
| EventStream.SentBlockArrives | apps/web/src/lib/stream.ts:16-28 | round trip of a block of any lines: delivered exactly when it has a data line, its data falls apart into the values sent, in order, its name is that of the last event line |
| EventStream.Reader.Receive | apps/web/src/lib/stream.ts:61-77 | the events of a chunk and the text kept are those of draining buffer and chunk |
| EventStream.DrainInTwoSteps | apps/web/src/lib/stream.ts:66-76 | draining early changes nothing |
| EventStream.ChunksParseAsOne | apps/web/src/lib/stream.ts:61-77 | any chunks give what the joined normalised text gives at once |
| EventStream.ChunkingInvisibleIff | apps/web/src/lib/stream.ts:65 | the text is that of one piece exactly when no CRLF is split |
| EventStream.ChunkIndependence | apps/web/src/lib/stream.ts:61-77 | two ways of cutting a stream, neither inside a CRLF, give the same events and rest |
| EventStream.PrintedFramesArrive | src/visionroute/api/routers/v1/operations.py:138-168 | whatever the server prints and however it is cut, the reader delivers exactly the printed pairs |
| EventStream.SplitLineEndSeenIff | apps/web/src/lib/stream.ts:16-28 | a CRLF split inside a block changes the delivered events exactly when it ends a data line or the line that names the event of a block with data |
| EventStream.SplitCrLfSeenIff | apps/web/src/lib/stream.ts:16-28 | in a one-line block a split CRLF changes the delivered events exactly when the line is a data line |
| EventStream.SplitBlankLineHoldsTheEvent | apps/web/src/lib/stream.ts:65-66 | a CRLF split at the blank line leaves the event in the buffer |
| EventStream.SplitCrLfChangesTheData | apps/web/src/lib/stream.ts:65 | a text whose data changes when a CRLF is split |
| RoadRisk.FindClusters | src/visionroute/application/safety/road_risk.py:99-114 | the nested loops compute the greedy clusters |
| RoadRisk.ClustersPartition | src/visionroute/application/safety/road_risk.py:99-114 | every point once, within 150 m of its cluster's first point and of no earlier one; first points pairwise farther apart |
| RoadRisk.ClustersAreHomes | src/visionroute/application/safety/road_risk.py:103-113 | each cluster lists, in order, the points whose first close centre is its own |
| RoadRisk.PeakSeverity | src/visionroute/application/safety/road_risk.py:116-125 | the highest named severity, unknown texts skipped, low when none |
| RoadRisk.PeakByName | src/visionroute/application/safety/road_risk.py:116-125 | critical exactly when it is named, high exactly when it is and critical is not, and so on |
| RoadRisk.Summary | src/visionroute/application/safety/road_risk.py:73-95 | size, peak, first and last instant, mean position, confidence and expiry of a cluster |
| RoadRisk.CentreIsAmongThePoints | src/visionroute/application/safety/road_risk.py:73-75 | the centre lies in every box that holds the cluster |
| RoadRisk.RoadRiskService.RebuildForTenant | src/visionroute/application/safety/road_risk.py:32-97 | other rows stay, and the tenant's cluster rows are one for every cluster of at least three |
| RoadRisk.OthersAreTheRest | src/visionroute/application/safety/road_risk.py:62-67 | every row that is no cluster risk of the tenant is kept, in order, and no other |
| RoadRisk.PointsAreTheRecentHarshEvents | src/visionroute/application/safety/road_risk.py:39-58 | the points are exactly those of the tenant's harsh brakings and cornerings of the last 30 days that were not rejected and have a position |
| RoadRisk.RaisingAreTheLarge | src/visionroute/application/safety/road_risk.py:70-72 | exactly the clusters of three or more raise a risk, in order |
| RoadRisk.RebuildIsIdempotent | src/visionroute/application/safety/road_risk.py:33-67 | a second rebuild at the same instant changes nothing |
| RoadRisk.ObservationsAreDistinctEvents | src/visionroute/application/safety/road_risk.py:70-94 | observed counts are at least three each and together at most one per recent harsh event |

## Left out

- Concurrency below a transaction: the row lookup of a rotation takes no lock, and neither do trips or an ingest row under processing; except for logins, which may overlap, runs are sequences of whole transactions, and the advisory lock of the safety engine is what makes that so there.
- Clocks: a request reads the clock once in the model; revoking a family reads it a second time in the code. The rate limiter, Redis, the mail and trip results assume that clocks do not run backwards where they say so.
- RefreshClient.HonestClientIsNeverFlagged: assumes one client per cookie, as the single-flight promise does for one page, and that it retries a token within the grace of its first rotation; several tabs that share a cookie are not modelled. A request that was given up arrives once or never.
- RefreshTokens.IdentityService.RotateRefreshToken: organisation, address, audit rows and access tokens are not modelled; token hashing is replaced by the identity of the row.
- RefreshClient.ApiClient.RefreshSession: promises and the retries, slow-request tracking and session storage around them are not modelled, only who sends and when the flight ends.
- AccountLockout.Account.Authenticate: password hashing and the timing equaliser are one boolean input. A commit writes the columns whose values it changed, as the object-relational mapper does.
- RateLimit.ExpiringRefinesHistory: speaks of hits that reach Redis, on one clock shared by Redis and the application; hits during an outage are allowed and counted nowhere.
- RateLimit.Decide: real arithmetic, no floating-point rounding.
- SafetyEngine.EvaluatePoint: confidence, review flag, data quality, texts and the rounding of measured values are not modelled.
- SafetyEngine.Existing: of several events with the same instant the code takes any, the model the first; in reachable states there is at most one.
- Trips.TelemetryService.ProcessReading: the great-circle formula is an abstract function, quality scores and drivers are left out.
- Ingestion.IngestionService.IngestOne: structural validation of a raw event is an input; error texts are left out.
- Ingestion.BatchGoesThroughIff: whether a JSON document can be stored is one input bit per document; failures that do not depend on the events lose a transaction without a reason (`PipelineRuns`, step `Lost`).
- OutboxWorker.Worker.Dispatch: producing notifications is one recorded effect per safety event, and live-stream signals are left out; webhooks are not modelled.
- OutboxWorker.Worker.Claim: which due rows are free of other workers' locks is an input, in any order; the order by age is not used by any result.
- PipelineRuns.PointsExactlyOnce: deletion of rows by retention or privacy requests is not a step of the runs.
- MailDelivery.StepKeepsInv: the status for canceled messages is never set by the code and never reached in the model; templates, encryption and SMTP are inputs.
- EventStream.Reader.Receive: byte decoding, status callbacks, reconnects and aborts are left out. Against section 9.2.6 of the WHATWG HTML Standard the reader does not treat a lone carriage return as a line end, keeps an empty event name, and ignores id and retry fields; the model follows the code.
- RoadRisk.Summary: rounding of coordinates and confidence, and the constant columns of a risk are left out; the database may deliver the events in any order, and the result is stated for the order delivered.
- Multi-factor sign-in, recovery codes and single-use account tokens: branches on one row each.
- The privacy-request processor, webhooks, coaching, permissions, invitations, retention, quotas and partitions: other protocols of the same kind or single-branch rules.
- Routing, SQL, row-level security, object storage, reports and all user interface code: input and output.
