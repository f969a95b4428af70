# Control-plane protocols

A model of the stateful protocols of the control plane, and proofs about them. The
service signs people in with one-time passwords, pairs sites, records consents,
hands out OAuth tokens bound to those consents, and tells sites about revocations.
Nearly all of its safety rests on a few tables and on guarded updates to them, made
by service instances that interleave. This project states what those tables promise
over every run.

Each module has the same shape. A table is a map or a sequence, and each database
transaction is one function on it, with the guards, constants and error cases of the
statement it stands for. The repository's classes are classes here: their methods
change fields in place and are proved equal to those functions, or to a plain map they
stand for. What such a function decides and stores is also stated without it, on the
columns of the rows: in the contracts of the methods, and in the modules and lemmas named
`Meaning`. A `Run` then applies any sequence of transactions, from any number of
callers and with any clock readings, and the main lemmas are about `Run`.

| module | about |
|---|---|
| `OtpSendQuota`, `OtpSendBudget`, `OtpSendRuns`, `OtpSendClaims`, `OtpTolerance`, `OtpSingleSend`, `OtpDelivery` | the rolling send budget for one-time passwords, its retry time, its purge and how far clocks may fall, and the sends it bounds |
| `GrantRegistry`, `RegistryMeaning` | sites, grants, idempotency records and the revocation event log |
| `SecretArtifacts`, `RefreshReplay`, `ArtifactRuns`, `RefreshLifetime` | OAuth artifacts stored under keyed digests, replayed refresh tokens, and the age of a token family |
| `SiteProof`, `Consent`, `Pairing`, `PairingTraces`, `ControlPlane` | signed site proofs, the consent lifecycle, the pairing lifecycle, and both over one site table |
| `RevocationOutbox`, `OutboxRuns` | at-least-once delivery of revocations with leases and backoff |
| `BrowserTransactions`, `ConsoleAuth`, `ConsoleMeaning`, `ConsoleRuns`, `ConsolePurge` | the handoff from the account service to the console, and its purge |
| `LoginTransactions`, `LoginMeaning`, `LoginPurge` | account logins and their restart chains, and their purge |
| `LoopbackRedirects` | the redirect list of a native client, changed in place |
| `Scopes`, `ConsentLoad`, `ConsentMeaning` | scope sequences, sets and texts; consent, and then loading the grant it wrote |

SHA-256 and HMAC are free constructors: injective, and never equal to anything else. A
signature verifies exactly under the key that made it. A clock is an argument of every
call that reads it, and different callers' clocks need not agree. Random identifiers,
codes and tokens never repeat; each statement that needs this says so.

Some results are about what the code does not promise, and each says exactly how far
the promise goes.

- The purge of old reservations is invisible exactly as long as the clock stays within a day
  of its past maximum, or within two days less a minute where one send a day is the limit
  (`OtpSingleSend.PurgeToleranceIsExact`). A millisecond beyond a day the limit can be passed
  (`LimitIsPassedBeyondTolerance`).
- The purge of old console and login transactions is invisible exactly as long as the clock
  falls by at most a day and a millisecond (`ConsolePurge.PurgeToleranceIsExact`,
  `LoginPurge.PurgeToleranceIsExact`).
- The digest table stands for a plain map until a value is stored a second time under a newer
  key (`UpsertAcrossRotation`, `StoredTwiceBreaks`). Versions count from the end of the key
  list, so a change of keys keeps a row exactly when its own key keeps its place from the end
  (`FoundAfterChange`, `KeyChangeIsExact`), and keeps every table exactly when keys are only
  added in front (`SafeChangeIsSuffix`). Retiring the old key, or rotating a second time,
  hides every row, also those stored under the key that stays (`RetirementForgets`,
  `SecondRotationForgets`, `KeptKeyLosesItsRow`).
- The redirect list keeps every registered URI exactly under a condition on the registration
  (`RegisteredSurviveAlways`), and can lose one otherwise (`RegisteredCanBeLost`). The answer
  to a caller never depends on that.
- The row expiry of a refresh token counts milliseconds and its lifetime whole seconds. By
  the row expiry alone, every row of a family dies within a second of the ninety days exactly
  when its last use falls before their end (`StoredChainEndsInTime`); nothing in the row makes
  it so, and a family can live on from one floor second to the next
  (`StoredExpiryAloneNeverEnds`). The ninety days hold when each use is checked in whole seconds.
- A provider grant written by consent is accepted by the next load exactly when the
  session's grant was bound to this consent and to nothing else (`ConsentThenLoad`,
  `SecondResourceIsRefused`).

## Model

| member | source | states |
|---|---|---|
| OtpSendQuota.PostgresOtpSendQuota.Reserve | packages/account-auth/src/otp-send-quota.ts:47-90 | the purge, the decision and the insert have exactly the effect and the answer of `ReserveStep` with 48 hours of retention |
| OtpSendQuota.PostgresOtpSendQuota.Decide | packages/account-auth/src/otp-send-quota.ts:60-81 | the loop over the three overlapping lists finds the verdict of the rules |
| OtpSendQuota.PostgresOtpSendQuota.Claim | packages/account-auth/src/otp-send-quota.ts:92-98 | succeeds exactly for an unattempted reservation under a minute old; stores the attempt under the clock of this call, or the reservation's instant if that is later, and touches no other row; after a success no claim of that reservation ever succeeds again, at whatever clock |
| OtpSendQuota.PostgresOtpSendQuota.Finish | packages/account-auth/src/otp-send-quota.ts:100-105 | writes the outcome of an attempted reservation and touches no other row; afterwards, or after a failure, there is nothing left to finish |
| OtpSendQuota.PostgresOtpSendQuota.Remaining | packages/account-auth/src/otp-send-quota.ts:107-118 | counting row by row: zero exactly when the stored reservations of the last 24 hours reach the global limit, else what is left of it |
| OtpSendBudget.DenialMeaning | packages/account-auth/src/otp-send-quota.ts:65-81 | the rule loop denies exactly when some window is full, and names a full one whose rounded wait no other full one exceeds |
| OtpSendBudget.ReserveMeaning | packages/account-auth/src/otp-send-quota.ts:47-81 | a reserve is denied exactly when, at the whole millisecond of the clock, the recipient's stored reservations of an hour or of a day, or all of a day, have reached their limit |
| OtpSendBudget.ReserveStores | packages/account-auth/src/otp-send-quota.ts:54-90 | a denied reserve leaves exactly the rows of the last 48 hours; a granted one adds its own unattempted row to them; a taken identifier changes nothing |
| OtpSendBudget.RuleReleases | packages/account-auth/src/otp-send-quota.ts:72-78 | a full window opens exactly at the event its retry time is computed from, also when more rows than the limit are stored |
| OtpSendBudget.RetryIsExact | packages/account-auth/src/otp-send-quota.ts:61-85 | from any stored rows: denied until the release instant and not after it, which lies in the last second of the reported wait, also for the reported dimension alone, whatever denied calls purge meanwhile |
| OtpSendRuns.PurgeIsUnobservable | packages/account-auth/src/otp-send-quota.ts:54-90 | on every run with the clock tolerance each reserve, claim and remaining answers as on a table never purged |
| OtpSendRuns.FinishFailsOnlyWhenPurged | packages/account-auth/src/otp-send-quota.ts:100-105 | of a finish the purge changes the answer exactly for reservations 48 hours or more behind the highest reservation instant |
| OtpSingleSend.PurgeToleranceIsExact | packages/account-auth/src/otp-send-quota.ts:54-98 | for all valid limits and every t: the purge is invisible on all runs whose clock falls by at most t if and only if t is at most a day, or two days less a minute where one send a day is the limit |
| OtpTolerance.LimitIsPassedBeyondTolerance | packages/account-auth/src/otp-send-quota.ts:54-85 | for all valid limits of two sends a day or more, a run with the clock set back one millisecond over a day on which the purging limiter grants what the full history denies |
| OtpSingleSend.SetBackVerdict | packages/account-auth/src/otp-send-quota.ts:61-81 | with one send a day, a clock set back by over a day meets the same denial, dimension and retry time on the purged table as on the full one |
| OtpSendRuns.SlidingWindowBound | packages/account-auth/src/otp-send-quota.ts:47-90 | at every instant, whether or not a call is made at it, the reservations granted within each of the three windows ending there are within their limits |
| OtpSendRuns.RemainingIsExact | packages/account-auth/src/otp-send-quota.ts:107-118 | remaining is zero exactly when the full history of the last 24 hours has reached the global limit |
| OtpSendRuns.OneSendPerReservation | packages/account-auth/src/otp-send-quota.ts:92-105 | no two provider sends share a reservation, whatever outcomes are written |
| OtpSendRuns.SendBound | packages/account-auth/src/otp-send-quota.ts:92-98 | by the instant of the attempt, a window one minute shorter than a dimension's holds at most its limit of sends |
| OtpSendClaims.SendsAreClaims | packages/account-auth/src/otp-send-quota.ts:92-98 | the sends of any run are its successful claims, one by one: each has the identifier and the clock reading of its own claim and the recipient and instant of a reserve call before it |
| OtpSendClaims.SendBoundByClaims | packages/account-auth/src/otp-send-quota.ts:92-98 | by the clock readings of the claims, a stretch of time one minute shorter than a window holds at most its limit of sends, of those whose claim's clock is not behind the reservation |
| OtpDelivery.AccountAuth.Before | packages/account-auth/src/index.ts:311-343 | an invalid address reserves nothing; otherwise the request holds the id just reserved for its normalised address, or is refused |
| OtpDelivery.AccountAuth.SendVerificationOtp | packages/account-auth/src/index.ts:366-400 | the provider is called exactly when the request's own reservation is claimed for its own address; then the outcome is saved and recorded, else nothing changes |
| OtpDelivery.AccountAuth.PruneOutcomes | packages/account-auth/src/index.ts:395-397 | the loop removes exactly the recorded outcomes that have expired |
| OtpDelivery.AccountAuth.TakeDeliveryOutcome | packages/account-auth/src/index.ts:427-431 | hands out the outcome last recorded for the delivery exactly when it was neither taken nor replaced nor pruned since, and forgets it |
| OtpDelivery.OutcomeIsTakenOnce | packages/account-auth/src/index.ts:394-398 | over any run of recordings and takings an outcome can be taken exactly when it was recorded, neither taken nor replaced since, and not yet pruned; what is taken is the outcome last recorded |
| OtpDelivery.ProviderCallsAreBounded | packages/account-auth/src/index.ts:327-394 | over all interleaved requests: one provider call per reservation at most, each to an address that its reservation was charged for, and no more per window than the limit |
| GrantRegistry.NextAdvances | packages/database/src/index.ts:1769-1942 | no repository transaction deletes a row, rewrites a consent's terms or moves a status backwards |
| GrantRegistry.NextKeepsEvents | packages/database/migrations/005_token_lifecycle.sql:158-341 | every modelled transaction keeps the event log sound: grant, site and key events numbered without gaps for each site, at most one event for each grant, none for a live one |
| GrantRegistry.KeyReachesEverySite | packages/database/migrations/005_token_lifecycle.sql:317-341 | revoking a signing key logs exactly one event for every active site and none for others |
| GrantRegistry.MaxIsCount | packages/database/migrations/005_token_lifecycle.sql:180-200 | with gapless numbering the largest sequence number is the count of the site's events |
| RegistryMeaning.RevokeMeaning | packages/database/migrations/005_token_lifecycle.sql:158-206 | a grant that is not revoked becomes so with its terms kept, one event is logged for its site under the next number, and no other row changes; any other revocation changes nothing |
| RegistryMeaning.TenantRevokeMeaning | packages/database/migrations/005_token_lifecycle.sql:211-246 | a user's or the repository's revocation is one of a live grant of that tenant; the repository's logs no event |
| RegistryMeaning.DisconnectMeaning | packages/database/migrations/005_token_lifecycle.sql:248-284 | the site and every grant on it become revoked and one site event is logged; other sites, other grants and all terms stay; a site that is not connected is left alone |
| RegistryMeaning.RevokeKeyMeaning | packages/database/migrations/005_token_lifecycle.sql:317-341 | every active site gets one event about the key, in the order of the scan and under its own next number, and nothing else changes |
| RegistryMeaning.ClaimsMeaning | packages/database/src/index.ts:2313-2348 | a token's claims name a grant exactly when it is the subject's only active one on an active site that fits the grant, client and resource the token is bound to |
| RegistryMeaning.CreateMeaning | packages/database/src/index.ts:1769-1822 | a consent is stored, pending, exactly when its site is active with the resource, identifier and key are unused, and no consent of the same parties is live; a used key answers with the first consent or a conflict |
| RegistryMeaning.SettleMeaning | packages/database/src/index.ts:1875-1930 | under a new key exactly a pending, unexpired grant of the tenant gets the status; under a used key nothing changes |
| RegistryMeaning.FindMeaning | packages/database/src/index.ts:1824-1873 | a consent is found for completion when it is the tenant's, on an active site, and pending or completed under this key |
| SecretArtifacts.MatchesExactly | packages/database/src/index.ts:1193-1218 | `matches` recognises exactly the digests of this value under one of the keys |
| SecretArtifacts.PostgresOidcAdapter.Rotate | packages/database/src/index.ts:1193-1198 | any next key list over the same table: if it keeps the key of every row in its place from the end, the plain map is unchanged; otherwise the table stands for no map |
| SecretArtifacts.PostgresOidcAdapter.Upsert | packages/database/src/index.ts:1280-1316 | writes the row under the newest key; on the plain map the value now has this payload and expiry, unconsumed, and no other value changed, unless the value lay under the older key: then the table stands for no map |
| SecretArtifacts.PostgresOidcAdapter.Find | packages/database/src/index.ts:1318-1347 | on the plain map: the unexpired payload with its own id and consumption second, found through any key |
| SecretArtifacts.PostgresOidcAdapter.Destroy | packages/database/src/index.ts:1349-1365 | on the plain map: exactly this value is gone |
| SecretArtifacts.PostgresOidcAdapter.Consume | packages/database/src/index.ts:1367-1430 | a fresh value is consumed now and nothing else changes, but a refresh token without a grant, or that the limiter refuses, stays as it was; a missing or expired value changes nothing; otherwise as `ConsumeMeaning` says, and a replay revokes the grant |
| SecretArtifacts.ConsumeMeaning | packages/database/src/index.ts:1384-1430 | the answer and the plain map after a consume in every case: consumed, refused by the limiter, missing, or a replay that expires the refresh tokens of a known grant and no other row |
| SecretArtifacts.PostgresOidcAdapter.RevokeByGrantId | packages/database/src/index.ts:1454-1465 | on the plain map and the registry: the grant is revoked and its artifacts deleted, no others |
| SecretArtifacts.UpsertAcrossRotation | packages/database/src/index.ts:1280-1316 | the digest table still stands for a map after an upsert exactly when the value has no row under the older key |
| SecretArtifacts.StoredTwiceBreaks | packages/database/src/index.ts:1280-1316 | a value stored under the older key and stored again has two rows and stands for no map |
| SecretArtifacts.FoundAfterChange | packages/database/src/index.ts:1193-1212 | for any next key list: a stored value is found under one of its keys exactly when its own key counts as many places from the end of that list as before |
| SecretArtifacts.KeyChangeIsExact | packages/database/src/index.ts:1193-1212 | for any next key list: the table stands for the same map, or for any map at all, exactly when that holds for every row |
| SecretArtifacts.SafeChangeIsSuffix | packages/database/src/index.ts:1193-1212 | a change of keys keeps every represented table exactly when the old list is a suffix of the new one |
| SecretArtifacts.SecondRotationForgets | packages/database/src/index.ts:1197-1212 | putting a third key in front of two and dropping the last hides every row of every table, under whichever key it was stored |
| SecretArtifacts.RetirementForgets | packages/database/src/index.ts:1193-1212 | retiring the older of two keys hides every row of every table, also those stored under the key that stays |
| SecretArtifacts.KeptKeyLosesItsRow | packages/database/src/index.ts:1193-1212 | a row under the key that stays, found before the older key is retired and under no key after |
| ArtifactRuns.PerformAll | packages/database/src/index.ts:1193-1430 | any run of upserts of different values, finds, consumes, destroys and revocations, with a change of keys that keeps every table before any of its steps, reaches the states and gives the answers of the same run on the plain map |
| RefreshReplay.SingleUse | packages/database/src/index.ts:1367-1430 | over any interleaving every value is consumed successfully at most once |
| RefreshReplay.UsesRecorded | packages/database/src/index.ts:1395-1408 | a stored value's consumption mark is exactly its one use, and a consumed refresh row always names a grant |
| RefreshReplay.ReuseIsHandled | packages/database/src/index.ts:1410-1430 | each use after the first finds the row or the grant gone and changes nothing, or leaves the grant revoked and its family unusable, with one event logged for the first replay of a live grant and none for repeated ones |
| RefreshReplay.RevokedForever | packages/database/src/index.ts:1875-1942 | no later transaction makes a revoked grant live again or logs a second event for it |
| RefreshReplay.NoTokenAfterRevocation | packages/oauth-provider/src/index.ts:363-382 | after a replay or revocation of a grant no access token ever carries it again, even if a racing rotation stores another refresh token |
| RefreshLifetime.FamilyLifetime | packages/oauth-provider/src/index.ts:255-265 | for every chain of uses each before the previous expiry: no expiry beyond ninety days, every gap under thirty, the one-second floor never taken |
| RefreshLifetime.LifetimeIsReached | packages/oauth-provider/src/index.ts:255-265 | some chain uses up the ninety days exactly |
| RefreshLifetime.TtlMeaning | packages/oauth-provider/src/index.ts:255-265 | thirty days for a family under sixty days old, what is left of ninety after that, and one second when nothing is left |
| RefreshLifetime.StoredExpiryOvershoot | packages/database/src/index.ts:1280-1282 | the stored expiry lies less than a second beyond the ninety days |
| RefreshLifetime.StoredChainEndsInTime | packages/database/src/index.ts:1280-1388 | by the stored millisecond alone: every row of a family dies less than a second after the ninety days exactly when its last use falls before their end |
| RefreshLifetime.StoredExpiryAloneNeverEnds | packages/database/src/index.ts:1383-1388 | checked against the stored millisecond alone, some family lives on for any length of time |
| SiteProof.ProofMeaning | packages/pairing/src/index.ts:166-224 | a proof is accepted exactly when its size, header, signer, times and every claim are the expected ones; the answer holds its claims, the key and its thumbprint |
| Consent.PostgresGrantRepository.CreatePending | packages/database/src/index.ts:1769-1822 | insert or idempotent replay; after a success every repetition with the key gets the same answer and creates nothing, and another digest is refused |
| Consent.PostgresGrantRepository.Complete | packages/database/src/index.ts:1875-1930 | under a new key exactly a pending, unexpired grant of the tenant gets the status, and no other grant changes; after a success a repetition succeeds and changes nothing, also with the other decision |
| Consent.GrantService.Begin | packages/pairing/src/index.ts:588-641 | an error changes nothing; a new consent is stored pending for two minutes under the challenge's digest, and the request to sign repeats the input; the tenant's record of this key names the returned grant, which is on exactly the requested terms; every retry of an equal request gets the same answer under a new challenge, another request is refused, and neither changes anything |
| Consent.GrantService.Complete | packages/pairing/src/index.ts:643-677 | the first success makes the pending, unexpired grant active if the site approved it and revoked if it denied, and changes no other; success means that the returned proof was verified for exactly this grant, decision and site key, and that this key changes nothing from then on; an error changes nothing |
| Consent.LookMeaning | packages/pairing/src/index.ts:643-670 | the first half of a completion succeeds exactly for a consent of the tenant on an active site, pending and unexpired or completed under this key, whose challenge hashes to the stored digest and whose proof verifies under the site's key for exactly it |
| Consent.CompletionDecides | packages/pairing/src/index.ts:671-677 | over runs: a call that ends under a new key decides a pending, unexpired grant, active if approved and revoked if denied, for good whatever happens next; in any other case nothing changes |
| Consent.RunAdvances | packages/database/src/index.ts:1824-1942 | under any interleaving a grant only moves from pending to active, or to revoked |
| Consent.ActiveGrantWasApproved | packages/pairing/src/index.ts:643-677 | every active grant has an accepted approval for exactly its tenant, site, subject, client, scopes, resource and challenge, dead within 65 seconds |
| Consent.FirstDecisionWins | packages/database/src/index.ts:1875-1930 | once decided, no consent call changes a grant, with whichever key and decision |
| Consent.UsedKeyIsInert | packages/database/src/index.ts:1880-1892 | after a successful completion, in any later state, its key changes nothing and succeeds only for the same grant and thumbprint |
| Consent.BeginIsIdempotent | packages/pairing/src/index.ts:588-641 | after a successful begin, at any later time, an equal retry gets the same id, times and payload and an unequal one is refused, neither changing anything; the challenge hashes to the stored one exactly when the factory repeats itself |
| Consent.RunKeepsFiled | packages/database/src/index.ts:1769-1822 | over any run every record of a begun consent names a grant on the terms that its request digest was taken of |
| Consent.ProofServesOneDecision | packages/pairing/src/index.ts:166-228 | a signed proof that is accepted twice, in whatever states and calls, is for the same tenant, grant, terms, challenge, decision and signer |
| Pairing.PairingService.Verify | packages/pairing/src/index.ts:481-532 | a request is sent exactly for a pending, unexpired attempt of the site's tenant whose stored digest is the verifier's; success is an answer verified for exactly this attempt, site and challenge, and pairs the attempt with the site under that key; a request that leads to nothing leaves its attempt failed; anything else changes nothing |
| Pairing.CompleteMeaning | packages/database/src/index.ts:1714-1757 | a completion under an unused key succeeds exactly when the site and its resource are free and the attempt is being verified and unexpired; it activates the attempt, stores the site and changes no other row |
| PairingTraces.PairingIsTraced | packages/pairing/src/index.ts:481-532 | over all interleavings: for every request a call started with a verifier whose digest is the attempt's and marked it, and for every active attempt that call committed it with its site, each before the attempt's deadline |
| Pairing.PairingIsBijective | packages/database/src/index.ts:1694-1757 | in every reachable state the sites created by pairing and the active attempts correspond one to one, resource by resource |
| Pairing.OneRequestPerAttempt | packages/pairing/src/index.ts:499-507 | no attempt triggers two outbound proof requests |
| Pairing.OutcomeIsFinal | packages/database/src/index.ts:1705-1712 | an attempt that is active or failed stays exactly so; a late failure report changes nothing |
| Pairing.ActiveSiteWasProved | packages/pairing/src/index.ts:507-523 | every active attempt has an accepted proof for exactly it, its site, resource and challenge, and the site holds the key that signed it |
| Pairing.CompletionNeverReplays | packages/database/src/index.ts:1714-1757 | in every reachable state a completion succeeds only by creating its site and activating its attempt |
| ControlPlane.ActiveGrantTracesToPairing | packages/database/src/index.ts:1714-1757 | with pairing and consent on one site table and all steps interleaved: every active grant was approved by a proof signed under the key that an accepted pairing proof installed for exactly its site and resource |
| RevocationOutbox.ClampIsIdle | apps/authorization-service/src/revocation-worker.ts:126-137 | neither cap ever changes two to the power of min(attempts, 11) |
| RevocationOutbox.PostgresRevocationOutbox.Claim | packages/database/src/index.ts:1584-1615 | takes only rows that are undelivered, due, tried fewer than twenty times, not held elsewhere, and not locked within two minutes, locks them now and counts the attempt; takes all of those if there is room; returns them as it left them; no other row changes |
| RevocationOutbox.DueIsTaken | packages/database/src/index.ts:1584-1615 | of the rows that may be claimed, each that comes before a taken one is taken, and all if there is room |
| RevocationOutbox.PostgresRevocationOutbox.MarkDelivered | packages/database/src/index.ts:1627-1632 | the record is delivered and never claimable again, and no other row changes |
| RevocationOutbox.PostgresRevocationOutbox.Reschedule | packages/database/src/index.ts:1634-1642 | a delivered record stays as it is; any other is released with its code, or `delivery_failed` in place of what is no code, and can be claimed from the end of its delay, clamped to an hour, on and not before, while attempts are left; no other row changes |
| RevocationOutbox.RevocationWorker.RunOnce | apps/authorization-service/src/revocation-worker.ts:117-142 | counts every claimed record as delivered or deferred and writes their outcomes in order |
| RevocationOutbox.RecordsAreRows | packages/database/src/index.ts:1590-1625 | each record returned is a claimable row as the claim left it |
| RevocationOutbox.RecordsDistinct | packages/database/src/index.ts:1590-1625 | one claim returns no row twice |
| RevocationOutbox.OneOutcomePerRecord | apps/authorization-service/src/revocation-worker.ts:121-140 | each claimed record gets its own outcome and no other record's: delivered exactly when accepted, else put off by its backoff |
| OutboxRuns.DeliveredIsFinal | packages/database/src/index.ts:1590-1642 | a delivered row is never claimed or altered again |
| OutboxRuns.LeasesDoNotOverlap | packages/database/src/index.ts:1596-1612 | two claims of a row without a reschedule between them are over two minutes apart |
| OutboxRuns.AbandonedIsClaimedAgain | packages/database/src/index.ts:1605-1606 | a row whose worker never reports is claimed again by a claim with room for it exactly when more than two minutes have passed |
| OutboxRuns.ClaimSpends | packages/database/src/index.ts:1596-1612 | each record claimed takes one off the attempts left over all undelivered rows |
| OutboxRuns.TotalClaimsBounded | packages/database/src/index.ts:1596-1612 | over any run, at most twenty claims for each row |
| OutboxRuns.AttemptsCountClaims | packages/database/src/index.ts:1596-1612 | a row's attempt counter is the number of claims that took it |
| OutboxRuns.BackoffSpacing | apps/authorization-service/src/revocation-worker.ts:121-140 | if every claim ends in a reschedule, the twentieth comes at least 20478 seconds after the first |
| BrowserTransactions.PathMeaning | packages/database/src/index.ts:551-554 | a return path starts with exactly one slash, has no backslash and no fragment, and at most 2048 characters |
| BrowserTransactions.PurgeMeaning | packages/database/src/index.ts:958-967 | a purge deletes at most a hundred rows, all expired or consumed over a day ago, the oldest first, and all of those if there are no more |
| ConsoleAuth.PostgresConsoleAuthStore.Create | packages/database/src/index.ts:760-775 | purge and insert in one transaction, with its exact new state and answer |
| ConsoleAuth.PostgresConsoleAuthStore.Authorize | packages/database/src/index.ts:777-814 | binds, shrinks the deadline and replaces the code, so that no other code redeems the request from then on; or fails without a change |
| ConsoleAuth.PostgresConsoleAuthStore.Exchange | packages/database/src/index.ts:816-881 | opens a session that resolves at once and uses the request up for good, or fails without a change |
| ConsoleAuth.PostgresConsoleAuthStore.StartLogout | packages/database/src/index.ts:906-930 | the session never resolves again and the logout request it opens validates, or nothing changes |
| ConsoleAuth.PostgresConsoleAuthStore.FinishLogout | packages/database/src/index.ts:932-949 | validates a logout request; once consumed it never validates again |
| ConsoleAuth.PostgresConsoleAuthStore.Revoke | packages/database/src/index.ts:951-956 | the session never resolves again, and a first revocation time stays |
| ConsoleMeaning.AuthorizeMeaning | packages/database/src/index.ts:777-814 | when an authorisation succeeds and the row it leaves, column by column |
| ConsoleMeaning.ExchangeMeaning | packages/database/src/index.ts:816-881 | when an exchange succeeds, its answer, and the consumed login and the session it leaves, column by column |
| ConsoleMeaning.ResolveMeaning | packages/database/src/index.ts:883-904 | a session resolves exactly while it and its account session last, it is not revoked and its account is active |
| ConsoleMeaning.LogoutMeaning | packages/database/src/index.ts:906-930 | when a logout starts, the revoked session and the logout request it leaves |
| ConsoleMeaning.ValidateMeaning | packages/database/src/index.ts:932-949 | a logout request is good for its own account session until its deadline and until it is consumed |
| ConsoleRuns.OneSessionPerLogin | packages/database/src/index.ts:816-881 | no login request yields two sessions, in any run |
| ConsoleRuns.ExchangeIsEarned | packages/database/src/index.ts:816-881 | in every reachable state an exchange succeeds only for the request's browser secret and latest code, under a live authority, for at most twelve hours and no longer than the authority |
| ConsoleRuns.TransactionsAdvance | packages/database/src/index.ts:777-814 | over any run bindings are written once, the deadline only shrinks, and a consumed row never changes |
| ConsoleRuns.ResolvedSessionIsLive | packages/database/src/index.ts:883-904 | a session that resolves was opened by an earned exchange within twelve hours, never revoked, with its authority live and its account active |
| ConsoleRuns.RevokedForGood | packages/database/src/index.ts:951-956 | a revoked or logged-out session never resolves again, at any clock reading |
| ConsolePurge.PurgeIsUnobservable | packages/database/src/index.ts:958-967 | as long as the clock never falls by more than a day and a millisecond, every call of a run succeeds with the same answer, or is refused, as if nothing were ever purged; only the error that a refusal names may differ |
| ConsolePurge.PurgeToleranceIsExact | packages/database/src/index.ts:777-967 | for every t: the purge is invisible on all runs from empty tables whose clock falls by at most t if and only if t is at most a day and a millisecond |
| LoginTransactions.PostgresAccountLoginTransactionStore.Open | packages/database/src/index.ts:550-577 | purge and insert in one transaction; the token is usable exactly until its deadline |
| LoginTransactions.PostgresAccountLoginTransactionStore.Bind | packages/database/src/index.ts:579-610 | binds the first email or accepts the same one again, after which every other email is refused |
| LoginTransactions.PostgresAccountLoginTransactionStore.Reissue | packages/database/src/index.ts:612-646 | the old token is spent for good and its successor usable for the same path until its deadline, or nothing changes |
| LoginTransactions.PostgresAccountLoginTransactionStore.Finish | packages/database/src/index.ts:648-711 | spends the token for a user with the bound email and an active account; a failure changes nothing |
| LoginMeaning.UseMeaning | packages/database/src/index.ts:599-602 | a token is good exactly with its own CSRF value, until its deadline and while it is not consumed |
| LoginMeaning.CompleteMeaning | packages/database/src/index.ts:648-711 | a completion succeeds exactly for a good token, a user with the bound email and an active account, and answers with that account, its home tenant and the path the login began with |
| LoginMeaning.RestartMeaning | packages/database/src/index.ts:612-646 | a restart consumes a good token and stores an unused one in its place, unbound, for ten minutes and the same path |
| LoginTransactions.LoginChainsAreSound | packages/database/src/index.ts:550-711 | of a chain's tokens at most one is open, all carry its path and CSRF digest, a completed chain has none open, and a completing user's email is the bound one |
| LoginTransactions.OneCompletionPerChain | packages/database/src/index.ts:648-711 | a chain completes at most once over any number of restarts |
| LoginTransactions.EmailIsWrittenOnce | packages/database/src/index.ts:579-610 | from any reachable state on, the stored email binding of a row never changes while the row exists |
| LoginTransactions.TokenStaysUsable | packages/database/src/index.ts:648-711 | failed completions and restarts, calls on other tokens and purges leave an open token open, with its deadline and path |
| LoginPurge.PurgeIsUnobservable | packages/database/src/index.ts:557-567 | as long as the clock never falls by more than a day and a millisecond, every call on logins succeeds with the same answer, or is refused, as if nothing were ever purged; chains, bound emails and completions are the same |
| LoginPurge.PurgeToleranceIsExact | packages/database/src/index.ts:557-595 | for every t: the purge is invisible on all runs whose clock falls by at most t if and only if t is at most a day and a millisecond |
| LoopbackRedirects.Client.AllowRegisteredNativeLoopbackPort | packages/oauth-provider/src/index.ts:191-214 | the push and the splice change the list exactly as `Admit` says |
| LoopbackRedirects.MatchesMeaning | packages/oauth-provider/src/index.ts:166-189 | a candidate matches exactly when it is the registered plain loopback URL with a port added |
| LoopbackRedirects.ListShape | packages/oauth-provider/src/index.ts:205-213 | the exact list after any run: the registered URIs and pushed variants in order, less the oldest variants evicted |
| LoopbackRedirects.AnswerIsStateless | packages/oauth-provider/src/index.ts:166-214 | the answer is the stateless matching rule whatever happened before, and an accepted URI is listed on return |
| LoopbackRedirects.RegisteredThenLastEight | packages/oauth-provider/src/index.ts:205-213 | without variants among the registered URIs, the list is those followed by the last eight pushed |
| LoopbackRedirects.ListStaysDistinct | packages/oauth-provider/src/index.ts:200-213 | no call introduces a duplicate |
| LoopbackRedirects.RegisteredSurvive | packages/oauth-provider/src/index.ts:205-213 | every registered URI stays listed throughout exactly when none is a variant, nothing was pushed, or the bound was never exceeded |
| LoopbackRedirects.RegisteredSurviveAlways | packages/oauth-provider/src/index.ts:200-213 | every registered URI survives every run exactly when none is a variant of another, or too few other variants exist to pass the bound |
| LoopbackRedirects.RegisteredCanBeLost | packages/oauth-provider/src/index.ts:205-213 | a parser, a registration and a run that evicts a registered URI |
| Scopes.SchemaIsAscending | packages/contracts/src/index.ts:44-50 | the schema accepts exactly the non-empty strictly ascending sequences of known scopes |
| Scopes.AcceptedIsUnique | packages/contracts/src/index.ts:44-50 | each scope set has one sequence that the schema accepts |
| Scopes.InteractionScopesAreCanonical | apps/authorization-service/src/server.ts:160-166 | for any parameter text, the one accepted sequence of its known words, or none if it has none |
| Scopes.JoinRoundTrip | packages/oauth-provider/src/index.ts:86-86 | words joined by spaces are read back as they were |
| Scopes.ScopeSetDecides | packages/oauth-provider/src/index.ts:86-86 | two lists have the same sorted text exactly when they are the same set |
| Scopes.RankMeaning | packages/contracts/src/index.ts:30-50 | the known scopes are these five, in this order |
| Scopes.WordsMeaning | packages/oauth-provider/src/index.ts:104-104 | what splits off at a space is the piece before it, unless it is empty, and then the words of the rest |
| ConsentLoad.SameDecision | packages/database/src/index.ts:2373-2377 | the query's array equality and the loader's text equality are both set equality |
| ConsentLoad.ResolveExactDecides | packages/database/src/index.ts:2373-2412 | in every reachable registry the lookup is unambiguous and finds a consent exactly when its scopes are the requested set |
| ConsentMeaning.FoundIsStored | packages/database/src/index.ts:2373-2412 | what the lookup finds is an active consent of these parties and this resource whose stored scopes are the requested set |
| ConsentMeaning.StoredIsFound | packages/database/src/index.ts:2373-2412 | in every reachable registry each such consent is found |
| ConsentLoad.ResourceAgreement | apps/authorization-service/src/server.ts:168-190 | the interaction and the loader read different resources exactly for repeated parameters, and none is left after normalisation |
| ConsentLoad.ConsentInteraction.Approve | apps/authorization-service/src/server.ts:760-789 | plan, load or create, add, save: the exact grant stored and the grant id to submit |
| ConsentLoad.PlanIsMade | apps/authorization-service/src/server.ts:386-429 | for what the provider reports as requested minus granted, the plan is exactly that, and is refused only for a foreign session grant |
| ConsentMeaning.PlanMeaning | apps/authorization-service/src/server.ts:386-429 | for any prompt details: the plan is made exactly when only identity scopes, the sub claim and consented scopes of this resource are missing, and lists exactly those |
| ConsentMeaning.UpdateMeaning | apps/authorization-service/src/server.ts:760-789 | a plan adds to a grant exactly the scopes and claims it lists and keeps everything else |
| ConsentMeaning.LoadMeaning | packages/oauth-provider/src/index.ts:89-147 | a grant that the loader hands out is the stored one of exactly the consent that the complete request's exact lookup finds |
| ConsentMeaning.LoadSucceeds | packages/oauth-provider/src/index.ts:89-147 | and every such grant is handed out |
| ConsentLoad.CheckDecides | packages/oauth-provider/src/index.ts:133-145 | what the loader's last checks mean: exactly this consent's grant, with exactly its scopes |
| ConsentLoad.ConsentThenLoad | packages/oauth-provider/src/index.ts:89-147 | after consent the loader accepts the grant for the same request exactly when the session's grant, if any, was bound to this consent alone; its resource scopes are then the approved ones |
| ConsentLoad.SecondResourceIsRefused | packages/oauth-provider/src/index.ts:136-139 | for one active consent of one scope: a session grant that also carries another resource is saved by the interaction and refused by the next load |

## Left out

- Consent.GrantService.Complete: one call without another between its two transactions; calls that interleave are the steps `LookCall` and `FinishCall` of `Consent.Run`.
- Pairing.PairingService.Verify: one call that no other comes between; calls that interleave are the steps `Start`, `Mark`, `Answer`, `Commit` and `GiveUp` of `Pairing.Run`.
- The tenant context of a transaction, database roles and row-level security: guards that compare tenants are modelled, the rest is one database.
- `PostgresRefreshFamilyRepository` and `rotate_refresh_family` (migration 005): on a replay that function appends a grant event without looking at the grant's status. No service constructs the repository; `GrantRegistry.NextKeepsEvents` is about the other transactions.
- Artifacts of the non-secret models (`provider_artifacts`): a table keyed by the raw id already is a plain map.
- `consume_rate_limit`: its answer is an argument of `Consume`.
- Shape checks on identifiers, keys and return values that a schema makes before a call reaches a modelled guard, and the canonical form of resource URLs; a resource is its canonical text, and a URL is a record of parts.
- The internals of the OAuth provider: a grant keeps scopes as text and adds to it; what it reports missing is requested minus granted.
- A query that fails, a lost connection or a lock timeout: the transaction then changes nothing. A commit whose caller sees an error is modelled where it matters, in pairing and before a provider send.
- The expiry column of idempotency records, which no query reads.
- The status row of a signing key; only the events of its revocation are modelled.
- The deletion lifecycle, signing-key activation, HTTP handlers, mail and network transport, configuration, metrics and audit records.
