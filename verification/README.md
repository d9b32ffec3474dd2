# Identity provider: verified model of the server's protocols

This project models the parts of the identity provider's server whose guarantees live across several
functions, and proves those guarantees for every input, every serial run or every interleaving. Each
part is a set of database tables with operations on them:

- **Refresh-token families** (`RefreshTokens.dfy`, `RefreshFamilies.dfy`): rotation, the grace window,
  reuse detection, DPoP binding and lifetimes (section 10.4 of RFC 6749, section 5 of RFC 9449). The
  requests are interleaved: every step that follows a read works from a snapshot that may be stale,
  and every transaction or single update is atomic.
- **The audit hash chain** (`JsText.dfy`, `Redaction.dfy`, `AuditText.dfy`, `AuditChain.dfy`,
  `AuditServices.dfy`, `AuditVerdicts.dfy`, `AuditResumption.dfy`, with `Permutations.dfy`): what a
  row's hash pins down, the paged verifier as a refinement of a one-pass check, which logs, edits and
  deletions its answers tell apart, resumption from a checkpoint, anonymisation and redaction.
- **The OAuth pipeline** (`Scopes.dfy`, `OAuthServices.dfy`, `OAuthOutcomes.dfy`, `OAuthRuns.dfy`): pushed requests,
  authorization, consent, code redemption, token bundles and refresh (sections 4.1.2 and 6 of
  RFC 6749, section 4.6 of RFC 7636, section 4 of RFC 9126), followed over whole runs in which
  refresh exchanges are interleaved with everything else.
- **Time-windowed stores** (`LoginThrottle.dfy`, `Sessions.dfy`, `AccountTokens.dfy`,
  `PasswordReset.dfy`, `EmailVerification.dfy`): login throttling and what a login opens, sessions and
  their cleanup, reset tokens, registration and verification tokens.
- **Role-based access control** (`Rbac.dfy`): the permission query under SQL's three-valued logic and
  the counting check of `setRolePermissions`.
- **Signing keys and recovery codes** (`SigningKeys.dfy`, `RecoveryCodes.dfy`): caches of several
  instances against a shared table; a ledger of single-use codes.

In each part a function says what one call or one atomic step does to the tables, a class with mutable
fields carries the service's methods and is proved equal to those functions, and lemmas over the
functions carry the properties: when each call succeeds, in terms of the rows that a caller could read
in the tables, and what holds over runs. Counts are pinned as sizes of sets of rows (`Counting.dfy`). The state machines (`Step`, `Run`) add histories that no endpoint
reads, such as which code a family grew from.

## Conventions

- SHA-256 and HMAC are symbolic, that is injective, functions of their input. So is the relation
  between a PKCE challenge and its verifier.
- Random values and clock readings are arguments. A function of the source that reads the clock
  several times takes several readings, and columns that default to the database's clock take a
  reading of their own. Where a property needs a clock that does not run backwards, it says so
  (`Timely...`); the interleaved rotation protocol assumes nothing about clocks.
- A unique column makes the operation fail, as the database does, if a value is already taken.
- A query ordered by `created_at` may give rows with equal timestamps in any order, and each query in
  its own: every page of one verification, every selection of the latest row or key. A contract says
  so by leaving the order open, and the results about answers are about all answers that are possible.
- A timestamp of an audit row is its UTC calendar fields, years 0 to 9999, down to the database's
  microsecond; `toISOString` keeps the milliseconds only.
- A client's `client_id` and its internal id, both unique, are one identifier.

## What the proofs show about the code

Points where the code does less than a reader may expect, each with a lemma:

- The column `rotation_grace_plaintext` holds the successor's hash, not a plaintext as its name says; the
  model follows the code.
- A log of serial appends, checked to its end, is accepted by every check if and only if its timestamps
  strictly increase, and by none if one of them goes back. With equal timestamps the outcome depends on
  the order in which the database happens to answer them, when a row is appended and when it is
  checked (`VerdictOfBuiltLog`). `ClockSetBackIsRejected`, `TwinTimestampsGoEitherWay` and
  `TieCanLoseTheChain` give genuine logs that the check rejects, may reject, or can never accept.
- An edit of a sound log can go unnoticed if and only if it keeps `prevHash`, keeps id, action and
  millisecond unless it is of the last row, and leaves the row between its neighbours in time; it is
  never noticed, by any check, if moreover no timestamps are equal (`EditVerdict`). So actor, resource,
  details and address can be edited at will, and a timestamp within its millisecond and its place.
- Cutting rows off the end is not noticed (`DeletionVerdict`), nor is anything behind the cap of a check
  (`CapLeavesRestUnread`).
- Resuming a verification behind a row that shares its timestamp with the next one skips that row; the
  answer is then "invalid" if a later row exists, and an empty "valid" if none does
  (`ResumeOfSoundLog`, with a genuine log in `SkippedTwinIsRejected`).
- Resuming behind a row that is not stored reads nothing and is answered "valid"
  (`UnknownCheckpointIsValid`).
- Withdrawing a consent leaves outstanding authorization codes redeemable (`RevocationLeavesCodes`), and a
  request without any scope word never needs a consent (`RevocationWithdrawsConsent` gives the exact
  condition for the consent page).
- The exponential part of `calculateDelay` beyond one second is unreachable in serial runs
  (`AtMostFiveFailuresADay`).
- `setRolePermissions` reports a duplicate in its list as a missing permission named "unknown"
  (`SetRolePermissionsExactly`).
- A recorded refresh-token lifetime can grow when the database's clock lags behind the service's
  (`SuccessorLifetime` gives the exact condition, `LifetimeCanGrow` a reachable family).

## Model

| member | source | states |
|---|---|---|
| RefreshTokens.CreatedTokenRotates | apps/server/src/modules/token/refresh-token.service.ts:50-154 | A created token is exchanged with its own key until it expires, for a successor with the same grant and the renewed lifetime; a refused exchange changes nothing |
| RefreshTokens.RotationSucceedsExactly | apps/server/src/modules/token/refresh-token.service.ts:156-219 | For every table, exactly when a rotation succeeds, by which row it retires, and what it then stores |
| RefreshTokens.ReuseIsReportedExactly | apps/server/src/modules/token/refresh-token.service.ts:176-206 | Reuse is reported exactly for a revoked token after its grace window, and revokes that family only; every other refusal changes nothing |
| RefreshTokens.RevokeWhereExactly | apps/server/src/modules/token/refresh-token.service.ts:34-46 | A revoking update stamps exactly the selected unrevoked rows, changes no other field and is idempotent |
| RefreshTokens.RefreshTokenService.CreateRefreshToken | apps/server/src/modules/token/refresh-token.service.ts:125-154 | The one new row, or a unique violation and no change |
| RefreshTokens.RefreshTokenService.RotateActiveRefreshTokenRow | apps/server/src/modules/token/refresh-token.service.ts:50-123 | Checks on the snapshot, then the atomic re-check, retirement and insert; all or nothing |
| RefreshTokens.RefreshTokenService.RevokeAllNonRevokedInFamily | apps/server/src/modules/token/refresh-token.service.ts:34-46 | Stamps every unrevoked row of the family |
| RefreshTokens.RefreshTokenService.RotateRefreshToken | apps/server/src/modules/token/refresh-token.service.ts:156-219 | Step by step the same as the serial rotation of the protocol |
| RefreshTokens.RefreshTokenService.RevokeRefreshToken | apps/server/src/modules/token/refresh-token.service.ts:221-251 | Succeeds exactly for a stored unrevoked token, and revokes that one only |
| RefreshTokens.RefreshTokenService.RevokeAllForClient | apps/server/src/modules/token/refresh-token.service.ts:253-272 | Stamps every unrevoked row of the client and user |
| RefreshFamilies.FamiliesAreChains | apps/server/src/modules/token/refresh-token.service.ts:50-219 | In every reachable state of interleaved requests a family is one chain linked by the grace column; its tail is the one row without successor and the only one that can be unrevoked |
| RefreshFamilies.StepKeepsInv | apps/server/src/modules/token/refresh-token.service.ts:50-272 | Every atomic step keeps the chains, the write-once fields and every request's tie to the table |
| RefreshFamilies.AtMostTwoRotations | apps/server/src/modules/token/refresh-token.service.ts:72-104 | No plaintext rotates more than twice: once while active, once by a request that began inside the grace window |
| RefreshFamilies.TwoRotationsAreReachable | apps/server/src/modules/token/refresh-token.service.ts:176-202 | The bound of two is reached |
| RefreshFamilies.BoundRotationsPresentTheKey | apps/server/src/modules/token/refresh-token.service.ts:57-61 | Every successful rotation of a bound family presented its key, and stays in the presented token's family |
| RefreshFamilies.DeadForever | apps/server/src/modules/token/refresh-token.service.ts:79-81 | A family without unrevoked row never has one again and no further rotation succeeds in it, whatever snapshots were read before |
| RefreshFamilies.ReuseKillsFamily | apps/server/src/modules/token/refresh-token.service.ts:176-206 | A retired token outside its grace window ends in reuse detection and a dead family |
| RefreshFamilies.ReportedReuseMeansDead | apps/server/src/modules/token/refresh-token.service.ts:204-205 | In every reachable state a reported reuse means that the family is dead |
| RefreshFamilies.ClientRevocationKills | apps/server/src/modules/token/refresh-token.service.ts:253-272 | Revoking for a client and user kills every family of theirs |
| RefreshFamilies.GrantIsForEver | apps/server/src/modules/token/refresh-token.service.ts:95-103 | Client, user, scope and key binding are one per family, in every state and across every continuation |
| RefreshFamilies.SuccessorLifetime | apps/server/src/modules/token/refresh-token.service.ts:69-70 | A successor lives at least a minute from the rotation; its recorded lifetime stays within max(predecessor's, one minute) exactly when its createdAt does not lag |
| RefreshFamilies.LifetimesNeverGrow | apps/server/src/modules/token/refresh-token.service.ts:69-70 | With a database clock not behind, no token outlives max(first lifetime, one minute) |
| RefreshFamilies.LifetimeCanGrow | apps/server/src/modules/token/refresh-token.service.ts:69-70 | A reachable family whose recorded lifetime grows, with a database clock that lags |
| RefreshFamilies.SerialRotationIsAnUninterruptedRun | apps/server/src/modules/token/refresh-token.service.ts:156-219 | The service method's serial rotation is the interleaved protocol run without interruption |
| RefreshTokens.RetryInsideGraceSucceeds | apps/server/src/modules/token/refresh-token.service.ts:176-199 | A retry of the old plaintext inside the window rotates the successor |
| Redaction.RedactNestedValue | apps/server/src/modules/audit/audit.service.ts:61-75 | The recursive walk computes the redaction of any nested value |
| Redaction.RedactPii | apps/server/src/modules/audit/audit.service.ts:77-87 | The loop over entries computes the redaction of an object |
| Redaction.KeyMatchesExactly | apps/server/src/modules/audit/audit.service.ts:44-59 | A key matches exactly if a piece of it spells one of the nine fragments in any case, with underscores, hyphens and white space anywhere in between |
| Redaction.MatchesInContext | apps/server/src/modules/audit/audit.service.ts:56-59 | A key that contains a matching key matches, whatever surrounds it |
| Redaction.RedactionByPlace | apps/server/src/modules/audit/audit.service.ts:61-87 | At every place: kind, keys and lengths are kept, matching keys get the marker, nothing else appears or remains |
| Redaction.OnlyMarkersUnderPii | apps/server/src/modules/audit/audit.service.ts:77-87 | No value but the marker stands under a matching key at any depth |
| Redaction.RedactIdempotent | apps/server/src/modules/audit/audit.service.ts:61-87 | Redacting twice is redacting once |
| Redaction.RedactFixesExactlyClean | apps/server/src/modules/audit/audit.service.ts:61-87 | Redaction is the identity exactly where only markers stand under matching keys |
| AuditText.HashDetermines | apps/server/src/modules/audit/audit.service.ts:8-10 | Two rows have one hash exactly if id, action and millisecond agree |
| AuditText.HashCovers | apps/server/src/modules/audit/audit.service.ts:8-10 | What is hashed: the id, the action and the ISO text, in this order |
| AuditText.IsoStringReads | apps/server/src/modules/audit/audit.service.ts:9 | The ISO text writes the calendar fields, with its separators in their places |
| AuditText.OrdinalIsCalendarOrder | apps/server/src/modules/audit/audit.service.ts:97 | Rows are ordered as the calendar orders their timestamps, down to the microsecond |
| AuditText.IsoStringInjective | apps/server/src/modules/audit/audit.service.ts:9 | ISO texts agree exactly up to the microsecond |
| AuditChain.ScanAccepts | apps/server/src/modules/audit/audit.service.ts:206-257 | The one-pass check accepts exactly the linked sequences, and reports how far it went |
| AuditChain.ScanRejects | apps/server/src/modules/audit/audit.service.ts:215-238 | Otherwise it reports the first break |
| AuditChain.BuiltIsWellBuilt | apps/server/src/modules/audit/audit.service.ts:89-118 | Whichever latest rows the database answers, each stored row carries the hash of a row that was the latest when it was stored |
| AuditChain.AppendExactly | apps/server/src/modules/audit/audit.service.ts:89-118 | The stored row: what was given, the redacted details, the hash of the latest row |
| AuditChain.StoredDetailsAreRedacted | apps/server/src/modules/audit/audit.service.ts:104-115 | However a log was built, stored details show only markers under matching keys |
| AuditChain.OnlyPrefixesAreAccepted | apps/server/src/modules/audit/audit.service.ts:206-242 | Of all sequences of rows of an accepted log exactly its prefixes are accepted |
| AuditServices.CheckBatch | apps/server/src/modules/audit/audit.service.ts:212-242 | The loop over one batch is the recursive check of the batch |
| AuditServices.AuditService.CreateAuditLog | apps/server/src/modules/audit/audit.service.ts:89-118 | Appends the one row that carries the latest row's hash |
| AuditServices.AuditService.AnonymizeActorInAuditLogs | apps/server/src/modules/audit/audit.service.ts:260-262 | Clears the actor in exactly its rows |
| AuditServices.CheckPage | apps/server/src/modules/audit/audit.service.ts:195-247 | One page, however it orders ties, moves the reading on by its rows or ends it with the report of a break |
| AuditServices.AuditService.VerifyAuditChain | apps/server/src/modules/audit/audit.service.ts:166-258 | For every log, cap and checkpoint the paged loop answers the whole report of a recursive check of the rows that its pages gave |
| AuditVerdicts.AnswerIsOnePass | apps/server/src/modules/audit/audit.service.ts:166-258 | Without ties among the selected rows the verifier has exactly one answer, that of a single recursive pass under the cap |
| AuditVerdicts.VerdictOfBuiltLog | apps/server/src/modules/audit/audit.service.ts:89-258 | Of a built log checked to its end: every answer is "valid" exactly if timestamps strictly increase; some answer is exactly if they do not go back and every row followed the one stored before it |
| AuditVerdicts.ClockSetBackIsRejected | apps/server/src/modules/audit/audit.service.ts:89-118 | A genuine log of two rows that every check rejects |
| AuditVerdicts.TwinTimestampsGoEitherWay | apps/server/src/modules/audit/audit.service.ts:89-118 | A genuine log of two rows that some check accepts and some check rejects |
| AuditVerdicts.TieCanLoseTheChain | apps/server/src/modules/audit/audit.service.ts:89-118 | A genuine log of three rows that no check accepts, though time never went back |
| AuditVerdicts.CappedVerdict | apps/server/src/modules/audit/audit.service.ts:177-248 | A capped check of a built log without ties is valid exactly if the rows first in time are those stored first, in order |
| AuditVerdicts.CapLeavesRestUnread | apps/server/src/modules/audit/audit.service.ts:195-205 | No change behind the cap, short of moving a row before it, changes an answer |
| AuditVerdicts.EditAcceptedExactly | apps/server/src/modules/audit/audit.service.ts:206-242 | A reading of all rows of an edited log is accepted exactly if it is in the order of storing and the links are kept |
| AuditVerdicts.EditVerdict | apps/server/src/modules/audit/audit.service.ts:166-258 | Exactly which replacements of one row some check misses, and which every check misses |
| AuditVerdicts.DeletionVerdict | apps/server/src/modules/audit/audit.service.ts:166-258 | What is left of an accepted log is answered "valid" exactly if, up to the cap and in time order, it is a prefix |
| AuditVerdicts.AnonymizeKeepsAnswers | apps/server/src/modules/audit/audit.service.ts:260-262 | Anonymising clears the actor everywhere and leaves the possible answers of every verification as they were |
| AuditResumption.ResumeContinues | apps/server/src/modules/audit/audit.service.ts:159-193 | In any log without ties, a valid run resumed from its report gives verdict, culprit and closing hash of a single run, and the counts add up |
| AuditResumption.ResumeKeepsOrder | apps/server/src/modules/audit/audit.service.ts:159-193 | The same for any log and a database that keeps one order, at a cut where the next row is strictly later |
| AuditResumption.ResumeOfSoundLog | apps/server/src/modules/audit/audit.service.ts:185-193 | What a resumption in a sound log answers at a clean cut, at a tie, and at the end |
| AuditResumption.SkippedTwinIsRejected | apps/server/src/modules/audit/audit.service.ts:185-193 | A genuine, accepted log whose resumption behind a tied row every check rejects |
| AuditResumption.UnknownCheckpointIsValid | apps/server/src/modules/audit/audit.service.ts:185-193 | A resumption behind an unknown row reads nothing and is answered "valid" |
| Scopes.ScopeSetIsWords | apps/server/src/modules/oauth/oauth.helpers.ts:33-42 | The parsed scopes are exactly the maximal runs of non-space characters |
| Scopes.TrimKeepsScopes | apps/server/src/modules/oauth/oauth.token.ts:226 | Trimming never changes the scopes |
| Scopes.TrimExactly | apps/server/src/modules/oauth/oauth.token.ts:226 | Trimming takes off the white space at both ends, all of it, and nothing else |
| Scopes.ScopeSubset | apps/server/src/modules/oauth/oauth.helpers.ts:44-52 | Decides set inclusion |
| Scopes.ConsentCovers | apps/server/src/modules/oauth/oauth.helpers.ts:54-61 | Decides inclusion in the granted set |
| OAuthServices.ClientCredentialsWithinRegistration | apps/server/src/modules/oauth/oauth.token.ts:204-240 | An eligible client obtains exactly the requested subset of its registration, or all of it, and nothing beyond |
| OAuthServices.GrantedScopesAre | apps/server/src/modules/oauth/oauth.authorize.ts:50-73 | A scope is granted exactly if some unrevoked grant of the user names it |
| OAuthServices.AuthorizeExactly | apps/server/src/modules/oauth/oauth.authorize.ts:122-184 | Exactly when a request leads to a code, to the consent page or to an error, in terms of the registration and the single grants |
| OAuthServices.ConsentIsRemembered | apps/server/src/modules/oauth/oauth.authorize.ts:154-182 | After an approved consent the same client gets a code for that scope or less without asking again |
| OAuthServices.RevocationWithdrawsConsent | apps/server/src/modules/oauth/oauth.authorize.ts:296-340 | After a revocation no scope and no unrevoked token remains; an allowed request leads to the consent page exactly if the client is not first-party and a scope is named |
| OAuthServices.RevocationLeavesCodes | apps/server/src/modules/oauth/oauth.authorize.ts:319-331 | Outstanding codes are redeemed, or refused, as before the revocation |
| OAuthServices.RevocationSparesOthers | apps/server/src/modules/oauth/oauth.authorize.ts:319-331 | Other users and clients keep their scopes and tokens |
| OAuthServices.PushedRequestIsAuthorized | apps/server/src/modules/oauth/par.service.ts:18-65 | A stored request is answered like the plain request with the pushed parameters, for its client and until it expires, and else refused |
| OAuthServices.PushedRequestIsSpentByACode | apps/server/src/modules/oauth/oauth.authorize.ts:216-242 | A code spends the pushed request; the consent page leaves everything as it was |
| OAuthServices.RefreshIsAuthorized | apps/server/src/modules/oauth/oauth.token.ts:267-304 | A refresh touches tokens only for a known, proven client within the token's scope, and only in that family |
| OAuthServices.RefreshAnswers | apps/server/src/modules/oauth/oauth.token.ts:294-327 | The answer carries the new token, the family's client and the narrowed or the token's own scope |
| OAuthServices.FreshBundleRefreshes | apps/server/src/modules/oauth/oauth.token.ts:62-327 | The refresh token of a new bundle is exchanged by its client, with its key and until it expires, for the code's user and scope |
| OAuthOutcomes.AuthorizeRefusals | apps/server/src/modules/oauth/oauth.authorize.ts:122-137 | Which error each refused authorization request gets, and that it stores nothing |
| OAuthOutcomes.ConsentExactly | apps/server/src/modules/oauth/oauth.authorize.ts:244-294 | What a consent stores and answers: refused, denied, approved, and broken off by a taken code |
| OAuthOutcomes.RevocationSucceedsExactly | apps/server/src/modules/oauth/oauth.authorize.ts:296-317 | A withdrawal succeeds exactly if the client exists and the user has an unrevoked grant to it, and else changes nothing |
| OAuthOutcomes.RevocationStamps | apps/server/src/modules/oauth/oauth.authorize.ts:319-331 | A withdrawal stamps exactly the unrevoked grants and tokens of the pair |
| OAuthOutcomes.ApprovedConsentCanBeWithdrawn | apps/server/src/modules/oauth/oauth.authorize.ts:244-331 | What was approved can be withdrawn, once |
| OAuthOutcomes.PushExactly | apps/server/src/modules/oauth/oauth.authorize.ts:186-214 | A push succeeds exactly for the client itself and what it may ask for, and stores that for its lifetime |
| OAuthOutcomes.ParRefusals | apps/server/src/modules/oauth/oauth.authorize.ts:216-234 | Exactly which requests by URI are refused before authorization, and with which error |
| OAuthOutcomes.ClientCredentialsExactly | apps/server/src/modules/oauth/oauth.token.ts:204-236 | Who may have client credentials, for which scopes, and which error everybody else gets |
| OAuthOutcomes.RefreshIsTheRotation | apps/server/src/modules/oauth/oauth.token.ts:267-311 | For an entitled request the endpoint answers and stores what the rotation does, revoked token or not; errors of its own are exactly for requests that are not entitled |
| OAuthOutcomes.RefreshRefusals | apps/server/src/modules/oauth/oauth.token.ts:274-302 | Which of its own errors the refresh endpoint gives |
| OAuthOutcomes.ReuseAtTheEndpoint | apps/server/src/modules/oauth/oauth.token.ts:304-308 | An entitled request with a revoked token is answered as reuse exactly after the grace window, and then its whole family is revoked |
| OAuthOutcomes.RetryAtTheEndpoint | apps/server/src/modules/oauth/oauth.token.ts:304-308 | Two exchanges of one plaintext, the second inside the grace window, both succeed |
| OAuthServices.OAuthService.LoadMergedConsentScopes | apps/server/src/modules/oauth/oauth.authorize.ts:50-73 | The nested loops compute the union over unrevoked grants |
| OAuthServices.OAuthService.CheckGuards | apps/server/src/modules/oauth/oauth.helpers.ts:77-98 | The guards in their order |
| OAuthServices.OAuthService.AuthorizeRequest | apps/server/src/modules/oauth/oauth.authorize.ts:122-184 | A code, the consent page or an error, with the matching table change |
| OAuthServices.OAuthService.AuthorizeWithParRequest | apps/server/src/modules/oauth/oauth.authorize.ts:216-242 | Authorization by stored parameters; used only when a code was issued |
| OAuthServices.OAuthService.PushAuthorizationRequest | apps/server/src/modules/oauth/oauth.authorize.ts:186-214 | Stores the checked request, or changes nothing |
| OAuthServices.OAuthService.SubmitConsentDecision | apps/server/src/modules/oauth/oauth.authorize.ts:244-294 | Stores grant and code on approval, nothing on denial |
| OAuthServices.OAuthService.RevokeConsentOf | apps/server/src/modules/oauth/oauth.authorize.ts:296-340 | Revokes the grants and refresh tokens of the pair |
| OAuthServices.OAuthService.RedeemAuthorizationCode | apps/server/src/modules/oauth/oauth.token.ts:130-182 | The redeeming transaction: one code marked used, or no change |
| OAuthServices.OAuthService.IssueRefreshFamily | apps/server/src/modules/oauth/oauth.token.ts:100-119 | A new family with the code's client, user and scope |
| OAuthServices.OAuthService.ExchangeRefreshToken | apps/server/src/modules/oauth/oauth.token.ts:267-339 | The checks, the rotation and the answer of a refresh |
| OAuthServices.OAuthService.RevokeToken | apps/server/src/modules/oauth/oauth.token.ts:356-368 | Revokes the one refresh token, or nothing for an access-token hint |
| OAuthServices.OAuthService.ExchangeClientCredentials | apps/server/src/modules/oauth/oauth.token.ts:204-240 | The scope of a client-credentials token, or the error |
| OAuthRuns.RunsAreFamilyRuns | apps/server/src/modules/token/refresh-token.service.ts:50-272 | Every run of the service is, for its refresh tokens, a run of the interleaved family protocol |
| OAuthRuns.SerialExchangeIsAnUninterruptedRun | apps/server/src/modules/oauth/oauth.token.ts:267-339 | The service method's refresh exchange is the run of its steps without interruption |
| OAuthRuns.ScopeProvenance | apps/server/src/modules/oauth/oauth.token.ts:184-327 | Over every run with interleaved refreshes, each issued scope lies within the scope of the redeemed code at the root of its family, which was registered and, for other than first-party clients, consented to at issue |
| OAuthRuns.FlowDelivers | apps/server/src/modules/oauth/oauth.token.ts:122-202 | A code that was issued and is redeemed and bundled in time by its client is answered with the scope that was asked for |
| OAuthRuns.CodesAreRedeemedOnce | apps/server/src/modules/oauth/oauth.token.ts:130-182 | No code is redeemed twice, and only in its lifetime with its redirect URI and verifier |
| OAuthRuns.RedeemableExactly | apps/server/src/modules/oauth/oauth.token.ts:122-182 | After every run, exactly which redemptions succeed in terms of what was issued and redeemed before, and that they answer what was asked for |
| OAuthRuns.PushedRequestsIssueOnce | apps/server/src/modules/oauth/oauth.authorize.ts:216-242 | A pushed request leads to at most one code, for exactly what was pushed |
| OAuthRuns.FamiliesAreConserved | apps/server/src/modules/oauth/oauth.token.ts:100-190 | Families and pending bundles together are as many as the redeemed codes |
| LoginThrottle.DelayMonotone | apps/server/src/modules/auth/login-attempts.service.ts:31-36 | The delay is monotone: zero below five failures, then one second, doubling, and 30 exactly from the tenth |
| LoginThrottle.LoginRecords | apps/server/src/modules/auth/auth.service.ts:82-139 | Exactly when a login is throttled, refused or accepted, and that only a refusal raises the count, of that email, by one, for a day |
| LoginThrottle.FailureCountIsSize | apps/server/src/modules/auth/login-attempts.service.ts:16-29 | The count is the number of failed attempts of that email younger than a day |
| LoginThrottle.PruneExactly | apps/server/src/modules/auth/login-attempts.service.ts:38-45 | Pruning drops exactly the attempts that are a day old or older |
| LoginThrottle.PruningIsInvisible | apps/server/src/modules/auth/login-attempts.service.ts:16-45 | Pruning at any points of a run changes no login result and no count |
| LoginThrottle.AtMostFiveFailuresADay | apps/server/src/modules/auth/auth.service.ts:83-123 | In every serial run no 24-hour window holds more than five failures of an email, and every delay raised is one second |
| LoginThrottle.LoginAttempts.RecordAttempt | apps/server/src/modules/auth/login-attempts.service.ts:5-14 | Appends the attempt |
| LoginThrottle.LoginAttempts.GetRecentFailureCount | apps/server/src/modules/auth/login-attempts.service.ts:16-29 | Counts the failures of the last day |
| LoginThrottle.LoginAttempts.PruneOldAttempts | apps/server/src/modules/auth/login-attempts.service.ts:38-45 | Deletes exactly the attempts of a day ago or more, and reports how many |
| LoginThrottle.LoginOpens | apps/server/src/modules/auth/auth.service.ts:76-152 | Exactly when a login opens a session or a five-minute challenge, and that the session validates for that user until its lifetime ends |
| LoginThrottle.AuthService.Login | apps/server/src/modules/auth/auth.service.ts:76-152 | The branches of login and what each stores |
| Sessions.CleanupIsInvisible | apps/server/src/modules/session/session.service.ts:121-128 | Deleting expired sessions at any points of a run changes no validation |
| Sessions.DeleteKeepsExactly | apps/server/src/modules/session/session.service.ts:78-128 | Which sessions each deletion keeps, by id, by user with an exception, and by expiry |
| Sessions.RevocationIsFinal | apps/server/src/modules/session/session.service.ts:78-119 | A session revoked by its id, or as one of its user's, never validates again |
| Sessions.CreatedSessionValidates | apps/server/src/modules/session/session.service.ts:31-76 | A created session validates for its user until its lifetime ends, through every run that does not revoke it |
| Sessions.SessionService.CreateSession | apps/server/src/modules/session/session.service.ts:31-54 | Adds the one session |
| Sessions.SessionService.ValidateSession | apps/server/src/modules/session/session.service.ts:56-76 | The debounced activity update and the answer |
| Sessions.SessionService.RevokeSession | apps/server/src/modules/session/session.service.ts:78-94 | Deletes the session of that id |
| Sessions.SessionService.RevokeAllUserSessions | apps/server/src/modules/session/session.service.ts:96-119 | Deletes the user's sessions but the excluded one |
| Sessions.SessionService.DeleteExpiredSessions | apps/server/src/modules/session/session.service.ts:121-128 | Deletes exactly the expired sessions and counts them |
| PasswordReset.AtMostThreeLiveResetTokens | apps/server/src/modules/auth/password-reset.service.ts:12-52 | In every serial run a user has at most three live reset tokens |
| PasswordReset.ResetIsMintedExactly | apps/server/src/modules/auth/password-reset.service.ts:15-63 | A token is minted exactly for a known user of whom fewer than three unused tokens were stored in the last hour |
| PasswordReset.OthersDoNotMatter | apps/server/src/modules/auth/password-reset.service.ts:26-43 | Whatever other users request or reset, a user's request is answered as if they had not |
| PasswordReset.MintedResetTokenIsAccepted | apps/server/src/modules/auth/password-reset.service.ts:45-92 | A minted token resets its user's password within the hour and not after, whatever is requested in between |
| PasswordReset.ResetMarksOne | apps/server/src/modules/auth/password-reset.service.ts:65-92 | Exactly which tokens are accepted, and that the accepted one is marked and no other |
| PasswordReset.ResetTokenWorksOnce | apps/server/src/modules/auth/password-reset.service.ts:70-92 | An accepted token is refused after every continuation |
| PasswordReset.ResetLocksOut | apps/server/src/modules/auth/password-reset.service.ts:80-94 | A reset replaces the owner's password only and ends the owner's sessions for good |
| EmailVerification.AtMostOneLiveVerificationToken | apps/server/src/modules/auth/email-verification.service.ts:80-93 | In every serial run a user has at most one live verification token, and a verified user spent one |
| EmailVerification.RegisteredTokenVerifies | apps/server/src/modules/auth/email-verification.service.ts:24-78 | The token of a registration, after any run and whatever follows but a resend, is accepted for a day and activates a pending account |
| EmailVerification.VerificationTokenWorksOnce | apps/server/src/modules/auth/email-verification.service.ts:31-52 | An accepted token is refused after every continuation |
| EmailVerification.VerifyMarksOne | apps/server/src/modules/auth/email-verification.service.ts:24-78 | Exactly which tokens are accepted, and which token and account a verification touches |
| EmailVerification.ResendExactly | apps/server/src/modules/auth/email-verification.service.ts:80-114 | For whom a resend mints, and which tokens it consumes |
| EmailVerification.ResendReplacesTokens | apps/server/src/modules/auth/email-verification.service.ts:80-114 | A resend retires every older token of the user and its own takes over |
| EmailVerification.RegistrationOpensAccount | apps/server/src/modules/auth/auth.service.ts:41-72 | A registration needs a free email, mints the first token and opens a session that validates until its lifetime ends |
| EmailVerification.RegistrationEndsExactly | apps/server/src/modules/auth/auth.service.ts:41-72 | Exactly when a registration succeeds, and what each way of ending leaves stored |
| PasswordReset.PasswordResetService.CountRecent | apps/server/src/modules/auth/password-reset.service.ts:26-40 | Counts the unused tokens of the last hour |
| PasswordReset.PasswordResetService.RequestPasswordReset | apps/server/src/modules/auth/password-reset.service.ts:15-63 | Mints a token below the limit, else changes nothing |
| PasswordReset.PasswordResetService.ResetPasswordWith | apps/server/src/modules/auth/password-reset.service.ts:65-99 | Token, password and sessions change together, or nothing does |
| EmailVerification.EmailVerificationService.GenerateVerificationToken | apps/server/src/modules/auth/email-verification.service.ts:11-22 | Adds one token that lives a day |
| EmailVerification.EmailVerificationService.RegisterUser | apps/server/src/modules/auth/auth.service.ts:41-72 | The user, the first session and the first token, or the email conflict |
| EmailVerification.EmailVerificationService.ResendVerificationForEmail | apps/server/src/modules/auth/email-verification.service.ts:99-114 | For a pending, unverified account the live tokens are consumed and one is minted; else nothing |
| EmailVerification.EmailVerificationService.VerifyEmailWith | apps/server/src/modules/auth/email-verification.service.ts:24-78 | Spends the token and activates a pending account, or changes nothing |
| Rbac.LeftJoinRows | apps/server/src/modules/rbac/rbac.service.ts:172-173 | The rows of a left join: every match, and one NULL row for a row without match |
| Rbac.InnerJoinRows | apps/server/src/modules/rbac/rbac.service.ts:171 | The rows of an inner join |
| Rbac.HasPermissionMeansPermitted | apps/server/src/modules/rbac/rbac.service.ts:162-183 | The query is true exactly if the user holds super_admin or a role linked to that permission |
| Rbac.LengthCheckMeans | apps/server/src/modules/rbac/rbac.service.ts:90-99 | The length comparison holds exactly for lists without duplicates of existing permissions |
| Rbac.SetRolePermissionsExactly | apps/server/src/modules/rbac/rbac.service.ts:84-110 | When it succeeds, what the role's permissions then are, and which id a failure reports |
| Rbac.SetRolePermissionsDecides | apps/server/src/modules/rbac/rbac.service.ts:84-183 | For a user whose one role it is, the list decides every permission |
| Rbac.SetRolePermissionsSparesOthers | apps/server/src/modules/rbac/rbac.service.ts:84-183 | Users without the role keep exactly their permissions |
| Rbac.AssignOnlyAdds | apps/server/src/modules/rbac/rbac.service.ts:112-139 | assignRole takes no permission away and gives only this user any |
| Rbac.RemoveOnlyRemoves | apps/server/src/modules/rbac/rbac.service.ts:141-160 | removeRole gives no permission and takes only this user's |
| Rbac.RbacService.Assign | apps/server/src/modules/rbac/rbac.service.ts:112-139 | The new row or the error |
| Rbac.RbacService.Remove | apps/server/src/modules/rbac/rbac.service.ts:141-160 | The removed row or the error |
| Rbac.RbacService.SetPermissions | apps/server/src/modules/rbac/rbac.service.ts:84-110 | Check, delete and insert in their order |
| SigningKeys.ReturnedKeysStayPublished | apps/server/src/modules/token/signing-key.service.ts:64-132 | Over every interleaving of any instances a key handed out is the table's own, and its public key is published from then on |
| SigningKeys.RotatedKeysAreNotSelected | apps/server/src/modules/token/signing-key.service.ts:125-132 | A key that was rotated out is never selected again |
| SigningKeys.RotationRetiresKeys | apps/server/src/modules/token/signing-key.service.ts:125-132 | Every key stored when a rotation marks is never selected and always published from then on |
| SigningKeys.LoneGetActiveReturns | apps/server/src/modules/token/signing-key.service.ts:64-101 | An uninterrupted call returns the stored key of the row it selected, cached or not |
| SigningKeys.LoneGetActiveMints | apps/server/src/modules/token/signing-key.service.ts:80-88 | Without an active key an uninterrupted call stores and returns a new one |
| SigningKeys.LoneRotateReturns | apps/server/src/modules/token/signing-key.service.ts:125-132 | An uninterrupted rotation retires the active keys and returns the one new key |
| SigningKeys.SigningKeyService.GenerateKeyPair | apps/server/src/modules/token/signing-key.service.ts:28-62 | Adds the row and the cache entry, or fails unchanged |
| SigningKeys.SigningKeyService.GetActiveSigningKey | apps/server/src/modules/token/signing-key.service.ts:64-101 | The latest active row's own key, as without a cache; a new key if there is none |
| SigningKeys.SigningKeyService.GetJwks | apps/server/src/modules/token/signing-key.service.ts:103-123 | One entry with kid, alg and use for each active or rotated key, latest first |
| SigningKeys.SigningKeyService.RotateKey | apps/server/src/modules/token/signing-key.service.ts:125-132 | Retires the active keys, empties the cache and adds one active key |
| RecoveryCodes.GenerateRecoveryCodesRaw | apps/server/src/modules/mfa/mfa.service.ts:41-56 | Eight codes, each the symbols of its eight bytes around a dash |
| RecoveryCodes.CodeReads | apps/server/src/modules/mfa/mfa.service.ts:43-52 | A code has the symbol of each byte in its place, around a dash in the middle |
| RecoveryCodes.EverySymbolHasEightBytes | apps/server/src/modules/mfa/mfa.service.ts:43-48 | Each of the 32 symbols comes from exactly eight byte values |
| RecoveryCodes.CodeDeterminesSymbols | apps/server/src/modules/mfa/mfa.service.ts:43-52 | Two byte strings give one code exactly if they agree modulo 32 everywhere |
| RecoveryCodes.LedgerBalances | apps/server/src/modules/mfa/mfa.service.ts:105-313 | After every run a user has no rows or eight, and a use reports eight minus the uses since the mint |
| RecoveryCodes.UseSpendsOneRow | apps/server/src/modules/mfa/mfa.service.ts:292-311 | A use spends one fitting unused row and touches no other |
| RecoveryCodes.MintFillsTheBag | apps/server/src/modules/mfa/mfa.service.ts:200-211 | Minting leaves the user exactly the new codes, and other users theirs |
| RecoveryCodes.UseTakesFromTheBag | apps/server/src/modules/mfa/mfa.service.ts:292-311 | A code is accepted exactly while the user has it left, and is then taken out once |
| RecoveryCodes.RecoveryLedger.DeleteAll | apps/server/src/modules/mfa/mfa.service.ts:105 | Removes the user's rows |
| RecoveryCodes.RecoveryLedger.ReplaceCodes | apps/server/src/modules/mfa/mfa.service.ts:105-113 | The user's rows go, one row for each new code comes |
| RecoveryCodes.RecoveryLedger.CountUnusedRecoveryCodes | apps/server/src/modules/mfa/mfa.service.ts:228-235 | Counts the user's unused rows |
| RecoveryCodes.RecoveryLedger.UseRecoveryCode | apps/server/src/modules/mfa/mfa.service.ts:292-313 | The first fitting unused row is spent, and the rest counted |

## Left out

- Interleaving inside other calls: authorization, consent, redemption, logins, registrations, resets, verifications, audit appends and recovery-code uses are one step each, because the code gives them no transaction that re-checks; token bundles, refresh exchanges and signing-key calls are split into steps.
- RefreshFamilies.StepKeepsInv: creates a family only under a fresh id, as issueTokenBundle, the one caller of createRefreshToken, does; a caller that passes an existing familyId is not modelled.
- OAuthRuns.FamiliesAreConserved: takes the family id of a bundle as fresh (a new UUID) and the tokens as never deleted; a bundle whose insert or key lookup fails leaves its code pending for ever.
- OAuthRuns.ScopeProvenance: reads the presented row and its client in one step; the row's client and scope never change.
- LoginThrottle.AuthService.Login: takes the user row, the password comparison and the enrolment as arguments.
- AuditServices.AuditService.VerifyAuditChain: all pages of one verification see the same table; appends between two pages are not modelled.
- AuditResumption.ResumeContinues: asks for a log without ties; with ties the exact answers are those of ResumeOfSoundLog and ResumeKeepsOrder.
- EmailVerification.RegisteredTokenVerifies: a user is never deleted and never changes the email.
- RecoveryCodes.RecoveryLedger.ReplaceCodes: the password and enrolment checks before it, and a missing encryption key between deletion and minting, are not modelled.
- The verification of MFA challenges and TOTP codes: single comparisons over library results.
- Access and ID tokens, introspection, discovery, DPoP proof parsing, passkey ceremonies: claim building and single checks over library results.
- Argon2, AES-GCM, JOSE and WebAuthn: libraries.
- HTTP routes, schemas, cookies, CORS, rate limiting, the event bus and all user interfaces: plumbing around the services; so are request limits such as maximum lengths of columns.
- User, client and role administration, profile changes, seeding, and rows that ON DELETE CASCADE removes: easy facts that would blur the conservation counts.
- queryAuditLogs and exportAuditLogs: filtered reads without invariants.
- Lower-casing outside A to Z and the Kelvin sign: no other character lowers to text that could complete a redacted key fragment (U+0130 lowers to an "i" with a combining dot behind it, which no fragment contains). An entry whose key is `__proto__`, which JavaScript would not store as an own property, is not modelled.
- appendQueryParams: redirects are modelled as the code they carry.
