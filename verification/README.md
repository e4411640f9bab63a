# Verification model of the user service

The user service keeps all of its state in Postgres rows and Redis keys. Each SQL statement or Lua script is
atomic, but a request is several statements long and any number of requests interleave. This project models the
stores as maps, each request as a program counter over atomic statements (`Exec` is one statement of one request),
and the whole system as an arbitrary schedule of such statements (`Step`, `Run`). Statements may fail without
effect, or take effect and lose their answer. Invariants are proved of every reachable state, and several theorems
speak of every continuation of a reachable state.

Beside each protocol stands a class in the source's own shape (stores that update rows in place, requests with early
returns, loops). Each request method is proved equal to its uninterrupted step program (`Alone`, `Finish`, or two
`Exec` in a row), and states its answers and effects over the stores' own fields. That such programs are runs of
the interleaved system, so that what is proved of all runs holds of the methods, is `RotationSafety.AloneIsARun`,
`OAuthServices.FinishIsARun` and `AccountServices.FinishIsARun`.

| file | subject |
|---|---|
| `Rotation.dfy`, `RotationSafety.dfy`, `AuthService.dfy` | refresh-token rotation, families, session versions |
| `RateLimit.dfy`, `Limiters.dfy` | the sliding-window script against an unbounded log of admissions; the fail-open and fail-closed limiters over it |
| `Replay.dfy`, `Kyc.dfy`, `KycSafety.dfy` | timestamp windows and expiring nonce keys; the tier consumer |
| `OAuth.dfy`, `OAuthSafety.dfy`, `OAuthService.dfy`, `OAuthDecisions.dfy`, `OAuthUnbind.dfy` | states, codes, registration tokens, identity rows, login methods |
| `Accounts.dfy`, `AccountsSafety.dfy`, `AccountService.dfy` | password reset and email verification as multi-statement transactions with row locks |
| `Connections.dfy` | invitations, resolutions, the three lists |
| `Mfa.dfy`, `MfaSafety.dfy` | enrolment, backup codes |
| `Saved.dfy`, `SavedTight.dfy` | the bookmark cap under concurrency |
| `Text.dfy`, `Base64.dfy`, `Argon2.dfy`, `Tokens.dfy`, `Canonical.dfy` | printers and parsers |
| `Common.dfy` | options, failing statements and facts about finite sets |

`dafny verify dfyconfig.toml` checks the whole project.

## Findings

Places where the code does less than its comments, or a quick reading, suggest. The model follows the code and states
what does hold.

- `gateway_signature.go:194-198` says the nonce outlives the skew window. The window is two-sided, and the body is read
  between the age check and the nonce (`gateway_signature.go:94-103`), which the server lets last ten seconds
  (`cmd/server/main.go:298`). A request whose nonce is first set earlier than its timestamp minus five seconds, plus
  whatever a later body may take, can be accepted again (`Replay.GatewayReplayIff`); with ten seconds that is
  everything handled before its timestamp plus five seconds (`Replay.SlowBodiesReplay`).
- `consumer.go:46-48` asks for a dedup TTL of at least the maximum age. The two-sided window needs twice that plus any
  delay between the age check and the SETNX. It is exactly twice, so at-most-once delivery holds when, and only when,
  there is no such delay (`Replay.EventGateHasNoSlack`).
- `time.Since` saturates and the smallest duration is its own negative, so both freshness gates accept a timestamp
  2^63 ns or more in the future; at-most-once delivery fails for those (`Replay.AtMostOnceIff`).
- The rate limiter reads its clock before the network call (`ratelimit.go:438`). If scripts may run delta after their
  reading, the limit holds for windows shorter by delta, and not for the full window (`RateLimit.ScriptAdmissionsAreBounded`,
  `RateLimit.LateReadingsOvershoot`).
- Reuse detection revokes the family, but a request that has already won the swap still inserts its successor
  afterwards. The family is dead for good exactly when no such request is in flight, other than ones that will meet a
  newer token_version or a deleted user (`RotationSafety.RevokeEmptiesFamily`). If the revocation itself fails, that is
  only logged (`RotationSafety.FailedRevocationKeepsFamily`).
- `saved_service.go:30-37` calls 1000 a hard ceiling. With k Saves in flight the bound is 999 + k, and it is attained
  (`Saved.TheCapStretchesByConcurrency`, `SavedTight.TheBoundIsAttained`).
- "Unbind keeps a login method" and "MFA enabled implies a secret" hold request by request and fail when requests
  interleave. The failing states are reachable from empty tables (`OAuthUnbind.NoLoginIsReachable`,
  `MfaSafety.EnabledWithoutSecretIsReachable`), and the exact statements that cause them are those a guard in the
  DELETE, or in the guarded enable, would refuse (`OAuthUnbind.LoginLostIff`, `MfaSafety.EnabledWithoutSecretIff`).
- `SetPendingTOTPSecret` has no mfa_enabled guard, so an Enroll past its check that runs after a Confirm replaces the
  active secret by one that no Confirm checked (`MfaSafety.ActiveSecretSwapIff`,
  `MfaSafety.UncheckedSecretIsReachable`).
- The length prefixes of the gateway string cover method, path and body hash only; the identity tuple is determined
  exactly when none of its fields holds a `|` (`Canonical.GatewayDeterminedIff`).

## Model

| member | source | states |
|---|---|---|
| `RotationSafety.AtMostOneHolder` | internal/service/auth_service.go:671-738 | In every interleaving of Login, Refresh, Logout and Exchange, a family's unused-unrevoked rows plus the Refresh calls that won the swap and have neither issued nor failed number at most one |
| `RotationSafety.FamilyIsAChain` | internal/service/auth_service.go:828-875 | The rows of a family are one unbranched prev_id chain of one user and version, and every row but the newest is used |
| `RotationSafety.FamilyShape` | internal/service/auth_service.go:735-737 | Read off the table: one root and at most one successor per row, one user and one version per family, and that version never exceeds the user's current one |
| `RotationSafety.DeadRun` | internal/store/postgres/refreshtoken_store.go:87-108 | A family with no live row and no request entitled to issue stays so in every continuation |
| `RotationSafety.DeadForeverIff` | internal/service/auth_service.go:689-728 | A family is without a live token in all continuations if and only if it has none now and every in-flight winner on it is bound to meet a newer version or a deleted user |
| `RotationSafety.WinnerCanIssue` | internal/service/auth_service.go:715-738 | The converse witness: a winner that is not stale has a continuation that makes its family live |
| `RotationSafety.RevokeEmptiesFamily` | internal/service/auth_service.go:694-713 | The revocation after a refused swap empties the family, and is final if and only if no non-stale winner is in flight |
| `RotationSafety.FailedRevocationKeepsFamily` | internal/service/auth_service.go:705-713 | A failed revocation still answers ErrRefreshReuse, changes nothing, and leaves the family dead for good if and only if it already was |
| `RotationSafety.ReuseEndsTheFamily` | internal/service/auth_service.go:689-713 | Request-atomic reuse of a used or revoked, unexpired token answers ErrRefreshReuse and ends the family for good |
| `RotationSafety.LogoutAllCutsOff` | internal/service/auth_service.go:746-826 | After a version bump, whatever an older family gains in any continuation is one row at most: the successor of the token held by a Refresh of that family that had read the user row before the bump |
| `RotationSafety.OutdatedGainsOnlyFromRotating` | internal/service/auth_service.go:746-787 | A family whose version is behind its user's gains rows only from a Refresh already past reading the user, so a Refresh that reads the user later yields nothing in it |
| `RotationSafety.OutdatedGainsAtMostOne` | internal/service/auth_service.go:730-738 | Such a family gains at most one more row, ever |
| `RotationSafety.OutdatedGainsIff` | internal/service/auth_service.go:730-738 | Such a family can gain a row if and only if some Refresh is at its INSERT |
| `RotationSafety.NewRowsAreCurrent` | internal/service/auth_service.go:828-875 | A row inserted in any continuation with a version older than the user's present one is inserted, at a named action, by a named request that had already read the user row |
| `RotationSafety.RefreshDecision` | internal/service/auth_service.go:671-787 | The full decision table of an uninterrupted Refresh: answer and exact resulting table in each of its seven cases |
| `RotationSafety.LogoutDecision` | internal/service/auth_service.go:792-812 | A Logout reaches its only write exactly when the stored hash matches, and has changed nothing until then; uninterrupted, it revokes exactly the unrevoked rows of that family |
| `RotationSafety.SignInDecision` | internal/service/auth_service.go:483-530 | Whom an uninterrupted Login, and the redemption of a one-time code (`oauth_service.go:515-546`), refuses, and the one row the session it opens starts with |
| `RotationSafety.AloneIsARun` | internal/service/auth_service.go:671-738 | An uninterrupted request is a run of the interleaved system |
| `RotationSafety.FamiliesAreInTheTable` | internal/store/postgres/refreshtoken_store.go:29-55 | The families recorded by the history are exactly those with rows |
| `AuthServices.AuthService.MarkUsed` | internal/store/postgres/refreshtoken_store.go:87-96 | The compare-and-swap succeeds exactly on a row with both timestamps NULL, sets both, and otherwise changes nothing |
| `AuthServices.AuthService.RevokeFamily` | internal/store/postgres/refreshtoken_store.go:99-108 | Leaves no live row in the family: sets revoked_at exactly where it is NULL, and leaves every other family unchanged |
| `AuthServices.AuthService.ValidateUserForRefresh` | internal/service/auth_service.go:746-787 | Succeeds exactly for a live, unsuspended user at the token's version; otherwise which error, and whether the family is revoked |
| `AuthServices.AuthService.IssueTokenPair` | internal/service/auth_service.go:828-875 | Inserts exactly one row with the given lineage and the user's version |
| `AuthServices.AuthService.Refresh` | internal/service/auth_service.go:671-738 | Equals the uninterrupted step program that the safety theorems are about |
| `AuthServices.AuthService.Login` | internal/service/auth_service.go:483-530 | Issues exactly for a live, unsuspended user with a password that verified, opening a new family; otherwise which error; equals its step program |
| `AuthServices.AuthService.Logout` | internal/service/auth_service.go:792-812 | Succeeds exactly for a known id with the right hash, and then revokes exactly the unrevoked rows of its family; a refusal is InvalidRefresh and changes nothing; equals its step program |
| `AuthServices.AuthService.LogoutAll` | internal/service/auth_service.go:817-826 | Bumps the live user's version by one and changes no other user |
| `RateLimit.ScriptRefinesLog` | internal/platform/middleware/ratelimit.go:55-74 | When scripts run at their clock readings, the trimmed, expiring sorted set makes the same decision on every request as an unbounded log of all admissions |
| `RateLimit.TrimmedCovers` | internal/platform/middleware/ratelimit.go:64-72 | However late the script runs, neither trimming nor the millisecond-rounded key expiry has dropped an entry of the window that ends when it runs, and nothing older than the window of its reading survives |
| `RateLimit.TrimmedIsTheWindow` | internal/platform/middleware/ratelimit.go:64-72 | When the script runs at its clock reading, the trimmed set is exactly the log's window |
| `RateLimit.EveryWindowIsBounded` | internal/platform/middleware/ratelimit.go:55-74 | The log admits at most `limit` requests in (t - W, t] for every instant t, in whatever order the readings arrive |
| `RateLimit.ScriptAdmissionsAreBounded` | internal/platform/middleware/ratelimit.go:437-461 | If no script runs more than delta after its clock was read, the script admits at most k * limit requests in (t - k (W - delta), t], for all t and k; with no delay that is k windows |
| `RateLimit.LateReadingsOvershoot` | internal/platform/middleware/ratelimit.go:437-461 | The full window would be too much to claim: a run with late readings in which three requests of a limit of two are admitted within one window |
| `RateLimit.EveryMultiWindowIsBounded` | internal/platform/middleware/ratelimit.go:55-74 | The same over k windows |
| `RateLimit.FinalLogIsTheAdmitted` | internal/platform/middleware/ratelimit.go:64-74 | The log holds exactly the admitted requests at their own times, in whatever order they arrive |
| `RateLimit.DecisionByCount` | internal/platform/middleware/ratelimit.go:64-74 | When scripts run at their clock readings, a request is admitted if and only if fewer than `limit` earlier requests were admitted in the window that ends with it |
| `RateLimit.DeniedLeavesNoTrace` | internal/platform/middleware/ratelimit.go:67-70 | When scripts run at their clock readings, removing a denied request from a run changes no other decision |
| `RateLimit.DeniedKeepsEntries` | internal/platform/middleware/ratelimit.go:66-70 | However late its reading, a denied request removes no entry; it only prolongs the key |
| `RateLimit.EvalScript` | internal/platform/middleware/ratelimit.go:55-74 | The script's commands in order: the new sorted set and deadline, and -1 or the new count |
| `RateLimit.SlidingWindow.RunScript` | internal/platform/middleware/ratelimit.go:55-74 | The same against a limiter object's key, in place |
| `RateLimit.SlidingWindow.AllowSlidingWindow` | internal/platform/middleware/ratelimit.go:437-461 | Admits exactly when, of the unexpired key's scores, fewer than `limit` lie within a window of the reading |
| `Limiters.SubjectsAreIndependent` | internal/platform/middleware/ratelimit.go:325-346 | In a mixed run each subject is decided as if its attempts had the script to themselves |
| `Limiters.AnsweredDecision` | internal/platform/middleware/ratelimit.go:209-237 | In any mix of subjects and outages, an answered attempt is allowed, by either limiter, if and only if fewer than `limit` earlier attempts of its subject were admitted in the window that ends with it, when scripts run at their clock readings |
| `Limiters.FailClosedIsBounded` | internal/platform/middleware/ratelimit.go:274-346 | The fail-closed subject limiter admits at most k * limit attempts of a subject in (t - k (W - delta), t], under every pattern of Redis outages and lost answers |
| `Limiters.FailOpenExceedsByOutages` | internal/platform/middleware/ratelimit.go:209-237 | The fail-open email limiter exceeds that bound by at most the number of attempts that Redis left unanswered |
| `Limiters.Limiter.RunScript` | internal/platform/middleware/ratelimit.go:209-237 | One keyed script call: the table it leaves, and no answer exactly on an error |
| `Limiters.Limiter.AllowEmail` | internal/platform/middleware/ratelimit.go:209-237 | Allows without a client or on any error, otherwise exactly when fewer than `limit` of the key's unexpired scores lie in the window |
| `Limiters.Limiter.AllowSubject` | internal/platform/middleware/ratelimit.go:274-346 | Passes through without a client, refuses an empty subject or any error, otherwise exactly when fewer than `limit` of the key's unexpired scores lie in the window |
| `Replay.WithinSkewIff` | internal/platform/middleware/gateway_signature.go:215-222 | Saturating subtraction and wrapping negation written out: the exact set of times at which a stamp passes |
| `Replay.SecondAcceptanceIff` | internal/platform/middleware/gateway_signature.go:88-133 | After a first acceptance, a message can be accepted again in some continuation exactly when the last delivery that passes the age check can set its nonce after the first one has expired; `lag` bounds the time between check and nonce |
| `Replay.GatewayReplayIff` | internal/platform/middleware/gateway_signature.go:88-133 | For the gateway constants: exactly when the first nonce was set earlier than the stamp minus five seconds plus the lag |
| `Replay.SlowBodiesReplay` | cmd/server/main.go:295-301 | With bodies that may take the whole ReadTimeout to arrive: exactly the requests whose nonce was set before the stamp plus five seconds |
| `Replay.AtMostOnceIff` | internal/events/consumer.go:282-330 | At-most-once holds in every run from a start if and only if the stamp is less than 2^63 ns ahead of it and even the earliest nonce outlives the last possible delivery |
| `Replay.EdgesTwice` | internal/events/consumer.go:282-330 | The two-delivery run, at the window's first and last instants, that breaks it when the nonce can expire first |
| `Replay.EventGateHasNoSlack` | internal/events/consumer.go:46-49 | The event constants make at-most-once hold if and only if nothing delays the SETNX after the age check |
| `Replay.FarFutureTwice` | internal/events/consumer.go:282-299 | The two-delivery run that breaks it otherwise |
| `Replay.FarFutureSoon` | internal/events/consumer.go:282-330 | The same as soon as the first dedup key has expired, while the stamp is still that far ahead |
| `Replay.ShutOut` | internal/events/consumer.go:301-330 | Nothing that happens to the nonce store lets a guarded message in |
| `Replay.KeysAreIndependent` | internal/platform/middleware/gateway_signature.go:199-211 | In a mixed run each key's deliveries are decided as if they had the store to themselves |
| `Replay.FreshKeyIsAccepted` | internal/platform/middleware/gateway_signature.go:199-211 | In any run from an empty store, a message inside its window is accepted if Redis answers and no earlier delivery used its key |
| `Replay.NonceStore.StoreNonce` | internal/platform/middleware/gateway_signature.go:199-211 | SET NX with its TTL, failing closed: fresh exactly when the key is absent or its deadline has passed; a stored nonce is alive up to and including its deadline and no longer |
| `Replay.NonceStore.Check` | internal/platform/middleware/gateway_signature.go:88-133 | Accepts exactly inside the age window, when Redis answers and this key's own nonce is absent or expired; sets that nonce and no other; equals the step that the replay theorems are about |
| `KycSafety.EnvelopeReachesOnce` | internal/events/consumer.go:211-373 | In an unbounded run of events, verifications, registrations and deletions, with any bounded delay before the SETNX, a signed envelope with a safe stamp reaches UpdateKYCTier at most once |
| `KycSafety.EnvelopeReachesOnceIff` | internal/events/consumer.go:211-373 | A signed event id and timestamp reach UpdateKYCTier at most once in every run if and only if the timestamp does not parse, or is less than 2^63 ns ahead and its dedup key outlives its last possible delivery |
| `KycSafety.OneSignatureOneUpdate` | internal/events/signature.go:41-68 | With an injective MAC and a time parser that rejects the separator, one signature over a safe stamp reaches UpdateKYCTier at most once in a run |
| `KycSafety.SignatureDetermines` | internal/events/signature.go:41-68 | Under the same assumptions, two accepted envelopes with one signature are the same event, user and tier |
| `KycSafety.TierIsTheMaximum` | internal/store/postgres/user_store.go:144-219 | After any run, with failing updates and users created and deleted, a tier is the maximum of its initial value and every update that found the user live, and stays in 0..3; the verified flag likewise; for a user not deleted those are all executed updates |
| `KycSafety.OrderIsIrrelevant` | internal/store/postgres/user_store.go:144-219 | Reordering and repeating applied updates gives the same users |
| `KycSafety.ApplyAllMax` | internal/store/postgres/user_store.go:144-219 | The maximum law for any list of statements, deletions included |
| `KycSafety.RunIsTrace` | internal/events/consumer.go:332-373 | A whole run's effect on users is that of the statements it executed |
| `KycSafety.TraceSetsWhatWasAsked` | internal/events/consumer.go:332-373 | A run executes the update of a user to a tier if and only if some message that passed every gate asked for that user and that tier and its UPDATE took effect |
| `Kyc.Consumer.HandleKYCTierChanged` | internal/events/consumer.go:211-373 | Reaches the update exactly with a valid signature, a parsed stamp within five minutes, a key absent or expired, an answering Redis and a tier in 0..3; then raises the named live user to the larger of old and new tier and changes no one else; the key it stores; equals the step of the event machine |
| `Kyc.Consumer.UpdateKYCTier` | internal/store/postgres/user_store.go:144-172 | Raises the tier only; reports a missing row apart from a no-op |
| `Kyc.Consumer.SetEmailVerified` | internal/store/postgres/user_store.go:200-219 | Sets the flag and lifts the tier to at least 1, on live rows only |
| `OAuthSafety.EveryGrantIsTakenOnce` | internal/service/oauth_service.go:214-254 | Each state, code and registration token is consumed at most once, only after being issued, and different requests consumed different ones |
| `OAuthSafety.TakenIsGoneForGood` | internal/service/oauth_service.go:515-546 | A consumed grant is never usable again in any continuation |
| `OAuthSafety.ExchangesNeverOutnumberCodes` | internal/service/oauth_service.go:515-546 | The requests that consumed a code of a user, among them every one that has issued, is issuing or may have issued a pair, never outnumber the codes issued for that user |
| `OAuthSafety.PairingHappensOnce` | internal/service/oauth_service.go:834-867 | The refresh token is inserted only by a request that consumed a code of that user, and such a request is finished after one attempt, whatever the fault |
| `OAuthSafety.IdentityProvenance` | internal/service/oauth_service.go:282-505 | Every identity row points at the user created by the inserting request, or at the user of a consumed BindStart state for the same provider |
| `OAuthSafety.LoginNeverLinksAnExistingUser` | internal/service/oauth_service.go:282-439 | In every continuation, a new identity row of an already existing user was inserted while consuming a BindStart state of that user |
| `OAuthSafety.OneLiveUserPerAddress` | internal/service/oauth_service.go:377-439 | No two live users share an address, whatever creations interleave |
| `OAuthServices.FinishIsARun` | internal/service/oauth_service.go:214-254 | An uninterrupted request is a run of the interleaved system |
| `OAuthServices.OAuthService.HandleCallback` | internal/service/oauth_service.go:214-278 | Equals its uninterrupted step program; an unknown state is refused and changes nothing, a known one is consumed whatever follows, a state of another provider is refused, and only a bind state binds, its own user |
| `OAuthServices.OAuthService.ResolveLoginIdentity` | internal/service/oauth_service.go:282-334 | The answer of each case of a sign-in over the tables, and the user, identity row and key it leaves; equals the sign-in part of the step program |
| `OAuthServices.OAuthService.CreateOAuthUser` | internal/service/oauth_service.go:377-439 | Two separate inserts and a code: which unique index refuses when, and what is left behind in each case |
| `OAuthServices.OAuthService.HandleBindCallback` | internal/service/oauth_service.go:442-505 | The answer of each case, and on success exactly one row for the binding user; equals the bind part of the callback program |
| `OAuthServices.OAuthService.Register` | internal/service/oauth_service.go:669-748 | The answer of each case and what it leaves: the token is consumed before the email is looked at; equals its step program |
| `OAuthServices.OAuthService.Exchange` | internal/service/oauth_service.go:515-546 | A live code is consumed first, and answered with a pair exactly for a live, unsuspended user; equals its step program |
| `OAuthServices.OAuthService.RemainingIdentities` | internal/service/oauth_service.go:616-625 | The loop counts zero exactly when the user has no identity for another provider |
| `OAuthServices.OAuthService.Unbind` | internal/service/oauth_service.go:604-636 | Each answer with its exact condition over the tables, and exactly the rows it removes; equals the step program |
| `OAuthServices.OAuthService.ListByUserID` | internal/store/postgres/auth_identity_store.go:59-90 | The loop returns exactly the user's rows, each once |
| `OAuthServices.OAuthService.DeleteByUserAndProvider` | internal/store/postgres/auth_identity_store.go:94-110 | Deletes exactly the user's rows of that provider, keeps every other row, and says whether there were any |
| `OAuthUnbind.UnbindKeepsALogin` | internal/service/oauth_service.go:604-636 | Exactly when an uninterrupted Unbind succeeds, what it removes, and that a login method is left |
| `OAuthUnbind.InterleavedUnbindsRemoveBoth` | internal/service/oauth_service.go:611-635 | Two Unbinds that both list before either deletes remove the last login method |
| `OAuthUnbind.StepLosesIff` | internal/store/postgres/auth_identity_store.go:94-110 | A step takes a user's last login method if and only if it is a DELETE that finds neither a password nor another provider at that moment |
| `OAuthUnbind.LoginLostIff` | internal/service/oauth_service.go:604-636 | A run leaves a user without a login method somewhere if and only if it contains such a DELETE |
| `OAuthUnbind.NoLoginIsReachable` | internal/service/oauth_service.go:604-636 | From empty tables, a sign-in, a bind and two interleaved Unbinds leave a live user without a login method |
| `OAuthDecisions.CallbackDecision` | internal/service/oauth_service.go:214-254 | An uninterrupted callback leaves and answers exactly what one table says, from the state through sign-in or bind to the final outcome |
| `OAuthDecisions.CallbackOnlyAdds` | internal/service/oauth_service.go:214-505 | Whatever a callback is given, it changes no existing user or row, and a new row is for the user it created or for the user of the bind state it consumed |
| `OAuthDecisions.LoginDecision` | internal/service/oauth_service.go:282-334 | The sign-in part equals its decision table, with the exact resulting tables; no case links an existing user |
| `OAuthDecisions.BindDecision` | internal/service/oauth_service.go:442-505 | The bind part equals its decision table: exactly one row, for the state's user, and only for an unbound subject |
| `OAuthDecisions.RegisterDecision` | internal/service/oauth_service.go:669-748 | The decision table of Register, including the token it consumes on refusals |
| `OAuthDecisions.ExchangeDecision` | internal/service/oauth_service.go:515-546 | The code is consumed first; a pair only for its live, unsuspended user |
| `AccountsSafety.EachTokenIsSpentOnce` | internal/store/postgres/password_reset_store.go:29-41 | Committed transactions have pairwise different tokens and requests |
| `AccountsSafety.AccountsBalance` | internal/service/auth_service.go:978-1040 | token_version is its first value plus committed resets plus logouts, the password is the last committed reset's, and the email is verified exactly if a verification committed or it began so |
| `AccountsSafety.ResetsAreBacked` | internal/store/postgres/password_reset_store.go:71-83 | A user's password is changed no more often than reset tokens issued to that user were used |
| `AccountsSafety.ResetCommitIsExact` | internal/service/auth_service.go:1013-1040 | Whatever else is in flight, COMMIT marks one unused unexpired token, replaces one live user's hash, advances the version by exactly one, and changes no other row |
| `AccountsSafety.VerifyCommitIsExact` | internal/service/auth_service.go:560-582 | COMMIT consumes one unused token and verifies its user in one step |
| `AccountsSafety.AbortLeavesNoTrace` | internal/store/postgres/tx.go:76-108 | Whichever inner statement fails, no table changes |
| `AccountsSafety.AnswerMatchesTheLog` | internal/service/auth_service.go:978-1058 | Success means exactly this token was committed by this request; a definite error means nothing was |
| `AccountsSafety.SpentStaysSpent` | internal/store/postgres/password_reset_store.go:71-83 | In every continuation a spent token is refused, by the SELECT check or by the guarded UPDATE |
| `AccountsSafety.ConsumedMeansVerified` | internal/service/auth_service.go:540-582 | A token consumed by VerifyEmail means email_verified from then on |
| `AccountsSafety.LocksAreExclusive` | internal/store/postgres/tx.go:34-108 | No two transactions hold the same token row or user row |
| `AccountServices.ResetOutcome` | internal/service/auth_service.go:1013-1040 | An uninterrupted reset transaction commits exactly when its guards hold and no statement fails, and otherwise leaves everything; which guard gives which error |
| `AccountServices.VerifyOutcome` | internal/service/auth_service.go:560-582 | An uninterrupted verification commits exactly when its guards hold and no statement fails, and otherwise leaves everything; which guard gives which error |
| `AccountServices.FinishIsARun` | internal/service/auth_service.go:978-1058 | With no other transaction in flight, an uninterrupted request is a run of the system |
| `AccountServices.AccountService.WithResetTx` | internal/store/postgres/tx.go:76-108 | In-place writes committed or rolled back equal the step program that holds them back until COMMIT |
| `AccountServices.AccountService.WithTx` | internal/store/postgres/tx.go:34-69 | The same for the verification transaction |
| `AccountServices.AccountService.ResetPassword` | internal/service/auth_service.go:978-1058 | Succeeds exactly for an unused token unexpired at both checks, a live user, a strong password and no failing statement; the token and user rows it leaves; without faults, the error of every other case |
| `AccountServices.AccountService.VerifyEmail` | internal/service/auth_service.go:540-592 | Succeeds exactly for an unused token unexpired at the check, a live user and no failing statement; the token and user rows it leaves; without faults, the error of every other case; equals its step program |
| `AccountServices.AccountService.Request` | internal/service/auth_service.go:892-950 | ForgotPassword and ResendVerification after their limiter, uninterrupted: exactly who gets a token, that it lasts 30 minutes or 24 hours, that it is then the only outstanding one, and that no other token changes |
| `AccountServices.AccountService.Mark` | internal/store/postgres/password_reset_store.go:71-83 | Succeeds exactly on an unused row which, in the reset table only, has not expired; sets that row and no other |
| `AccountServices.AccountService.InvalidateForUser` | internal/store/postgres/verification_store.go:84-91 | Leaves no outstanding token of the user and touches no other token |
| `Connections.TheGraphIsSimple` | internal/store/postgres/connection_store.go:37-54 | At most one pending-or-accepted edge per unordered pair, and no self edge |
| `Connections.ResolvedOnceByTheAddressee` | internal/store/postgres/connection_store.go:183-215 | An edge is resolved at most once, only by its addressee, and is pending exactly until then |
| `Connections.EdgesPersist` | internal/store/postgres/connection_store.go:183-215 | Edges keep their parties, and their verdict, in every continuation |
| `Connections.EdgesComeFromInvites` | internal/service/connection_service.go:39-70 | In every run from an empty table, each edge was inserted, pending, by one step of a request that had arrived as an invitation from the edge's requester to its addressee |
| `Connections.OthersAreDistinct` | internal/store/postgres/connection_store.go:115-168 | No one appears twice across a user's accepted, incoming and outgoing lists, nor the user |
| `Connections.InvitesAreMirrored` | internal/store/postgres/connection_store.go:136-168 | Between live users, an invitation is in one's outgoing list exactly when it is in the other's incoming list |
| `Connections.ConnectionService.SendInvite` | internal/service/connection_service.go:39-70 | Stores exactly a pending edge from the requester to the addressee when they differ, the addressee is live and no pending or accepted edge joins them; otherwise the error of each case and no change |
| `Connections.ConnectionService.ResolvePendingInvite` | internal/store/postgres/connection_store.go:183-215 | The three outcomes of the two counts, each with its exact condition; success sets that edge's status and nothing else |
| `Connections.ConnectionService.Accept` | internal/service/connection_service.go:86-88 | Succeeds exactly for the addressee of a pending edge, which is then accepted; nothing else changes |
| `Connections.ConnectionService.Decline` | internal/service/connection_service.go:92-94 | Succeeds exactly for the addressee of a pending edge, which is then declined; nothing else changes |
| `Connections.ConnectionService.Collect` | internal/store/postgres/connection_store.go:85-108 | The append loop returns each row of the query once, with the other party |
| `Connections.ConnectionService.ListPending` | internal/store/postgres/connection_store.go:136-168 | Both lists are exactly the pending edges to and from the user whose other party is live, each once |
| `Connections.ConnectionService.ListAccepted` | internal/store/postgres/connection_store.go:115-128 | The list is exactly the accepted edges of the user whose other party is live, each once |
| `MfaSafety.ColumnsAgree` | internal/store/postgres/user_store.go:259-311 | mfa_enabled holds exactly when backup codes and enrolled_at are set, and the hashes are those of the last winning Confirm |
| `MfaSafety.WinsAreSeparated` | internal/store/postgres/user_store.go:259-288 | Between two winning Confirms of one user a Disable took effect |
| `MfaSafety.AcceptedExactlyIfMinted` | internal/service/mfa_service.go:284-310 | With an injective hash, the backup-code check accepts a code exactly when the last winning Confirm minted it and no Disable came since |
| `MfaSafety.OnlyWinnersReturnCodes` | internal/service/mfa_service.go:187-199 | Codes are returned only by a Confirm that won the guarded UPDATE, and each request won at most once |
| `MfaSafety.EnabledWithoutSecret` | internal/service/mfa_service.go:145-199 | A Confirm past its check that runs after a Disable leaves MFA enabled with no secret |
| `MfaSafety.EnabledWithoutSecretIff` | internal/store/postgres/user_store.go:259-288 | A run has a user enabled without a secret somewhere if and only if it contains a guarded enable applied while the secret is NULL |
| `MfaSafety.EnabledWithoutSecretIsReachable` | internal/service/mfa_service.go:145-199 | Such a state is reachable from an empty table |
| `MfaSafety.ActiveSecretSwapIff` | internal/store/postgres/user_store.go:224-241 | An enabled user's secret changes if and only if an enrolment's unguarded UPDATE is applied to that enabled user |
| `MfaSafety.UncheckedSecretIsReachable` | internal/service/mfa_service.go:91-133 | Any secret, also one that no Confirm checked, can become the active one |
| `MfaSafety.AloneKeepsSecrets` | internal/service/mfa_service.go:91-278 | Request by request, an enabled user always has a secret |
| `MfaSafety.MfaService.GenerateBackupCodes` | internal/service/mfa_service.go:332-353 | The loop mints ten codes and their hashes, index by index |
| `MfaSafety.MfaService.MatchBackupCode` | internal/service/mfa_service.go:284-310 | The loop without early exit answers whether the code's hash is stored; never for the empty code |
| `MfaSafety.MfaService.EnableMFA` | internal/store/postgres/user_store.go:259-288 | The guarded UPDATE and its three outcomes |
| `MfaSafety.MfaService.Confirm` | internal/service/mfa_service.go:145-199 | Succeeds exactly for a live, not yet enabled user with a valid code; returns ten codes drawn from the entropy, stores exactly their hashes, and touches no other user; otherwise which error |
| `MfaSafety.MfaService.Disable` | internal/service/mfa_service.go:239-278 | Succeeds exactly for an enabled user with a valid TOTP or backup code, and clears every MFA column of that user only; otherwise which error |
| `MfaSafety.MfaService.Enroll` | internal/service/mfa_service.go:91-133 | Stores the returned secret as pending exactly for a live user with MFA off; otherwise which error and no change |
| `Saved.NoTripleTwice` | internal/store/postgres/saved_item_store.go:47-64 | No (user, kind, target) triple is stored twice in any interleaving |
| `Saved.LeavesByUnsaveOnly` | internal/store/postgres/saved_item_store.go:66-80 | A bookmark leaves the table, in any run, only by a DELETE of its own triple, and is unchanged until then |
| `Saved.TheCapStretchesByConcurrency` | internal/service/saved_service.go:63-108 | With at most k Saves in flight for a user and kind, stored bookmarks plus requests past the check never exceed 999 + k |
| `SavedTight.TheBoundIsAttained` | internal/service/saved_service.go:63-108 | For every k > 0 a run with at most k in flight stores exactly 999 + k |
| `Saved.SavedService.Save` | internal/service/saved_service.go:63-108 | Alone: creates exactly when kind, target, cap and uniqueness allow, never passes 1000, and changes no other row; otherwise which error |
| `Saved.SavedService.Unsave` | internal/service/saved_service.go:114-120 | Removes the rows with this triple and no other, and answers whether there were any; an unknown kind is refused |
| `Saved.SavedService.CountByUserAndType` | internal/store/postgres/saved_item_store.go:86-95 | The number of the user's bookmarks of that kind |
| `Saved.SavedService.ListJobRefs` | internal/store/postgres/saved_item_store.go:100-130 | The append loop returns each of the user's job bookmarks once |
| `Argon2.DecodeOfHash` | internal/auth/password/argon2.go:35-109 | Decoding a printed hash returns exactly the printed parameters, salt and key, for all passwords and in-range parameters |
| `Argon2.VerifyIff` | internal/auth/password/argon2.go:58-67 | A password verifies exactly when it derives the stored key; the hashed password always does |
| `Argon2.VerifyDecides` | internal/auth/password/argon2.go:58-109 | For every string: it verifies without error exactly when it has six parts, the argon2id variant, version 19 and parts that scan and decode, and then the derived key decides; which string gives which format error |
| `Argon2.HashParts` | internal/auth/password/argon2.go:35-54 | The six `$`-separated parts of a printed hash, written out |
| `Argon2.ScanParamsPrinted` | internal/auth/password/argon2.go:70-109 | Sscanf of the printed parameter list returns the three numbers |
| `Text.SplitJoin` | internal/auth/password/argon2.go:70-75 | Splitting joined parts that avoid the separator returns the parts |
| `Text.JoinSplit` | internal/auth/password/argon2.go:70-75 | Joining what a split returned gives the text back, and no part holds the separator |
| `Text.ValueOfDecimal` | internal/auth/password/argon2.go:44-52 | Decimal text reads back as its number |
| `Base64.DecodeEncode` | internal/auth/refresh/rotation.go:26-82 | Unpadded base64 (sections 4 and 5 of RFC 4648) decode after encode is the identity on all byte strings |
| `Base64.SextetsAreTheBits` | internal/auth/refresh/rotation.go:28-42 | A group's four sextets are its 24 bits, most significant first |
| `Base64.TestVector` | internal/auth/refresh/rotation.go:28-42 | The longest test vector of section 10 of RFC 4648 |
| `Base64.EncodeAvoids` | internal/auth/refresh/rotation.go:36-42 | Encoded text holds neither `.` nor `$` |
| `Tokens.Parse` | internal/auth/refresh/rotation.go:47-82 | The dot-scanning loop equals cutting at the first dot; what success says about the raw text |
| `Tokens.MeaningIs` | internal/auth/refresh/rotation.go:47-82 | What an id without a dot, a dot and any text parse to, with the error of either half |
| `Tokens.ParseOfGenerate` | internal/auth/refresh/rotation.go:26-82 | Parsing a generated token returns the same id and hash |
| `Tokens.VerifyStateIff` | internal/service/oauth_service.go:871-899 | A string verifies to a raw state exactly when it is that state, a dot and its encoded MAC, dots inside or not |
| `Canonical.GatewayFramesAreDetermined` | internal/platform/middleware/gateway_signature.go:157-188 | Method, path and body hash are recoverable from the signed text for arbitrary bytes |
| `Canonical.GatewayDeterminedIff` | internal/platform/middleware/gateway_signature.go:157-188 | The whole request is determined exactly when no identity field holds a pipe character |
| `Canonical.GatewaySpelled` | internal/platform/middleware/gateway_signature.go:166-183 | The signed text field by field, lengths included |
| `Canonical.EventEndsAreDetermined` | internal/events/signature.go:41-46 | Event id, user and tier are always determined; timestamp and version only joined |
| `Canonical.EventTextSpelled` | internal/events/signature.go:41-46 | The signed text field by field |
| `Canonical.EventDeterminedIff` | internal/events/signature.go:41-46 | All five fields are determined exactly when timestamp and version hold no pipe character |
| `Canonical.AmbiguousIff` | internal/events/signature.go:41-46 | Joined text determines its fields exactly when no field holds the separator |

## Left out

- HTTP handlers, routing, cookies, JSON binding, configuration, logging, mailers and provider HTTP calls.
- Cryptography: SHA-256, HMAC, argon2 key derivation, AES-GCM, TOTP and base32 are parameters; hash injectivity is assumed only where a lemma requires it.
- Random ids, families, secrets and tokens never repeat; a statement given a used one leaves the state as it is. The class methods require fresh ones.
- JWT signing and verification: a pair is represented by its refresh-token row.
- The in-process token-bucket fallback of the IP limiter and its LRU cache: library behaviour. Requests to a limiter carry distinct members, which the source gets from a random suffix.
- Floating-point rounding of Lua scores and differences between application and Redis clocks: exact integers and one clock, which the application may read some time before Redis acts.
- RateLimit.ScriptRefinesLog: claimed for scripts that run at their clock reading; a late script may find entries already trimmed that the log still counts.
- RateLimit.DeniedLeavesNoTrace: claimed for scripts that run at their clock reading, because a denied request prolongs the key, which a late reading can tell; that it removes no entry holds in general.
- `time.Unix` of values outside the range of Go's time representation.
- Background deletion of old refresh tokens and of expired reset and verification tokens.
- Row order of list queries (ORDER BY): the list methods return the rows in an arbitrary order.
- In `OAuthService.Register`, the verification token created after the one-time code; its failure leaves the user and the code in place, as a lost answer does here.
- Profile and company fields, PII projections and the mapping of errors to status codes.
- The consumer's subscribe-and-reconnect loop, and payloads that are oversized or do not parse (these reach the model as a missing envelope).
- Sequential fallbacks of ResetPassword and VerifyEmail without a transaction manager: the development path.
- Deadlock detection: a statement that must wait for a lock stays where it is until the lock is released. The modelled transactions lock a token row before a user row, so they do not wait in a circle.
- AccountServices.AccountService.Request: does not claim a single outstanding token under interleaving, because invalidate and create are two statements; the claim is for an uninterrupted request.
- Connections: a block or removal of accepted edges does not exist in the source, so none is modelled.
