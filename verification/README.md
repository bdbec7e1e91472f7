# Verified model of the clone-llm service core

clone-llm is a Go backend for a conversational "clone": users sign in with one-time codes or OAuth,
hold JWT pairs, and chat with a language model whose replies are coloured by remembered emotions.
This project models the deterministic logic under that plumbing in Dafny and proves what it promises
over all inputs and all runs:

- `SlidingWindow`, `SlidingWindowRuns`: the in-memory code limiter, with slices over shared backing
  arrays, and its whole runs.
- `FixedWindow`: the limiter kept in Redis, a counter with an expiry.
- `Limiters`: the choice between the two that the service is given.
- `Users`, `UserRuns`, `OtpGuarantees`, `OtpRounds`, `OtpRateReached`, `OtpRedisRate`, `OtpRedisReached`,
  `Identities`, `IdentityWitnesses`, `Accounts`: codes, OAuth linking and registration over the table of users.
- `BraceScan`, `Json`, `Fences`, `PublicResponse`, `Captures`, `Fallback`: getting the public answer out of what
  the model wrote.
- `RefreshTokens`, `RefreshRoundTrips`, `Interleaving`: token rotation, in sequence and under concurrent callers.
- `Recall`, `RecallGuarantees`, `RecallBudget`, `RecallMerge`: which memories enter a reply.
- `Emotion`: from the analyst's number to the stored memory.
- `Basics`, `Text`: shared vocabulary.

Objects with fields that the code updates are classes; each of their methods is proved equal to a
function of the old state, and the theorems are about runs of those functions. Time is an integer
read once per step and passed in; random draws, mail delivery, the judge's verdicts, `strconv.Unquote`
and the digest are parameters.

`dafny verify dfyconfig.toml` checks the whole project.

## Where the code differs from what is documented or expected

- A rolling window of the Redis limiter's length can hold more than `max` grants; the exact worst case is
  `2 * max - 1` (`FixedWindow.FixedWindowBound`, `FixedWindow.BoundIsReached`), so the limit holds in every rolling window
  if and only if it is 1 (`FixedWindow.RollingSafeIffOne`).
- One address can be verified `max + 1` times in a window of the in-memory limiter, and no more: a code granted before the
  window can be redeemed in it (`OtpGuarantees.VerificationRate`, `OtpRateReached.RateIsReached`).
- With the Redis limiter the number depends on what the server does at the very millisecond of a deadline, because a window of
  the service's clock reaches into one millisecond more than the expiry has. In any window as long as the expiry it
  is at most `2 * max` when a key is never dropped at that tick, `2 * max + 1` when the server decides once for each
  tick, and `3 * max` when it may decide anew for each call (`OtpRedisRate.VerificationRate`). Each of the three is
  reached (`OtpRedisReached.AlignedRateIsReached`, `OtpRedisReached.RateIsReached`). In windows that end with one of the
  server's milliseconds it is always at most `2 * max` (`OtpRedisRate.AlignedVerificationRate`).
- A refresh token is redeemed at most once in sequence, but not by overlapping calls
  (`Interleaving.OverlapRedeemsTwice`); `Interleaving.BothPassIff` says exactly when.
- `UpsertOAuthUser` can return a record that is not the stored row: a display name that is never written, and code
  fields that linking has just cleared. `IdentityWitnesses.ReturnedIsNotStored` is a run of two calls that does both;
  `Identities.LoginTwice` and `Identities.OwnerAfterUpsert` say exactly when.
- Only one OAuth account can have no e-mail: `IdentityWitnesses.SecondBlankEmailFails` is such a run,
  `Identities.OAuthFailsOnlyOnSecondBlankEmail` the exact condition. This concerns direct callers of the service; the HTTP
  handler refuses a blank e-mail (`internal/http/user_handler.go:131`).
- Nothing in the schema makes an identity unique: `IdentityWitnesses.DirectCreateSharesIdentity` gives one identity to two
  rows, `Identities.CreateKeepsOwnersIff` says exactly when registration keeps it unique. Only direct callers of the service
  can do this; the HTTP handler passes no identity (`internal/http/user_handler.go:43-47`).
- The parser's second extraction, on the raw text (`llm_parser.go:32-34`), never finds an object the first did
  not (`Fences.CleaningKeepsExtract`), trying the public-answer expression on the raw text after the cleaned one never
  does either (`Captures.CleaningKeepsCapture`), and the extractor's `depth < 0` branch is dead.
- "inner_monologue is never returned" (`llm_parser.go:27`, `:115`) fails in two ways. The key itself is returned exactly
  when a captured public answer holds it (`Fallback.KeyReturnedIff`; `Fallback.PublicAnswerMayHoldTheKey` is such
  a text). And a private value that goes on over further lines is returned from its second line on
  (`Fallback.BrokenValueLeaks` is such a text; `Fallback.ContinuationIsReturned` says exactly what is returned and when
  nothing is). The redaction at line 149 never does anything.
- The judge's budget costs memories: a memory left to the judge that it would take is dropped exactly when two other
  uncached verdicts were needed before it (`RecallBudget.LostToBudgetIff`). A memory not left to the judge never is
  (`RecallBudget.UncontestedIsIdeal`).
- A Redis window with a fraction of a second lives shorter than configured, and one below a second lives for a minute
  (`FixedWindow.ExpiryIsWindow`).
- A message with mixed intent is always benign too, so the halved emotional weight and the mixed exception to the gap
  rule are never used (`RecallGuarantees.MixedIsAlwaysBenign`).
- Two different questions of one profile can share a verdict in a configured cache, exactly when one of them with the separator `||`
  behind it begins the other with the separator behind it (`RecallGuarantees.KeysCollideIff`). A single bar at the end
  of a message is enough (`RecallGuarantees.KeysCollide`). Without a configured cache, as the program is shipped, verdicts
  last for one call, and within one call keys never collide (`RecallGuarantees.KeyOfContent`).
- `normalizeIntensity` does not keep order (`RecallMerge.NormalizationOrder`): a memory stored with intensity 6 to 10 is read
  back as 60 to 100 (`Emotion.TensionFloorReadsBack`).
- A higher raw intensity can end lower, because a missing or non-positive one is read as 10
  (`Emotion.ZeroEndsAboveOne`); `Emotion.RawOrderKeptIff` says exactly when the order is kept.
- The two lists of negative emotions differ in one word (`Emotion.NegativeListsDiffer`).

## Model

| member | source | states |
|---|---|---|
| SlidingWindow.OtpRateLimiter.constructor | internal/service/user_service.go:370-382 | starts empty; a non-positive limit becomes 1 and a non-positive window one minute |
| SlidingWindow.Compact | internal/service/user_service.go:389-395 | the loop that appends to a prefix of the array it is reading still leaves exactly the entries younger than the window, in order, in that same array |
| SlidingWindow.Admit | internal/service/user_service.go:390-402 | answer and surviving entries are those of the pure decision, in the old array or a fresh one |
| SlidingWindow.OtpRateLimiter.Allow | internal/service/user_service.go:384-403 | the call changes only its key's entries, although keys hold slices of mutable arrays; no two keys ever share an array |
| SlidingWindowRuns.LogIsRecentHistory | internal/service/user_service.go:389-401 | after any run the compacted log is exactly the part of the full grant history younger than the window: compaction forgets nothing that matters |
| SlidingWindowRuns.DenialIsExact | internal/service/user_service.go:396-402 | a request is denied if and only if `max` grants of the full history lie in the window ending at it, and there are never more |
| SlidingWindowRuns.WindowSafety | internal/service/user_service.go:384-403 | in every run with a non-decreasing clock every half-open interval of window length, wherever it lies, holds at most `max` grants |
| SlidingWindowRuns.GreedyIsOptimal | internal/service/user_service.go:384-403 | no other way to answer the same requests that keeps that bound has granted more after any prefix |
| SlidingWindowRuns.DenialsLeaveNoTrace | internal/service/user_service.go:396-399 | deleting all denied requests from a run changes no later answer: a denial never extends a lockout |
| SlidingWindowRuns.KeysAreIndependent | internal/service/user_service.go:389-401 | in any interleaving of keys each key's log is that of its own requests alone |
| FixedWindow.RedisOtpRateLimiter.constructor | internal/service/otp_rate_limiter_redis.go:30-46 | given positive limits are kept, a non-positive window becomes one minute and a non-positive limit 1; the key prefix is fixed |
| FixedWindow.ExpiryIsWindow | internal/service/otp_rate_limiter_redis.go:60-63 | the counter lives exactly as long as a window of whole seconds, less than a second shorter than any other from one second up, and a minute for windows below one second |
| FixedWindow.RedisOtpRateLimiter.Eval | internal/service/otp_rate_limiter_redis.go:11-17 | INCR then EXPIRE on the first hit, as one transition of a counter that may have expired; other keys are untouched |
| FixedWindow.RedisOtpRateLimiter.Allow | internal/service/otp_rate_limiter_redis.go:48-68 | a blank key is refused and an unreachable server admits, both without a call; otherwise the counter under the normalised key decides |
| FixedWindow.EpochBudget | internal/service/otp_rate_limiter_redis.go:11-17 | how many grants an epoch and its predecessor can still have in an interval, in terms of the live counter and its deadline |
| FixedWindow.FixedWindowBound | internal/service/otp_rate_limiter_redis.go:48-68 | in any run every half-open interval as long as the expiry holds at most 2 * max - 1 grants, although denied calls count too |
| FixedWindow.BoundIsReached | internal/service/otp_rate_limiter_redis.go:48-68 | for every `max` some run has an interval with exactly that many, whatever the server does at the deadline tick |
| FixedWindow.RollingSafeIffOne | internal/service/otp_rate_limiter_redis.go:48-68 | no rolling window of any run exceeds the limit if and only if the limit is 1 |
| FixedWindow.WideWindowBound | internal/service/otp_rate_limiter_redis.go:48-68 | a span of one tick more than the expiry holds at most 3 * max - 1 grants in any run; 2 * max if the server decides once for each tick; 2 * max - 1 if it never drops a key at its deadline tick |
| FixedWindow.CounterOfGranted | internal/service/otp_rate_limiter_redis.go:11-17 | deleting all denied calls from a run leaves the counter's deadline, and its count up to the limit |
| FixedWindow.DenialsChangeNoAnswer | internal/service/otp_rate_limiter_redis.go:48-68 | hence it changes no later answer, although denied calls count too |
| Limiters.Limiter.Allow | internal/service/user_service.go:357-360 | a call on either limiter changes only that limiter's memory of the key, as the pure decision says |
| Limiters.UnreachableAdmits | internal/service/otp_rate_limiter_redis.go:49-67 | an unreachable server admits and counts nothing; a blank key is refused without asking it |
| Limiters.SameCounter | internal/service/otp_rate_limiter_redis.go:52-59 | white space around a key and its letter case do not matter to the counter |
| BraceScan.ExtractFirstJSONObject | internal/service/json_extract.go:5-50 | the loop with three variables and early exits returns the slice that the recursive scanner finds; its depth never goes below zero |
| BraceScan.ExtractSound | internal/service/json_extract.go:11-49 | a non-empty result is a balanced group of the grammar, outside string literals, that starts at the first brace |
| BraceScan.ExtractComplete | internal/service/json_extract.go:11-49 | where the grammar has such a group, exactly that group is returned, at any nesting and with any text around it |
| BraceScan.ExtractDecides | internal/service/json_extract.go:5-50 | the result is empty if and only if no balanced group starts at the first brace |
| BraceScan.GroupsArePrefixFree | internal/service/json_extract.go:40-42 | minimality: no balanced group is a proper prefix of another, so nothing shorter could have been returned |
| BraceScan.ExtractIsIdempotent | internal/service/json_extract.go:5-50 | extracting from the result gives the result |
| BraceScan.ExtractOfSlice | internal/service/json_extract.go:5-50 | cutting text without opening braces in front and without closing braces behind never changes the result |
| Json.NeutralValue | internal/service/json_extract.go:15-47 | a printed RFC 8259 value of any shape leaves the scanner in the state in which it found it |
| Json.ExtractInvertsPrint | internal/service/json_extract.go:5-50 | every JSON object, printed with any allowed white space and any strings in it, comes back from any prose whose front has no opening brace |
| Fences.CleaningKeepsExtract | internal/service/llm_parser.go:29-34 | for every raw text, trimming and removing the byte order mark and code fences never changes what is extracted, so retrying on the raw text is redundant |
| Fences.ExtractAfterFenceStart | internal/service/llm_parser.go:109 | removing an opening fence and its tag keeps the extraction |
| Fences.ExtractAfterFenceEnd | internal/service/llm_parser.go:110 | removing a closing fence keeps the extraction, even when the object was never closed |
| Fences.CleaningUnwraps | internal/service/llm_parser.go:101-112 | cleaning gives back every trimmed body from every wrapping of white space, byte order mark, opening fence with an optional json tag in any letter case, and closing fence, each of them or not |
| Fences.FencedExample | internal/service/llm_parser.go:101-112 | a literal fenced answer and its body |
| Captures.CleaningKeepsCapture | internal/service/llm_parser.go:73-78 | for every raw text the cleaned and the raw text give the same public answer, so the second attempt is redundant |
| Captures.CaptureOfSlice | internal/service/llm_parser.go:20 | cutting text without quotes in front and behind changes no captured answer |
| PublicResponse.UnescapeInvertsEscape | internal/service/llm_parser.go:202-211 | unescaping gives back every text that was escaped, whatever backslashes it holds |
| PublicResponse.UnescapeFixes | internal/service/llm_parser.go:202-211 | unescaping leaves a text alone if and only if no escape starts anywhere in it |
| PublicResponse.BodyEndOfBody | internal/service/llm_parser.go:20 | the captured group ends exactly where a string literal does, whatever escapes it holds |
| PublicResponse.BodyEndOfEscaped | internal/service/llm_parser.go:20 | in particular for every escaped text |
| PublicResponse.NoEarlierMatch | internal/service/llm_parser.go:20 | in key-free prose before a field the expression matches nowhere earlier, not even where it would overlap the field's key |
| PublicResponse.FindField | internal/service/llm_parser.go:165-171 | the leftmost match captures exactly the field's payload, in any letter case and spacing and before any suffix |
| PublicResponse.ExtractPayload | internal/service/llm_parser.go:165-181 | any field in key-free prose gives what its payload decodes to |
| PublicResponse.PayloadMeans | internal/service/llm_parser.go:171-181 | a payload stands for what it unquotes to, and only if it does not unquote for its text with the simple escapes undone |
| PublicResponse.ExtractField | internal/service/llm_parser.go:165-181 | the extracted value is the field's own value passed once through the double-escape repair |
| PublicResponse.RoundTrip | internal/service/llm_parser.go:165-200 | the value comes back unchanged if and only if it is trimmed, non-empty and left alone by the repair; a text without backslashes always is |
| PublicResponse.TwiceEscapedComesBack | internal/service/llm_parser.go:183-200 | an answer that the model escaped twice comes back as it was before |
| Fallback.FilterLines | internal/service/llm_parser.go:131-138 | filtering into the prefix of the array being read leaves exactly the lines without the key, in order |
| Fallback.JoinInvertsSplit | internal/service/llm_parser.go:131-139 | joining the lines of a text gives the text |
| Fallback.DropSecretLines | internal/service/llm_parser.go:129-140 | the conditional split, filter and join, as a function of the text |
| Fallback.SanitizeFallbackPublicText | internal/service/llm_parser.go:116-161 | the whole chain of attempts, as a function of the raw text |
| Fallback.JoinKeepsSecretOut | internal/service/llm_parser.go:139 | joining key-free lines with line breaks cannot form the key again |
| Fallback.FilteringRemovesSecret | internal/service/llm_parser.go:129-140 | after the line filter the text holds the key in no letter case |
| Fallback.RedactionIsNoOp | internal/service/llm_parser.go:149 | on such a text the later redaction changes nothing |
| Fallback.NeverCarriesTheKey | internal/service/llm_parser.go:114-161 | when none of the three texts that are tried (cleaned, raw, object left after the line filter) yields a public answer, the result is free of the private key and not an object; otherwise the result is exactly the first answer |
| Fallback.KeyReturnedIff | internal/service/llm_parser.go:114-161 | the result holds the private key if and only if that answer does |
| Fallback.AnswerIsReturned | internal/service/llm_parser.go:122-127 | every trimmed, backslash-free answer comes back from its field, whatever it says |
| Fallback.PublicAnswerMayHoldTheKey | internal/service/llm_parser.go:122-127 | a text whose public answer is the key, and comes back |
| Fallback.FallbackIsResidue | internal/service/llm_parser.go:129-160 | for every text without a captured answer the result is what is left of its key-free lines, and empty if and only if nothing, or an object, is left of them |
| Fallback.ContinuationLinesSurvive | internal/service/llm_parser.go:133-139 | when the key's line is followed by key-free lines, the line filter keeps all of those |
| Fallback.ContinuationIsReturned | internal/service/llm_parser.go:116-160 | the whole sanitizer then returns those lines without outer commas and white space, and nothing if and only if they come to nothing or to an object |
| Fallback.BrokenValueLeaks | internal/service/llm_parser.go:116-160 | a private value broken over two lines comes back from its second line |
| Fallback.RawAttemptIsRedundant | internal/service/llm_parser.go:122-127 | the sanitizer's attempt on the raw text repeats the one on the cleaned text |
| Fallback.SecondLookFinds | internal/service/llm_parser.go:142-146 | an object that is whole only when the lines with the key are gone is still answered from |
| Fallback.WrappedAnswerIsShown | internal/service/llm_parser.go:116-161 | a wrapped plain answer without the key is shown as its body is, without outer commas, and not at all if that is an object |
| RefreshTokens.MemoryRefreshTokenStore.constructor | internal/service/refresh_token_store.go:24-28 | starts empty |
| RefreshTokens.MemoryRefreshTokenStore.Store | internal/service/refresh_token_store.go:30-38 | sets one deadline, or nothing for a blank identifier |
| RefreshTokens.MemoryRefreshTokenStore.Exists | internal/service/refresh_token_store.go:40-52 | answers whether the entry is there and not past its deadline, and drops it when it is past |
| RefreshTokens.MemoryRefreshTokenStore.Revoke | internal/service/refresh_token_store.go:54-59 | removes that entry and no other |
| RefreshTokens.JWTService.constructor | internal/service/jwt_service.go:44-66 | default lifetimes of 15 minutes and 30 days; keeps the given store |
| RefreshTokens.JWTService.GeneratePair | internal/service/jwt_service.go:68-91 | the pair and the store after it, and no effect without a secret |
| RefreshTokens.JWTService.RefreshPair | internal/service/jwt_service.go:93-132 | every refusal with its error and its effect on the store; a success spends the old identifier and stores the new one |
| RefreshTokens.JWTService.RevokeRefresh | internal/service/jwt_service.go:134-155 | removes the entry of a valid refresh token; every refusal gives its error and has no effect |
| RefreshTokens.JWTService.ParseAccessToken | internal/service/jwt_service.go:157-175 | accepts valid access tokens only, with the error of each refusal |
| RefreshTokens.StoreRefinesLedger | internal/service/refresh_token_store.go:30-59 | in every orderly run the lazily purged store is the undeleted history of issued, redeemed and revoked tokens minus what has expired |
| RefreshTokens.AnswerIsLedger | internal/service/jwt_service.go:113-119 | a refresh succeeds if and only if that history says stored, not spent and not past its deadline |
| RefreshTokens.DeadlinesOutlastClaims | internal/service/jwt_service.go:72-85 | every issued token's claims expire no later than its entry in the store |
| RefreshTokens.RefusedOnlyIfSpent | internal/service/jwt_service.go:93-131 | a refresh token that parses and has not expired at its look-up is refused if and only if it was redeemed or revoked |
| RefreshTokens.RedeemedAtMostOnce | internal/service/jwt_service.go:113-131 | in every orderly run a token is redeemed at most once, and never if it is still live |
| RefreshTokens.OneLiveDescendant | internal/service/jwt_service.go:113-131 | at most one live refresh token descends from each login, and the store holds at most one |
| RefreshTokens.ChainsKeepIdentity | internal/service/jwt_service.go:121-131 | every token of a chain says about its user exactly what the login at its root said |
| RefreshTokens.PairKeepsIdentity | internal/service/jwt_service.go:121-131 | both tokens of a refreshed pair carry the redeemed token's identity and have valid claims |
| RefreshTokens.IssuedClaimsAreValid | internal/service/jwt_service.go:235-246 | what the service issues passes its own validity test if and only if the account's identifier is not blank |
| RefreshTokens.AccessTokenRoundTrip | internal/service/jwt_service.go:157-195 | an access token is accepted if and only if it is not expired and the account has an identifier, and never serves as a refresh token |
| RefreshRoundTrips.RefreshTokenParses | internal/service/jwt_service.go:197-218 | the refresh token of a pair is accepted by itself exactly until its expiry, for accounts with an identifier, carries its identifier and identity, and is no access token |
| RefreshRoundTrips.GeneratedTokenRefreshes | internal/service/jwt_service.go:68-155 | round trip: the refresh token handed out can be redeemed if and only if neither it nor its entry has expired, and logging out with it removes exactly its entry |
| RefreshRoundTrips.NothingWithoutSecret | internal/service/jwt_service.go:69-71 | without a secret nothing is issued, accepted or removed; under a blank identifier nothing is stored |
| RefreshRoundTrips.LookupPurges | internal/service/refresh_token_store.go:40-52 | after a look-up an entry is in the store exactly when it was found, and no other has moved |
| RefreshRoundTrips.LifetimeIsAnnounced | internal/service/jwt_service.go:86-90 | the announced lifetime is the access token's in whole seconds |
| RefreshRoundTrips.AcceptedIff | internal/service/jwt_service.go:220-246 | exactly which tokens are accepted for access and for a refresh, over parsing, type and claims |
| RefreshRoundTrips.ExpiredIff | internal/service/jwt_service.go:225-231 | a refresh reports expiry exactly for an expired token under the service's key; every other refusal is "invalid" |
| RefreshRoundTrips.HandedIsEntry | internal/service/jwt_service.go:77-85 | in every orderly run the refresh token handed out last is the history's live entry |
| RefreshRoundTrips.LivesUntilSpent | internal/service/jwt_service.go:113-119 | in every orderly run a handed-out token is live if and only if no later event has redeemed or revoked it |
| RefreshRoundTrips.HandedTokenWorksUntilSpent | internal/service/jwt_service.go:93-155 | each refresh token that an orderly run hands out may be presented after it, and is accepted before its expiry if and only if no event since has redeemed or revoked it |
| Interleaving.LiveIsHistory | internal/service/refresh_token_store.go:30-59 | in every schedule a token is in the store if and only if some step stored it and none removed it |
| Interleaving.OutcomeIsExact | internal/service/jwt_service.go:113-119 | in every schedule a refresh is let through if and only if nothing had removed its token before its look-up |
| Interleaving.NoSuccessAfterRevocation | internal/service/jwt_service.go:113-119 | no refresh whose look-up follows a completed revocation of its token succeeds |
| Interleaving.SuccessesOverlap | internal/service/jwt_service.go:113-131 | two calls on one token both succeed only if each looked before the other revoked |
| Interleaving.BothPassIff | internal/service/jwt_service.go:113-119 | two calls on one token are both let through if and only if nothing had removed it before the later look-up |
| Interleaving.OverlapRedeemsTwice | internal/service/jwt_service.go:113-131 | a schedule in which two callers redeem one token and two live tokens descend from it |
| Users.UserService.constructor | internal/service/user_service.go:35-45 | an empty table behind the given limiter, or behind a fresh one in memory with three codes in ten minutes when none is given |
| Users.UserService.RequestOTP | internal/service/user_service.go:212-265 | result, table and limiter log after a request, for every refusal and for a mail that does not go out |
| Users.UserService.SendCode | internal/service/user_service.go:227-264 | finds or inserts the row and stores the new hash; a failed mail leaves the code stored |
| Users.UserService.VerifyOTP | internal/service/user_service.go:267-308 | every refusal in its order, none with an effect; a success clears the code |
| Users.UserService.UpsertOAuthUser | internal/service/user_service.go:151-210 | known identity, linking by e-mail, or a new row, with the record returned |
| Users.UserService.CreateUser | internal/service/user_service.go:73-116 | the inserted row or the refusal |
| UserRuns.TableMatchesTickets | internal/service/user_service.go:212-308 | after every run each row's hash and expiry are exactly those of the address's ticket in a history that knows no rows and no hashes |
| UserRuns.RunsKeepKeys | internal/db/migrations/0001_init_schema.up.sql:2-7 | in every run ids and e-mails stay unique, whatever the service does |
| OtpGuarantees.HashVerifiesOnlyItsCode | internal/service/user_service.go:310-339 | the stored form verifies the code it was made from and no other text |
| OtpGuarantees.VerifyIsExact | internal/service/user_service.go:267-308 | after every run a verification succeeds if and only if it gives the code of the held ticket within ten minutes, and reports expiry if and only if the ticket is older |
| OtpGuarantees.TicketOrigin | internal/service/user_service.go:244-251 | a held ticket comes from the latest request that stored a code, and neither a verification nor a link has touched it since |
| OtpGuarantees.EffectsAreLawful | internal/service/user_service.go:289-302 | single use: in every run only a held ticket is redeemed |
| OtpGuarantees.TicketsAreConserved | internal/service/user_service.go:212-308 | over any interval, redemptions plus the ticket held at its end are at most the codes stored in it plus one carried in |
| OtpGuarantees.NeverMoreSuccessesThanCodes | internal/service/user_service.go:212-308 | no run has more successful verifications of an address than codes stored for it |
| OtpGuarantees.LogIsLimiterRun | internal/service/user_service.go:223-225 | the limiter inside a run of the service is a run of the limiter on its code requests |
| OtpGuarantees.CodesAreGrants | internal/service/user_service.go:223-251 | every code stored for an address was a grant on that address's own requests |
| OtpGuarantees.CodesRate | internal/service/user_service.go:35-38 | at most `max` codes are stored for an address in any half-open interval of the limiter's window |
| OtpGuarantees.VerificationRate | internal/service/user_service.go:35-38 | at most `max + 1` verifications of an address succeed in any such interval: 4 in ten minutes with the default limiter |
| OtpRateReached.RateIsReached | internal/service/user_service.go:35-38 | for every limiter with a window of two ticks or more some run reaches that number |
| OtpRedisRate.CounterIsRun | internal/service/user_service.go:223-225 | with the Redis limiter each address's counter is that of its own requests alone, in any interleaving |
| OtpRedisRate.CodesAreCounted | internal/service/user_service.go:223-251 | every code stored for an address was a grant of its counter |
| OtpRedisRate.CodesRate | cmd/api/main.go:82 | in every window as long as the expiry, at whatever nanosecond it ends, at most 3 * max - 1 codes are stored for an address; 2 * max if the server decides once for each tick; 2 * max - 1 if it never drops a key at its deadline tick |
| OtpRedisRate.VerificationRate | cmd/api/main.go:82 | in every such window at most one verification more than codes succeeds: 3 * max, 2 * max + 1 and 2 * max (9, 7 and 6 in ten minutes as configured) |
| OtpRedisRate.AlignedCodesRate | cmd/api/main.go:82 | in windows that end with one of the server's milliseconds at most 2 * max - 1 codes are stored, whatever the server does at a deadline tick |
| OtpRedisRate.AlignedVerificationRate | cmd/api/main.go:82 | in those windows at most 2 * max verifications succeed |
| OtpRedisRate.ConfiguredCodesRate | cmd/api/main.go:82 | for a service over the Redis limiter as it is configured, in any window of the configured length: at most 3 * max - 1, 2 * max or 2 * max - 1 codes by the server's behaviour for windows of whole seconds or below one, and twice that for others |
| OtpRedisRate.ConfiguredVerificationRate | cmd/api/main.go:82 | and the corresponding verifications |
| OtpRedisReached.AlignedRateIsReached | cmd/api/main.go:82 | for every limit and expiry above two milliseconds some run has 2 * max verifications in one of those windows, also with a server that never drops a key at its tick |
| OtpRedisReached.RateIsReached | cmd/api/main.go:82 | for every limit and expiry up to a code's lifetime some run has 3 * max verifications in a window, and some run 2 * max + 1 with one decision for each tick |
| Identities.CreateKeepsOwnersIff | internal/service/user_service.go:73-116 | registration keeps each identity with one owner if and only if its e-mail is blank, its id or e-mail is in use, or it names no full identity, or one that nobody owns |
| Identities.IdentitiesAreOwnedOnce | internal/http/user_handler.go:43-47 | in every run that registers users as the handler does, each identity and each e-mail belongs to at most one row |
| Identities.OwnerAfterUpsert | internal/service/user_service.go:165-209 | after a successful login the identity belongs to the account returned, and the stored row equals the record returned if and only if the login had nothing to fill in or clear |
| Identities.LoginTwice | internal/service/user_service.go:151-210 | repeating a login changes no row and returns the same account, and the same record under exactly that condition |
| Identities.OAuthFailsOnlyOnSecondBlankEmail | internal/service/user_service.go:156-208 | a login fails if and only if it names no full identity, or is a new identity without e-mail while an account without e-mail exists |
| IdentityWitnesses.ReturnedIsNotStored | internal/service/user_service.go:173-190 | a code request and then a login with the same e-mail: the record returned has a display name and a code hash that the stored row lacks |
| IdentityWitnesses.SecondBlankEmailFails | internal/service/user_service.go:196-208 | two logins without e-mail and with different identities: the second fails |
| IdentityWitnesses.DirectCreateSharesIdentity | internal/service/user_service.go:97-115 | a login and then a direct registration with the same identity: it belongs to two rows |
| Accounts.CodeIsDraw | internal/service/user_service.go:311-315 | a code writes its draw in decimal, so different draws give different codes |
| Accounts.CodesAreDraws | internal/service/user_service.go:345-355 | a text has the form of a code if and only if some draw gives it |
| Accounts.SameAddress | internal/service/user_service.go:341-343 | an address is the same with white space around it and in any letter case |
| Accounts.VerifyReturns | internal/service/user_service.go:281-307 | a successful verification returns the row of the address as it is stored then, verified now and without a code; all else about it and every other row is as before, and a refusal changes nothing |
| Accounts.VerifiedAccount | internal/service/user_service.go:267-308 | in every run who enters the code of an address gets the account of that address |
| Accounts.VerifyRefusals | internal/service/user_service.go:272-297 | after every run each refusal has its reason, in the order in which the reasons are looked for |
| Accounts.RequestOutcome | internal/service/user_service.go:217-264 | for every way a request can go: its error, whether the limiter is asked, and whether the table changes |
| Accounts.RequestStores | internal/service/user_service.go:227-264 | a stored code is in the row of its address and in no other, for ten minutes; a new row is that of a fresh account, an old one keeps the rest; the record returned differs from the row only in its code |
| Accounts.CreatedRow | internal/service/user_service.go:78-115 | what a new row holds field by field, and that registration fails exactly for a blank e-mail or an id or e-mail in use |
| Accounts.RegisteredRow | internal/http/user_handler.go:43-47 | the handler's rows hold no identity, no code and no verification, and a hash only if the password is not blank |
| Accounts.OAuthOutcome | internal/service/user_service.go:151-210 | the three ways a login succeeds, with the row and the record of each: the owner's as it is; the address's, linked, verified now and without a code; a new one, verified now |
| Accounts.AccountsPersist | internal/repository/user_repo.go:170-200 | in every run accounts are never removed, renamed, moved to another address or given another password, and change at all only through a call about their own address |
| Recall.NarrativeService.constructor | internal/service/narrative_service.go:96-103 | starts without verdicts |
| Recall.NarrativeService.SelectMemories | internal/service/narrative_service.go:145-233 | the loop over ranked memories, with its early exits, budget and verdict cache, takes the memories and leaves the cache that the recursive selection does |
| Recall.MergeDedupMemories | internal/service/narrative_service.go:312-331 | two loops over one set of seen ids are one deduplication of the concatenation |
| Recall.DominantIndex | internal/service/narrative_service.go:262-271 | the first memory of greatest normalised intensity |
| RecallGuarantees.KeysAreUnambiguous | internal/service/narrative_service.go:201 | for messages without a bar, equal cache keys mean equal profile, message and content |
| RecallGuarantees.SameKeyIff | internal/service/narrative_service.go:201 | keys are equal if and only if the profiles are, and message, separator and content make one text |
| RecallGuarantees.KeysCollideIff | internal/service/narrative_service.go:201 | two requests can share a verdict for some contents if and only if they come from one profile and one message with the separator behind it is a prefix of the other |
| RecallGuarantees.KeysCollide | internal/service/narrative_service.go:201 | a single bar at the end of a message is enough for two different questions to share a key |
| RecallGuarantees.KeyOfContent | internal/service/narrative_service.go:201 | within one request different contents have different keys |
| RecallGuarantees.MixedIsAlwaysBenign | internal/service/narrative_service.go:79-89 | mixed implies benign, so only two of the three weights are ever used |
| RecallGuarantees.WishTreatAndGrief | internal/service/narrative_rules.go:157-187 | a message with a wish and a treat is benign, and mixed if a grief comes with them |
| RecallGuarantees.OneIsNotEnough | internal/service/narrative_rules.go:157-171 | a wish alone and a treat alone are not benign |
| RecallGuarantees.WarmCacheHelps | internal/service/narrative_service.go:168-232 | two runs, one with more verdicts: the warm one takes every memory the cold one takes, calls the judge no more often and knows at least as much afterwards |
| RecallGuarantees.BudgetHolds | internal/service/narrative_service.go:211-227 | each run makes at most two successful judge calls and learns exactly one new verdict from each, so no content is judged twice |
| RecallGuarantees.NothingBelowTheFloor | internal/service/narrative_service.go:177-198 | nothing with a similarity below 0.20 is ever taken |
| RecallGuarantees.UnderBudgetIsIdeal | internal/service/narrative_service.go:168-232 | a run that does not use up its budget takes exactly what an unlimited one would and leaves nothing for the judge |
| RecallGuarantees.SettledIsIdeal | internal/service/narrative_service.go:203-231 | with every verdict cached a run takes the unlimited selection without calling the judge |
| RecallGuarantees.RepeatsConverge | internal/service/narrative_service.go:203-231 | asking the same question m times makes the next answer the unlimited selection once 2 * m + 1 covers the memories found |
| RecallGuarantees.ThirdAnswerIsComplete | internal/service/narrative_service.go:153 | a search returns at most five memories, so the third identical question gets the full answer |
| RecallBudget.UncontestedIsIdeal | internal/service/narrative_service.go:173-198 | for every cache and any number of calls spent, a memory that is not left to the judge is decided as in the unlimited selection |
| RecallBudget.UncontestedInNumbers | internal/service/narrative_service.go:160-198 | in numbers: 0.62 is always enough past the gap of 0.08, below 0.20 never; for benign messages 0.20 is enough but for negative memories stored below 6 or from 11 to 59 |
| RecallBudget.ContestedInNumbers | internal/service/narrative_service.go:160-198 | what is left to the judge: similarities from 0.20 to below 0.62 |
| RecallBudget.SpentSoFar | internal/service/narrative_service.go:211-227 | at every memory the calls made and the verdicts learnt are those needed so far, up to the budget |
| RecallBudget.LostToBudgetIff | internal/service/narrative_service.go:211-231 | exactly which memories the budget costs: one the judge would take is dropped if and only if its verdict was not cached and two others were needed before |
| RecallBudget.TakenInOrder | internal/service/narrative_service.go:168-232 | the memories taken are all those picked, in the order of their rank |
| RecallMerge.DedupKeepsIds | internal/service/narrative_service.go:312-331 | merging loses no id and repeats none |
| RecallMerge.FirstPositionsAre | internal/service/narrative_service.go:317-328 | the positions kept are exactly those whose id has not occurred before |
| RecallMerge.DedupIsFirstOccurrences | internal/service/narrative_service.go:312-331 | the merged list is the subsequence of first occurrences, in order |
| RecallMerge.WorkingMemoriesSurvive | internal/service/narrative_service.go:236-242 | after the limit of seven all working memories stand in front and at most the last selected one is lost, only when both lists are full |
| RecallMerge.AnswerKeepsMemories | internal/service/narrative_service.go:145-242 | the same for selecting, merging and cutting together, for any judge and any cache |
| RecallMerge.DominanceIgnoresOrder | internal/service/narrative_service.go:245-271 | any order of the same memories has the same dominant intensity |
| RecallMerge.DominantIsLatest | internal/service/narrative_service.go:245-271 | for every date-descending order of the merged list the memory named has the greatest normalised intensity and, among those, the latest date |
| RecallMerge.NormalizationOrder | internal/service/narrative_rules.go:197-210 | normalisation keeps the order of two intensities except exactly where it scales the smaller one past the larger |
| Emotion.AnalyzeEmotion | internal/service/analysis_service.go:119-149 | damping, noise gate and truncation of the analyst's answer |
| Emotion.React | internal/service/clone_service.go:120-167 | whatever path is taken, the intensity is the activation of the filtered one, and the input is trivial if and only if there is no tension and it is faint, or inert for a resilient profile |
| Emotion.InjectMemory | internal/service/narrative_actions.go:56-127 | the stored record with its clamps; nothing is stored for blank text only |
| Emotion.ResilienceSteps | internal/domain/clone_profile.go:25-40 | 0 for the most fragile profile, 1 for the toughest, and what one point of each trait adds |
| Emotion.AnalysisReaches | internal/service/analysis_service.go:124-148 | the noise gate and the damped intensity as whole-number inequalities in the raw intensity and the traits |
| Emotion.GateRange | internal/service/analysis_service.go:137-143 | an emotion that is not extreme never gets through below 20 and always does from 100; both ends are taken by a profile |
| Emotion.CategoryKept | internal/service/analysis_service.go:128-148 | what gets through keeps its trimmed category; without one, or silenced, it is neutral |
| Emotion.ActivationReaches | internal/service/reaction_logic.go:34-58 | activation threshold and rounding as one whole-number inequality, for every neuroticism |
| Emotion.ReactionReaches | internal/service/clone_service.go:138-162 | how strong the reaction to an analysis is, with and without tension |
| Emotion.FaintWords | internal/service/reaction_logic.go:130-141 | what is filtered out: a neutral, missing or negative emotion below 30 |
| Emotion.SilenceIsTrivial | internal/service/clone_service.go:120-141 | without tension neither a missing analysis nor a silenced one is ever stored |
| Emotion.Remember | internal/service/clone_service.go:170-191 | what is stored has an intensity in 1..100, whatever the raw one was, and importance = weight = that intensity in tenths, rounded up |
| Emotion.ImportanceIsRedundant | internal/repository/memory_repo.go:129-149 | on such records the working-memory query comes down to an intensity of 60 or more |
| Emotion.PipelineIsMonotone | internal/service/clone_service.go:120-162 | across five files the final intensity never falls when the intensity as it is read, or neuroticism, rises; any raw value is allowed |
| Emotion.RawOrderKeptIff | internal/service/analysis_service.go:124-127 | one raw intensity never ends above another, for every profile, category and tension, if and only if they are read in that order |
| Emotion.ZeroEndsAboveOne | internal/service/analysis_service.go:124-127 | a profile and a category for which raw 0 ends at 10 and raw 1 at 1 |
| Emotion.TensionForcesReaction | internal/service/clone_service.go:138-162 | high tension forces an intensity of at least 5, for any profile and input |
| Emotion.TrivialMeansZero | internal/service/clone_service.go:164-170 | trivial input has zero intensity, so the storing guard is a positive intensity |
| Emotion.NegativeListsDiffer | internal/service/reaction_logic.go:23-30 | the trauma filter's list is the reaction's list and "enojo" |
| Emotion.TensionFloorReadsBack | internal/service/narrative_rules.go:197-210 | a memory raised to the tension floor is stored with 5 to 35 and read back as 60 or more if and only if neuroticism is 2 to 18 |

## Left out

- HTTP handlers, SMTP, CLI, configuration, the LLM client, SQL text and vector search: input and output, or wiring.
- Users.UserService.RequestOTP: one clock reading serves the limiter, a new row and the code's expiry; repository failures other than a missing row or a duplicate key do not occur, and neither do a missing repository or failing randomness.
- Users.UserService.VerifyOTP: code digits are ASCII; a code of six bytes made of other Unicode digits fails here before the row is looked up, in the code after it. One clock reading.
- Users.UserService.UpsertOAuthUser: one clock reading per call.
- Users.UserService.CreateUser: bcrypt's output is a parameter and its failures do not occur.
- The password check `Authenticate`: one branch and a library call.
- The user table: NULL in a code column reads as the empty hash, as the repository's own test double does.
- OtpGuarantees.HashVerifiesOnlyItsCode: the digest is assumed to be free of collisions and, as Base64 text, of colons.
- OtpGuarantees.VerifyIsExact: under the same assumption.
- OtpRateReached.RateIsReached: under the same assumption.
- OtpRedisRate.VerificationRate: the server answers every call, and its clock is the service's in whole milliseconds.
- OtpRedisReached.RateIsReached: for expiries longer than a code's lifetime, where the code carried into the window would be too old.
- OtpRedisReached.AlignedRateIsReached: the digest is assumed to be free of collisions and colons, as everywhere that codes verify.
- Interleaving.LiveIsHistory: has no clock; expiry is a step that may come at any time.
- RefreshTokens.StoreRefinesLedger: tokens under the service's key are those it issued, and new identifiers are fresh; both are part of the definition of an orderly run.
- RefreshTokens.RefusedOnlyIfSpent: for the in-memory store; the Redis store is not part of this model.
- RefreshTokens.JWTService.RefreshPair: HMAC signing and JWT syntax are an abstract token that is either signed under a key or malformed; store errors do not occur.
- FixedWindow.FixedWindowBound: every call reaches the server; while it is unreachable the limiter admits everything, as `FixedWindow.RedisOtpRateLimiter.Allow` says.
- PublicResponse.RoundTrip: `strconv.Unquote` is a parameter that undoes escaping whenever it succeeds and shortens what holds a backslash.
- PublicResponse.ExtractField: under the first of these assumptions.
- PublicResponse.TwiceEscapedComesBack: under the first, and `strconv.Unquote` is assumed to refuse a bare quote.
- Accounts.VerifyRefusals: the digest is assumed to be free of collisions and colons.
- OtpRedisRate.ConfiguredVerificationRate: as for `OtpRedisRate.VerificationRate`; for windows with a fraction of a second the bound is that of two expiries.
- BraceScan.ExtractFirstJSONObject: characters stand for bytes; every character compared is ASCII, so the slices are the same.
- Fallback.NeverCarriesTheKey: case folding is ASCII, in all text functions. What a captured public answer says is up to the model that wrote it.
- Fallback.AnswerIsReturned: under the first of the assumptions about `strconv.Unquote`.
- RecallGuarantees.KeysCollideIff: profile identifiers have one length, as UUIDs do.
- The `encoding/json` attempts of `ParseLLMResponseSafe`: library decoding.
- Recall.NarrativeService.SelectMemories: starts from memories with their similarity and score, already in order; negated messages, character sections and the evocation query are not modelled, and the judge is a function of the content within one request.
- Recall.DominantIndex: the date sort before it is a library call; `RecallMerge.DominantIsLatest` covers every order it could produce.
- RecallGuarantees.RepeatsConverge: the verdicts of one call reach the next, as they do with a cache configured; without one every call starts from the empty cache (narrative_service.go:96-103). A configured cache evicts nothing.
- Emotion.AnalyzeEmotion: floating-point rounding; numbers are exact reals. The profile is always given, and a failing analysis is the None case of `Emotion.React`.
- Emotion.Remember: the narrative service is configured and the profile id is valid.
- Emotion.InjectMemory: the embedding, the new id and the timestamps of the record.
- Tension keywords, prompts, goals, bond dynamics, questionnaires, relative dates and the trait upsert loop: long literals or single branches that would add only easy members.
