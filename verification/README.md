# Verified model of the Whisked platform's protocols

The server keeps its hard state in two places: one Redis that every component shares, and
one append-only PostgreSQL table of loyalty events. This project models both stores, the
calls that work on them, and proves what those calls guarantee, alone and together.

How it is built:

- **Stores.** `RedisStore` is Redis as the server uses it: values, expiry instants, a clock,
  and one function for each atomic command, each of which may fail before or after it took
  effect (`Fault`). `Keys` lists every key builder and proves that no two ever meet, so that
  the protocols can work on typed keys. `EventLog` is the `loyalty_events` table with its
  CHECK, UNIQUE and foreign-key constraints, and the balance derived from it.
- **Calls.** `Loyalty`, `Hmac`, `RateLimit`, `RefreshTokens` and `TokenStoreMachine` hold the
  calls as program counters with one store command for each step; `OneShot` has calls of a
  single command. Any number of calls interleave freely in the machines over them.
- **Objects.** `LoyaltyService.Service`, `Hmac.Gate`, `RateLimit.Limiter`,
  `AuthService.Service`, `TokenStore.TokenStore` and `SquareOAuth.Service` are the program's
  own objects with fields and methods, proved to do what the step functions do when no other
  call comes in between.
- **Failures.** `LedgerCrowd`, `LedgerFailures`, `LedgerReadings`, `RateLimitFailures`,
  `RefreshSchedules` and `TokenStoreAgreement` say when the guarantees fail, and build the
  runs in which they do.
- **Composition.** `Platform` puts all protocols on the one Redis: a step of one is a step of
  the environment for the others, so a run of the server is a run of each protocol.
  `PlatformWire` carries such runs over to the store on the wire, whose keys are text.

Hypotheses that the code needs are named predicates on the run: `NoCrowd`, `Serial`,
`RedisUp`, `WithinTtl`, `DistinctReadings`, `Timely`, `NoOverlap`, `Clean`. What the step
relations themselves take for granted is that time does not run backwards, that random
identifiers are new, that nobody forges a signed token, and that Redis and PostgreSQL keep
what they have taken; every command may fail before or after it took effect. For the lock,
the claim delay, the increment and the rotation the exact condition is proved; for these, for
distinct readings and for publications one at a time a run from the initial state shows the
guarantee failing beyond it.

What the proofs show about the code and its documentation:

- The comment that calls the redemption transaction a backstop for the lock
  (`internal/domain/loyalty/service.go:94-96`) does not hold: under the default isolation
  level transactions that have counted the same reward all commit. Any number of them is
  harmless exactly when the customer has as many rewards (`LedgerCrowd.CommitAllSolvent`), and
  a Redeem may hold its lock for exactly 30 s (`LedgerFailures.LockSpanIsTight`).
- `Earn` demands a UUID, while the Shopify, Square and QR paths pass prefixed keys, which are
  never UUIDs. Those paths therefore credit nothing: known customers get an error, and a QR
  scan uses its token up (`LoyaltyService`). The tests in
  `internal/domain/loyalty/service_test.go:299-338` expect a credit, and the comments at
  `service.go:152-155` and `service.go:222-224` promise nil; the model follows the code.
- The nonce TTL must be at least twice the maximum age, not merely exceed it as
  `internal/middleware/hmac.go:25` says (`Hmac.TtlIsTight`).
- `SaveToken` keeps the location of a merchant's first row, so a restart forgets a location
  configured later (`TokenStore.LocationSettled`, `TokenStore.StoreSurvivesRestart`).
- `docs/ARCHITECTURE.md:63` lists a rate-limit key without the `ip:` part that the code has.
- One refused clean-up in `Earn` leaves a key that answers the retry as a success although
  nothing was logged; `LedgerIdempotency.RetryMakesUp` says exactly when that happens.
- `Refresh` ignores the reply to its DEL (`internal/domain/auth/service.go:184`): when Redis
  refuses it, the sign-in ends up with two live tokens (`RefreshSchedules.RefusedDeleteRun`).
- `RequireAuth` (`internal/middleware/require_auth.go:31-61`) does not look at a token's type,
  and nothing ever writes the revocation keys it reads. A refresh token, also one that was
  spent or logged out, speaks for its customer as a bearer token until its seven days are over
  (`AuthService.SpentTokenSpeaks`).
- A window of the rate limiter is a bucket of the clock. Over an arbitrary stretch of one window
  up to three times the limit can pass, and twice the limit only as long as each increment
  follows its bucket within a clock tick (`RateLimitFailures.IntervalIsTight`).

Check everything with `dafny verify dfyconfig.toml`.

## Model

| member | source | states |
|---|---|---|
| Decimal.ParsePrint | internal/middleware/hmac.go:57-61 | Reading a printed integer gives it back, for every integer. |
| Decimal.PrintIntInjective | internal/domain/loyalty/service.go:98 | Different integers print differently, so a number in a key identifies it. |
| Decimal.FirstPlace | internal/domain/loyalty/service.go:98 | Digits are worth their places: the first of n digits counts ten to the n - 1. |
| Decimal.PrintIsPlain | internal/domain/loyalty/service.go:110 | A printed number has no needless zero in front, and a minus sign exactly when negative. |
| RedisStore.CommandsFaithful | internal/middleware/ratelimit.go:93-100 | Under any injective rendering of keys, every command on the text-keyed store gets the typed store's reply and keeps the two stores in step, whatever fails. |
| Keys.LastColon | internal/middleware/ratelimit.go:90-91 | The bucket after the last colon can be split off whatever colons an IP text contains. |
| Keys.RenderInjective | internal/domain/loyalty/service.go:247-249 | All eleven key builders of the server are injective and pairwise disjoint, for all suffixes. |
| Keys.WireFaithful | internal/domain/auth/service.go:236-238 | The real, text-keyed Redis behaves as the store of typed slots does: no command on one slot touches another. |
| Uuid.PrefixedIsNoUuid | internal/domain/loyalty/service.go:49 | No key that starts with shopify-, square-, qr- or redeem- passes the UUID gate, in any of the textual forms the parser takes. |
| Uuid.FormsAccepted | internal/middleware/hmac.go:51 | The gate accepts every UUID bare, hyphenated, as a URN and in braces. |
| EventLog.BalanceConserved | internal/domain/loyalty/types.go:60-77 | In a solvent log earned = 9·(available + redeemed) + progress, progress + until = 9, and the clamp to zero does not fire. |
| EventLog.BalanceReads | internal/domain/loyalty/types.go:60-77 | A balance names its customer, the steeps and rewards the log counts for that customer, the remainder by nine, and the rewards left, which are none while more were redeemed than earned. |
| EventLog.EarnMovesBalance | internal/domain/loyalty/types.go:60-77 | One logged steep keeps the log solvent and moves exactly one balance, carrying into a reward at the ninth. |
| EventLog.RedeemMovesBalance | internal/domain/loyalty/repository.go:117-127 | A logged redemption keeps the log solvent if and only if a reward was available, and then lowers that one balance by one. |
| Loyalty.RunCounting | internal/domain/loyalty/repository.go:97-137 | What the locked part of a Redeem logs and answers in every combination of failures, and that the lock is released in all of them. |
| Loyalty.RedeemAlone | internal/domain/loyalty/service.go:97-125 | An undisturbed Redeem succeeds exactly when a reward is available, shows one reward less, logs one event and frees the lock. |
| Loyalty.EarnLogs | internal/domain/loyalty/service.go:63-70 | An Earn logs one event with the customer, source, location, order and key it was called with and the instant of the clock, exactly when its key is a new UUID that the cache lets through, the row passes the table's constraints and the statement takes effect. |
| Loyalty.EarnAnswers | internal/domain/loyalty/service.go:45-92 | BadRequest exactly for keys that are no UUID, the balance of the log it leaves when the event is in the log or the cache says so, and an error otherwise. |
| Loyalty.EarnKeeps | internal/domain/loyalty/service.go:53-80 | The key stays in Redis for 24 hours unless it was taken or Redis is down; a failed insert takes it out again unless Redis refuses. |
| Loyalty.RedeemLogs | internal/domain/loyalty/repository.go:117-136 | A Redeem logs one event of the customer in the bar, under the key redeem-customer-nanoseconds and at the instant of the clock, exactly when it has the lock or no answer about it, a reward is left over, the key is new and the statement takes effect. |
| Loyalty.RedeemAnswers | internal/domain/loyalty/service.go:97-125 | Conflict behind a held lock, BadRequest without a reward, the balance it leaves when its event is in the log, and an error otherwise. |
| Loyalty.RedeemKeeps | internal/domain/loyalty/service.go:100-108 | Nothing stays of the lock unless the reply to SETNX was lost or DEL refused; then it stays for 30 s. |
| LedgerMachine.StepAppends | internal/domain/loyalty/repository.go:52-93 | In the interleaved ledger a step appends at most the stepping call's own row, and only one the table accepts. |
| LedgerMachine.RunKeepsConstraints | db/migrations/000001_initial.up.sql:55-67 | Every reachable log respects its source check and its foreign key. |
| LedgerMachine.UncrowdedRunsAreSolvent | internal/domain/loyalty/repository.go:97-137 | In every run in which no customer ever has more open transactions than rewards, with or without Redis, rewards redeemed never exceed steeps earned / 9. |
| LedgerMachine.SerialRunsAreSolvent | internal/domain/loyalty/repository.go:97-137 | Runs whose transactions are serial are never crowded, and so never over-redeem. |
| LedgerMachine.StepMovesBalance | internal/domain/loyalty/repository.go:30-41 | Along an uncrowded run each logged Earn adds exactly one steep to its customer's balance, each Redeem takes exactly one available reward, and nobody else's balance moves. |
| LedgerMachine.RunConservesBalance | internal/domain/loyalty/types.go:60-77 | The conservation equations hold in every reachable state of an uncrowded run. |
| LedgerLocks.LocksHold | internal/domain/loyalty/service.go:98-108 | While no Redeem outlives its TTL, a running Redeem's lock is stored with its own expiry and has no second holder. |
| LedgerLocks.LockedRunsAreSolvent | internal/domain/loyalty/service.go:97-125 | No over-redemption in any interleaving, given Redis up and every span within the 30 s TTL. |
| LedgerCrowd.CommitAllCounts | internal/domain/loyalty/repository.go:122-136 | Any list of open transactions of one customer with distinct readings commits one reward each and changes no other count. |
| LedgerCrowd.CommitAllSolvent | internal/domain/loyalty/repository.go:97-137 | From a solvent ledger they leave it solvent if and only if they are no more than the rewards the customer had. |
| LedgerCrowd.CrowdsOverRedeem | internal/domain/loyalty/repository.go:97-137 | From every solvent state with more of them than rewards a run goes on to over-redeem. |
| LedgerCrowd.CrowdedRunsOverRedeem | internal/domain/loyalty/repository.go:97-137 | Every reachable state, in a run with distinct readings, in which a customer has more open transactions than rewards goes on to an insolvent one. |
| LedgerCrowd.OverlapBreaks | internal/domain/loyalty/service.go:94-96 | In particular two open transactions over one last reward both commit and leave the log insolvent. |
| LedgerFailures.ReachesOneLeft | internal/domain/loyalty/service.go:45-92 | Nine Earns from the empty ledger reach a state with exactly one reward and a free lock. |
| LedgerFailures.UnlockedCallsOverRedeem | internal/domain/loyalty/service.go:100-105 | From every state with one reward left, Redis being down lets two calls redeem it twice; the run is built. |
| LedgerFailures.UnlockedRunOverRedeems | internal/domain/loyalty/service.go:100-105 | So a run from the empty ledger over-redeems without Redis. |
| LedgerFailures.OutlivedLockOverRedeems | internal/domain/loyalty/service.go:106-108 | With Redis up, one clock tick past the lock's TTL is enough for the same. |
| LedgerFailures.LockSpanIsTight | internal/domain/loyalty/service.go:97-108 | With Redis up, all runs whose Redeem calls hold their locks for at most a bound are solvent if and only if the bound is at most 30 s. |
| LedgerIdempotency.CacheAgreesWithLog | internal/domain/loyalty/service.go:53-80 | In every interleaving a live idempotency key is logged, or its setter is in flight, or its clean-up was refused; and the log never holds a key twice. |
| LedgerIdempotency.QuietAgrees | internal/domain/loyalty/service.go:55-61 | With no Earn in flight and nothing leaked, every live key is logged. |
| LedgerIdempotency.CachedEarnRefinesDirect | internal/domain/loyalty/service.go:45-92 | One Earn logs what the UNIQUE constraint alone would log; its answer is the same too, except exactly for a retried key whose source the table would reject. |
| LedgerIdempotency.CacheRefinesUniqueConstraint | internal/domain/loyalty/service.go:53-91 | The same over any sequence of calls with any waits and outages: same log, and same answers when the database is up or down for each whole call. |
| LedgerIdempotency.RetryLogsNothing | internal/domain/loyalty/service.go:58-75 | A call whose key is logged changes nothing in the log, whatever the cache holds and whatever fails. |
| LedgerIdempotency.RetryMakesUp | internal/domain/loyalty/service.go:53-80 | After a first try with any faults, a fault-free retry leaves the steep logged unless SETNX took effect, the insert and the clean-up did not, and the retry comes within 24 hours; it answers success in every case. |
| LedgerIdempotency.RefusedCleanUpLosesSteep | internal/domain/loyalty/service.go:76-79 | From any log, one refused clean-up of a new key makes the next retry a success that logs nothing. |
| LedgerOwnership.RedeemKeyInjective | internal/domain/loyalty/service.go:110 | A redeem key determines its customer and its clock reading. |
| LedgerOwnership.RedeemKeyIsNoUuid | internal/domain/loyalty/service.go:110 | Redemption keys and Earn keys never meet in the UNIQUE column. |
| LedgerOwnership.CommittedCallsOwnEvents | internal/domain/loyalty/repository.go:128-136 | With distinct clock readings every Redeem that committed has its own logged event, so the branch that treats a duplicate as success never hides a missing one. |
| LedgerOwnership.SuccessesAreEarned | internal/domain/loyalty/service.go:97-125 | Under the lock's hypotheses the Redeem calls a customer has had answered with success are at most steeps earned / 9. |
| LedgerReadings.OneReadingLogsOnce | internal/domain/loyalty/service.go:110-114 | Two undisturbed Redeem calls with one clock reading, by a customer with two rewards, are both answered with success and log one event. |
| LedgerReadings.OneReadingRun | internal/domain/loyalty/repository.go:128-132 | A run from the empty ledger, with Redis up and every lock in time, in which a customer's successful redemptions exceed steeps earned / 9 because the readings are not distinct. |
| LoyaltyService.Service.GetBalance | internal/domain/loyalty/service.go:128-135 | The customer's own counts in the log and what they leave to spend, or an error when the read fails. |
| LoyaltyService.Service.CountRows | internal/domain/loyalty/repository.go:30-41 | One pass over the table finds both filtered counts. |
| LoyaltyService.Service.InsertEvent | internal/domain/loyalty/repository.go:52-93 | The row goes in exactly when it passes the CHECK, its key is new and its references exist; Duplicate means the key was there before; keys stay unique; a lost reply may hide a row that went in. |
| LoyaltyService.Service.Earn | internal/domain/loyalty/service.go:45-92 | The method does what the Earn steps do undisturbed; it appends exactly the event its parameters and the clock describe, and answers with the balance it leaves. |
| LoyaltyService.Service.RedeemInTransaction | internal/domain/loyalty/repository.go:97-137 | Count, check, insert: what is logged and answered in each case. |
| LoyaltyService.Service.Redeem | internal/domain/loyalty/service.go:97-125 | The method does what the Redeem steps do undisturbed; a held lock is answered with Conflict, and the event appended is the customer's, in the bar, under a key of customer and reading. |
| LoyaltyService.Service.ProcessShopifyOrder | internal/domain/loyalty/service.go:156-178 | An unknown customer or a failed lookup gives nil; a known customer's order is answered with an error and changes nothing, because its key is no UUID. |
| LoyaltyService.Service.ProcessSquarePayment | internal/domain/loyalty/service.go:225-245 | The same for Square payments. |
| LoyaltyService.Service.IssueStampToken | internal/domain/loyalty/qr.go:32-44 | Stores the customer under the token for five minutes. |
| LoyaltyService.Service.RedeemStampToken | internal/domain/loyalty/qr.go:49-69 | Takes the token by one GETDEL and decodes its customer; anything else is not found. |
| LoyaltyService.Service.StampViaToken | internal/domain/loyalty/service.go:190-220 | Uses the token up, logs nothing and fails: not found without a token, an error without the customer's row, BadRequest from the gate otherwise. |
| LoyaltyService.StampRoundTrip | internal/domain/loyalty/qr.go:32-69 | A token redeemed within its TTL, and only then, names the customer it was issued to; a second time it names nobody. |
| OneShot.SingleUse | internal/domain/loyalty/qr.go:56-61 | In every interleaving each stamp token or OAuth state is handed to at most one caller, with the payload it was issued for. |
| OneShot.Conservation | internal/domain/loyalty/qr.go:32-69 | At all times a credential is live exactly while unconsumed and young, and issued = consumed + expired + live. |
| OneShot.TakeSucceeds | internal/domain/squareoauth/service.go:78-81 | A take succeeds exactly on a live credential whose reply arrives. |
| OneShot.PayloadDecodes | internal/domain/loyalty/qr.go:63-68 | The stored payload reads back as the customer it was issued to. |
| SignedMessage.ConstantTimeEqual | internal/middleware/hmac.go:114-123 | The XOR/OR loop accepts exactly equal strings. |
| SignedMessage.HexTextInjective | internal/middleware/hmac.go:94 | Hexadecimal text determines its bytes. |
| SignedMessage.HexTextAt | internal/middleware/hmac.go:94 | Each byte becomes two lower-case digits, the high half first. |
| SignedMessage.DecodeEncode | internal/middleware/hmac.go:88-95 | The signed message determines all five parts, even for a path with newlines: one split from the left, three from the right. |
| SignedMessage.EncodeInjective | internal/middleware/hmac.go:88-95 | Two requests with one signed message agree in all five parts. |
| Hmac.Gate.Handle | internal/middleware/hmac.go:38-111 | Each status under its exact condition: in particular Accepted only with headers that fit, a recent timestamp, a new nonce, a readable body and the MAC of method, path, timestamp, nonce and body hash, and BadSignature with any other; the nonce is kept for ten minutes. |
| Hmac.AcceptedAreSigned | internal/middleware/hmac.go:88-104 | In every run of interleaved requests only those with the right signature are accepted. |
| Hmac.TimestampReads | internal/middleware/hmac.go:57-61 | A printed timestamp reads back exactly when it fits int64. |
| Hmac.SameMessageSameRequest | internal/middleware/hmac.go:88-104 | Requests signed over one message agree on method, path, timestamp, nonce and body hash. |
| Hmac.RunKeeps | internal/middleware/hmac.go:62-79 | In every timed run claims of one nonce are more than a TTL apart, stored until they expire, and preceded by a passed age check. |
| Hmac.NoReplay | internal/middleware/hmac.go:62-79 | With a delay of at most d between age check and SETNX, a message whose first acceptance has age at least d − 5 min is not accepted again. |
| Hmac.TtlIsTight | internal/middleware/hmac.go:22-26 | With check and claim at one instant, messages are admitted at most once in every run if and only if the TTL is at least twice the maximum age; and, where there is a signed request, accepted at most once if and only if it is. |
| Hmac.AcceptedReplayRun | internal/middleware/hmac.go:62-104 | A run from the initial state in which one signed request is accepted twice, for every pair of ages that a shorter TTL or a longer delay lets in. |
| Hmac.DelayIsTight | internal/middleware/hmac.go:62-70 | For every younger first age a replaying run exists, with both calls accepted when the request is signed. |
| RateLimit.BucketSpan | internal/middleware/ratelimit.go:90 | A bucket spans exactly one window. |
| RateLimit.Limiter.CheckLimit | internal/middleware/ratelimit.go:89-104 | The method runs the three steps of the machine's requests in the bucket of the current minute; with Redis up a counter at n goes to n + 1 and the request is allowed exactly when n was below 120 for a user and 60 for an address; the first sets an expiry of two minutes. |
| RateLimit.Limiter.Admit | internal/middleware/ratelimit.go:47-85 | The middleware blocks only on an answered count above 120 for a user or 60 for an address, and fails open. |
| RateLimit.BucketAdmitsItsLimit | internal/middleware/ratelimit.go:89-104 | With timely increments each bucket lets exactly min(INCRs, limit) of its requests through and besides them those left without an answer, however INCR and EXPIRE interleave and whatever is refused or lost. |
| RateLimitIntervals.IntervalTouches | internal/middleware/ratelimit.go:89-104 | Counted by the instants of the increments, any stretch of one window lets through at most the limit for each bucket it can touch under the given delay, besides the requests left without an answer. |
| RateLimitIntervals.IntervalBound | internal/middleware/ratelimit.go:89-104 | That is at most three times the limit while the counters hold, and twice the limit with delays of at most one clock tick. |
| RateLimitIntervals.ComputedBound | internal/middleware/ratelimit.go:90-104 | Of the requests whose buckets were computed in any stretch of one window at most twice the limit are let through, besides those left without an answer. |
| RateLimit.LateIncrementExceedsLimit | internal/middleware/ratelimit.go:97-100 | An increment after a full bucket's counter expired lets one request more than the limit through. |
| RateLimitFailures.LateRun | internal/middleware/ratelimit.go:89-104 | A run from the initial state, with every command answered, in which a bucket lets one request more than its limit through. |
| RateLimitFailures.DelayIsTight | internal/middleware/ratelimit.go:89-104 | Every bucket keeps its limit in all runs whose increments come at most a bound after their buckets were computed, if and only if the bound is at most one window and one clock tick. |
| RateLimitFailures.IntervalIsTight | internal/middleware/ratelimit.go:89-104 | In all runs whose increments come at most a bound after their buckets were computed any stretch of one window lets at most twice the limit through, if and only if the bound is at most one clock tick. |
| RateLimitFailures.ThreeTimesIsAttained | internal/middleware/ratelimit.go:89-104 | A run from the initial state in which a stretch of one window lets through three times the limit. |
| RefreshTokens.TokensTraced | internal/domain/auth/service.go:155-234 | In every run a live token was issued, was never deleted, and belongs to the customer whose sign-in its family began with. |
| RefreshTokens.StoredExactly | internal/domain/auth/service.go:232-234 | In every run the stored tokens are exactly those issued and not spent, and a token is live exactly while it is also within its seven days. |
| RefreshTokens.RefreshPasses | internal/domain/auth/service.go:156-181 | In every run a Refresh gets past EXISTS exactly with an issued, unspent, unexpired refresh token and an answer from Redis. |
| RefreshTokens.Conservation | internal/domain/auth/service.go:155-234 | At all times issued = spent + expired + live. |
| RefreshTokens.FamiliesAreSingle | internal/domain/auth/service.go:155-202 | Without overlapping Refresh calls of one token, a sign-in none of whose tokens Redis refused to delete has at most one live token. |
| RefreshTokens.SpentStaysSpent | internal/domain/auth/service.go:176-184 | In every run a token that Refresh or Logout has deleted is turned away by Refresh at its first step in every later state. |
| RefreshTokens.DeadStaysDead | internal/domain/auth/service.go:155-228 | In every run a family with no live token and no Refresh at work on it never lives again. |
| RefreshSchedules.RotatesIffInTime | internal/domain/auth/service.go:178-193 | For any number of Refresh calls with one live token and every interleaving of their steps: a call gets a new token if and only if its EXISTS comes before the first DEL of any of them; all tokens so issued are live, in one family; the call that looks first always gets one. |
| RefreshSchedules.PlayRuns | internal/domain/auth/service.go:178-193 | Every such interleaving is a stretch of a run. |
| RefreshSchedules.BothRotateIff | internal/domain/auth/service.go:178-193 | Of two such calls both succeed if and only if each EXISTS precedes the other's DEL, and at least one always does. |
| RefreshSchedules.ForkRun | internal/domain/auth/service.go:178-193 | A run from the initial state, with every command answered, in which one sign-in ends up with two live tokens. |
| RefreshSchedules.RefusedDeleteRun | internal/domain/auth/service.go:184 | A run from the initial state without any overlap in which a refused DEL leaves the old token live beside the new one. |
| Identity.SurvivesExactly | internal/domain/auth/tokens.go:72-78 | An ID read as a float64 is unchanged exactly when the spacing of float64 values at its size divides it, and is off by at most half of that. |
| Identity.LargestSafeBound | internal/domain/auth/tokens.go:72-78 | All IDs up to a bound survive the token if and only if the bound is at most 2^53. |
| Identity.DistinctStayDistinct | internal/middleware/require_auth.go:112-118 | Distinct IDs within the bound stay distinct, and 2^53 meets its successor. |
| Base64.UnpackPack | internal/domain/auth/password.go:48-49 | Unpacking packed bytes gives them back, for every length (RFC 4648, sections 3.2 and 4). |
| Base64.DecodeEncode | internal/domain/auth/password.go:69-77 | Unpadded base64 reads back every byte string it wrote. |
| Base64.EncodeDecode | internal/domain/auth/password.go:69-77 | An accepted text is written back unchanged if and only if it has no line breaks and no stray bits. |
| Base64.DecodeAccepts | internal/domain/auth/password.go:69-77 | The reader accepts exactly text over the alphabet, line breaks aside, of a length that three-byte groups can leave. |
| Base64.CharIs | internal/domain/auth/password.go:48-49 | The alphabet is that of RFC 4648, section 4. |
| Base64.BitsInOrder | internal/domain/auth/password.go:48-49 | Four characters carry three bytes from the highest bit to the lowest; bits missing at the end are zero. |
| Base64.GroupPacked | internal/domain/auth/password.go:48-49 | One, two and three bytes become two, three and four such characters. |
| PasswordHash.SplitHashText | internal/domain/auth/password.go:57-61 | The printed hash splits at its dollar signs into exactly its six parts. |
| PasswordHash.ScanParamsText | internal/domain/auth/password.go:63-67 | Scanning the printed parameters recovers them exactly when they fit uint32, uint32 and uint8. |
| PasswordHash.ParseHashText | internal/domain/auth/password.go:43-77 | Parsing a printed hash string recovers exactly its parameters, salt and hash, of any length, when the parameters fit, and refuses it when they do not. |
| PasswordHash.HashReads | internal/domain/auth/password.go:28-51 | The string printed for a password, to the letter, with 64 MiB, three passes, two lanes and 32 bytes asked of Argon2id. |
| PasswordHash.VerifyFails | internal/domain/auth/password.go:56-77 | The format is wrong exactly without five dollar signs; a well-formed string fails exactly when its parameters, salt or hash cannot be read. |
| PasswordHash.VerifyAcceptsAgreement | internal/domain/auth/password.go:56-89 | Verification accepts exactly the passwords whose Argon2id output agrees with the stored one. |
| PasswordHash.HashVerifies | internal/domain/auth/password.go:28-51 | The password that was hashed is accepted. |
| AuthService.LoginAnswers | internal/domain/auth/service.go:106-151 | In every state: a session of the account's own customer exactly when both fields are filled in, the database answers, the normalised address has an account, the attempt agrees with its hash and the token could be stored; everybody else gets one and the same refusal and changes nothing. |
| AuthService.RegisterAnswers | internal/domain/auth/service.go:39-101 | BadRequest, Conflict, an error or a session of the new customer, each under its exact condition, and the account created. |
| AuthService.RefreshAnswers | internal/domain/auth/service.go:155-202 | A new pair of the token's customer exactly for a stored refresh token with Redis answering; the old token goes unless Redis refuses; everybody else is refused with nothing changed. |
| AuthService.IssuedPair | internal/domain/auth/tokens.go:20-45 | An access token for 900 seconds and a refresh token for seven days, of one customer, each with its own identifier, type and times. |
| AuthService.Service.Register | internal/domain/auth/service.go:39-101 | The method does what the registration function does; it succeeds exactly with parameters that do, a free address and both stores answering, with a pair of the new customer. |
| AuthService.Service.InsertCustomer | internal/domain/auth/repository.go:25-52 | The account table refuses a known address and otherwise adds one account under the next ID. |
| AuthService.Service.Login | internal/domain/auth/service.go:106-151 | Opens a session of the account's customer when let in, and otherwise refuses with nothing changed; an address without an account is refused. |
| AuthService.Service.Refresh | internal/domain/auth/service.go:155-202 | The method runs the EXISTS, DEL and SET steps of the rotation machine in a row. |
| AuthService.Service.Logout | internal/domain/auth/service.go:205-228 | Takes the token's identifier out of Redis, for any token that parses and has one, and does nothing else. |
| AuthService.RegisterAddsOne | internal/domain/auth/service.go:39-57 | Registration never touches an existing account, adds at most one under a fresh ID, and conflicts exactly on a taken address; the account holds the name and the hash of the password given. |
| AuthService.RegisterThenLogin | internal/domain/auth/service.go:106-151 | After a registration, a login at any spelling of the address is accepted exactly for passwords that agree under Argon2id, as the customer created. |
| AuthService.RotationSpends | internal/domain/auth/service.go:176-201 | A Refresh of a stored token issues a pair for the same customer and spends the token. |
| AuthService.SessionCarriesOn | internal/domain/auth/service.go:155-202 | The refresh token of a pair works once, at any time before it expires and not after, keeps the customer for all IDs up to 2^53, and is refused the second time. |
| AuthService.BearerSpeaks | internal/middleware/require_auth.go:31-61 | A signed token of any kind speaks for the subject it names exactly while it has an identifier, is not expired and not revoked, and Redis answers. |
| AuthService.SessionsKeepBearers | internal/domain/auth/service.go:155-228 | No step of a sign-in, a Refresh or a Logout changes whom any bearer token speaks for. |
| AuthService.SpentTokenSpeaks | internal/middleware/require_auth.go:31-61 | A refresh token that Refresh or Logout has spent goes on speaking for its customer until its seven days end. |
| AuthService.AccessTokenSpeaks | internal/middleware/require_auth.go:31-61 | The access token of a pair speaks for its customer during its fifteen minutes unless revoked. |
| TokenStore.Persistence.SaveToken | internal/domain/squareoauth/service.go:124-135 | The merchant's row holds the record's tokens and its expiry in whole microseconds, with the location of the merchant's first row; no other row changes. |
| TokenStore.Persistence.LoadToken | internal/domain/squareoauth/service.go:105-120 | A newest row, nothing for an empty table, or an error. |
| TokenStore.TokenStore.Reload | internal/integrations/square/oauth.go:198-214 | Publishes a newest row; without one, or on an error, memory stays. |
| TokenStore.TokenStore.Store | internal/integrations/square/oauth.go:109-121 | Publishes a record exactly when it was saved. |
| TokenStore.TokenStore.Refresh | internal/integrations/square/oauth.go:151-194 | Saves the new tokens under the merchant in memory, and publishes exactly the two tokens and the expiry, exactly when they were saved. |
| TokenStore.TokenStore.AccessToken | internal/integrations/square/oauth.go:75-92 | A token with a day to go is handed out as it is; otherwise only a successful refresh yields one. |
| TokenStore.RestartRecovers | internal/integrations/square/oauth.go:198-214 | After any sequence of Store and refresh calls, whatever fails, over any merchants and with growing updated_at, a reload gives back the last record saved, with the expiry to the microsecond and the row's location; unless the reply to that save was lost, these are the merchant and the tokens memory held. |
| TokenStore.RestartedIsSynced | internal/integrations/square/oauth.go:61-71 | A store made from its table starts in step with it. |
| TokenStore.LocationSettled | internal/domain/squareoauth/service.go:129-132 | No sequence of calls changes a merchant's location in the table. |
| TokenStore.StoreSurvivesRestart | internal/domain/squareoauth/service.go:124-135 | A stored record comes back whole if and only if its expiry is a whole microsecond and its location is the merchant's first. |
| TokenStore.LostSaveDiverges | internal/integrations/square/oauth.go:109-112 | A save whose reply is lost leaves memory and table in step exactly when it changed neither merchant nor tokens. |
| TokenStoreMachine.MutexHolds | internal/integrations/square/oauth.go:76-78 | No reader is inside the lock with a writer, and no second writer. |
| TokenStoreMachine.NeverTorn | internal/integrations/square/oauth.go:113-119 | In every interleaving, whenever no writer holds the lock, access token, refresh token and expiry in memory are those of one single record that was in the table before. |
| TokenStoreMachine.ReturnedTokenWasStored | internal/integrations/square/oauth.go:75-92 | Every token AccessToken returns was in the table before, and one returned without a refresh had a day to go by its own expiry. |
| TokenStoreMachine.SectionsPublish | internal/integrations/square/oauth.go:188-192 | Writing field by field under the lock comes to the assignments of Store and of refresh. |
| TokenStoreAlone.AccessTokenAlone | internal/integrations/square/oauth.go:75-92 | An AccessToken call of the interleaved store that nothing comes in between does to memory and table, and answers, what the object's method does. |
| TokenStoreAgreement.StaysInStep | internal/integrations/square/oauth.go:109-121 | From any reachable state in step, memory and table stay in step through any calls whose saves come in order and get their replies and no two of which are between save or load and publication at once. |
| TokenStoreAgreement.StartsInStep | internal/integrations/square/oauth.go:61-71 | The load with which a store is made gets them in step, whatever memory held. |
| TokenStoreAgreement.QuietStatesAgree | internal/integrations/square/oauth.go:198-214 | Then, whenever nothing is being published, a reload gives the tokens memory holds, with their expiry to the microsecond. |
| TokenStoreAgreement.ApartRun | internal/integrations/square/oauth.go:109-121 | A run of two overlapping Store calls, all commands answered, after which memory has the one's tokens and the newest row the other's. |
| SquareOAuth.Service.AuthorizationURL | internal/domain/squareoauth/service.go:55-72 | Stores a state, or fails; the URL begins with the application as the client and ends with the stored state. |
| SquareOAuth.Service.HandleCallback | internal/domain/squareoauth/service.go:76-100 | Uses the state up first; without one nothing is exchanged or stored; with one the exchanged record is stored with the configured location. |
| SquareOAuth.UrlCarriesState | internal/domain/squareoauth/service.go:65-70 | The URL determines application ID and state. |
| SquareOAuth.UrlStateWorks | internal/domain/squareoauth/service.go:55-81 | The last 32 characters of the URL are a state that a callback gets past within ten minutes, and once. |
| SquareOAuth.StateRoundTrip | internal/domain/squareoauth/service.go:55-81 | A state is accepted within ten minutes, and once. |
| Dashboard.SumOfFloors | internal/domain/dashboard/service.go:107-111 | Redeemed ≤ sum of floors ≤ floor of the sum over any set of customers of a solvent log. |
| Dashboard.RedemptionRateBounded | internal/domain/dashboard/service.go:107-111 | The global redemption rate lies in [0,1] for any number of customers and any solvent log. |
| Dashboard.OverviewOrdered | internal/domain/dashboard/repository.go:33-52 | Steeps of the week ≤ of the month ≤ of all time, and active customers ≤ customers. |
| Dashboard.OverviewReads | internal/domain/dashboard/repository.go:33-52 | The counts are of customers, of those active within 30 days, of steeps within 7 and 30 days and ever, and of rewards ever, by places in the log. |
| Dashboard.RateReads | internal/domain/dashboard/service.go:107-111 | The redemption rate is the share of the rewards earned, nine steeps each, that were redeemed. |
| Dashboard.RatioBounded | internal/domain/dashboard/service.go:213-221 | A shown rate is at most 1 exactly when the part is no more than the whole or there is nothing to divide by. |
| Dashboard.GroupingConserves | internal/domain/dashboard/repository.go:60-72 | The rows of any grouping by day and source add up, for any sources, to the events of the window counted one by one. |
| Dashboard.GroupingExists | internal/domain/dashboard/repository.go:60-72 | Every log and window have such a grouping, in descending order of days. |
| Dashboard.GetLoyaltySummary | internal/domain/dashboard/service.go:127-167 | The loop's in_bar and shopify totals are the direct counts, with manual ones they make up all steeps of the window, the points carry every row, and all points together are the steeps of the window. |
| Dashboard.DaysReads | internal/domain/dashboard/service.go:128-130 | A window of 1 to 365 days is as asked for, any other is 30. |
| Dashboard.GroupReads | internal/domain/dashboard/repository.go:62-70 | A group is a source and a UTC day from midnight to midnight. |
| Dashboard.SourceReads | internal/domain/dashboard/repository.go:66-69 | A source's count in a window is the number of places in the log that hold its steeps. |
| Dashboard.FunnelNarrows | internal/domain/dashboard/service.go:197-225 | Repeat ≤ with steeps ≤ customers, identified ≤ visitors, and all three rates lie in [0,1]. |
| Dashboard.FunnelReads | internal/domain/dashboard/repository.go:134-155 | Each stage is what its name says, and a sample is small below thirty visitors or customers. |
| Dashboard.FunnelRates | internal/domain/dashboard/service.go:213-221 | Each rate is its own stage over the one before, and zero of nothing. |
| Dashboard.StagesMean | internal/domain/dashboard/repository.go:134-155 | The two SQL stages are the customers with at least one and at least two steeps. |
| DashboardRuns.RunKeepsRate | internal/domain/dashboard/service.go:107-111 | In every state of a serial run the redemption rate shown lies in [0,1]. |
| DashboardRuns.EarnIsSeen | internal/domain/dashboard/repository.go:38-41 | An Earn with a new key that fits raises the counts of the week, of the month and of any window up to now by one; one at an unknown location is an error and raises none. |
| Platform.StepProjects | internal/middleware/hmac.go:69-70 | Every step of the server is a step of every protocol: what one does to the shared Redis never disturbs another. |
| Platform.RunProjects | internal/middleware/hmac.go:69-70 | A run of the server is a run of each of the six protocols. |
| Platform.NothingRevokes | internal/middleware/require_auth.go:100-102 | No step of the server writes a revocation key. |
| Platform.LedgerGuarantees | internal/domain/loyalty/service.go:97-125 | In every state of the server the cache agrees with the log; with locks in time no customer over-redeems, and with distinct readings none is told so either. |
| Platform.GuaranteesHoldTogether | internal/domain/loyalty/service.go:97-125 | The guarantees of all six protocols hold side by side in every state of the server, each under its own hypotheses alone; the limiter's is counted by the instants of the increments. |
| PlatformWire.StepIsCommand | internal/domain/auth/service.go:236-238 | A step of the server changes Redis by one named command or not at all. |
| PlatformWire.WireRunExists | internal/domain/auth/service.go:236-238 | Beside every run of the server there is a run of the text-keyed Redis that executes its commands. |
| PlatformWire.WireRunRepresents | internal/domain/auth/service.go:236-238 | In every such run the text-keyed Redis holds under the server's keys exactly what the server's run says. |
| PlatformWire.WireRunReplies | internal/domain/auth/service.go:236-238 | And it gives each command the reply that the server's run says. |

## Left out

- HTTP routing, handlers, pages, JSON, telemetry, logging, configuration, the migration runner and the seed command: no property beyond plumbing.
- SHA-256, HMAC, Argon2id (RFC 9106), JWT signing and the random generators: functions of which only what a lemma's hypotheses say is used, and fresh values. Argon2id is called for every parameter, so the library's panic on zero iterations or zero parallelism is not modelled.
- The Square API client, webhook signatures and the token endpoint's HTTP exchange: the exchange is a record or an error that the environment chooses.
- Audit writes: best effort by design, with no effect on results.
- The loops that copy a cursor's rows into a slice: the rows are the database's answer as it is.
- Customer profiles, Square customer linking, staff login, analytics ingestion, loyalty history, the recent-events feed and the customer list: easy guards and copies of rows.
- Loss of Redis data, clocks that run backwards, and process crashes inside a call: outside the runs. A crashed Earn would leave its key as a refused clean-up does. PlatformWire lets the outside change any key that no protocol here writes, and none other.
- Exactly-once credit for Shopify, Square and QR: the UUID gate rejects their keys, so at most nothing is credited.
- Agreement of the token store's memory and table on the merchant and the location while calls overlap: a refresh saves under the merchant it gathered and publishes its tokens alone, so the code does not give it. `TokenStoreAgreement` speaks of the tokens and their expiry.
- int64 overflow of IDs and counts: integers are unbounded. `Identity` does not say what the cast of a float64 beyond the int64 range yields.
- float64 rounding of the dashboard's rates: rates are real numbers. Days are numbers since 1970; their printing as text is not modelled.
- Non-integer `sub` claims: tokens are signed by the server alone, with whole numbers. Staff tokens are signed with the same secret and are like any other to `AuthService.BearerSpeaks`.
- The UUID parser, Sscanf, Sscan, the JWT parser, pgx and go-redis are libraries and not part of this model; the model states the forms they accept. Sscanf is modelled for the single-byte spaces, and Sscan on what the server itself has written.
- Normalisation of e-mail addresses is any function. Text is a sequence of bytes.
- Address of the client (`clientIP`): any text.
- Hmac.SameMessageSameRequest: asks for a method and a nonce without line breaks, which HTTP does not let through anyway. Bodies are cut at 1 MB, as the middleware does, so it speaks of the part read.
- LedgerOwnership.CommittedCallsOwnEvents: asks for distinct nanosecond readings of one customer's Redeem calls.
- Redis keys are live through their expiry instant here; real Redis has millisecond resolution.
