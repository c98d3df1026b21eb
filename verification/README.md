# skyauth in Dafny

A Dafny model of `skyauth`, an AT Protocol OAuth client and resource-server library, and proofs about it. The model
follows the Rust code branch by branch; the theorems are about whole runs, not single calls. `dafny verify
dfyconfig.toml` checks everything.

| modules | component | main theorems |
|---|---|---|
| `LockTable`, `RefreshProtocol`, `RefreshCurrency`, `RefreshLimits`, `RefreshCrowd` | refresh single-flight: any number of calls of `refresh_shared_session` and `refresh_session`, any sessions, one bounded mutex table, one event per lock-guarded block | `ExclusionExactly`, `SingleUseExactly`, `HoldsLatestToken`, `ResubmissionExactly`, `TableBounded` |
| `ReplayCache`, `ProofWindow` | sharded replay cache and the temporal window of `verify_proof` | `CacheRefinesLedger`, `ReplayableExactly` |
| `IssuanceRate`, `ServerNonces` | rate-limited server nonces, limiter and store as separate blocks | `NonceGuarantees`, `MintedExactly` |
| `Middleware` | deferred admission: the steps of many requests interleaved | `ForwardedIffCommitted`, `ForwardedOnceExactly`, `UncommittedLeavesNoTrace` |
| `Challenge`, `Service`, `Forwarding`, `Handshake` | printed challenge, one whole middleware call, what it lets through, and the client's retry composed with it | `ChallengedExactly`, `GetsInnerExactly`, `ForwardedOnce`, `EndsAfterOneExactly`, `RetryLimitExactly` |
| `Lifecycle`, `StateStore`, `StoreRefinement` | abstract state lifecycle, the 64-shard store, and the refinement between them | `TakeExactly`, `StoreRefinesModel` |
| `Digits`, `Base58`, `Multikey` | carry-propagating base58 and Multikey strings | `DecodeEncode`, `EncodeDecode`, `OnlyTwoSpellings` |
| `DidKeyCache` | TTL cache of signing keys | `HitIsGenuine`, `MissIsEviction` |
| `Session` | code exchange and refresh | `SessionGuarantees`, `NeverWidensExactly` |
| `Htu`, `Nsid`, `Handle` | canonical forms and grammars | `HtuIsCanonical`, `OnePassDecides`, `UserHandleIdempotent` |

`Text`, `Clock` and `Shards` hold the `str` methods, the saturating `u64` arithmetic and the shard maps the others share.

## How things are modelled

- Shard hashing is an arbitrary function into 0..63. Signatures, thumbprints and random bytes are inputs; a minted nonce
  is one that was never minted before where a theorem needs it, and rotated refresh tokens are new.
- Clocks are natural numbers given to each call. Every lock-guarded block is one atomic step; a pass over the shards is
  one step per shard with the clock captured at its start. Iteration order of a map (the evicted key, the oldest entry
  among equals) is a free choice.
- Objects the source updates in place are classes with those fields. Each method is proved against a function on values,
  and the theorems about runs are about those functions.
- Strings are sequences of characters where the source counts bytes. Lengths differ only for non-ASCII input, which every
  grammar here rejects with the same error.
- `{:induction false}` stands on the lemmas that recurse and on those for which Dafny would otherwise try an induction of
  its own, so that what the body says is the proof.

## Where the code falls short of what is expected of it

Each comes with its exact condition, and where more lemmas are named, with an input or a schedule.

- A proof dated the full clock skew ahead is still acceptable in the second its replay entry lapses, and is then accepted
  twice. A call reads the clock twice, both times before it takes the lock; as far as the first reading may lag the
  second, and the second fall behind others on the way to the lock, proofs dated less far ahead are accepted twice as well
  (`ReplayableExactly`, `OnlyTheBoundaryOutlives`, `DefaultWindowReplay`, `LaggingReplay`).
- A refresh reply lost after the server consumed the token leads to that token being submitted again
  (`ResubmitsOnlyLost`, `ResubmissionExactly`, `LostTokenIsResubmitted`).
- With more than 4096 subjects that can be refreshed, and two calls that could compete for one of them, some schedule
  evicts a mutex in use and loses exclusion; with any token among them it submits a rotated token again. A subject can be
  refreshed if a session of it holds a token, or is passed to `refresh_session`, which takes a mutex before it looks for
  a token (`ExclusionExactly`, `SingleUseExactly`).
- The mutex does not protect a token two sessions hold. `refresh_token` refreshes a copy of a session, so a second call
  submits the token again (`SingleUseExactly`, `CopiesReuse`).
- A deferred commit carries the clock of its verification; a prune at the first entry's expiry before it lets the same
  proof through twice (`ForwardedOnceExactly`, `LatePruneForwardsTwice`).
- The limiter resets its count whenever the second changes, so a second read more often than the limit allows, and
  interrupted by readings of another, is granted more than the limit (`BoundHoldsExactly`, `MintedExactly`,
  `ReturningReadingExceeds`).
- A first response of the inner service other than 400 and 401 that is no success, such as a 404, is lost to the caller as
  a missing nonce, because a nonce is attached to successes only (`MissingNonceExactly`, `InnerNotFoundIsLost`).
- NSID segments other than the first and the last may start with a digit, and slashes may lead the whole; the documented
  grammar allows neither (`DocumentedExactly`, `InnerDigitIsAccepted`, `LeadingSlashIsAccepted`, `UndocumentedExamples`).
- A session with an absent or empty scope can be widened by a refresh (`NeverWidensExactly`).
- A TTL past the clock's range becomes one year in the store (`ExpiryAgreesExactly`).
- Base58 loses empty input and leading zero bytes (`DecodeEncode`).
- `"@ @localhost"` is completed to a handle although reserved names are documented as refused before completion
  (`ReservedCompletedOnlyBehindAt`, `ReservedIsCompleted`, `LocalhostIsCompleted`).

The missing nonce, the NSID segments and slashes and the reserved names are disagreements between code and documentation. So is the
comment on the `htu` kernel that the host is lowercased there: the caller does that, and the kernel's own check fails on
any other host (`InvariantsHoldExactly`). The model follows the code.

## Model

| member | source | states |
|---|---|---|
| LockTable.IdleSweep | src/client.rs:610-611 | the idle sweep keeps exactly the entries some task references, unchanged |
| LockTable.MakeRoomKeepsReferenced | src/client.rs:610-617 | making room leaves fewer than 4096 entries, invents none, and drops a referenced mutex only when all 4096 are in use, and then only the victim |
| LockTable.RefreshSingleFlight.constructor | src/client.rs:594-596 | the table starts empty |
| LockTable.RefreshSingleFlight.ReadLookup | src/client.rs:602-604 | the fast path answers with the table entry, if any, and changes nothing |
| LockTable.RefreshSingleFlight.WriteLookup | src/client.rs:605-620 | an existing entry is returned untouched; otherwise room is made and a fresh mutex entered; the table stays within 4096 |
| RefreshProtocol.StepTableInv | src/client.rs:599-620 | every event of every task keeps the table bounded and its mutexes distinct |
| RefreshProtocol.StepHeldInv | src/client.rs:1070-1085 | every event keeps the recorded mutex holders equal to the tasks inside the critical section |
| RefreshProtocol.StepShared | src/client.rs:599-620 | every event that evicts nothing keeps each task's clone equal to the table's mutex for its subject |
| RefreshProtocol.SharedExcludes | src/client.rs:1070-1071 | shared mutexes give per-subject mutual exclusion |
| RefreshProtocol.RunLockInv | src/client.rs:599-620 | the lock invariants hold after every schedule; the sharing after every schedule without eviction |
| RefreshProtocol.StepBorrowInv | src/client.rs:1033-1043 | every event keeps: a call of refresh_session has its session to itself until it returns |
| RefreshProtocol.WorkingNotRotated | src/client.rs:1073-1083 | a token about to be submitted, re-read or taken from the borrowed session, is never one whose exchange already succeeded |
| RefreshProtocol.RotatedTokenInv | src/client.rs:1083-1084 | a successful exchange keeps the token invariants: its token becomes rotated, its write-back pending, the new token unknown to anyone else |
| RefreshProtocol.FailedTokenInv | src/client.rs:1083 | a failed exchange, received or not, keeps the token invariants |
| RefreshProtocol.WriteBackTokenInv | src/client.rs:1084 | the write-back publishes the new token and settles the pending one; that the token is the right one is `RefreshCurrency.HoldsLatestToken` |
| RefreshProtocol.StepTokenInv | src/client.rs:1033-1086 | every event of either call without eviction keeps the token invariants |
| RefreshProtocol.RunInv | src/client.rs:1033-1086 | all invariants hold after every schedule without eviction |
| RefreshProtocol.DropsOnlyVictim | src/client.rs:610-617 | an event drops a referenced mutex only by evicting it |
| RefreshProtocol.TableBounded | src/client.rs:599-620 | in every run, evictions or not, the table holds at most 4096 entries, and only an eviction at full use drops a mutex in use |
| RefreshProtocol.RefreshIsExclusive | src/client.rs:1033-1086 | in every run without eviction no two tasks of one subject are in the critical section together |
| RefreshProtocol.RefreshIsSingleUse | src/client.rs:1033-1086 | in every run without eviction, of sessions with distinct tokens, a task submits only the token it observed, a rotated token is never submitted again, and tasks that observed one token cause at most one successful exchange |
| RefreshProtocol.ResubmitsOnlyLost | src/client.rs:1033-1086 | in such a run a token about to be submitted has been consumed by the server exactly when an earlier reply for it was lost |
| RefreshProtocol.EvictionTakesCrowd | src/client.rs:610-617 | an eviction happens only with more than 4096 subjects being refreshed at once |
| RefreshProtocol.FewBusyNeverEvicts | src/client.rs:577 | a schedule with at most 4096 subjects in flight never evicts |
| RefreshProtocol.SingleFlight | src/client.rs:1033-1086 | with at most 4096 subjects in flight: mutual exclusion, and for sessions with distinct tokens only observed tokens, no reuse, one success per observed token |
| RefreshCurrency.StepCurrentInv | src/client.rs:1073-1086 | every event without eviction keeps each session at the token its last successful exchange brought, but for a write-back that is due, which carries that token |
| RefreshCurrency.HoldsLatestToken | src/client.rs:1083-1084 | in every run without eviction, a session without a write-back due holds the token its last successful exchange brought, or the one it started with |
| RefreshCurrency.SubmitsLatestToken | src/client.rs:1073-1083 | in every run without eviction and without copies, a call submits exactly that token |
| RefreshCrowd.StepSourced | src/client.rs:1037-1068 | every event keeps: tokens, and tasks under way, are of sessions that could be refreshed at the start |
| RefreshCrowd.FewSubjectsFewBusy | src/client.rs:577 | from a start with at most 4096 subjects that can be refreshed, no schedule ever has more of them in flight |
| RefreshCrowd.CrowdBreaksIn | src/client.rs:610-617 | any 4097 callers of distinct subjects, of either kind, let a second call on the first subject in while its first is inside |
| RefreshCrowd.UncontendedIsSafe | src/client.rs:1033-1043 | without any token and with at most one owned session per subject, exclusion holds for any number of subjects |
| RefreshCrowd.ExclusionExactly | src/client.rs:599-620 | for every start and every mix of the two calls, all schedules keep per-subject exclusion if and only if at most 4096 subjects can be refreshed, or no two calls could compete for one |
| RefreshCrowd.SingleUseExactly | src/client.rs:1033-1086 | for every start, no schedule submits a rotated token again if and only if no two sessions hold the same token and, where there is any token, at most 4096 subjects can be refreshed |
| RefreshLimits.LostTokenIsResubmitted | src/client.rs:1083-1084 | from every start, for any two calls, of either kind, on a session with a token: a lost reply to the first lets the second submit the consumed token |
| RefreshLimits.ResubmissionExactly | src/client.rs:1033-1086 | a schedule that submits a consumed token again exists from exactly the starts with some token |
| RefreshLimits.CopiesReuse | src/client.rs:1197-1204 | from every start, for any two calls, of either kind, on different sessions that hold the same token, as refresh_token makes one: some schedule submits it again after it was rotated |
| RefreshLimits.NextCallSubmitsNext | src/client.rs:1083-1084 | from every start, after a call that brought a new token the next call on that session, of either kind, is ready to submit exactly that one |
| RefreshLimits.RunTokenless | src/client.rs:1037-1042 | from a start without tokens nothing is ever submitted |
| ReplayCache.KeyInjective | src/dpop.rs:1098 | distinct (thumbprint, jti) pairs have distinct keys when thumbprints hold no colon |
| ReplayCache.AdmitMeaning | src/dpop.rs:1099-1128 | an admission is refused exactly for a live key, saturated exactly when 2048 live entries remain, drops only expired entries, and leaves at most 2048 |
| ReplayCache.PacedExactly | src/dpop.rs:1111-1127 | an admission prunes at every 64th of a shard of more than 512 entries and at any of a full one, and then keeps exactly the live entries |
| ReplayCache.PaceCounts | src/dpop.rs:1108 | every admission that is no replay advances the counter of its shard and of no other |
| ReplayCache.LiveEntryStays | src/dpop.rs:1111-1127 | an entry live at the admission clock survives it |
| ReplayCache.AfterCheckValid | src/dpop.rs:1091-1128 | an admission keeps every key in its shard and every shard within 2048 |
| ReplayCache.CheckAgrees | src/dpop.rs:1091-1128 | one admission answers as the unpruned single map does, except saturation exactly at a shard full of live entries |
| ReplayCache.PruneAgrees | src/dpop.rs:1144-1149 | one shard's turn of a prune changes nothing the single map could tell |
| ReplayCache.CacheRefinesLedger | src/dpop.rs:1091-1149 | over every run with nondecreasing clocks, every check and query is answered as one unpruned unsharded map would, saturation being the only exception; no shard exceeds 2048 |
| ReplayCache.DPoPReplayCache.constructor | src/dpop.rs:1060-1076 | 64 empty shards, counters at zero |
| ReplayCache.DPoPReplayCache.CheckAndRecord | src/dpop.rs:1091-1128 | answer and new state are those of the specification; the shard invariant is kept |
| ReplayCache.DPoPReplayCache.IsConsumed | src/dpop.rs:1132-1141 | true exactly for a recorded pair that has not expired |
| ReplayCache.DPoPReplayCache.PruneExpired | src/dpop.rs:1144-1149 | exactly the entries live at the given clock remain in every shard |
| ProofWindow.EntryStays | src/dpop.rs:1111-1127 | while every clock is before its expiry a replay entry stays, whatever is called |
| ProofWindow.EntryBlocks | src/dpop.rs:578-583 | a call whose key has an entry not yet lapsed is not accepted |
| ProofWindow.AcceptedApart | src/dpop.rs:555-586 | two accepted calls with one (thumbprint, jti): the second comes no earlier than the first one's entry lapses, but for how far clocks fell behind on the way to the lock |
| ProofWindow.AcceptedIsTimely | src/dpop.rs:736-759 | an accepted call passed the three temporal checks |
| ProofWindow.VerdictExactly | src/dpop.rs:564-585 | a call is accepted if and only if its proof is sound, in its window, of a pair without an unexpired entry, and the shard has room; replay and full shard are told apart; an unsound, untimely or replayed call leaves the cache as it was |
| ProofWindow.UntimelyExactly | src/dpop.rs:736-759 | which temporal check an untimely proof fails, and that the rest are in their window |
| ProofWindow.AcceptedOnce | src/dpop.rs:555-586 | a proof that does not outlive its replay entry, by as much as the clock readings of one call and of different calls may lie apart, is accepted at most once in any run |
| ProofWindow.OnlyTheBoundaryOutlives | src/dpop.rs:736-759 | without saturation a proof outlives its entry exactly if it is dated within the lag of the full skew ahead |
| ProofWindow.OneReadingBoundary | src/dpop.rs:736-759 | with one reading per call only a proof dated exactly the full skew ahead does |
| ProofWindow.ReplayableExactly | src/dpop.rs:564-585 | for every lag between the two clock readings of a call and every drift between admission clocks in lock order, a proof accepted at t0 can be accepted again if and only if it outlives its entry by both together |
| ProofWindow.BoundaryReplay | src/dpop.rs:564-585 | the run that accepts such a proof twice: admission, a sweep when the entry lapses, a call that read its clock before |
| ProofWindow.DefaultWindowReplay | src/dpop.rs:489-496 | the same for the default 60 s and 300 s: a proof dated 60 s ahead is accepted now and 360 s later |
| ProofWindow.LaggingReplay | src/dpop.rs:564-573 | a proof dated 59 s ahead can be accepted twice if a second passes between the readings of a call, or between its reading and the lock, and not otherwise |
| ProofWindow.DPoPVerifier.constructor | src/dpop.rs:489-530 | the verifier keeps its window and replay cache |
| ProofWindow.DPoPVerifier.VerifyProof | src/dpop.rs:555-586 | unsound proofs and those out of their window are refused before the cache is touched, then immediate admission if there is a cache: verdict and cache state of the specification |
| IssuanceRate.LimiterGrants | src/dpop.rs:1270-1281 | the limiter block grants a reading exactly when fewer than the limit precede it in its uninterrupted run |
| IssuanceRate.BoundHoldsExactly | src/dpop.rs:1262-1281 | for every limit and second: at most the limit is granted if and only if the limit is zero, the second was read at most that often, or its readings were not interrupted by another second |
| IssuanceRate.OrderedIsUnbroken | src/dpop.rs:1262-1281 | nondecreasing readings interrupt no second |
| ServerNonces.StepLimiterInv | src/dpop.rs:1270-1281 | every interleaved block keeps the admissions of each second equal to what the readings, in lock order, are granted |
| ServerNonces.StepPendingInv | src/dpop.rs:1261-1298 | every interleaved block keeps mintings and calls under way within the admissions of their second |
| ServerNonces.StepStoreInv | src/dpop.rs:1288-1325 | every interleaved block keeps the store exact: stored nonces were minted and are not used up, usable ones are stored, at most 4096 |
| ServerNonces.AcceptsExactlyUsable | src/dpop.rs:1300-1325 | a presentation is accepted exactly when the trimmed nonce was minted, has not expired and is not used up |
| ServerNonces.NonceGuarantees | src/dpop.rs:1254-1325 | over every interleaved run with nondecreasing verification clocks: at most 4096 stored, acceptance exactly while usable, no nonce accepted twice in single-use mode, and at most the limit minted in every second read at most that often or without interruption |
| ServerNonces.AdmittedExactly | src/dpop.rs:1261-1298 | admissions of a second are exactly the granted readings, in any order of the readings; they exceed the limit exactly when the second was read more often and with interruptions; mintings never exceed them |
| ServerNonces.MintedExactly | src/dpop.rs:1254-1298 | for every configured limit and all readings in lock order: no run with these readings mints more than the limit in a second if and only if the second was read at most that often or without interruption |
| ServerNonces.MintsForAll | src/dpop.rs:1254-1298 | all readings, in any order, are those of some run that mints a nonce for every admitted call |
| ServerNonces.ReturningReadingExceeds | src/dpop.rs:1262-1281 | under every limit: a second read up to the limit, then another, then the first again mints one nonce too many in it |
| ServerNonces.GenerateIsBlocks | src/dpop.rs:1254-1298 | a whole call of generate_nonce is its limiter block and, if admitted, its storing block, and answers with its nonce exactly when both go through |
| ServerNonces.GeneratedExactly | src/dpop.rs:1254-1298 | a call is given its nonce if and only if its second has quota left and fewer than 4096 unexpired nonces are stored; the nonce lasts its TTL and unexpired ones stay |
| ServerNonces.IssuedWithinLimit | src/dpop.rs:1262-1281 | over any sequence of whole calls, at most the limit are given a nonce in a second read at most that often or without interruption |
| ServerNonces.InMemoryServerNonceSource.constructor | src/dpop.rs:1223-1232 | an empty source |
| ServerNonces.InMemoryServerNonceSource.GenerateNonce | src/dpop.rs:1261-1298 | limiter, paced prune, capacity, insert: result and state of the specification |
| ServerNonces.InMemoryServerNonceSource.VerifyNonce | src/dpop.rs:1300-1325 | result and state of the specification, consuming in single-use mode |
| ServerNonces.InMemoryServerNonceSource.PruneExpired | src/dpop.rs:1254-1257 | exactly the unexpired nonces remain |
| Middleware.StepForwardInv | src/integrations/tower.rs:407-545 | every step of every request keeps: past the commit exactly the recorded, reached exactly the recorded that moved on |
| Middleware.ForwardedIffCommitted | src/integrations/tower.rs:498-545 | in every interleaving a request reaches the inner service exactly when its commit succeeded |
| Middleware.ReachedPassedEveryCheck | src/integrations/tower.rs:407-515 | in every interleaving a request that reached the inner service passed verification, nonce check and token check, with the admission it committed |
| Middleware.CacheIsReplayCache | src/integrations/tower.rs:501-530 | in every interleaving the cache is the replay cache after one check per commit and the prunes, in that order |
| Middleware.NoDoubleForward | src/integrations/tower.rs:514-517 | after a recorded commit any later commit of the same pair is refused while no commit or prune carries a clock at or past the first expiry, in any order of the deferred clocks |
| Middleware.RefusesHeld | src/dpop.rs:848-858 | a commit whose pair is held past its clock is a detected replay |
| Middleware.UncommittedLeavesNoTrace | src/integrations/tower.rs:407-517 | striking out every step of a request that never commits leaves cache and all other requests exactly as they were |
| Middleware.EarlyClocksForwardOnce | src/integrations/tower.rs:501-545 | with clocks before the expiry no run forwards two requests of the pair |
| Middleware.LatePruneForwardsTwice | src/dpop.rs:805-858 | once a prune may carry a clock at the expiry, a deferred commit with its older clock forwards the same proof twice |
| Middleware.ForwardedOnceExactly | src/dpop.rs:805-858 | with later commits and prunes kept before t, no run forwards two requests of the pair a recorded, if and only if t is no later than the expiry of a |
| Service.ChallengedExactly | src/integrations/tower.rs:286-545 | for any request, the client reads a nonce challenge in the response exactly when a proof that holds presented no usable nonce and a fresh one was minted, and that nonce is on the response |
| Service.JudgeChallenges | src/integrations/tower.rs:407-491 | the same from proof verification on |
| Service.ResponseOriginates | src/integrations/tower.rs:286-578 | every response is the middleware 503 exactly when source or cache run dry, else the inner response exactly when the request is forwarded, else a 401; which requests are forwarded is `Forwarding.GetsInnerExactly` |
| Service.ServeLasts | src/integrations/tower.rs:286-578 | serving a request that does not present a nonce keeps that nonce stored until it expires |
| Forwarding.GetsInnerExactly | src/integrations/tower.rs:407-541 | a request reaches the inner service if and only if its proof, nonce and token hold and, with a replay cache, its pair has no unexpired entry and the shard has room |
| Forwarding.NoNonceNoInner | src/integrations/tower.rs:456-491 | with a nonce source a request without a nonce never reaches the inner service |
| Forwarding.InnerComesBack | src/integrations/tower.rs:541-580 | a request that reaches the inner service gets its response unchanged, but a success with a source gets a new nonce, or 503 exactly when none can be minted |
| Forwarding.SchemeExactly | src/integrations/tower.rs:301-307 | the scheme before the first blank decides, in any case |
| Forwarding.RefusedUntouched | src/integrations/tower.rs:286-400 | a request without a DPoP token, with an unreadable proof or without a target is refused for that, is given no nonce and leaves the server as it was |
| Forwarding.RefusedWithoutProof | src/integrations/tower.rs:322-361 | a DPoP token without a proof is refused as such, with a new nonce if there is a source, or 503 if that is dry |
| Forwarding.RefusedForProof | src/integrations/tower.rs:428-453 | a proof that is unsound or out of its window is refused in the same way, and its nonce is not used up |
| Forwarding.RefusedForNonce | src/integrations/tower.rs:456-491 | a proof that holds without a usable nonce is asked for one, with another at hand, and nothing is recorded |
| Forwarding.RefusedForToken | src/integrations/tower.rs:493-510 | a token that does not hold is refused after the nonce was presented, without another nonce and without a replay entry |
| Forwarding.CrowdedIsUnavailable | src/integrations/tower.rs:516-530 | a request that would be let through but whose shard is full of unexpired entries is answered 503 |
| Forwarding.HeldPairIsReplay | src/integrations/tower.rs:516-524 | a request that holds but whose pair has an unexpired entry is answered 401 as a replay |
| Forwarding.ForwardedOnce | src/integrations/tower.rs:407-541 | with a replay cache, once a request reached the inner service none with its pair does while all clocks stay below age and skew from then, whatever is served in between, and where proof, nonce and token hold it gets the replay 401 |
| Service.OAuthAuthService.constructor | src/integrations/tower.rs:222-236 | the service holds its window, optional replay cache and optional nonce source |
| Service.OAuthAuthService.RefuseWithNonce | src/integrations/tower.rs:430-453 | 401 with a fresh nonce, 503 when the source is exhausted |
| Service.OAuthAuthService.AdmitAndForward | src/integrations/tower.rs:501-578 | token check, commit, forward, nonce on a success: response and both stores of the specification |
| Service.OAuthAuthService.Call | src/integrations/tower.rs:286-578 | for every request, response and both stores are those of the specification |
| Challenge.PrintedChallenge | src/integrations/tower.rs:586-609 | the client parser recognises a printed WWW-Authenticate value exactly when its code is use_dpop_nonce or a later comma-separated piece of its description reads as that error, for any description |
| Challenge.CodeDecides | src/integrations/tower.rs:586-609 | without a comma in the description the code alone decides |
| Challenge.AfterScheme | src/client.rs:1525-1554 | a value is a challenge exactly when the scheme is DPoP in any case and some parameter says so, however many blanks lie between |
| Challenge.SurroundingBlanks | src/client.rs:1531 | blanks around a value make no difference |
| Challenge.PrintedParam | src/client.rs:1538-1551 | a printed parameter is judged by its key and its unquoted value |
| Challenge.ParamExactly | src/client.rs:1538-1551 | any parameter is judged by the name before the first = and the value, blanks and quotes around them aside |
| Challenge.SchemeAlone | src/client.rs:1533-1535 | a scheme without parameters asks for nothing |
| Challenge.AnyValueCounts | src/client.rs:1526-1530 | every value of the header counts, wherever it stands |
| Challenge.PrintedForm | src/integrations/tower.rs:594-597 | the printed text for every code and description |
| Handshake.RetriesWithMinted | src/client.rs:1287-1342 | a retry goes out exactly after a challenge, with exactly the nonce that challenge carried |
| Handshake.EndsAfterOneExactly | src/client.rs:1285-1352 | a second request goes out exactly when the first was challenged and a nonce is known; ended after one, the call hands back the very response of the server exactly for an unchallenged 400 or 401 and for any other status with a nonce that is not blank |
| Handshake.EndsAfterTwoExactly | src/client.rs:1386-1421 | after a retry the call hands back the very response to it, unless that is a challenge or a success without a nonce |
| Handshake.RemembersPerOrigin | src/client.rs:1276-1282 | the nonce known for an origin is the last that was not blank; origins share it exactly when they are the same but for case and surrounding blanks |
| Handshake.InnerChallengeRetries | src/client.rs:1287-1345 | a 400 or 401 of the inner service is retried exactly when a header or the body asks for a nonce and one is known, and is handed back unchanged when neither asks |
| Handshake.NoTokenIsRefused | src/client.rs:1262-1264 | a call without an access token ends with the refusal of it after one request |
| Handshake.KnownNonceSuffices | src/client.rs:1250-1283 | a client that knows a live nonce needs one request, and knows the next nonce after it |
| Handshake.MissingNonceExactly | src/client.rs:1424-1429 | a first attempt ends in a missing nonce exactly when the middleware answered 503 of its own, or the inner response that goes back is no 400 or 401 and has no nonce |
| Handshake.InnerNotFoundIsLost | src/client.rs:1424-1429 | a 404 of the inner service ends an admitted first attempt that way |
| Handshake.BetweenAttempts | src/dpop.rs:1288-1298 | the challenged nonce is still stored, for its full lifetime, after any unrelated traffic |
| Handshake.RetrySucceedsInTime | src/client.rs:1228-1430 | composed with the middleware, a call sends at most two requests and never ends in NonceRetryLimitExceeded if the retry comes within the nonce lifetime, from any state and with other traffic between |
| Handshake.RetryDelivers | src/client.rs:1344-1421 | after a challenge a good retry returns the inner response with the next nonce on it, and the client remembers that nonce |
| Handshake.RetryLimitExactly | src/client.rs:1386-1403 | a challenged call whose retry is otherwise good exceeds the limit if and only if the retry comes too late, whatever is served in between |
| Handshake.DpopClient.constructor | src/dpop.rs:993-997 | an empty nonce cache |
| Handshake.DpopClient.NoteNonce | src/dpop.rs:1000-1004 | a non-blank header replaces the nonce of the origin, case and surrounding blanks aside |
| Handshake.DpopClient.ServeTraffic | src/integrations/tower.rs:286-578 | requests served one after the other |
| Handshake.DpopClient.FirstAttempt | src/client.rs:1228-1342 | server, nonce cache and decision after the first response |
| Handshake.DpopClient.SecondAttempt | src/client.rs:1344-1421 | server, nonce cache and outcome after the retry |
| Handshake.DpopClient.SendDpopRequest | src/client.rs:1228-1430 | client and server end as the composed specification says, after one or two requests |
| Lifecycle.StepInv | src/verification/formal_models.rs:179-291 | every operation keeps the model invariant |
| Lifecycle.InvariantsAlwaysHold | src/verification/formal_models.rs:295-314 | the invariant functions of the model hold after every sequence of operations |
| Lifecycle.InsertExactly | src/verification/formal_models.rs:179-207 | a token is inserted if and only if it is not empty and its TTL is positive; it is then pending with its payload and a clean counter, and no other token changes |
| Lifecycle.TakeMoves | src/verification/formal_models.rs:219-261 | a take moves a pending token to consumed and hands out its payload exactly before its time is over, to expired otherwise; every other status and token stays |
| Lifecycle.PruneExactly | src/verification/formal_models.rs:266-291 | a prune expires exactly the pending tokens whose time is over, drops exactly their payloads and keeps everything else |
| Lifecycle.OAuthStateTransitionModel.constructor | src/verification/formal_models.rs:160-166 | an empty model |
| Lifecycle.OAuthStateTransitionModel.InsertState | src/verification/formal_models.rs:179-207 | empty tokens and zero TTLs are refused, otherwise the token becomes pending |
| Lifecycle.OAuthStateTransitionModel.TakeState | src/verification/formal_models.rs:219-261 | a live pending token is consumed and its payload returned; a lapsed one expires |
| Lifecycle.OAuthStateTransitionModel.PruneStates | src/verification/formal_models.rs:266-291 | exactly the lapsed pending tokens expire, and their number is returned |
| Lifecycle.OAuthStateTransitionModel.SimulateConcurrentConsumptionRace | src/verification/formal_models.rs:322-340 | for every number of racers exactly one wins on a live token and none otherwise |
| StateStore.OutstandingIsLatest | src/store.rs:185-243 | the outstanding insert is the latest one, with no take since |
| StateStore.RunValid | src/store.rs:185-272 | after every interleaving each shard holds at most 1024 records, each in its own shard |
| StateStore.TakeExactly | src/store.rs:230-243 | in every interleaving with nondecreasing clocks a take returns exactly the entry of the latest insert since the last take, if it has not expired; pruning is invisible |
| StateStore.ContainsExactly | src/store.rs:247-258 | contains is true exactly when a take at that moment would succeed |
| StateStore.TookOutstanding | src/store.rs:230-243 | in every interleaving, whatever the clocks read, a take that returns an entry returns that of the latest insert since the last take |
| StateStore.TakesMatchDistinctInserts | src/store.rs:230-243 | in every interleaving, whatever the clocks read: between two takes of a token, the later successful, lies a successful insert, and its entry is returned: no insert is taken twice |
| StateStore.PruneKeepsTakeable | src/store.rs:262-272 | a shard prune with its captured clock never removes a record a take at that moment would return |
| StateStore.PruneExactly | src/store.rs:262-272 | one shard's turn of a prune leaves exactly its current records, and every other shard as it was |
| StateStore.RecordLasts | src/store.rs:104-127 | a record lasts as long as asked for, or one year where that is past the clock's range |
| StateStore.RefusedExactlyWhenFull | src/store.rs:198-207 | an insert is refused exactly when its shard holds 1024 unexpired records |
| StateStore.OAuthStateStore.constructor | src/store.rs:157-164 | 64 empty shards |
| StateStore.OAuthStateStore.InsertStateSync | src/store.rs:185-213 | result and shards of the specification |
| StateStore.OAuthStateStore.TakeStateSync | src/store.rs:230-243 | result and shards of the specification |
| StateStore.OAuthStateStore.ContainsStateSync | src/store.rs:247-258 | result of the specification |
| StateStore.OAuthStateStore.PruneExpiredSync | src/store.rs:262-272 | every shard keeps exactly its current records, and the count returned is the number of records gone |
| StateStore.OAuthStateStore.TotalEntries | src/store.rs:276-282 | the number of records over all shards |
| StoreRefinement.StoreRefinesModel | src/store.rs:185-243 | over every nondecreasing-clock run with non-empty tokens and positive TTLs, a take succeeds in the store exactly when it succeeds in the lifecycle model, for the same client |
| StoreRefinement.ModelTakeExactly | src/verification/formal_models.rs:219-261 | the model side: a take succeeds exactly for an outstanding unexpired insert |
| StoreRefinement.ExpiryAgreesExactly | src/store.rs:104-127 | store record and model status expire at the same moments if and only if the TTL does not overflow the clock, or is exactly one year |
| Digits.ScaleValue | src/service_auth.rs:801-810 | one pass multiplies the number by the other base and adds the carry, and leaves proper digits |
| Digits.ScaleNormal | src/service_auth.rs:801-810 | a pass leaves no high zero digit |
| Digits.ScaleLength | src/service_auth.rs:807-810 | a pass grows the vector by no more digits than the largest final carry has |
| Digits.NormalUnique | src/service_auth.rs:784-841 | two digit vectors of one number without high zeros are the same vector |
| Base58.ToBytesMeaning | src/service_auth.rs:797-811 | the decode passes keep the number, leave no high zero and add at most one byte per character |
| Base58.ToDigitsMeaning | src/service_auth.rs:820-831 | the encode passes keep the number, stay canonical and add at most two digits per byte |
| Base58.DecodeMeaning | src/service_auth.rs:784-815 | decoding accepts exactly the empty string and alphabet strings not starting with 1, and gives the bytes of the same number |
| Base58.DecodeEncode | src/service_auth.rs:784-841 | decoding an encoding gives the bytes back if and only if they are non-empty with a non-zero lead |
| Base58.EncodeDecode | src/service_auth.rs:784-841 | encoding a decoding gives every non-empty decodable string back |
| Base58.InAlphabetIsMember | src/service_auth.rs:785 | the characters of the 58 digits are exactly those of the alphabet |
| Base58.MidPassStep | src/service_auth.rs:802-806 | one digit of a pass: the value computed stays at or below 14847 and the carry below the multiplier |
| Base58.PushCarry | src/service_auth.rs:807-810 | the final carry is pushed as its digits |
| Base58.DecodePass | src/service_auth.rs:801-810 | one in-place pass over the bytes is the specified one, every intermediate at most 14847 |
| Base58.EncodePass | src/service_auth.rs:821-830 | one in-place pass over the base58 digits is the specified one, every intermediate at most 14847 |
| Base58.DecodeLoop | src/service_auth.rs:797-811 | one pass per character, failing exactly at a character outside the alphabet |
| Base58.Bs58Decode | src/service_auth.rs:784-815 | accepts exactly the decodable strings, with the specified bytes, no more than one per character |
| Base58.Bs58Encode | src/service_auth.rs:817-841 | the specified string, leading zeros as ones |
| Base58.SpellBackwards | src/service_auth.rs:837-839 | digits out, most significant first |
| Multikey.ClassifiesExactly | src/kernels/service_auth_bytes.rs:174-242 | the classifier answers with a curve and point exactly when the payload is that point behind the curve prefix, or behind the one-byte legacy prefix |
| Multikey.PipelineRoundTrip | src/service_auth.rs:736-782 | encode, decode, classify returns exactly the curve and the 33 bytes that went in |
| Multikey.EncodingsDistinct | src/service_auth.rs:761-782 | encodings of different curves or keys never coincide |
| Multikey.DecodedIsEncoded | src/service_auth.rs:736-759 | a z string that decodes is the encoding of what it decodes to |
| Multikey.OnlyTwoSpellings | src/service_auth.rs:736-782 | a z string resolves to a key if and only if it is the canonical encoding or the base58 of the legacy payload |
| Multikey.Base64Spellings | src/service_auth.rs:744-758 | a u string resolves to a key exactly when its base64 carries it, with or without one zero byte in front |
| Multikey.OnlyTwoPrefixes | src/service_auth.rs:738-752 | no other prefix and no shorter string resolves to anything |
| Multikey.DecodeErrorsExactly | src/service_auth.rs:736-759 | which strings decode, and that only a u string its base64 decoder refused is a base64 error |
| DidKeyCache.InsertBounded | src/service_auth.rs:242-257 | an insert leaves at most 512 entries |
| DidKeyCache.RunValid | src/service_auth.rs:242-296 | after every interleaving shards hold at most 512 entries, each in its own shard |
| DidKeyCache.HitIsGenuine | src/service_auth.rs:214-234 | in every run a hit is the entry of the last insert for that DID since its last invalidate or clear, with age below the TTL |
| DidKeyCache.DropsOnly | src/service_auth.rs:245-257 | an insert drops only expired entries, or the oldest of a shard full of live ones |
| DidKeyCache.RunAccounted | src/service_auth.rs:242-276 | an absent DID with a standing insert was pushed out while live, or had expired at some later insert |
| DidKeyCache.MissIsEviction | src/service_auth.rs:214-257 | with nondecreasing clocks a key within its TTL is missed only because its live entry was evicted from a shard of 512 live entries none of which was older |
| DidKeyCache.GettersAgree | src/service_auth.rs:214-234 | in every reachable cache get returns a point exactly when get_atproto_key returns that secp256k1 key |
| DidKeyCache.KeyOfLastInsert | src/service_auth.rs:214-234 | a hit hands out the key of its last insert, whatever its curve; the older getter only if it is on secp256k1 |
| DidKeyCache.FreshKeyIsFound | src/service_auth.rs:226-270 | right after its insert a key is found exactly until its TTL |
| DidKeyCache.Oldest | src/service_auth.rs:249-252 | a DID with the least resolution time |
| DidKeyCache.KeyCache.constructor | src/service_auth.rs:193-198 | 64 empty shards |
| DidKeyCache.KeyCache.GetKey | src/service_auth.rs:214-222 | result of the specification |
| DidKeyCache.KeyCache.GetAtprotoKey | src/service_auth.rs:226-234 | result of the specification |
| DidKeyCache.KeyCache.InsertAtprotoKey | src/service_auth.rs:242-270 | a permitted insert step, for the victim it chose |
| DidKeyCache.KeyCache.InvalidateKey | src/service_auth.rs:273-276 | an invalidate step |
| DidKeyCache.KeyCache.Clear | src/service_auth.rs:291-295 | every shard ends empty |
| DidKeyCache.KeyCache.ResolveAtprotoKey | src/service_auth.rs:489-509 | a hit is returned as is, a miss asks the resolver and its answer is then found in the cache; a failure changes nothing |
| Session.ExchangedExactly | src/client.rs:905-948 | an exchange succeeds exactly on a DPoP response for the expected subject that grants atproto and whose expiry does not overflow |
| Session.ExchangeErrorsExactly | src/client.rs:905-911 | an exchange fails for no usable reply, for a token that is not DPoP, for a blank subject, in that order and exactly then |
| Session.ExchangeMismatchExactly | src/client.rs:912-932 | then for a subject other than the expected one, for a missing scope, for a scope without atproto, exactly then, and for nothing else but an expiry past the clock |
| Session.RefreshInstalls | src/session.rs:254-286 | an accepted response's tokens and scope replace the old ones, the expiry is what it says or now where that overflows, and nothing else changes |
| Session.RefreshErrorsExactly | src/client.rs:1092-1185 | which failure a refresh reports, as one condition each, in the order of the checks |
| Session.ExchangedIsWellFormed | src/client.rs:905-948 | an exchanged session has type DPoP, a subject and the atproto scope, is bound to the request's subject, key, servers and endpoint, and holds the response's tokens and scope for as long as the response says |
| Session.AcceptedExactly | src/client.rs:1092-1185 | a refresh of such a session is accepted exactly when the response is of DPoP type, names the same subject and only narrows the scopes while keeping atproto |
| Session.RefreshNarrows | src/client.rs:1130-1193 | one refresh keeps subject, key, type and creation time, and only narrows the scopes |
| Session.SessionGuarantees | src/client.rs:1088-1193 | for a session built by an exchange, any sequence of refreshes keeps subject and key, keeps the scopes a shrinking set holding atproto, and a failed refresh changes nothing |
| Session.NeverWidensExactly | src/client.rs:1163-1184 | a session can never be widened if and only if it cannot be refreshed at all or its scope string is non-empty |
| Session.OAuthSession.constructor | src/session.rs:195-208 | the fields given |
| Session.OAuthSession.RotateTokensWithScope | src/session.rs:254-286 | tokens replaced, scope replaced when given, an overflowing expiry becomes now, nothing else changes |
| Session.OAuthSession.RefreshLocked | src/client.rs:1088-1193 | error and fields of the specification |
| Htu.SchemeParsesExactly | src/kernels/htu_components.rs:40-46 | http and https are recognised in any case, and nothing else is |
| Htu.ParseInvertsPrint | src/kernels/htu_components.rs:139-158 | decimal parsing inverts the printer for every number, and prints have no leading zero |
| Htu.PortFits | src/kernels/htu_components.rs:140 | five digits suffice for every port, so the six-byte buffer never overruns |
| Htu.HtuIsCanonical | src/kernels/htu_components.rs:64-88 | two outputs are equal if and only if scheme, host, effective port and path are, for plain and for bracketed hosts |
| Htu.DefaultPortsAreOmitted | src/kernels/htu_components.rs:64-88 | the target is scheme, host, a port only if one is given that is not 443 for https or 80 for http, and the path or a slash |
| Htu.ColonInHostCollides | src/kernels/htu_components.rs:64-88 | with a colon allowed in the host two different targets share an output, for every host and port |
| Htu.InvariantsHoldExactly | src/kernels/htu_components.rs:96-132 | the check passes if and only if the string is the output, the host lowercase, no component holds a query or fragment mark, and the path cannot be read as a port where none is printed |
| Htu.OutputsPass | src/kernels/htu_components.rs:96-132 | it passes on every output of lowercase, query-free components with a proper path |
| Htu.FillBuffer | src/kernels/htu_components.rs:140-151 | digits into the buffer, least significant first, at most five |
| Htu.ReadBackwards | src/kernels/htu_components.rs:152-156 | a colon and the digits in reverse |
| Htu.DecimalPortStr | src/kernels/htu_components.rs:139-158 | the colon and the decimal of the port |
| Htu.BuildNormalizedHtu | src/kernels/htu_components.rs:64-88 | the specified string |
| Nsid.GuardsAreRedundant | src/kernels/nsid_bytes.rs:33-35 | the three early guards reject nothing the segment checks would not |
| Nsid.DecidesTheGrammar | src/kernels/nsid_bytes.rs:28-66 | accepted exactly when the string after its leading slashes is the dot-join of at least three good segments of total length at most 317 |
| Nsid.DocumentedExactly | src/kernels/nsid_bytes.rs:16-22 | a string is an NSID as documented if and only if it is accepted, every segment starts with a letter and no slash leads it |
| Nsid.LeadingSlashIsAccepted | src/kernels/nsid_bytes.rs:29 | every accepted string is accepted behind one more slash, and is then no NSID as documented |
| Nsid.InnerDigitIsAccepted | src/kernels/nsid_bytes.rs:38-47 | a segment between first and last that starts with a digit is accepted, though no documented NSID reads so |
| Nsid.UndocumentedExamples | src/kernels/nsid_bytes.rs:28-47 | com.1a.get and /com.example.get are accepted |
| Nsid.PassAgrees | src/kernels/nsid_bytes.rs:36-65 | from any point of the pass the automaton agrees with splitting the rest |
| Nsid.OnePassDecides | src/kernels/nsid_bytes.rs:28-66 | a one-pass automaton decides the same language |
| Handle.CheckExactly | src/identity.rs:252-326 | the checks accept exactly two or more labels of total length at most 244 with an allowed last label that are no address; the bracket and handle.invalid guards are redundant |
| Handle.RefusedExactly | src/identity.rs:252-326 | a well-formed name that is no address is refused for its last label exactly when that is reserved, everything else for its syntax |
| Handle.ReservedNames | src/identity.rs:175-184 | the eight reserved names |
| Handle.OutputIsFixed | src/identity.rs:195-326 | a lowercase handle is a fixed point of normalize_handle and of every default-domain variant |
| Handle.UserHandleIdempotent | src/identity.rs:233-235 | any accepted output of normalize_user_handle is a lowercase handle and a fixed point of it and of normalize_handle |
| Handle.OutputsExactly | src/identity.rs:252-326 | the outputs are exactly the lowercase handles |
| Handle.VariantsAgree | src/identity.rs:195-225 | whatever normalize_handle accepts, every variant accepts with the same answer |
| Handle.AddressGuardIsRedundant | src/identity.rs:270-277 | if addresses are digits and dots or hold a colon, the address test rejects nothing more |
| Handle.CompletesExactly | src/identity.rs:199-222 | for any default domain, a dotless name is completed exactly when it is neither reserved nor numeric and, once @ is stripped again, the completed handle is one |
| Handle.DefaultDomainIsDomain | src/identity.rs:21 | bsky.social is labels with an allowed last one |
| Handle.ReservedCompletedOnlyBehindAt | src/identity.rs:208-222 | a reserved or numeric label is completed if and only if an @ still leads the name after trimming |
| Handle.SecondAtIsStripped | src/identity.rs:199-222 | "@ @" before any lowercase label whose completion is a handle is such an input |
| Handle.ReservedIsCompleted | src/identity.rs:199-235 | every reserved name is completed with bsky.social behind "@ @" |
| Handle.LocalhostIsCompleted | src/identity.rs:199-235 | "@ @localhost" becomes localhost.bsky.social |
| Text.JoinSplit | src/identity.rs:279 | joining the pieces of a split gives the string back, and no piece holds the separator |
| Text.SplitJoin | src/identity.rs:279 | splitting a join of separator-free pieces gives the pieces back |
| Text.WordsSplit | src/client.rs:1174 | whitespace separates words: the words of a string split at a blank are those of its two sides |

## Left out

- HTTP transport, DNS, redirects, TLS and body streaming: server replies are arbitrary inputs.
- `Url::parse`, `http::Uri`, JSON and base64 decoding: the model starts from parsed components; the base64 decoder of `u` Multikeys is a parameter.
- ECDSA, SHA-256, HMAC, AES-GCM and key import: one boolean per verification, keys by their encoded points.
- The IP address filter, PKCE, constant-time comparison, DID syntax and the access-token validator: single flat predicates or independent checks that would only add easy members.
- Axum and Actix extractors, `Debug`, zeroisation and the error texts: errors keep their kind only.
- A session copied while refreshes are under way: copies are sessions of the start that hold the same token. Any session with a token may be passed to `refresh_shared_session`.
- The token endpoint's own nonce retry: one exchange is one step with four outcomes.
- The session a refresh call returns: only what it submits and writes back is tracked.
- Task cancellation, lock fairness and the background pruning loop: a cancelled refresh is one that takes no further step, the loop calls the modelled prune.
- `clear` on the replay cache and the state store, and errors raised by the inner service.
- Stored authorization requests keep only the fields the theorems mention.
- Service.OAuthAuthService.Call: reads one clock per call where the source may read up to four; the interleaved model and the nonce model take the readings apart.
- Middleware.NoDoubleForward: nonce source and token validator are trait objects, so their answers are arbitrary there.
- Challenge.PrintedChallenge: codes with a comma or a quote are not covered; the middleware prints fixed codes without them.
- StateStore.OAuthStateStore.InsertStateSync: the one-year fallback is total here; in the source that addition panics if it overflows too.
- DidKeyCache.KeyCache.ResolveAtprotoKey: shows lookup and insert without other callers in between; in the runs they are separate blocks.
- Htu.HtuIsCanonical: a plain host starting with `[` is compared with plain hosts only.
- Handle.AddressGuardIsRedundant: needs the address test to hold only of strings of digits and dots or with a colon.
