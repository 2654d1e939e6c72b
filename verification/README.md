# Verified models of the escrow backend

This project models the stateful and arithmetic cores of the escrow platform's backend and proves what each is for,
over every input, every run or every interleaving. It is one Dafny module per core; `dafny verify dfyconfig.toml`
checks all of it.

- **Event indexer** (`EventTables.dfy`, `IndexerProtocol.dfy`): handlers that change tables in the same transaction as a
  uniquely keyed event row; overlapping polling ticks that may fail or crash between any two events.
- **Merkle root and file verification** (`MerkleTree.dfy`) and **audit hash chain** (`AuditChain.dfy`): iterative forms
  against top-down specifications, and binding: equal, or two strings that were really hashed collide.
- **Redis lock** (`RedisLock.dfy`), **circuit breaker and retry** (`CircuitBreaker.dfy`), **graceful shutdown**
  (`Shutdown.dfy`): state machines and invariants of all interleavings.
- **Refresh tokens** (`RefreshTokens.dfy`), with a rotation split into its lookup and its writes (`RefreshRaces.dfy`)
  and with every database statement a step of its own (`RefreshStatements.dfy`): what whole operations keep, and the
  exact condition under which an interleaving keeps it.
- **Escrow money flow** (`EscrowMoney.dfy`), calls split where another transaction can come between read and write, with
  the other writers of its columns: the automatic split, the admin and dispute controllers, the import and the chain
  indexer, whose two models agree (`ChainAgreement.dfy`); its **milestone history** (`EscrowHistory.dfy`);
  **reputation** (`Reputation.dfy`): conservation and its exact failures, and the relation between step-by-step flooring
  and one recalculation.
- **CSV** (`CsvWriter.dfy`) and **PDF** (`PdfWriter.dfy`): printers that a specification reader undoes.
- **Tenant query rewrite** (`TenantScope.dfy`), **paging** (`Pagination.dfy`), **tagged cache** (`TaggedCache.dfy`),
  **rate limiter** (`RateLimit.dfy`), **CIDR ranges** (`Cidr.dfy`).

Objects whose methods update fields are classes whose methods are proved against functions on values; runs are sequences
of actions folded by a total step function, in which a disabled action changes nothing. `Wrappers.dfy` holds `Option`,
`Texts.dfy` decimal numbers and facts about sequences.

## Assumptions

- The database, Redis and the in-process timers act in atomic steps. A transaction's writes commit whole or not at all;
  one at serializable isolation is one step, releaseMilestone at read committed (`lib/transaction.js:26`) is two, its
  reads and its writes. Each modelled operation reads the clock once. Clocks never go back.
- SHA-256 is a function parameter. The only thing ever assumed of it is that a digest has 64 characters.
- Indexer: a run is *complete* when, each time the latest ledger is read, the fetch before it had returned every event
  below that ledger. The two reads (`eventIndexer.js:476-477`) do not guarantee this, so it is a hypothesis of the
  safety theorem, `FinishIsSafeIffComplete` shows it is exactly what is needed and `LateEventIsSkipped` gives a run
  without it.
- Lock tokens are distinct, refresh tokens and families are fresh, and a database query answers what it asks.

## Where the code differs from its documentation or the obvious claim

The model follows the code; each difference is proved.

- The audit baseline is never moved, so any honest new entry is reported as a violation too
  (`AuditChain.GrowthIsFlagged`).
- HALF_OPEN limits nothing although its comment speaks of limited calls (`CircuitBreaker.HalfOpenAdmitsAll`), and
  `retryDatabaseOperation` never probes an open breaker (`RetryUtils.RetryNeverProbes`).
- The cap of five sessions fails in two ways. An uninterrupted creation can exceed it exactly when the user is at the
  cap and an active row expires at the very reading of the clock (`RefreshTokens.CapHoldsIffNoneExpiresNow`,
  `CapIsBroken`).
  And createRefreshToken counts, evicts and inserts in separate statements: an insertion keeps the cap if and only if
  fewer than five sessions are stored at that moment (`RefreshStatements.StatementKeepsCapIff`, `InterleavedCapIff`), so
  two logins that both count four before either inserts leave six (`InterleavedLoginsBreakCap`).
- The cap means to evict the oldest sessions, but its query orders by the time of last use. Only consumed rows have one
  and no consumed row is active, so the order decides nothing (`RefreshTokens.EvictionOrderIsVacuous`) and any live
  session, the newest too, may go (`AnySessionMayBeEvicted`).
- rotateRefreshToken is not a transaction either. Two rotations of one token that both look it up before either consumes
  it both succeed and leave two active tokens in the family (`RefreshRaces.RaceLeavesTwoActive`); a rotation that passed
  its checks before reuse revoked the family and writes after it gives the revoked family an active token
  (`RevokedFamilyRevives`). A late write keeps the invariant if and only if every rival token of the family is among the
  rows it evicts (with room for a session: there is none), the family is not revoked and the token was not rotated by
  another call (`ReplaceKeepsInvIff`, `InterleavedInvIff`). A revoked family stays dead if no rotation of it was under
  way (`ReuseKillsFamilyUnlessUnderWay`), and one that was revives it when it writes (`LateWriteRevives`).
- releaseMilestone reads the balance and later writes an absolute value at read committed, so two releases can pay out
  more than the total (`EscrowMoney.ReleasesExceedTotal`: 160 of 100). A write keeps conservation if and only if the
  balance it read is still stored (`ReleaseConservesIff`), and every run in which reads hold conserves (`RunConserves`).
- Automatic dispute resolution writes a split of the original total straight into the dispute row. It never calls
  resolveDispute and leaves the escrow disputed with its balance, so the recorded payouts exceed that balance by exactly
  what was released (`EscrowMoney.SplitPaysBalanceIff`, `SplitPaysTooMuch`). Conservation with such payouts in the run
  fails by exactly them (`ConservedExactly`, `RunConserves`).
- The chain indexer and the import change milestone statuses without a history row, so a milestone's first row can start
  at Submitted (`EscrowHistory.FirstRowStartsAtSubmitted`); `LinkedIff` says exactly when the rows lead from Pending to
  the current status.
- The force timer is due no later than the drain deadline. With `process.exit`, and as long as a due timer runs before
  the poll's continuation, a request that hangs keeps every cleanup from running
  (`Shutdown.HangingRequestStopsCleanup`, `HangingRun`), and exit code 0 means finishing before the timer is due
  (`ExitZeroIff`). An event loop that is late can poll first and start a cleanup with the request still in flight
  (`LateLoopCleansUp`).
- The audit hash has no separators between fields, so moving a character from one field to the next goes undetected
  (`AuditChain.ShiftedEntryPasses`); with equal field lengths nothing does (`SerialBindsEqualLengths`).
- Reputation counters are incremented even when the event row already exists (`Reputation.CountersAgainstRecalculated`).
- CSV headers are printed unescaped, and a single column whose last cell is empty ends the file in a blank line, which a
  reader may take for the optional last line break. A file reads back exactly when neither happens
  (`CsvWriter.CsvRoundTrip`, `EmptyCellIsLost`). PDF carriage returns are not escaped, so a text reads back exactly when
  it has none.
- `update`, `delete` and `upsert` keep the caller's where clause: one tenant's delete by id can remove another's row
  (`TenantScope.DeleteReachesOtherTenant`, `DeleteByIdExample`). A clause spares other tenants in every table if and
  only if it touches no foreign row (`ClauseSparesOthersIff`), and one that names the caller's tenant always does
  (`PinnedClauseIsSafe`).
- A Merkle root does not determine the number of leaves: every list shares its root with the row of its perfect tree,
  a longer list unless the number of leaves is a power of two (`MerkleTree.RowSharesRoot`).
- The limiter's worst case in one window's length is 2 * max - 1, not 2 * max, and is reached (`RateLimit.BoundIsMet`).

## Model

| member | source | states |
|---|---|---|
| EventTables.Database.RunHandler | backend/services/eventIndexer.js:99-378 | the statements of each of the eleven handlers, in order, change the tables as the event's effect says, or fail exactly where `EffectFailsIff` says |
| EventTables.EffectFailsIff | backend/services/eventIndexer.js:99-378 | a handler has no effect but an exception if and only if the payload does not parse, or it would insert a milestone or a dispute whose escrow is not stored |
| EventTables.EffectRowByRow | backend/services/eventIndexer.js:99-378 | a handler that succeeds changes the one row its event names, as the event says, and no other row of any table |
| EventTables.Database.DispatchEvent | backend/services/eventIndexer.js:401-460 | tables and event row commit together or not at all; a repeated key changes nothing and is not an error; unknown types are ignored; other failures reach the caller |
| EventTables.Database.ProcessEvents | backend/services/eventIndexer.js:479-481 | the dispatch loop leaves the replay of exactly the events before the first one that throws |
| EventTables.Indexer.Tick | backend/services/eventIndexer.js:509-526 | the cursor moves only after every fetched event was dispatched and never backwards; memory moves even when the cursor's row then cannot be written |
| EventTables.SecondDispatchIsNoop | backend/services/eventIndexer.js:449-451 | dispatching again any event an earlier pass handled changes nothing and does not throw, wherever it stood in that pass |
| EventTables.ReplayRecordsEachOnce | backend/services/eventIndexer.js:539-552 | with distinct keys every known event has exactly one row, in chain order |
| EventTables.RowKeysStayUnique | backend/services/eventIndexer.js:449-451 | whatever is delivered, keys in the event table never repeat |
| EventTables.ReplayIsExplained | backend/services/eventIndexer.js:99-378 | every escrow, milestone, dispute and reputation row is what the recorded events say: a balance is its funding minus each recorded release once, all other fields and times are those last written by a recorded event: nothing is decremented twice or regressed |
| EventTables.ReplaySucceedsIff | backend/services/eventIndexer.js:470-482 | a chain can be indexed from the empty database if and only if every event parses and the escrow of every new milestone and dispute was created earlier in the chain, under a key no earlier event has |
| EventTables.UniqueKeysCreate | backend/services/eventIndexer.js:449-451 | with distinct keys any earlier creation of the escrow counts |
| IndexerProtocol.RunIsSafe | backend/services/eventIndexer.js:470-531 | in every complete run of overlapping, failing and crashing ticks the database is the replay of a growing prefix of the chain and no cursor passes its end |
| IndexerProtocol.ExactlyOnce | backend/services/eventIndexer.js:498-531 | from the start state: the indexed events are a prefix of the chain, each once and in order, and the persisted cursor never passes an unindexed event |
| IndexerProtocol.UnsoundEventStalls | backend/services/eventIndexer.js:452-458 | the cursor never passes the ledger of an event that does not parse or whose escrow was not created before it |
| IndexerProtocol.MalformedEventStalls | backend/services/eventIndexer.js:452-458 | the cursor never passes the ledger of an event whose handler cannot parse it |
| IndexerProtocol.TickCatchesUp | backend/services/eventIndexer.js:509-518 | from every reachable state, if every chain event parses and refers only to escrows created before it, one undisturbed tick, whose steps are all its own and none a failure, indexes the whole chain and moves the cursor to its height |
| IndexerProtocol.TickEndsAlone | backend/services/eventIndexer.js:509-526 | a dispatch that throws ends its tick and changes nothing else, a tick that read no later ledger moves no cursor |
| IndexerProtocol.RecoversAfterCrash | backend/services/eventIndexer.js:500-526 | wherever the process dies, after its restart from the persisted cursor one undisturbed tick indexes the whole chain, if every event parses and refers only to escrows created before it |
| IndexerProtocol.PassedEventIsLost | backend/services/eventIndexer.js:511-516 | an unindexed event that all cursors have passed is never indexed in any continuation |
| IndexerProtocol.FinishIsSafeIffComplete | backend/services/eventIndexer.js:476-477 | a lone tick that finishes loses an event for good if and only if an unindexed event lies below the ledger it read |
| IndexerProtocol.LateEventIsSkipped | backend/services/eventIndexer.js:476-477 | a concrete run in which an event landing between the two reads is never indexed |
| MerkleTree.BuildNextLevel | backend/services/ipfsHashService.js:54-60 | the inner loop pairs neighbours and an odd last node with itself |
| MerkleTree.NextLevelKeepsTree | backend/services/ipfsHashService.js:53-61 | hashing one level away keeps the top of the perfect tree, whose missing right subtrees copy their left siblings, at every depth |
| MerkleTree.MerkleRoot | backend/services/ipfsHashService.js:47-64 | for every leaf list the loop returns the root of the top-down tree; the empty list hashes the word empty |
| MerkleTree.TreeBinds | backend/services/ipfsHashService.js:56-58 | two trees of one shape over digests with one top hash are equal, or two different strings hashed on the way collide |
| MerkleTree.RootBinds | backend/services/ipfsHashService.js:47-64 | two lists of equally many digests with the same root are equal or exhibit a collision |
| MerkleTree.NextLevelKeepsRoot | backend/services/ipfsHashService.js:53-61 | every list of two or more leaves shares its root with its own next level |
| MerkleTree.RowSharesRoot | backend/services/ipfsHashService.js:47-64 | every list shares its root with the row of its perfect tree, which is a longer list exactly when the number of leaves is not a power of two |
| MerkleTree.OddListSharesRoot | backend/services/ipfsHashService.js:57 | every odd list of three or more leaves shares its root with a longer list |
| MerkleTree.HashFiles | backend/services/ipfsHashService.js:72-76 | each buffer's digest in order, and the root of those digests |
| MerkleTree.VerifyFiles | backend/services/ipfsHashService.js:97-105 | valid exactly when every file hashes to its stored hash and the root of the stored hashes is the stored root; per-file results; rootMatch compares the stored root with the root over the hashes that passed and invalid for the others; unequal counts are invalid |
| MerkleTree.VerifiedFilesAreOriginal | backend/services/ipfsHashService.js:72-105 | as many files with the original root are the original files, or a collision can be read off |
| AuditChain.MatchingAfter | backend/services/auditVerifier.js:94-117 | moving the cursor to the id of the k-th row read leaves exactly the rows after it |
| AuditChain.ComputeChainRoot | backend/services/auditVerifier.js:89-121 | for every batch size of at least one the cursor walk ends with the root and count of one fold over the tenant's id-ordered rows |
| AuditChain.TenantLogIsExact | backend/services/auditVerifier.js:94-97 | a tenant's chain is over exactly its own entries with a positive id, in the order of their ids |
| AuditChain.ChainBinds | backend/services/auditVerifier.js:71-83 | two chains of one length and root are over the same serialised entries, or two hashed strings collide |
| AuditChain.Verifier.VerifyTenant | backend/services/auditVerifier.js:216-259 | the verdict and the whole new state of roots, locks and reports are those of one audit step, whose meaning over every history `BaselineIffFirst`, `ReportedIffDeviation` and `LockedIffDeviation` state |
| AuditChain.Verifier.IsAdminLocked | backend/services/auditVerifier.js:151-159 | a tenant counts as locked while its lock has not ended, and never without Redis |
| AuditChain.Verifier.ReleaseAdminLock | backend/services/auditVerifier.js:166-170 | a manual release removes exactly the tenant's lock |
| AuditChain.StepIsVerification | backend/services/auditVerifier.js:216-259 | what VerifyTenant does to roots, locks and reports is the step of a history of checks that compute real roots, and its verdict says which |
| AuditChain.BaselineIffFirst | backend/services/auditVerifier.js:223-228 | after any history a check stores a baseline, without a report or lock, if and only if the tenant was never checked before |
| AuditChain.ReportedIffDeviation | backend/services/auditVerifier.js:216-255 | after any history a tenant has been reported once for each of its checks that computed another root or count than its first check, and otherwise never |
| AuditChain.LockedIffDeviation | backend/services/auditVerifier.js:132-170 | at any reading a tenant is locked if and only if such a check could write the lock less than its lifetime ago and nobody has released it since |
| AuditChain.BaselineNeverMoves | backend/services/auditVerifier.js:182-195 | after any history of checks the stored root is the one of the tenant's first check |
| AuditChain.PassMeansUnchanged | backend/services/auditVerifier.js:216-259 | a check passes exactly when root and count equal the baseline's; then the serialised entries do too, or a collision is exhibited |
| AuditChain.GrowthIsFlagged | backend/services/auditVerifier.js:229-245 | a log with any other number of entries than the baseline is a violation, honest growth included |
| AuditChain.AppendOnlyPassesIff | backend/services/auditVerifier.js:216-259 | on a log that is only appended to, a check passes if and only if nothing was appended for the tenant since the first check |
| AuditChain.ShiftedEntryPasses | backend/services/auditVerifier.js:71-83 | a stored entry with a character moved from its action to its category passes the check against its own baseline |
| AuditChain.SerialBindsEqualLengths | backend/services/auditVerifier.js:71-83 | two entries with equal serialised bytes and equal field lengths are equal |
| RedisLock.Acquire | backend/services/lockManager.js:123-138 | a lock object exists exactly when SET NX PX took the free key and its reply arrived; the store changes as the command says even when it did not |
| RedisLock.Lock.Renew | backend/services/lockManager.js:71-90 | compare-and-pexpire; losing the entry stops the timer, an unreachable server or a lost reply does not, and the script has run when only the reply was lost |
| RedisLock.Lock.Release | backend/services/lockManager.js:99-110 | the timer stops first, then compare-and-delete |
| RedisLock.Redis.EvalRelease | backend/services/lockManager.js:33-40 | deletes exactly the live entry that holds the caller's token: `ReleaseReportsOwnership`, `ReleaseFreesKey` |
| RedisLock.Redis.EvalRenew | backend/services/lockManager.js:42-48 | gives exactly the live entry that holds the caller's token a full new expiry |
| RedisLock.TakesExactlyFreeKeys | backend/services/lockManager.js:126-127 | an acquire takes the key if and only if it has no live entry, and then writes that entry alone |
| RedisLock.ReleaseReportsOwnership | backend/services/lockManager.js:33-40 | the script deletes and reports it if and only if the caller's token holds the live entry |
| RedisLock.ReleaseFreesKey | backend/services/lockManager.js:99-110 | in every reachable state a release inside the lease leaves the key without an entry and every other key as it was |
| RedisLock.ReleasedKeyIsTaken | backend/services/lockManager.js:99-138 | and then the next acquire of that key by anyone is inside its lease at once |
| RedisLock.LeaseRunsOut | backend/services/lockManager.js:123-138 | without a renewal a lease lasts exactly until its end |
| RedisLock.DeadHolderBlocksUntilExpiry | backend/services/lockManager.js:33-138 | whatever happens elsewhere, a holder that dies blocks its key exactly until the entry expires: a new acquire gets the lock if and only if that time has come |
| RedisLock.RunKeepsInv | backend/services/lockManager.js:33-138 | in every interleaving an instance inside its lease owns the Redis entry, which outlives the lease |
| RedisLock.MutualExclusion | backend/services/lockManager.js:123-138 | two instances are never both inside an unreleased lease on one key, with lost commands, lost replies and stale instances |
| RedisLock.OthersUntouched | backend/services/lockManager.js:33-48 | no acquire, stale renewal or stale release shortens, extends or deletes another holder's live entry |
| RedisLock.RenewalInsideLease | backend/services/lockManager.js:71-90 | a renewal inside the lease always succeeds and starts a full lease |
| RedisLock.TimelyRenewalKeepsLock | backend/services/lockManager.js:63-90 | while renewals come before the lease ends, the lock is kept and nobody else acquires the key, over any run |
| RefreshTokens.TokenService.CreateRefreshToken | backend/services/refreshTokenService.js:66-116 | expired rows go, the oldest sessions over the cap are deactivated, one active row is added; the whole new table |
| RefreshTokens.TokenService.RotateRefreshToken | backend/services/refreshTokenService.js:130-188 | each rejection, the revocation of the presented token's own family on reuse (`ReuseRevokesItsFamily`), and consumption plus creation (`RotationReplaces`), as one new table |
| RefreshTokens.TokenService.RevokeRefreshToken | backend/services/refreshTokenService.js:195-204 | exactly the presented token's row becomes inactive |
| RefreshTokens.TokenService.RevokeAllUserTokens | backend/services/refreshTokenService.js:209-217 | the user is left without an active token, each of those rows counts as used in its family, and every other row is as before |
| RefreshTokens.ReuseRevokesItsFamily | backend/services/refreshTokenService.js:155-162 | a detected reuse makes every row of the presented token's family used and inactive and changes no other row |
| RefreshTokens.RotationReplaces | backend/services/refreshTokenService.js:169-180 | a rotation consumes the presented row, which stays, adds one active row of the same user and family that lives seven days, and leaves other users alone |
| RefreshTokens.LogoutEndsOneToken | backend/services/refreshTokenService.js:195-197 | a logout makes the presented token's row used and inactive and changes no other |
| RefreshTokens.LogoutAllEndsUser | backend/services/refreshTokenService.js:209-213 | every active row of the user becomes used and inactive, every other row stays |
| RefreshTokens.EvictsByLastUse | backend/services/refreshTokenService.js:88-93 | some active rows may be evicted if and only if no kept row was used before one of them, nulls last |
| RefreshTokens.RunKeepsInv | backend/services/refreshTokenService.js:43-211 | in every run of uninterrupted operations used implies inactive, a family has at most one active token, no token is rotated twice, a family revoked on reuse has no active token |
| RefreshTokens.ReuseKillsFamilyForGood | backend/services/refreshTokenService.js:147-158 | presenting a token rotated before is detected, and no continuation by uninterrupted operations ever has an active token of that family |
| RefreshTokens.RotatedTokenIsDetected | backend/services/refreshTokenService.js:147-162 | after a rotation and any continuation, presenting the rotated token is a detected reuse while its row is stored |
| RefreshTokens.TokenLivesIff | backend/services/refreshTokenService.js:43-213 | over every run an active token is still active, its row unchanged, if and only if no operation rotated it, presented it expired, logged it or its user out, detected reuse in its own family, or evicted or expired it making room for another token of its user |
| RefreshTokens.RefreshSucceedsIff | backend/services/refreshTokenService.js:130-188 | so presenting it gives a new token if and only if that has not happened and its expiry is not past |
| RefreshTokens.CreateKeepsCap | backend/services/refreshTokenService.js:70-95 | an uninterrupted creation keeps at most five live sessions when no active row expires at the reading |
| RefreshTokens.CapHoldsIffNoneExpiresNow | backend/services/refreshTokenService.js:70-95 | after an uninterrupted creation, whatever the eviction query answers, the cap holds if and only if the user is below it or no active row expires at the reading |
| RefreshTokens.RunKeepsCap | backend/services/refreshTokenService.js:43-188 | over runs of uninterrupted operations of all users a user has at most five live sessions when no row expires exactly at a call's reading |
| RefreshTokens.CapIsBroken | backend/services/refreshTokenService.js:70-113 | a run from the start with six live sessions: of two logins at a token's expiry reading the second evicts that token and not a session |
| RefreshTokens.EvictionOrderIsVacuous | backend/services/refreshTokenService.js:88-93 | in every reachable state any choice of that many active tokens is an answer of the eviction query: no active row has a time of last use |
| RefreshTokens.AnySessionMayBeEvicted | backend/services/refreshTokenService.js:84-99 | at the cap any live session of the user, the newest too, may be the one evicted |
| RefreshRaces.InterleavedRunKeepsInv | backend/services/refreshTokenService.js:130-190 | in every interleaving of lookups and consumptions in which each consumption finds its row active, the invariant of whole rotations holds |
| RefreshRaces.InterleavingRefinesWholeRotations | backend/services/refreshTokenService.js:130-190 | when each row still passes the checks at its consumption, the interleaving ends as whole rotations would, each placed where it wrote |
| RefreshRaces.ReplaceKeepsOneActiveIff | backend/services/refreshTokenService.js:83-181 | at the cap or below it, a consumption leaves one active token in the family if and only if every other active one that survives the cleanup is among the evicted rows; with room for a session: there is none |
| RefreshRaces.ReplaceKeepsInvIff | backend/services/refreshTokenService.js:145-181 | a late write keeps the whole invariant if and only if those rivals go, the family has not been revoked and the token was not rotated by another call |
| RefreshRaces.InterleavedInvIff | backend/services/refreshTokenService.js:130-190 | over every interleaving of lookups and writes the invariant holds after every step if and only if each write fits in that sense when it is made |
| RefreshRaces.ReuseKillsFamilyUnlessUnderWay | backend/services/refreshTokenService.js:145-181 | if no rotation of the family is between lookup and write when reuse is detected, no interleaved continuation ever has an active token of it (that stored and checked tokens were issued holds in every run, by RunKeepsIssued) |
| RefreshRaces.LateWriteRevives | backend/services/refreshTokenService.js:170-181 | a rotation that is gives the family an active token as soon as it writes, revoked or not |
| RefreshRaces.RevokedFamilyRevives | backend/services/refreshTokenService.js:145-181 | the concrete run: a family revoked on reuse has an active token again, although never two |
| RefreshRaces.RaceLeavesTwoActive | backend/services/refreshTokenService.js:145-181 | from any state with room for two sessions, two rotations that read before either writes both succeed: two active tokens in one family, and one token rotated twice |
| RefreshRaces.RaceAfterFirstLogin | backend/services/refreshTokenService.js:66-190 | the concrete run from the start |
| RefreshStatements.WholeRunIsInterleaved | backend/services/refreshTokenService.js:66-220 | every run of whole operations is a run of their single statements with nothing in between |
| RefreshStatements.CallRunsOut | backend/services/refreshTokenService.js:66-188 | every call is over after at most six statements of its own, whatever rows it still finds |
| RefreshStatements.StatementKeepsInvIff | backend/services/refreshTokenService.js:66-181 | one database statement keeps the invariant if and only if, where it consumes, no other call rotated the token, and where it inserts, the family has no active token and has not been revoked |
| RefreshStatements.InterleavedInvIff | backend/services/refreshTokenService.js:66-181 | over every interleaving of statements the invariant holds after every statement if and only if every consumption and insertion fits in that sense |
| RefreshStatements.StatementKeepsCapIff | backend/services/refreshTokenService.js:83-113 | one statement keeps a user within five live sessions if and only if, where it inserts a live token, fewer than five are stored at that moment |
| RefreshStatements.InterleavedCapIff | backend/services/refreshTokenService.js:83-113 | over every interleaving of statements a user never has more than five live sessions if and only if every such insertion finds fewer than five |
| RefreshStatements.TwoCountsLeaveSix | backend/services/refreshTokenService.js:83-113 | from any state with four sessions and nothing expired, two logins that both count before either inserts leave six |
| RefreshStatements.InterleavedLoginsBreakCap | backend/services/refreshTokenService.js:83-113 | a run from the start that does so while no row of the user expires at the reading |
| CircuitBreaker.Circuit.PruneFailureWindow | backend/lib/circuitBreaker.js:175-178 | keeps exactly the failures inside the window, in order: `LaterIsTheWindow`, `LaterConcat` |
| CircuitBreaker.Circuit.Start | backend/lib/circuitBreaker.js:71-77 | an OPEN breaker whose wait is over becomes HALF_OPEN; a call is admitted exactly outside OPEN |
| CircuitBreaker.Circuit.Succeeded | backend/lib/circuitBreaker.js:115-127 | counts a HALF_OPEN success and closes at the threshold; elsewhere prunes |
| CircuitBreaker.Circuit.Failed | backend/lib/circuitBreaker.js:129-140 | records the failure, prunes, and opens after a single failure in HALF_OPEN (`HalfOpenFailureReopens`) or at the threshold (`OpensExactlyAtThreshold`) |
| CircuitBreaker.Circuit.Clear | backend/lib/circuitBreaker.js:93-97 | reset closes and empties |
| CircuitBreaker.RunKeepsInv | backend/lib/circuitBreaker.js:71-183 | over all overlapping calls the pruned list has the window of the full failure history, CLOSED stays below failureThreshold, HALF_OPEN below successThreshold, any other state counts no success |
| CircuitBreaker.LaterIsTheWindow | backend/lib/circuitBreaker.js:175-178 | pruning keeps each failure after the cutoff as often as it was there and no other |
| CircuitBreaker.LaterConcat | backend/lib/circuitBreaker.js:175-178 | and keeps their order |
| CircuitBreaker.BreakerRefinesSimple | backend/lib/circuitBreaker.js:71-183 | in every run of overlapping calls the breaker is in the state of one that keeps every failure and the reading at which it opened, and has admitted exactly the same calls |
| CircuitBreaker.ProbeFollowsLastOpening | backend/lib/circuitBreaker.js:154-156 | over every run, unless the breaker is closed its next probe is due one timeout after the last opening |
| CircuitBreaker.HalfOpenFailureReopens | backend/lib/circuitBreaker.js:134-136 | one failure in HALF_OPEN opens the breaker for another whole timeout, in which no call starts without a reset, whatever other calls complete |
| CircuitBreaker.StoredIsTheWindow | backend/lib/circuitBreaker.js:115-183 | after a failure, after a success outside HALF_OPEN and after a snapshot the stored list is exactly the part of the full history inside the window |
| CircuitBreaker.ResetMakesFresh | backend/lib/circuitBreaker.js:93-97 | a reset in any reachable state leaves the breaker as it was made |
| CircuitBreaker.OpensExactlyAtThreshold | backend/lib/circuitBreaker.js:137-139 | a closed breaker opens at a failure exactly when the full history has failureThreshold failures in the window |
| CircuitBreaker.OpenAdmitsNothing | backend/lib/circuitBreaker.js:72-77 | between opening and nextAttemptAt no call starts and only a reset closes the breaker, whatever late calls complete |
| CircuitBreaker.RecoversAfterTimeout | backend/lib/circuitBreaker.js:115-146 | once the wait is over, successThreshold successful calls through execute close it and clear its failures |
| CircuitBreaker.HalfOpenAdmitsAll | backend/lib/circuitBreaker.js:71-77 | any number of calls start in HALF_OPEN |
| RetryUtils.RetryDatabaseOperation | backend/lib/retryUtils.js:64-117 | result, number of calls made and breaker state of the counted loop |
| RetryUtils.RetryReportsLastCall | backend/lib/retryUtils.js:79-114 | the result is the last call's; it stops early only on success, a non-retryable error or a rejection; every earlier call failed with a retryable error |
| RetryUtils.RetryableIff | backend/lib/retryUtils.js:33-51 | an error is retried if and only if it has one of the eight codes or its message has one of the two words anywhere |
| RetryUtils.RetryNeverProbes | backend/lib/retryUtils.js:72-75 | once the breaker is open no sequence of these calls, however late, makes a call or changes the breaker |
| EscrowMoney.EscrowService.Fund | backend/services/escrowService.js:12-42 | a new Active escrow with its full balance, or a conflict and no change |
| EscrowMoney.EscrowService.BeginRelease | backend/services/escrowService.js:51-78 | the reads and guards of a release: each error, or the balance and milestone status the writes will use |
| EscrowMoney.EscrowService.CommitRelease | backend/services/escrowService.js:66-104 | its writes: balance, milestone, status and history together, computed from what was read |
| EscrowMoney.EscrowService.Release | backend/services/escrowService.js:50-109 | with nothing in between: each guard's error with nothing changed, or all four writes |
| EscrowMoney.EscrowService.Raise | backend/services/escrowService.js:112-173 | dispute row, escrow status, optional milestone status and history together, or the guard's error and no change |
| EscrowMoney.EscrowService.Resolve | backend/services/escrowService.js:181-238 | both payouts recorded and the escrow completed with balance zero exactly when they sum to the balance |
| EscrowMoney.EscrowService.AutoResolve | backend/services/disputeResolution.js:256-287 | an open dispute gets the split of the escrow's original total and is resolved; the escrow is left alone |
| EscrowMoney.ReleaseSucceedsIff | backend/services/escrowService.js:50-109 | an uninterrupted release goes through if and only if the escrow is active, the balance suffices and the milestone exists; which error otherwise; and which rows it touches |
| EscrowMoney.ReleasesSettle | backend/services/escrowService.js:50-109 | releasing milestones one after another, with positive amounts that add up to at most the balance, never fails: each is approved, and the escrow is completed exactly when they add up to the balance |
| EscrowMoney.DisputeSettles | backend/services/escrowService.js:112-238 | raising a dispute and resolving it succeeds if and only if the two amounts are the balance; each side's amount is in its own column, the escrow is empty and completed, nothing else changed and no second resolution is accepted |
| EscrowMoney.DisputedMilestoneIsRejected | backend/services/escrowService.js:140-168 | a milestone named in the dispute is rejected, with a history row from the status it had |
| EscrowMoney.PayoutsReachTheirColumns | backend/services/disputeResolution.js:256-287 | the automatic split, and the chain's resolution, write each side's amount into that side's column |
| EscrowMoney.RaiseRefusedIff | backend/services/escrowService.js:112-140 | a dispute is raised exactly on an active escrow that has none; each other case has its own error |
| EscrowMoney.ResolveRefusedIff | backend/services/escrowService.js:181-210 | a dispute is resolved exactly for amounts that sum to the balance of a disputed escrow; each other case has its own error |
| EscrowMoney.OnlyOpenDisputesArePaid | backend/services/disputeResolution.js:256-287 | the admin's resolution and the automatic split take exactly the open disputes |
| EscrowMoney.CallHoldsItsRead | backend/services/escrowService.js:50-109 | over every step a call that has read keeps what it read until its own write or abort |
| EscrowMoney.TransitionTable | backend/lib/escrowTransitions.js:12-21 | exactly these five status changes are valid |
| EscrowMoney.RunKeepsBooks | backend/services/escrowService.js:12-238 | over every interleaving of releases, disputes, both kinds of payout, admin, dispute controller, import and chain writes, with any amounts: balance + releases + backed payouts = total + exactly what stale writes left out |
| EscrowMoney.ConservedExactly | backend/services/escrowService.js:12-238 | after any run: by how much conservation fails, and that it holds if and only if unbacked payouts and stale writes cancel |
| EscrowMoney.ReleaseConservesIff | backend/services/escrowService.js:66-82 | a release's write keeps conservation if and only if the balance it read is still the stored one |
| EscrowMoney.RunConserves | backend/services/escrowService.js:12-238 | over every interleaving in which each call's reads still hold at its write: total = balance + everything released + both payouts, unless the last payouts were not taken from the balance, and then the excess is exactly those |
| EscrowMoney.TwoReadersOverspend | backend/services/escrowService.js:50-109 | from any active escrow, two releases that both read before either writes: the balance loses only the second amount, both count as released |
| EscrowMoney.ReleasesExceedTotal | backend/services/escrowService.js:50-109 | the concrete run that releases 160 out of 100 |
| EscrowMoney.DisputeBetweenReadAndWrite | backend/services/escrowService.js:50-173 | a dispute raised between a release's read and write keeps the sums, and an emptying release then leaves it open on a completed escrow, where resolveDispute always refuses |
| EscrowMoney.ReleaseReopensCompleted | backend/services/escrowService.js:50-238 | a dispute raised and resolved in between: the release writes a balance back into the completed escrow |
| EscrowMoney.SplitAgainstBalance | backend/services/disputeResolution.js:256-287 | in every reachable open dispute the written split exceeds the balance by what was released less what stale writes erased |
| EscrowMoney.SplitPaysBalanceIff | backend/services/disputeResolution.js:256-287 | while reads hold: the payouts equal the balance if and only if nothing was released, else exceed it by exactly that; recording them conserves only an empty escrow |
| EscrowMoney.SplitPaysTooMuch | backend/services/disputeResolution.js:268-287 | the concrete run: forty of one hundred released, one hundred paid out of sixty |
| EscrowMoney.SplitIsFair | backend/services/disputeResolution.js:186-194 | for a ratio in 0..1 both shares are non-negative, sum to the total, and the client's is within one unit of the exact share of the rounded ratio |
| EscrowMoney.BalancesStayInRange | backend/services/escrowService.js:66-80 | with sound amounts every balance stays between zero and its total, over every interleaving, stale writes included |
| EscrowMoney.StepsAreValidTransitions | backend/lib/escrowTransitions.js:12-21 | every status change made after a look at the escrow is in the transition table, whatever interleaves, and the total never changes |
| EscrowMoney.SettledIsFinal | backend/lib/escrowTransitions.js:12-21 | while reads hold, Completed means balance zero and a completed escrow never changes again, in any continuation |
| ChainAgreement.HandlersAgree | backend/services/eventIndexer.js:99-378 | each handler changes the money flow's columns exactly as that module's chain event does, or both leave them, for every event and reachable table |
| ChainAgreement.ReplayAgrees | backend/services/eventIndexer.js:470-482 | after any deliveries, repeated and failed ones among them, the indexer's tables show exactly what the money flow computes from the recorded events |
| EscrowHistory.RowRecordsWhatWasRead | backend/services/escrowService.js:84-165 | every history row starts from the status its call read |
| EscrowHistory.LinkedIff | backend/services/escrowService.js:84-165 | over every run of the modelled writers: a milestone's rows lead from Pending to its current status if and only if the silent changes (chain events, imports) since the last row end where it ended, the same held when each dispute wrote its row and when each release looked, and the last row written between a release's look and its write ends in the status it read |
| EscrowHistory.PromptReleaseFollowsIff | backend/services/escrowService.js:50-109 | for a release with nothing in between, the condition is on the silent changes alone |
| EscrowHistory.ChainEventBreaksLink | backend/services/eventIndexer.js:164-233 | a chain event that changes a milestone's status breaks the link of its rows, and one that does not keeps it |
| EscrowHistory.FirstRowStartsAtSubmitted | backend/services/eventIndexer.js:164-176 | the run add, submit, release, whose only row starts at Submitted |
| Reputation.ReputationService.RecordEscrowCompletion | backend/services/reputationService.js:66-104 | upsert by (address, type, escrow) and increment of score and completions |
| Reputation.ReputationService.RecordDisputeOutcome | backend/services/reputationService.js:108-162 | the won or lost event with its increments, and the floor at zero after either |
| Reputation.ReputationService.RecordEscrowCancellation | backend/services/reputationService.js:166-205 | only the party at fault is charged, floored at zero |
| Reputation.ReputationService.RecalculateFromEventHistory | backend/services/reputationService.js:213-255 | every visited address gets the tally of all its events, every other record stays |
| Reputation.Reflection | backend/services/reputationService.js:108-205 | from any non-negative score, flooring step by step gives the sum minus the least of zero and all prefix sums, and is never negative |
| Reputation.IncrementalAgainstRecalculated | backend/services/reputationService.js:213-255 | never below the recalculated score, and equal exactly when the lowest prefix below zero is the end |
| Reputation.CountersAgainstRecalculated | backend/services/reputationService.js:66-162 | completedEscrows and disputesWon exceed recalculation by exactly the number of repeated calls |
| Reputation.DistinctCountersAgree | backend/services/reputationService.js:66-162 | with no call made twice, completedEscrows and disputesWon agree with recalculation |
| Reputation.StoredAgainstRecalculated | backend/services/reputationService.js:66-255 | the exact score relation for the stored tables after any distinct calls over any addresses |
| Reputation.ScoreOfCalls | backend/services/reputationService.js:66-205 | any calls for one address add up to ten points a delivered escrow, five a paid one, fifteen a dispute won, less five a dispute lost and eight a cancellation at fault, and to one count for each completion and each dispute won |
| Reputation.OneCall | backend/services/reputationService.js:66-205 | what one call of each kind makes of any score, with the floor at zero |
| CsvWriter.FieldRoundTrip | backend/services/complianceService.js:454-461 | one escaped field, before any separator, reads back as itself (section 2 of RFC 4180 with LF) |
| CsvWriter.TableRoundTrip | backend/services/complianceService.js:454-467 | any table printed with every field escaped parses to that table unless it ends in a blank line |
| CsvWriter.FieldsFollowHeaders | backend/services/complianceService.js:462-466 | a row's fields are its texts under the headers, in their order; null, undefined and missing cells are empty |
| CsvWriter.BlankEndIsDropped | backend/services/complianceService.js:454-467 | a table that ends in a blank line is read without it, as rule 2 of section 2 of RFC 4180 allows |
| CsvWriter.CsvRoundTrip | backend/services/complianceService.js:451-468 | toCsv of any non-empty rows parses to the header and every cell's string value, if and only if there is a header, no header needs quotes, and the file does not end in the blank line of a single column with an empty last cell |
| CsvWriter.EmptyCellIsLost | backend/services/complianceService.js:451-468 | the row with one empty cell prints as a header and a line break, and reads as the header alone |
| PdfWriter.CreateSimplePdf | backend/services/complianceService.js:470-504 | the two loops print exactly the body of all objects, the table of their offsets and the trailer |
| PdfWriter.ObjectsAreAtTheirOffsets | backend/services/complianceService.js:489-494 | each recorded offset is the byte position of its object in the finished file, for any text |
| PdfWriter.XrefIsAtStart | backend/services/complianceService.js:496-497 | xrefStart is the byte position of the xref keyword |
| PdfWriter.EntryIsTwentyBytes | backend/services/complianceService.js:500 | a table entry is 20 bytes exactly while its offset is below 10^10, and its first ten bytes read as the offset (section 7.5.4 of ISO 32000-1) |
| PdfWriter.XrefLeadsToObjects | backend/services/complianceService.js:489-501 | for every title and lines, reading entry k of the table in the finished bytes gives the position at which object k stands |
| PdfWriter.StartXrefReadsBack | backend/services/complianceService.js:502 | the number just before the end-of-file mark of the finished file reads as the position of the xref keyword |
| PdfWriter.LengthIsStreamBytes | backend/services/complianceService.js:486 | /Length reads as the number of bytes between the stream and endstream keywords (section 7.3.8) |
| PdfWriter.ThreePasses | backend/services/complianceService.js:447-449 | the three global replacements escape each character once |
| PdfWriter.LiteralRoundTrip | backend/services/complianceService.js:447-449 | a reader of literal strings (section 7.3.4.2) stops at the closing parenthesis for every text and reads the text back if and only if it has no carriage return |
| PdfWriter.StreamShowsEveryLine | backend/services/complianceService.js:471-478 | a reader of the content stream finds the title and then every line, in order, as the strings shown, whatever characters they hold |
| PdfWriter.EncodeCharDecodes | backend/services/complianceService.js:486 | every character takes its shortest UTF-8 form and decodes to itself (section 3 of RFC 3629) |
| TenantScope.RewriteMeaning | backend/lib/prisma.js:49-54 | for every nested clause the rewritten clause selects a row exactly when the original does and the tenant owns it |
| TenantScope.NeverBoth | backend/lib/prisma.js:49-54 | no clause, however nested, is both true and false of a row |
| TenantScope.RewriteTwice | backend/lib/prisma.js:49-54 | rewriting again adds nothing for the same tenant and selects nothing for another |
| TenantScope.Query.AllOperations | backend/lib/prisma.js:77-122 | which arguments are rewritten or stamped for which operation, and none without a tenant, when bypassed or for other models |
| TenantScope.StampKeepsColumns | backend/lib/prisma.js:100-119 | stamping gives a row the caller's tenant exactly where it names none and keeps every other column |
| TenantScope.ReadsSeeOwnRows | backend/lib/prisma.js:86-98 | a rewritten read finds exactly what the caller's clause finds in the tenant's own rows |
| TenantScope.UpdateManyIsExact | backend/lib/prisma.js:86-98 | a scoped updateMany writes its data into exactly the tenant's rows that the caller's clause selects |
| TenantScope.DeleteManyIsExact | backend/lib/prisma.js:86-98 | a scoped deleteMany removes exactly those rows |
| TenantScope.CreateManyIsExact | backend/lib/prisma.js:107-112 | a scoped createMany stores each row of its list, stamped, under its own new key and touches nothing else, or fails as a whole |
| TenantScope.CreateIsExact | backend/lib/prisma.js:100-105 | a scoped create stores its one row, stamped |
| TenantScope.UpsertCreatesOwnRow | backend/lib/prisma.js:114-119 | an upsert that finds no row stores its create data, stamped |
| TenantScope.StepStaysInside | backend/lib/prisma.js:86-112 | one bulk operation or create leaves every other tenant's rows alone and acts on its own as if nothing else existed |
| TenantScope.RunsDoNotInterfere | backend/lib/prisma.js:77-122 | over any run of such requests of all tenants, one tenant's rows are those its own requests alone would leave |
| TenantScope.DeleteSparesOthersIff | backend/lib/prisma.js:77-121 | delete, whose unique clause selects at most one row, spares other tenants if and only if that row is not theirs |
| TenantScope.UpdateSparesOthersIff | backend/lib/prisma.js:77-121 | update spares them if and only if the row it selects is not theirs or already holds the data |
| TenantScope.UpsertSparesOthersIff | backend/lib/prisma.js:114-119 | upsert likewise: its create data are stamped, its clause is not |
| TenantScope.ClauseSparesOthersIff | backend/lib/prisma.js:77-121 | such a query spares other tenants in every table if and only if there is no foreign row it would select and delete or change |
| TenantScope.PinnedClauseIsSafe | backend/lib/prisma.js:77-121 | a clause that names the caller's tenant spares every other tenant in every table |
| TenantScope.DeleteReachesOtherTenant | backend/lib/prisma.js:77-121 | a delete by id alone removes another tenant's row |
| Pagination.SortOrders | backend/lib/pagination.js:145-148 | the order lists each row once, strictly by sort field and then id, in either direction |
| Pagination.SortFollowsField | backend/lib/pagination.js:145-148 | of any two rows the one earlier in the order has the smaller value of the sort field, or the same value and the smaller id; descending the reverse |
| Pagination.WalkReceivesEveryRow | backend/lib/pagination.js:118-194 | following next_cursor to the end, with any page sizes and any later sort parameters, returns every row exactly once in the first request's order |
| Pagination.WalkLength | backend/lib/pagination.js:118-194 | with one page size the walk takes exactly floor(n / take) + 1 requests |
| Pagination.WalkStops | backend/lib/pagination.js:179-191 | every walk stops: k answers that all promise more need a table of at least k rows |
| Pagination.HasNextPageIff | backend/lib/pagination.js:41-53 | hasNextPage exactly when page * limit is below the total |
| Pagination.EnvelopeMeans | backend/lib/pagination.js:41-53 | totalPages is the least number of pages that hold all rows, and hasPreviousPage holds exactly when rows are skipped |
| Pagination.OffsetPagesPartition | backend/lib/pagination.js:30-53 | pages 1 to totalPages concatenate to the ordered table, every later page is empty |
| Pagination.LimitIsUsed | backend/lib/pagination.js:32 | a limit from 1 to 100 is used as given, others are clamped, none is 20 |
| Pagination.PageHasItsRows | backend/lib/pagination.js:30-39 | page p of size v holds exactly the rows from (p - 1) * v on, at most v of them |
| TaggedCache.Cache.Get | backend/services/cacheService.js:38-46 | the live value or none, and an expired entry is removed |
| TaggedCache.ReadDropsExpired | backend/services/cacheService.js:38-46 | a read drops an expired entry and changes nothing else |
| TaggedCache.Cache.SetWithTags | backend/services/cacheService.js:184-196 | one write and then one tag entry per tag, all scoped |
| TaggedCache.Cache.InvalidateTag | backend/services/cacheService.js:255-267 | exactly the keys under the tag go, and the tag is cleared |
| TaggedCache.Cache.InvalidatePrefix | backend/services/cacheService.js:206-224 | exactly the keys under the scoped prefix go |
| TaggedCache.CacheRefinesHistory | backend/services/cacheService.js:37-69 | whatever was done, a read answers exactly the last write that has neither expired nor been invalidated since |
| TaggedCache.TaggedIff | backend/services/cacheService.js:59-68 | a key is under a tag exactly when it was tagged and the tag not cleared since |
| TaggedCache.InvalidatedTagHidesKeys | backend/services/cacheService.js:255-267 | every key ever put under a tag since it was last cleared is unreadable after its invalidation until it is set again |
| TaggedCache.TagAddsTagExactly | backend/services/cacheService.js:184-196 | the key is put under exactly the given tags, and no entry changes |
| TaggedCache.AnyTagInvalidates | backend/services/cacheService.js:184-267 | a value set with tags is read back until it expires, and not once any one of its tags is invalidated |
| TaggedCache.ScopedKeysDoNotCollide | backend/lib/tenantContext.js:41-51 | with colon-free names two scoped keys, or tags, are equal exactly for the same tenant and key |
| TaggedCache.ScopesExactlyInTenant | backend/lib/tenantContext.js:41-51 | keys and tags are prefixed exactly inside a tenant's context that is not bypassed, with its slug, or its id where it has none |
| TaggedCache.FlushIsExact | backend/services/cacheService.js:233-248 | flushing a tenant removes exactly the entries written in its context |
| TaggedCache.PrefixStaysInTenant | backend/services/cacheService.js:206-224 | a prefix invalidated in one tenant's context changes no read of another's |
| RateLimit.Limiter.MemIncr | backend/middleware/publicRateLimit.js:65-74 | only the key's entry changes: counted on, or a new window opened by this request |
| RateLimit.Limiter.PublicRateLimit | backend/middleware/publicRateLimit.js:132-165 | which counters a request increments and when it is admitted, with nothing between its two increments |
| RateLimit.PassedInWindow | backend/middleware/publicRateLimit.js:68-73 | exactly the first max requests of the open window have passed |
| RateLimit.PassedInInterval | backend/middleware/publicRateLimit.js:65-74 | at most 2 * max - 1 increments pass in any interval of one window's length, for every history |
| RateLimit.BoundIsMet | backend/middleware/publicRateLimit.js:65-74 | for every limit a history that passes 2 * max - 1 in one interval |
| RateLimit.UninterruptedIsRequest | backend/middleware/publicRateLimit.js:132-165 | an arrival followed by its own second increment is the request in one go |
| RateLimit.EntryIsCounter | backend/middleware/publicRateLimit.js:139-162 | in any interleaving of the requests' increments each key's entry is the counter of its own increments |
| RateLimit.AdmittedInInterval | backend/middleware/publicRateLimit.js:132-165 | in any interleaving of increments, of the requests of one IP address, or of one wallet, counted in any interval of one window's length at most 2 * max - 1 are admitted |
| RateLimit.VisitsAdmitted | backend/middleware/publicRateLimit.js:132-165 | of one address's own requests exactly those whose increment stays within the limit are admitted |
| RateLimit.RequestBoundIsMet | backend/middleware/publicRateLimit.js:132-165 | for every limit some requests of one address get 2 * max - 1 through in one window's length |
| Cidr.DottedRoundTrip | backend/lib/cidr.js:11-17 | parsing the dotted form of any 32-bit number returns it |
| Cidr.BlockToPrefix | backend/lib/cidr.js:51-52 | addresses that pass the mask test agree once the host bits are shifted out, for every prefix length |
| Cidr.PrefixToBlock | backend/lib/cidr.js:51-52 | and addresses that agree there are in one block |
| Cidr.AddressInInterval | backend/lib/cidr.js:51-52 | every address lies in the unsigned interval that starts at its block's first address (section 3.1 of RFC 4632) |
| Cidr.IntervalInBlock | backend/lib/cidr.js:48-52 | and every address of that interval is in the block, so a block is exactly an interval |
| Cidr.BlockSize | backend/lib/cidr.js:51 | the interval has exactly 2^(32 - prefix) addresses and does not wrap |
| Cidr.NestedOrDisjoint | backend/lib/cidr.js:48-52 | two blocks that share an address are nested |
| Cidr.AddressTextIff | backend/lib/cidr.js:9-18 | a text parses as an address exactly when it is four octets of at most 255 with single dots between them, and gives those octets packed |
| Cidr.OctetsMakeAddress | backend/lib/cidr.js:13-16 | four numbers are an address exactly when none is above 255, and then they are its bytes, first to last |
| Cidr.ValidIffSpelled | backend/lib/cidr.js:30-38 | a list entry is valid exactly when it is an address alone, or an address, a slash and a prefix length of at most 32, whatever follows a second slash |
| Cidr.TextMeansBlock | backend/lib/cidr.js:20-53 | however address and range are spelled, IPv4-mapped or not, with leading zeros or a second slash, the check is block membership; a bare address is a block of one |
| Cidr.AllowListMeansUnion | backend/lib/cidr.js:56-59 | a list of ranges in any spelling admits exactly the union of its blocks, or everything when empty |
| Cidr.UnreadableIsRefused | backend/lib/cidr.js:40-59 | a client address that cannot be read is admitted by the empty list only |
| Shutdown.Coordinator.TrackInFlightRequests | backend/lib/gracefulShutdown.js:57-79 | counted and passed on exactly while running, otherwise refused |
| Shutdown.Coordinator.OnResponseEvent | backend/lib/gracefulShutdown.js:70-77 | finish and close together release a request once |
| Shutdown.Coordinator.BeginShutdown | backend/lib/gracefulShutdown.js:103-120 | only the first signal begins a shutdown, arms the force timer and moves to draining |
| Shutdown.Coordinator.PollLoop | backend/lib/gracefulShutdown.js:122-128 | cleanup begins exactly when none is in flight or the deadline has passed |
| Shutdown.Coordinator.CleanUpNext | backend/lib/gracefulShutdown.js:130-145 | the next task in registration order, whether or not the last one failed; after the last the timer is off and exit(0) is called unless forced |
| Shutdown.Coordinator.OnForceTimer | backend/lib/gracefulShutdown.js:110-116 | a timer that is due and not cleared forces exit(1) once |
| Shutdown.EveryRunIsOrderly | backend/lib/gracefulShutdown.js:57-146 | in every interleaving the counter is the number of accepted unreleased requests, the cleanups run are the first registered in order and only with none in flight or after the deadline, exit is called at most once, and the force timer is due no later than the deadline |
| Shutdown.NothingAcceptedWhileDraining | backend/lib/gracefulShutdown.js:57-67 | once draining, no request is accepted and the counter never grows |
| Shutdown.ForceTimerEnds | backend/lib/gracefulShutdown.js:110-116 | a begun shutdown that has not exited can always still be ended by its force timer |
| Shutdown.ForceTimerWaitsTimeout | backend/lib/gracefulShutdown.js:111-115 | the force timer ends a shutdown exactly when a whole timeout has passed since the signal |
| Shutdown.ResponsesDrain | backend/lib/gracefulShutdown.js:69-77 | responses take exactly their own requests out of flight, each once; when every accepted request has answered none is left |
| Shutdown.ForcedShutdownGoesOn | backend/lib/gracefulShutdown.js:111-145 | with an exit function that returns a forced shutdown still runs every cleanup at the deadline and does not call exit again |
| Shutdown.ExitZeroIff | backend/lib/gracefulShutdown.js:101-146 | when exit ends the process and a due timer fires first, an ended run exited with 0 if and only if it ended before the timer was due, and then no request was left and every cleanup had run |
| Shutdown.HangingRequestStopsCleanup | backend/lib/gracefulShutdown.js:110-128 | in such a run with a request still in flight no cleanup has run and exit(0) was not called |
| Shutdown.LateLoopCleansUp | backend/lib/gracefulShutdown.js:110-139 | without that order: the poll runs after the deadline and before the due timer, and a cleanup runs with the request in flight |
| Shutdown.HangingRun | backend/server.js:362-365 | the concrete run, for every timeout: one request hangs, exit(1), the registered cleanup not run |
| Shutdown.DrainingCompletes | backend/lib/gracefulShutdown.js:122-146 | with no request left, in a schedule that lets a due timer fire first, every cleanup runs and the process exits with 0 if and only if the cleanups together take less than the time left to the force timer |
| Shutdown.ServerClosesThenDrains | backend/lib/gracefulShutdown.js:118-146 | the same from the moment the server has closed |
| Shutdown.WaitLastsTimeout | backend/lib/gracefulShutdown.js:122-125 | after the server has closed a request in flight is waited for during exactly one timeout, however long the closing took |

## Left out

- Redis and Elasticsearch paths of the cache and the limiter, BullMQ, the Prisma and Horizon clients, webhooks, broadcasts, logging, metrics, tracing: calls into libraries that are not part of this model.
- SHA-256, JWT signing, base64url, JSON and Soroban value decoding: abstract functions or parsed inputs; a cursor token is taken to decode to what was encoded.
- Indexer: the tenant column of contract_events, wall-clock `updatedAt` values, and precision beyond 2^53 in `Number(...)` of a milestone index.
- AuditChain.ComputeChainRoot: the log is assumed not to change during one walk, and rows with an id of zero or less are never read, as in the code.
- AuditChain: the hourly timer and the loop over all tenants, which repeats verifyTenant for each; a check whose own database writes fail.
- RefreshTokens: the exported createRefreshToken called by outsiders with an existing family, the access-token blacklist and session metadata.
- RefreshTokens.RunKeepsInv: each operation is one step here; the interleavings of their statements are the subject of `RefreshStatements`, with their exact conditions.
- RefreshTokens.ReuseKillsFamilyForGood: the same; a rotation under way at the revocation is `RefreshRaces.LateWriteRevives`.
- RefreshTokens.RunKeepsCap: the same; interleaved creations are `RefreshStatements.InterleavedCapIff`.
- RetryUtils.RetryDatabaseOperation: the waiting between attempts; each attempt carries its own start and end time.
- Reputation: the event row, the update and the floor that follows are separate statements in the code and one step here; badges, ranks and leaderboards are only computed for display.
- EscrowMoney: the two reads inside one release are one step, as are its writes, which its transaction commits together. Rolled-back retries change nothing and are Abort.
- EscrowMoney: the second indexer (services/escrowIndexer.js, workers/escrowIndexer.js), which changes statuses without event rows and writes a history row of its own for submissions, and drafts, whose status exists only before funding.
- EscrowMoney.StepsAreValidTransitions: not the status changes made without a look at the escrow: the admin controllers' own updates, whose bulk form is guarded by this very table, and the chain's cancellations and disputes.
- EscrowHistory.ReleaseReadsStatus: releaseMilestone does not look at the milestone's status beyond recording it, and neither does the model's.
- PdfWriter: characters are Unicode code points, so lone UTF-16 surrogates cannot be expressed; fonts, page layout and line overflow.
- TenantScope.ReadsSeeOwnRows: a findUnique whose unique field moved into AND is taken to run; whether Prisma accepts it is not part of this model.
- TenantScope: relation filters inside a where clause, select and include, raw SQL.
- TenantScope.RunsDoNotInterfere: createMany called with a single object instead of a list, which the code does not stamp, and the unscoped operations, which have their own exact conditions.
- Pagination: null sort values and tables that change during a walk; ids are strings ordered by code point.
- TaggedCache: hit and miss counters, `warm`, and `invalidateTags`, which only repeats `invalidateTag`.
- Cidr.IsIpInCidr: only ranges that isValidCidr accepts; what JavaScript's `Number` makes of other prefix texts.
- Shutdown: what a cleanup task does besides taking time and failing or not.
- Shutdown.ExitZeroIff: requires that a due timer fires before anything else runs, which an event loop that is late does not promise.
- Shutdown.HangingRequestStopsCleanup: the same; without it `Shutdown.LateLoopCleansUp` shows the other order.
- Dispute rule evaluation, appeals, the escrow and milestone state-machine tables, gateway failover and incident tables: finite tables that would only add easy members.
