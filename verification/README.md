# NSSF: retry queue, token cache, availability, selection and design scripts, in Dafny

This project models the behaviour of a 5G Network Slice Selection Function (NSSF) written in C, and of the
Python scripts that plan and document its implementation, and proves properties that hold over every input or
every run. `dafny verify dfyconfig.toml` checks all of it.

## What is modelled

**Notification retry queue** (`RetryQueue`, `RetryTheorems`, `RetryOutcomes`, `RetryStore`, `OutboundHeaders`,
`Backoff`). Rows wait in a queue, workers claim the row that is due first, POST it and end the claim with one
follow-up: complete, requeue with backoff, or dead letter. `RetryQueue` is a transition system in which any number
of workers interleave; clock readings, transport answers, jitter draws, failed header builds and lost commits come
from the environment. A follow-up whose transaction rolls back is the event `Rollback`; the in-memory store never
has it. `RetryOutcomes` says what a call comes to, by HTTP status, attempts and clock. `RetryStore` has the
in-memory store (a growable array shifted in place) and the dispatcher as classes; the dispatcher is always in a
reachable state of the transition system, so the theorems about runs hold of it. `OutboundHeaders` runs the queue
and the token cache together, any number of workers sharing both.

**Outbound token cache** (`TokenCache`, `TokenOutcomes`). One cached bearer, a bounded retry loop over token POSTs
with three outcomes, and the expiry arithmetic. `AcquireSpec` says what an acquire does; the class runs the loop;
`TokenOutcomes` says what it comes to, by the replies of the token endpoint.

**Availability engine and repository** (`Slices`, `AvailabilityRepo`, `SlicePatch`, `RfcPatch`,
`AvailabilityEngine`, `AvailabilityRequests`). PUT, PATCH (a subset of RFC 6902) and DELETE over a repository kept
in an array whose delete moves the last record into the hole. Change events go out after the commit. `RfcPatch` has
RFC 6902 on its own terms, with the paths of RFC 6901 into whole documents, and says where the engine follows it.
`AvailabilityRequests` says what the requests store and answer, by what is written in them.

**Selection** (`Selection`). The requested slices are split into allowed and rejected against the subscribed
slices, the PLMN policy and the slices stored for the serving PLMN and TAI.

**Plans and dependency graphs** (`Dependencies`, `KahnChecks`, `SliceScheduler`). Three independent Kahn
implementations and the picker of the next slice.

**Schemas** (`SchemaOrder`, `SchemaExpand`, `SchemaMeaning`, `SchemaNames`, `SchemaEmit`). The depth-first ordering
of C types and the inlining of `$ref`s over files that refer to each other in cycles. `SchemaMeaning` says what a
schema expands to by a relation over the output alone, `SchemaNames` how references, topics and kinds of schemas
are read.

**Text** (`Text`, `MdTable`, `UserBlocks`, `BlockTemplates`). Markdown table cells against their parser, and
documents whose USER blocks must survive regeneration.

## Where the code and its documentation differ

- The comments of the retry queue give the delay as lying in [capped, capped + capped/2). For capped < 2 that
  interval is empty; the delay then is capped. `Backoff.JitterRange` says exactly when the upper end is excluded.
- The token cache is said to be unchanged by a failed acquire. When the refresh succeeds and the copy handed to the
  caller then fails, the cache holds the new token. `TokenCache.FailureLeavesCache` says exactly when,
  `TokenCache.FailureFillsCache` shows that it happens.
- `attempt_count` is not bounded by the attempt ceiling: a failed header build re-arms a row without a POST and
  without looking at the budget. `RetryTheorems.AttemptsExactly` says which counts are reached: n attempts with k such
  re-arms exactly when k ≤ n ≤ 4 + k. The number of POSTs is bounded all the same.
- Two of the three cycle checks count dependencies with multiplicity but subtract them once, so they also report a
  cycle for an acyclic plan that repeats a dependency (`KahnChecks.RepeatIsReported`).
- The schema expander reports the unresolved references below the `additionalProperties` of an `allOf` arm, but
  drops the node they stand in (`SchemaExpand.ReportWithoutMarker`). `SchemaExpand.ReportIsExact` says when the list of
  unresolved references is exact, in terms of the schemas alone.
- The patch is called RFC 6902. `RfcPatch.OperationFollowsRfc` and `RfcPatch.DocumentFollowsRfc` say exactly when it
  is. It takes zero-padded indices, which RFC 6901 rejects (`RfcPatch.PaddedRemove`); it rejects paths into an
  element (`RfcPatch.NestedReplace`) or to the whole list, and move and copy; and it reads array sizes as C ints
  (`RfcPatch.TooLong`).

## Model

| member | source | states |
|---|---|---|
| `Backoff.ComputeRetryFloor` | src/nssf/dispatcher/notification_dispatcher.c:132-149 | the doubling loop gives min(base·2^n, max), with no intermediate value outside a C long |
| `Backoff.ComputeRetryDelay` | src/nssf/dispatcher/notification_dispatcher.c:123-157 | the delay is the clamped floor plus the scaled draw, whenever max + max/2 fits a long |
| `Backoff.JitterRange` | src/nssf/dispatcher/notification_dispatcher.c:150-157 | the jitter lies in [0, floor/2], and below floor/2 exactly when floor ≥ 2 |
| `Backoff.ComputeTokenDelay` | src/nssf/runtime/oauth2_outbound.c:229-242 | the token client's loop gives min(base·2^n, max) for all base and max, without overflow |
| `Backoff.SchedulesAgree` | src/nssf/runtime/oauth2_outbound.c:229-242 | the two schedules have the same floor for every n exactly when base ≤ max |
| `Backoff.FloorMonotone` | src/nssf/dispatcher/notification_dispatcher.c:123-149 | the floor never shrinks with the attempt count and stays in [base, max] |
| `Backoff.DelayMonotone` | src/nssf/dispatcher/notification_dispatcher.c:123-157 | for one draw the delay grows with the attempt count; it lies in [floor, floor + floor/2]; draw 0 gives the floor |
| `Backoff.DelayFollowsDraw` | src/nssf/dispatcher/notification_dispatcher.c:150-157 | for a draw in [0, 1) the delay is the floor plus the whole part of draw · (floor/2); a lower draw counts as 0 and a higher one as 0.999999 |
| `RetryQueue.RearmDelayPositive` | src/nssf/dispatcher/notification_dispatcher.c:873-894 | a re-armed row always waits at least the base delay and at most 1.5 times the maximum |
| `RetryQueue.InvStep` | src/nssf/dispatcher/notification_dispatcher.c:784-910 | every event of every worker keeps the invariant: posts ≤ min(attempts, 4) + lost follow-ups while a row waits, claims match their holders |
| `RetryQueue.InvRun` | src/nssf/dispatcher/notification_dispatcher.c:1375-1505 | the invariant holds after every run |
| `RetryTheorems.PostBound` | src/nssf/dispatcher/notification_dispatcher.c:1375-1505 | over every run a row is POSTed at most 5 + f times and acknowledged at most 1 + f times, f the follow-ups of that row that rolled back |
| `RetryTheorems.PostBoundTight` | src/nssf/dispatcher/notification_dispatcher.c:1478-1491 | five POSTs are reached without a rollback, and the fifth failure buries the row |
| `RetryTheorems.AttemptBound` | src/nssf/dispatcher/notification_dispatcher.c:1450-1457 | over every run a row has at most 4 attempts plus its re-arms without a POST, of which there are no more than failed header builds |
| `RetryTheorems.AttemptsExactly` | src/nssf/dispatcher/notification_dispatcher.c:1450-1491 | a row with n attempts and k re-arms without a POST is reached if and only if k ≤ n ≤ 4 + k: the ceiling is kept exactly while no such re-arm happens |
| `RetryTheorems.FailuresCounted` | src/nssf/dispatcher/notification_dispatcher.c:1450-1457 | no row is re-armed without a POST more often than header builds failed |
| `RetryTheorems.AttemptCountUnbounded` | src/nssf/dispatcher/notification_dispatcher.c:1450-1457 | failed header builds take the attempt count to any n without one POST |
| `RetryTheorems.ClaimExclusion` | src/nssf/dispatcher/notification_dispatcher.c:784-910 | the claimed rows are exactly those held by workers; no two workers hold one row |
| `RetryTheorems.BusyStep` | src/nssf/dispatcher/notification_dispatcher.c:1375-1505 | only a claim adds a busy worker and only a follow-up or rollback removes one |
| `RetryTheorems.ClaimsBalance` | src/nssf/dispatcher/notification_dispatcher.c:1375-1505 | over every run, claims are the ended ones plus those still held |
| `RetryTheorems.Conservation` | src/nssf/dispatcher/notification_dispatcher.c:746-910 | each id enqueued is in exactly one of waiting, dead letter, delivered, dropped by URL policy, quarantined; no other id is anywhere |
| `RetryTheorems.DeliveredMeansAcknowledged` | src/nssf/dispatcher/notification_dispatcher.c:1464-1469 | with no follow-up lost and no claim open, an id is delivered exactly when its callback answered 2xx, and it did so once |
| `RetryTheorems.DeadLetterFrozen` | src/nssf/dispatcher/notification_dispatcher.c:898-910 | a dead-letter row is never claimed, removed or altered again |
| `RetryTheorems.BoundedBypass` | src/nssf/dispatcher/notification_dispatcher.c:797-815 | with a clock that never goes back, a due row with k rows ahead of it is taken by the (k+1)th take, whatever is enqueued or re-armed; each rollback can put one row back in front |
| `RetryTheorems.AheadShrinks` | src/nssf/dispatcher/notification_dispatcher.c:797-815 | every take that is not the row itself shortens the list ahead of it |
| `RetryTheorems.Draining` | src/nssf/dispatcher/notification_dispatcher.c:1478-1491 | every productive call lowers the sum of the remaining attempts of the pending rows, which only an enqueue raises, by 5 |
| `RetryOutcomes.EnqueuedIsDue` | src/nssf/dispatcher/notification_dispatcher.c:746-782 | an enqueued row is pending, unclaimed, without attempts and due at once, under the next id |
| `RetryOutcomes.ClaimsTheFirstDue` | src/nssf/dispatcher/notification_dispatcher.c:797-815 | a claim is possible for exactly the row, not poison, that is pending, unclaimed, due and least by due time and id |
| `RetryOutcomes.RearmBacksOff` | src/nssf/dispatcher/notification_dispatcher.c:884-891 | a re-armed row waits min(200·2^n, 30000) ms, n its attempts before, plus the draw's share of half of that |
| `RetryOutcomes.PostDecides` | src/nssf/dispatcher/notification_dispatcher.c:1464-1504 | in every reachable state, whatever other workers do, a POST decides: deliver on 2xx; re-arm on 429, 5xx or no answer while the row has fewer than four attempts; bury otherwise |
| `RetryOutcomes.FollowUpEnds` | src/nssf/dispatcher/notification_dispatcher.c:860-910 | in every reachable state, a committed follow-up removes the row, lets it wait one attempt older with its backoff, or keeps it as a dead letter, as decided, and touches no other row |
| `RetryOutcomes.AnsweredCall` | src/nssf/dispatcher/notification_dispatcher.c:1464-1504 | after claim, POST answered with any code, and follow-up: the row is gone exactly on 2xx; it waits with one more attempt and its backoff exactly on 429 and 5xx below four attempts; it is dead otherwise |
| `RetryOutcomes.UnansweredCall` | src/nssf/dispatcher/notification_dispatcher.c:1478-1491 | the same without an answer: it waits below four attempts and is dead otherwise |
| `RetryOutcomes.SilentCall` | src/nssf/dispatcher/notification_dispatcher.c:1400-1457 | the same without a POST: URL policy loses the row, a failed header build lets it wait whatever its attempts, a refused bearer buries it |
| `RetryOutcomes.NotBeforeDue` | src/nssf/dispatcher/notification_dispatcher.c:797-815 | over every run, a waiting row is not taken before it is due |
| `RetryOutcomes.RetriesBackOff` | src/nssf/dispatcher/notification_dispatcher.c:873-896 | over every run, a row whose callback answered 429 or 5xx or not at all is not taken again until min(200·2^n, 30000) ms after the end of that call, n its attempts then |
| `RetryStore.ShiftLeft` | src/nssf/dispatcher/notification_dispatcher.c:850-858 | the tail moves one slot to the left over the removed index, in place |
| `RetryStore.MemStore.Enqueue` | src/nssf/dispatcher/notification_dispatcher.c:746-782 | appends a fresh row under the next id; fails, and changes nothing, exactly when the envelope or id copy fails or the array is full and cannot grow |
| `RetryStore.MemStore.RemoveAt` | src/nssf/dispatcher/notification_dispatcher.c:850-858 | removes exactly the row at the index |
| `RetryStore.MemStore.PickIndex` | src/nssf/dispatcher/notification_dispatcher.c:797-815 | finds the claimable row that is least by due time and id, or that there is none |
| `RetryStore.MemStore.Dequeue` | src/nssf/dispatcher/notification_dispatcher.c:784-848 | claims the pick, quarantines a poison pick, or leaves the store unchanged |
| `RetryStore.MemStore.Complete` | src/nssf/dispatcher/notification_dispatcher.c:860-871 | removes the row of the id if there is one |
| `RetryStore.MemStore.Requeue` | src/nssf/dispatcher/notification_dispatcher.c:873-896 | releases the row, counts one attempt and moves its due time by min(200·2^n, 30000) ms and the draw's share of half of that, n its attempts before |
| `RetryStore.MemStore.DeadLetter` | src/nssf/dispatcher/notification_dispatcher.c:898-910 | releases the row and marks it dead |
| `RetryStore.MemStore.Settle` | src/nssf/dispatcher/notification_dispatcher.c:1400-1504 | each verdict ends a claim with one store operation |
| `RetryStore.Dispatcher.Attempt` | src/nssf/dispatcher/notification_dispatcher.c:1400-1504 | the verdict and the answer for every mix of URL policy, header build and transport result, as `RetryStore.VerdictDecides` spells them out |
| `RetryStore.VerdictDecides` | src/nssf/dispatcher/notification_dispatcher.c:1400-1504 | deliver and SENT exactly on 2xx; re-arm on 429, 5xx or no answer below four attempts, else bury, both DROPPED; a failed build re-arms with ERROR, a refused bearer buries with FORBIDDEN, URL policy drops |
| `RetryStore.Dispatcher.ClaimNext` | src/nssf/dispatcher/notification_dispatcher.c:1383-1390 | a dequeue by a worker is one event of the transition system and leaves a reachable state, so any other worker's part can follow |
| `RetryStore.Dispatcher.DecideNext` | src/nssf/dispatcher/notification_dispatcher.c:1400-1504 | the decision between claim and follow-up touches no row, and leaves a reachable state |
| `RetryStore.Dispatcher.Finish` | src/nssf/dispatcher/notification_dispatcher.c:1400-1504 | the follow-up is one store operation and one event, and leaves a reachable state |
| `RetryStore.Dispatcher.DispatchPending` | src/nssf/dispatcher/notification_dispatcher.c:1375-1505 | a call is a run of the transition system that leaves no claim behind and extends the history of the reachable state; and for the store: nothing when nothing is due; else the first due row alone is gone with SENT exactly on 2xx, waits one attempt older with its backoff on 429, 5xx or no answer below four attempts, is dead otherwise; NONE also follows a quarantine |
| `RetryStore.CallHasEffect` | src/nssf/dispatcher/notification_dispatcher.c:1375-1505 | every run that a call can be has the effect on the rows just stated |
| `RetryStore.Dispatcher.Guarantees` | src/nssf/dispatcher/notification_dispatcher.c:1375-1505 | between any two calls no row was POSTed more than five times or acknowledged twice, and every issued id is in exactly one place |
| `OutboundHeaders.NoUnauthenticatedPost` | src/nssf/dispatcher/notification_dispatcher.c:1344-1505 | one call over a cache reached by acquires: a POST carries the bearer of its acquire, fresh; when the acquire or its header line fails the claimed row ends as dead letter and was not POSTed |
| `OutboundHeaders.Build` | src/nssf/dispatcher/notification_dispatcher.c:1344-1373 | building headers over the token cache acquires once, or not at all, and leaves the specified lines and cache |
| `OutboundHeaders.HeadersAre` | src/nssf/dispatcher/notification_dispatcher.c:1344-1373 | the lines are the content type, the correlation headers and "Authorization: Bearer " with the acquired token; without a list no acquire; without a bearer or its line no headers |
| `OutboundHeaders.Projects` | src/nssf/dispatcher/notification_dispatcher.c:1375-1505 | a joint run of queue and cache is a run of the queue, so every theorem about those holds of it |
| `OutboundHeaders.EveryPostIsAuthorized` | src/nssf/runtime/oauth2_outbound.c:873-917 | over every joint run, in which others can run between an acquire and the POST it is for, a row is POSTed as often as something was sent for it, and everything sent carried the bearer of its own acquire: less than max_ttl − refresh_buffer old when served from the cache |
| `OutboundHeaders.FailedAcquireBuries` | src/nssf/dispatcher/notification_dispatcher.c:1437-1449 | over every joint run, a row whose acquire fails is a dead letter once its worker's follow-up commits, whatever the others do meanwhile, and was not POSTed again |
| `TokenCache.ResolveExpiry` | src/nssf/runtime/oauth2_outbound.c:405-452 | the expiry is the least capped candidate; refused exactly without a candidate or when exp is 60 s or more in the past |
| `TokenCache.Classify` | src/nssf/runtime/oauth2_outbound.c:656-753 | a granted token expires later than 60 s before now and at most max_ttl after now; when a reply is transient, granted or refused is stated by `TokenOutcomes.ReplyMeans` |
| `TokenOutcomes.ReplyMeans` | src/nssf/runtime/oauth2_outbound.c:656-753 | a try is retriable exactly when the form was not built, the transport failed or the status is 429 or 5xx; it grants a token and expiry exactly on 200 with a body, no error, that access token, token type bearer in any case and that expiry; else it is refused |
| `TokenOutcomes.BearerInAnyCase` | src/nssf/runtime/oauth2_outbound.c:656-753 | the token type is accepted exactly when it reads bearer letter by letter, in upper or lower case |
| `TokenOutcomes.ExpiryIs` | src/nssf/runtime/oauth2_outbound.c:405-452 | an expiry is resolved exactly when it is the earlier of lifetime and exp, both cut at max_ttl from now, and exp is not 60 s or more past |
| `TokenCache.TokenCache.Refresh` | src/nssf/runtime/oauth2_outbound.c:732-747 | only a granted token touches the cache |
| `TokenCache.TokenCache.RefreshWithRetry` | src/nssf/runtime/oauth2_outbound.c:799-834 | the loop stops at the first final answer or the last attempt; POSTs, sleeps, counters and cache as specified |
| `TokenCache.TokenCache.Acquire` | src/nssf/runtime/oauth2_outbound.c:791-841 | serves a fresh cached token without a POST, else refreshes |
| `TokenCache.AcquireBounds` | src/nssf/runtime/oauth2_outbound.c:791-841 | at most max_attempts tries, each a POST unless its request could not be built; one sleep between two tries, sleep i being min(base·2^i, max); retry_count moves by the sleeps, dead_letter_count by one exactly on a refusal; a bearer exactly when fresh or granted and copied; which tries there are is stated by `TokenOutcomes.RefreshesOnce` |
| `TokenOutcomes.ServesFromCache` | src/nssf/runtime/oauth2_outbound.c:791-841 | an acquire that finds a token outliving the refresh buffer hands it out and does nothing else |
| `TokenOutcomes.RefreshesOnce` | src/nssf/runtime/oauth2_outbound.c:791-841 | otherwise it sleeps after try i exactly when the first i + 1 replies were a failed form, a failed transport, 429 or 5xx and a try is left; it POSTs once per form that was built; and it ends as its last reply says: nothing, the granted token cached and handed out, or one more dead letter |
| `TokenCache.FailureLeavesCache` | src/nssf/runtime/oauth2_outbound.c:791-841 | a failed acquire keeps token and expiry if and only if it was granted nothing, or the very token and expiry in the cache; a grant shows in the cache although its copy failed |
| `TokenCache.FailureFillsCache` | src/nssf/runtime/oauth2_outbound.c:832-841 | that exception happens under every config: an acquire on the empty cache fails and leaves a token behind |
| `TokenCache.CacheProvenance` | src/nssf/runtime/oauth2_outbound.c:732-747 | over every run, what the cache holds was granted with that expiry by an earlier reply |
| `TokenCache.ServedBearerIsFresh` | src/nssf/runtime/oauth2_outbound.c:628-635 | over every run, a bearer served without a POST was obtained less than max_ttl − refresh_buffer seconds earlier |
| `Slices.SnssaiEqualPartialEquivalence` | src/nssf/engine/availability_engine.c:66-90 | symmetric and transitive; reflexive exactly on values with a numeric sst; what it compares is stated by `Slices.WrittenMatch` |
| `Slices.WrittenMatch` | src/nssf/engine/availability_engine.c:66-90 | two written slices match exactly when sst and sd are the same, a missing sd matching only a missing one |
| `Slices.WrittenInList` | src/nssf/engine/availability_engine.c:92-104 | a written list matches a written slice exactly when that very slice is in it |
| `Slices.WholePart` | src/nssf/engine/availability_engine.c:76 | an sst counts by its whole part, cut at the ends of a C int |
| `Slices.UnionCovers` | src/nssf/engine/availability_engine.c:140-152 | matching the deduplicated union is matching anything that was listed |
| `Slices.UnionNoTwoEqual` | src/nssf/engine/availability_engine.c:140-152 | the union holds no two equal slices |
| `Slices.UnionIsFirsts` | src/nssf/engine/availability_engine.c:140-156 | the union is what was there and then every listed object that matches nothing before it, as listed and in order |
| `Slices.FirstsOfWritten` | src/nssf/engine/availability_engine.c:140-156 | of written slices it keeps every pair of sst and sd, once |
| `AvailabilityRepo.SwapRemove` | src/nssf/repository/availability_repository.c:661-673 | moving the last record into the hole keeps ids unique and removes exactly one row of the map |
| `AvailabilityRepo.MatchingIsFind` | src/nssf/repository/availability_repository.c:532-571 | the scan returns the rows of the map that match PLMN and TAI, each once |
| `AvailabilityRepo.FoundIsRow` | src/nssf/repository/availability_repository.c:532-571 | a found record is the row of its id, with that PLMN and that TAI |
| `AvailabilityRepo.MemRepo.Find` | src/nssf/repository/availability_repository.c:532-571 | a find returns the matching rows of the map, each once; it fails exactly when an allocation fails and something matches |
| `AvailabilityRepo.MemRepo.Upsert` | src/nssf/repository/availability_repository.c:573-595 | overwrites or appends one row of the map, or fails without change |
| `AvailabilityRepo.MemRepo.Patch` | src/nssf/repository/availability_repository.c:597-659 | copies column by column, then writes column by column: no record differs when any copy fails, else the one record has all given columns and no other differs |
| `AvailabilityRepo.OverwriteWrites` | src/nssf/repository/availability_repository.c:635-653 | a given column is written, any other and the id keep their value |
| `AvailabilityRepo.MemRepo.Stage` | src/nssf/repository/availability_repository.c:610-633 | the copies succeed exactly when none of those that are made fails, and then they are the given columns |
| `AvailabilityRepo.MemRepo.WriteColumns` | src/nssf/repository/availability_repository.c:635-653 | the in-place writes together overwrite exactly the given columns of one record |
| `AvailabilityRepo.MemRepo.Delete` | src/nssf/repository/availability_repository.c:661-673 | removes exactly the row of the id, or reports that there is none |
| `SlicePatch.ParseArrayIndex` | src/nssf/engine/availability_engine.c:468-500 | accepts exactly decimal digits (leading zeros too) with a value in range, or "-" for append, though it stops reading early |
| `SlicePatch.ApplyOneOp` | src/nssf/engine/availability_engine.c:506-558 | one operation on an array of any size, with the size read as a C int and a copy of the value that may fail |
| `AvailabilityRequests.WrittenOpReads` | src/nssf/engine/availability_engine.c:424-455 | an operation written as JSON is valid and is read as itself, for all six operations |
| `AvailabilityRequests.ValidOpsHave` | src/nssf/engine/availability_engine.c:424-455 | nothing else is valid: one of the six names, a path, and the value or source the name asks for |
| `AvailabilityRequests.DigitsRead` | src/nssf/engine/availability_engine.c:468-500 | a number written in decimal is read as that number |
| `AvailabilityRequests.OpsAtIndex` | src/nssf/engine/availability_engine.c:506-558 | at "/n" on a list whose size is a C int: add puts the value before element n or at the end, remove closes the gap, replace and test need element n; "/-" appends |
| `SlicePatch.ApplyPatch` | src/nssf/engine/availability_engine.c:630-643 | the working list is the fold of all operations, or nothing once one fails, for lists and documents of any size |
| `SlicePatch.AbortStays` | src/nssf/engine/availability_engine.c:630-643 | an operation that fails makes every longer document fail |
| `SlicePatch.AddThenRemove` | src/nssf/engine/availability_engine.c:506-558 | a removal at a path undoes an addition at that path, exactly as long as the longer size is a C int |
| `SlicePatch.ReplaceIsRemoveThenAdd` | src/nssf/engine/availability_engine.c:506-558 | a replacement is a removal and then an addition at the same path |
| `SlicePatch.PatchSequential` | src/nssf/engine/availability_engine.c:630-643 | patching with a + b is patching with a, then with b |
| `RfcPatch.CompareIsEqual` | src/nssf/engine/availability_engine.c:547-553 | the engine's comparison is the equality of section 4.6 of RFC 6902 on values in which no name repeats |
| `RfcPatch.EditApplies` | src/nssf/engine/availability_engine.c:506-558 | an edit of RFC 6902 succeeds exactly when its path names a suitable location |
| `RfcPatch.OperationFollowsRfc` | src/nssf/engine/availability_engine.c:468-558 | the engine does what RFC 6902 says of an operation, on a list of any size, if and only if both find the same place at the path, RFC 6901 read strictly, no copy fails and nothing is appended at a size read wrong |
| `RfcPatch.PaddedIndicesDeviate` | src/nssf/engine/availability_engine.c:468-500 | among paths of one token on a list whose size is a C int, exactly the zero-padded indices in range deviate |
| `RfcPatch.PaddedRemove` | src/nssf/engine/availability_engine.c:468-500 | the engine removes "/00", which the RFC rejects |
| `RfcPatch.NestedReplace` | src/nssf/engine/availability_engine.c:468-500 | the engine rejects "/0/sd", which the RFC replaces |
| `RfcPatch.TooLong` | src/nssf/engine/availability_engine.c:511 | on a list of 2^31 elements the engine rejects "/0", which the RFC removes |
| `RfcPatch.DocumentFollowsRfc` | src/nssf/engine/availability_engine.c:605-643 | engine and RFC have the same document after every operation, up to a rejection, if and only if no operation that is reached deviates |
| `RfcPatch.OutcomeFollowsRfc` | src/nssf/engine/availability_engine.c:605-643 | the outcome of a patch within C int sizes is the RFC's if and only if no operation that is reached deviates, or both reject it in the end |
| `AvailabilityEngine.CollectedExact` | src/nssf/engine/availability_engine.c:114-158 | what a PUT stores matches a slice exactly when some entry lists it, and has no two equal slices |
| `AvailabilityRequests.FirstTaiIs` | src/nssf/engine/availability_engine.c:129-139 | the TAI of a PUT is that of the first entry that has an object there |
| `AvailabilityRequests.CollectedIsFirsts` | src/nssf/engine/availability_engine.c:114-158 | the collected list is every slice of every entry, where it is first listed, in the order of the request |
| `AvailabilityEngine.StepFaithful` | src/nssf/engine/availability_engine.c:266-284 | one event per commit, none on failure, and the event carries exactly what changed |
| `AvailabilityEngine.StepReplays` | src/nssf/engine/availability_engine.c:266-284 | a request keeps the replay of the published events equal to what is stored |
| `AvailabilityEngine.ReplayRebuilds` | src/nssf/engine/availability_engine.c:311-722 | over every run of PUT, PATCH and DELETE, replaying the events rebuilds the id → slices map |
| `AvailabilityRequests.PutStores` | src/nssf/engine/availability_engine.c:311-415 | a PUT without failures files all slices of all entries, each once, under the first TAI and its PLMN with the reallocation flag; announces them; answers 204 when there are none and 200 with them otherwise |
| `AvailabilityRequests.PutAnswers` | src/nssf/engine/availability_engine.c:311-415 | when a PUT is refused and how; a refused one changes nothing |
| `AvailabilityEngine.PatchApplies` | src/nssf/engine/availability_engine.c:560-688 | a PATCH that publishes has applied all its operations to the list the row held, which is the event's before; it has stored, announced and answered the outcome, which is the RFC's when none of the operations reached deviates |
| `AvailabilityRequests.PatchAnswers` | src/nssf/engine/availability_engine.c:560-688 | when a PATCH is refused and how: the content type, the request, a missing row, an operation that fails, a failed allocation or commit; a good one publishes |
| `AvailabilityRequests.RemovesOne` | src/nssf/engine/availability_engine.c:560-688 | removing "/n" of a stored list stores, announces and answers the list without element n, 204 when it was the last |
| `AvailabilityRequests.DeleteAnswers` | src/nssf/engine/availability_engine.c:690-722 | what a DELETE answers and does in each case |
| `AvailabilityEngine.Engine.Collect` | src/nssf/engine/availability_engine.c:114-158 | collects the union of all entries and the first TAI |
| `AvailabilityEngine.Engine.ReadSnapshot` | src/nssf/engine/availability_engine.c:225-264 | finds the list of the function's row for the PLMN and TAI; an error only when an allocation fails and a row matches |
| `AvailabilityEngine.Engine.Replace` | src/nssf/engine/availability_engine.c:311-415 | PUT on the array repository does what the map specification says, and keeps the replay of its events equal to the repository |
| `AvailabilityEngine.Engine.Patch` | src/nssf/engine/availability_engine.c:560-688 | PATCH likewise; in the array itself it is all or nothing: no event and no record changed, or one event and only the patched row's list is the announced one; and that list is the outcome of all operations on the old one, 204 when it is empty and 200 with it otherwise |
| `AvailabilityEngine.Engine.Delete` | src/nssf/engine/availability_engine.c:690-722 | DELETE likewise, through the swap with the last record |
| `Selection.RowUnionCovers` | src/nssf/engine/selection_engine.c:204-250 | the union over rows matches exactly what some row lists |
| `Selection.CollectAvailability` | src/nssf/engine/selection_engine.c:204-250 | the collected list matches a slice exactly when some stored row for the PLMN and TAI lists it; it fails only on a failed allocation |
| `Selection.Classify` | src/nssf/engine/selection_engine.c:397-445 | allowed are the requested slices, in order, that match subscription, policy and some stored row; rejected are the others; the verdict follows; no answer only on a failed allocation; `Selection.SelectsByPair` says it by sst and sd |
| `Selection.SelectsByPair` | src/nssf/engine/selection_engine.c:397-445 | over written slices: a requested (sst, sd) is allowed exactly when that very pair is subscribed, is held by some stored row of the PLMN and TAI, and is in the policy if there is one; rejected exactly otherwise |
| `Selection.AvailableWritten` | src/nssf/engine/selection_engine.c:204-250 | a written slice is available exactly when some stored row of the PLMN and TAI holds that very pair |
| `Selection.SplitPartition` | src/nssf/engine/selection_engine.c:397-445 | every position of the request is in exactly one of the two lists, each in order |
| `Selection.PutThenAvailable` | src/nssf/engine/selection_engine.c:204-250 | after a committed PUT a slice is available at a TAI exactly when another function provides it, or the TAI is the PUT's first one and any entry lists it |
| `Dependencies.StuckHasCycle` | design/scripts/nf-implement-slice-status.py:139-145 | nodes that all wait for each other contain a cycle |
| `Dependencies.FullOrderNoCycle` | design/scripts/nf-implement-slice-status.py:139-145 | an order that reaches every node rules a cycle out |
| `KahnChecks.TopoSort` | design/scripts/nf-implement-slice-status.py:123-145 | a permutation of the ids with every dependency earlier, exactly when all references resolve and there is no cycle |
| `KahnChecks.MergedHas` | design/scripts/nf-implement-slice-status.py:123-134 | it sees a dependency exactly when some entry with that id lists it |
| `KahnChecks.CheckWorkItems` | design/scripts/nf-impl-status.py:693-742 | reports a cycle exactly when the graph has a cycle or a repeated dependency; unresolved references come first |
| `KahnChecks.LastHas` | design/scripts/nf-impl-status.py:598-603 | of entries with one id the last one's list counts |
| `KahnChecks.CheckSlices` | design/scripts/validate-execution-control-drift.py:209-240 | the same over the known references, with a stack |
| `KahnChecks.KnownKeeps` | design/scripts/validate-execution-control-drift.py:209-240 | references to known ids count as often as they are listed, others not at all |
| `KahnChecks.LeftoversMembership` | design/scripts/nf-impl-status.py:722-742 | the membership-test loop finishes everything exactly without a cycle and without a repeat |
| `KahnChecks.ChecksAgree` | design/scripts/nf-impl-status.py:693-742 | with distinct ids and resolving references, checks 2 and 3 agree, and check 1 agrees with them exactly when the plan is cyclic or repeats no dependency |
| `KahnChecks.RepeatIsReported` | design/scripts/validate-execution-control-drift.py:209-240 | an acyclic plan with a repeated dependency on which they differ |
| `SliceScheduler.PickNext` | design/scripts/nf-implement-slice-status.py:148-165 | answers the first unmerged slice of a topological order of the plan, whose dependencies are all merged; none exactly when all slices are merged |
| `SliceScheduler.Drive` | design/scripts/nf-implement-slice-status.py:148-165 | merging its answers takes as many steps as there were unmerged slices, each once, never before its dependencies |
| `SchemaOrder.Sorter.Visit` | design/scripts/yaml-to-c.py:238-257 | visiting terminates on every graph and keeps the order invariant |
| `SchemaOrder.TopoSort` | design/scripts/yaml-to-c.py:238-261 | each collected schema once; a direct reference comes after its user only if the user is reachable from it |
| `SchemaOrder.AcyclicComesFirst` | design/scripts/yaml-to-c.py:238-261 | on acyclic references every reference comes before its user |
| `SchemaExpand.VisitShrinks` | design/scripts/resolve-yaml-refs.py:520-530 | following a reference that is not being expanded lowers the number of schemas left, so the expansion ends |
| `SchemaExpand.ResolveSound` | design/scripts/resolve-yaml-refs.py:496-557 | every expansion reports its markers, links only through the index, marks as unresolved only what does not resolve, has a cycle marker exactly for a file and name that an enclosing node expands and inlines only what none does, and nests no deeper than the schemas left |
| `SchemaExpand.SchemaNodeSound` | design/scripts/resolve-yaml-refs.py:560-600 | the same for the members of an object |
| `SchemaExpand.ReportIsExact` | design/scripts/resolve-yaml-refs.py:496-600 | every unresolved marker has its classified entry in order; the entries are exactly the markers if and only if, below the additionalProperties of every expanded allOf arm, each reference reached has a topic, is being expanded or resolves |
| `SchemaExpand.CleanReportsNothing` | design/scripts/resolve-yaml-refs.py:496-600 | an expansion reports nothing exactly when every reference it reaches has a topic, is being expanded or resolves |
| `SchemaNames.NameOfRef` | design/scripts/resolve-yaml-refs.py:131-218 | the name of a reference is what follows its last slash, in the same file or another |
| `SchemaNames.ClassOfRef` | design/scripts/resolve-yaml-refs.py:448-494 | an unresolved reference is a response slot or ProblemDetails, else common data of TS 29.571, else a blocker |
| `SchemaNames.StatusCodesAre` | design/scripts/resolve-yaml-refs.py:448-494 | response slots are "default" and three-digit codes from 100 to 599 |
| `SchemaNames.KindOfNode` | design/scripts/resolve-yaml-refs.py:532-557 | array by type; object by type, properties or additionalProperties; else a leaf with type and attributes |
| `SchemaNames.ObjectKeeps` | design/scripts/resolve-yaml-refs.py:560-600 | own properties come first, in order, with their required flags; additionalProperties are kept when allowed |
| `SchemaMeaning.ExpandsToMeaning` | design/scripts/resolve-yaml-refs.py:496-600 | a node is the expansion of a schema if and only if its parts stand for the schema's parts: members fill own properties and those of allOf arms in order, and a reference becomes a topic link, an unresolved marker, a cycle marker exactly when its file and name are being expanded, and the inlined schema exactly otherwise |
| `SchemaExpand.ReportWithoutMarker` | design/scripts/resolve-yaml-refs.py:582-588 | an arm that reports a reference the output does not show |
| `SchemaEmit.Expander.ResolveToNode` | design/scripts/resolve-yaml-refs.py:496-557 | the recursion with its shared list of unresolved references computes the specified node and entries |
| `SchemaEmit.Expander.ToNode` | design/scripts/resolve-yaml-refs.py:560-600 | likewise for an object |
| `SchemaEmit.BuildIndex` | design/scripts/resolve-yaml-refs.py:709-717 | the loop over the handoff topics builds the index |
| `SchemaEmit.IndexIsTopics` | design/scripts/resolve-yaml-refs.py:709-717 | a name is indexed exactly when a listed topic other than the root has it |
| `SchemaNames.LastTopicWins` | design/scripts/resolve-yaml-refs.py:709-717 | of several topics with one name the last one listed is linked |
| `SchemaNames.TopicOf` | design/scripts/resolve-yaml-refs.py:714 | a topic "category/Schema" stands for the schema |
| `SchemaEmit.EmitJson` | design/scripts/resolve-yaml-refs.py:662-722 | the bare entry for the name of a response slot, nothing for a root without a schema, else the index, the expansion of the root and the unresolved list together |
| `SchemaNames.KindOfRoot` | design/scripts/resolve-yaml-refs.py:603-660 | the root is an object when it or an arm of its allOf has members, else an array by type, else a leaf or unknown |
| `SchemaEmit.EmittedDocument` | design/scripts/resolve-yaml-refs.py:701-735 | over any files: links only to listed topics other than the root, cycle markers exactly for what encloses them by file and name, bounded nesting, and the exact condition for the unresolved list |
| `Text.FindIsFirst` | design/scripts/lib/md_table.py:133-137 | a search finds the least position at which the text occurs |
| `Text.WordsOfJoin` | design/scripts/lib/md_table.py:59 | splitting words joined with single spaces gives the words back |
| `Text.WordsConcat` | design/scripts/lib/md_table.py:59 | every white-space character separates words, whatever stands around it |
| `Text.LineEnds` | design/scripts/lib/md_table.py:139-149 | every line boundary ends a line; a carriage return with a line feed is one |
| `MdTable.CollapseKeepsWords` | design/scripts/lib/md_table.py:52-60 | a cell is the escaped, collapsed value; collapsing keeps the words and leaves no line break |
| `MdTable.EscapeParts` | design/scripts/lib/md_table.py:52-60 | a pipe is written with a backslash before it |
| `MdTable.EscapeKeeps` | design/scripts/lib/md_table.py:52-60 | text without pipes is written as it is |
| `MdTable.SplitRow` | design/scripts/lib/md_table.py:63-94 | the index loop computes the specified cells |
| `MdTable.PipeEndsCell` | design/scripts/lib/md_table.py:63-94 | every pipe that is not behind a backslash ends a cell, which is stripped |
| `MdTable.ReadEscaped` | design/scripts/lib/md_table.py:80-93 | an escaped text is read back as the text, whatever it holds |
| `MdTable.RowRoundTrip` | design/scripts/lib/md_table.py:52-94 | reading a written row gives the collapsed values back, for every mix of pipes and backslashes |
| `MdTable.ParseSection` | design/scripts/lib/md_table.py:127-149 | the loop over the section's lines computes the specified rows |
| `MdTable.RuleRowsAre` | design/scripts/lib/md_table.py:127-149 | a row is left out as a separator exactly when all its characters are dashes, colons and blanks |
| `MdTable.SectionRoundTrip` | design/scripts/lib/md_table.py:127-149 | a written section is read back as its rows, collapsed and in order, without the first and without those of dashes, colons and spaces only |
| `MdTable.NothingDropped` | design/scripts/lib/md_table.py:127-149 | a table none of whose rows looks like a separator is recovered whole |
| `MdTable.NoCells` | design/scripts/lib/md_table.py:63-94 | a row written without cells reads as one empty cell |
| `UserBlocks.ExtractBlocks` | design/scripts/nf-readiness-pack-generate.py:240-246 | the matches from left to right without overlap, a later block winning |
| `UserBlocks.HitIsMatch` | design/scripts/nf-readiness-pack-generate.py:240-246 | a block is read at a place exactly when its text stands there and no shorter body of that id would do |
| `UserBlocks.NextIsTaken` | design/scripts/nf-readiness-pack-generate.py:240-246 | the leftmost match of a text is taken and reading goes on behind it |
| `UserBlocks.NoneLeft` | design/scripts/nf-readiness-pack-generate.py:240-246 | a text without a match adds nothing |
| `UserBlocks.BlockText` | design/scripts/nf-readiness-pack-generate.py:236-237 | a block is its start marker, its body and its end marker on lines of their own |
| `UserBlocks.HitIsBlock` | design/scripts/nf-readiness-pack-generate.py:240-246 | what a match stands for is there character by character, and its body is closed |
| `UserBlocks.BlockReadsBack` | design/scripts/nf-readiness-pack-generate.py:236-246 | a written block is read back exactly when its body does not contain its own end marker |
| `UserBlocks.ExtractCloses` | design/scripts/materialize-contract.py:79-89 | whatever a text holds, the bodies read from it can be written and read again |
| `UserBlocks.DocumentReadsBack` | design/scripts/nf-readiness-pack-generate.py:640-713 | reading a rendered document gives the bodies it was written with |
| `UserBlocks.RenderKeepsBodies` | design/scripts/nf-readiness-pack-generate.py:640-713 | after rendering over any text, every block of the template has its old body, or the placeholder when that was missing or blank, and there is no other block |
| `UserBlocks.RenderFixesDocument` | design/scripts/nf-readiness-pack-generate.py:640-713 | rendering over a document gives the document back, whatever closed bodies people wrote |
| `UserBlocks.RenderIdempotent` | design/scripts/nf-readiness-pack-generate.py:640-713 | rendering twice is rendering once, for every text |
| `BlockTemplates.Assemble` | design/scripts/materialize-contract.py:116-126 | the loops over generated and human blocks write the specified document |
| `BlockTemplates.TopicBlocks` | design/scripts/materialize-contract.py:116-126 | a topic page has exactly the human blocks of its schema |
| `BlockTemplates.TopicGenerated` | design/scripts/materialize-contract.py:116-126 | it has every generated block, with the produced body or a note that there is none |
| `BlockTemplates.TraceabilityBlocks` | design/scripts/nf-readiness-pack-generate.py:640-713 | the traceability page has four human blocks |
| `BlockTemplates.PagesAreStable` | design/scripts/materialize-contract.py:79-126 | both generators' pages are fixed points and keep what people wrote, when generated text opens no USER marker |
| `BlockTemplates.GeneratedCopyWins` | design/scripts/nf-readiness-pack-generate.py:236-246 | why that condition is there: a template whose generated text holds a copy of a block is not stable, it replaces the human text |

## Left out

- Backoff.ComputeRetryDelay: the jitter is computed over exact reals; the rounding of C doubles is not modelled.
- RetryTheorems.BoundedBypass: speaks of stores that read the clock at each operation; in PostgreSQL, NOW() is the start of the transaction, so a row re-armed there can carry an earlier due time.
- RetryTheorems.Draining: a header-build failure is not productive, and a row past the attempt ceiling still weighs one, since it can still be POSTed once.
- RetryStore.MemStore.Requeue: attempt counts are unbounded; the overflow of the C int after 2^31 failed header builds is not modelled.
- RetryStore.MemStore.Dequeue: whether a row's payload can be split is a flag of the row; the envelope format is not modelled.
- TokenCache.ServedBearerIsFresh: nothing is said about the scope of a cached token, since the cache is one slot that is not keyed by scope.
- TokenCache.Classify: the token response is a record of the fields the client reads; the JSON scanner, base64url and JWS parsing are not modelled.
- AvailabilityEngine.StepFaithful: the `before` of a REPLACED event is read by the new TAI, so nothing is said about it; the change publisher is taken to be registered.
- AvailabilityRepo.MemRepo.Find: JSON values are compared structurally, where the source compares their printed forms; values that print alike, and a print that fails and so hides a row without an error, are not modelled.
- AvailabilityEngine.Engine.ReadSnapshot: as for the find, a failed print that hides the row is not modelled.
- Selection.CollectAvailability: as for the find, a failed print that hides a row is not modelled.
- SlicePatch.ApplyOneOp: numbers in a `test` operation are compared exactly, not within the relative tolerance of cJSON.
- RfcPatch.CompareIsEqual: where a name repeats in an object the RFC leaves equality open; the engine's comparison stands for it there. Removing the whole document, which the RFC does not describe, counts as an error.
- Selection.Classify: the subscribed and requested slices are given lists; gathering them from the query and the shape of the response are not modelled.
- SchemaEmit.EmitJson: the merging of scalar anyOf/oneOf roots is not modelled; they hold no reference.
- SchemaExpand.ResolveSound: of a classified entry only the reference and the class are modelled, not the texts; cycle markers and inlined objects carry reference, file and name, of which the emitted text shows a part; where a reference leads is a finite map rather than file lookup and docx extraction. A node has no `$ref` field, so "no `$ref` in the output" holds by its type.
- SchemaOrder.TopoSort: the walk that collects a schema's references is a given graph.
- KahnChecks.TopoSort: plan entries are ids with dependency lists; items that are not mappings are not modelled.
- MdTable.ParseSection: the line counter of the same file only counts rows and is not modelled.
- UserBlocks.ExtractBlocks: word characters are any set without the colon and the line feed, which Unicode's is; AUTO extraction, the same loop with another marker, is not modelled.
- BlockTemplates.PagesAreStable: front matter and generated bodies are given texts without a USER marker; how they are produced is not modelled.
- libpq, libcurl, OpenSSL, libjwt, pthread and cJSON internals; HTTP handlers, start-up and TLS.
- URL policy and correlation-id checks: single-branch string tests, taken as an answer of the environment.
- Rendering of C types and schema trees, and the merging of allOf for C emission.
- Gate, override, manifest, registry and front-matter checks of the scripts.
