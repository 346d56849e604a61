# Coordination protocols of Stensibly, in Dafny

Stensibly keeps its state in shared tables and changes it by mutations. Each mutation is one
serializable transaction: it reads rows through indexes, writes rows, schedules jobs, and leaves
everything as it was when it throws. Many mutations rely on agreements between tables that the code
checks when it meets them (`take(2)`, `…_CONFLICT`, `…invariant violated`) and that no single
function establishes. This project models those mutations and proves the agreements, and from them
what holds over whole histories.

Each protocol has three files.

- `XModel.dfy` holds the datatypes, the index reads, what each mutation does stated over the full
  tables, the invariant, and the laws of whole histories.
- `X.dfy` holds a class with the tables as fields and the mutations as methods, branch by branch with
  the probes, bounded reads and loops of the source. Each method is proved to do what the model
  says, so a fast form (one probe row, a truncated scan, one updated row) refines a statement about
  all rows. A branch that the source guards with an invariant error and that the invariant excludes
  ends in `assert false`.
- `XOutcomes.dfy` says for every mutation, in both directions, when each answer is given and what the
  tables are afterwards. It speaks of stored columns, of rows that exist or do not, and of literal
  limits, and takes over none of the conditions that the mutations are written with; it is the
  reference the other two files are held to.

| files | subject |
|---|---|
| `MailOutboundModel`, `MailOutbound`, `MailOutcomes` | outbound mail: effects, delivery lanes, retries, projections, provider messages |
| `RefreshFamilyModel`, `RefreshFamilies`, `RefreshOutcomes` | OAuth refresh-token families: rotation, replay, revocation, scheduled clean-up |
| `RunnerTables`, `RunnerModel`, `RunnerRuns`, `RunnerOutcomes` | the queue of runs: leases, generations, capacity, candidate scans, items |
| `RecoveryModel`, `AdapterCommands`, `RecoveryOutcomes` | adapter commands and recovery once their authority is gone |
| `ExclusiveLane`, `LaneRefinements` | one abstract lane, "exclusive until settled", and its three refinements |
| `RepositoryWriteModel`, `RepositoryWrites`, `RepositoryWriteOutcomes` | repository write receipts and lanes |
| `GmailDispositionModel`, `GmailDispositions`, `GmailDispositionOutcomes` | mailbox disposition effects and lanes |
| `CallsignModel`, `Callsigns`, `CallsignOutcomes` | callsign leases and worker enrolments: two writers of one lease table |
| `OAuthClientModel`, `OAuthClients`, `OAuthClientOutcomes` | OAuth clients, codes and tokens: two modules and their clean-up |
| `ReservationModel`, `Reservations`, `ReservationOutcomes` | resource reservations: an allocator of units |
| `MailboxIntakeModel`, `MailboxIntake`, `MailboxIntakeOutcomes` | mailbox reconciliation: revisions, cursors, observations |
| `ContinuationModel`, `Continuations`, `ContinuationOutcomes` | continuations, edits, and the supervisor with its policy |

## Assumptions

- The clock never goes back from one step to the next, and a step has one time.
- The order of an index is its fields, then insertion.
- A scheduled job is a member of a multiset of pending jobs, and fires once, at or after its time. The
  expiry timers of callsigns, enrolments and reservations may fire at any time and with any
  generation: their guards decide.
- A refresh-token ID that was ever stored is not issued again.
- An item ID that the database has yet to issue is named by no continuation
  (`ContinuationOutcomes.PolicyIsGreedy`).
- Hashes, fingerprints, canonical JSON and the texts that are only compared are numbers or
  uninterpreted functions, with no injectivity. Row numbers are the IDs that the database issues.
- Workspaces do not interact. A model covers one workspace (or one project, for repository writes),
  and where several can meet, as with OAuth clients, the workspace is part of the key.
- Only the supervisor dispatches a run with a continuation reference (convex/continuationSupervisor.ts:365).
  The text of a reference is a number, and the number of a continuation stands for the text that names it.
- Items have no other writers than the scheduler and the supervisor.

## Findings

- `runnerRuns.transition` stores the `continuationRef` it is sent on any run (convex/runnerRuns.ts:491
  and 846), and a workstation runner sends its result reference with `succeed`
  (src/glaeda-owned-workstation-runner.ts:227-235). The reference column therefore does not tell which
  continuation a run belongs to: `ContinuationModel.SucceedingReplacesReference` is a history after which
  a consumed continuation records a run that no longer refers to it, and never will again. Over every
  history the column and the recorded results stay paired if and only if no accepted transition carried
  a reference other than the stored one (`ContinuationModel.PairedUnlessReplaced`). What does hold
  without a condition is stated of the reference a run was dispatched with, which the model keeps as a
  history variable: exactly one run is dispatched for a consumed continuation
  (`ContinuationModel.OneRunPerContinuation`).
- `queuedRuns.finish` asks that the latest execution record be of the current generations of the run
  (convex/queuedRuns.ts:102-111). Claims and transitions raise them without a record until the run ends,
  so a finish is accepted if and only if nothing has written the run since the supervisor dispatched it
  (`RunnerModel.FinishOnlyAsDispatched`).
- `queuedRuns.finish` ends a run without touching its item (convex/queuedRuns.ts:116-127): the item stays
  active and held (`RunnerModel.FinishLeavesItemHeld`). Over every history an item agrees with the
  status of its newest run if and only if no step accepted a finish of that run
  (`RunnerModel.ItemAgreesUnlessFinished`).
- A claim throws over its item exactly when the chosen run is queued under a lease of somebody who is
  neither the claiming actor nor the actor of the run (`RunnerModel.ClaimHeldExactly`). Only a `retry` by
  another actor gives such a lease (`RunnerModel.OnlyRetryTakesOver`); as long as the run keeps the
  generation that retry gave it, nobody but the retrying actor is granted the run
  (`RunnerModel.RetryReservesRun`). The run loses that generation when it is started, cancelled, claimed
  or abandoned after its lease ran out.
- Resolving an expired continuation first marks it expired and then throws, so the mark is rolled
  back and the row stays as it was until a read settles it (`ContinuationModel.ExpiredAcceptsNothing`).
- In `queueOne`, given a validated request, everything that can fail precedes the first write of these
  tables, so catching an error inside a policy pass leaves no partial writes (`ContinuationModel.QueueDispatches`).
- Unreachable from empty tables: the conflict outcomes after the highest-attempt probe and of the
  message lookup in mail, the fail-closed deadline of refresh families, malformed clients, the
  collision and binding errors of callsigns, and the incoherent lanes of repository writes.

## Model

| member | source | states |
|---|---|---|
| `MailOutboundModel.NeverDeliversTwiceInARow` | convex/mailOutbound.ts:177-363 | Over every run and from every sound state, two successive successful settlements on one (thread, provider, account) never carry the same content fingerprint |
| `MailOutboundModel.StepDelivers` | convex/mailOutbound.ts:301-363 | One step delivers at most one content on a lane key; it then is the last content and differs from the one before |
| `MailOutboundModel.RunKeepsInv` | convex/mailOutbound.ts:177-363 | Effects, lanes, projections and message rows agree in every reachable state: one undecided effect per lane, numbered attempts, projection of the last success, message rows in bijection with successes |
| `MailOutboundModel.LaneMeansOneUndecided` | convex/mailOutbound.ts:214-228 | A delivery lane exists exactly when one effect of its key is reserved or ambiguous; it names that effect, with equal state and mailbox, and that effect is the newest of its key |
| `MailOutboundModel.AttemptNumbersAreGapFree` | convex/mailOutbound.ts:582-605 | The attempts of one content on one lane key are numbered exactly 1 to n, and n is at most 64 |
| `MailOutboundModel.HighestAttemptIsCount` | convex/mailOutbound.ts:262-298 | The single index probe for the highest attempt finds the newest attempt of the content, and its number is how often the content was tried |
| `MailOutboundModel.HighestAttemptOnFreeLane` | convex/mailOutbound.ts:275-298 | On a free lane the prior attempt is settled and has the mailbox of the lane, so the defensive outcomes of the retry branch cannot occur |
| `MailOutboundModel.ProjectionIsLastDelivery` | convex/mailOutbound.ts:230-273 | The projection of a lane key exists exactly when something was delivered there and carries its last delivered content; if that is the requested content, the highest attempt is that delivery |
| `MailOutboundModel.LookupIsExact` | convex/mailOutbound.ts:377-410 | A provider message ID finds the one effect delivered under it or nothing; the missing and conflicting outcomes are unreachable |
| `MailOutboundModel.UndecidedHasNoMessage` | convex/mailOutbound.ts:700-733 | No message row names an undecided effect, so a settlement never meets a second message of its own effect |
| `MailOutboundModel.TerminalEffectsAreFrozen` | convex/mailOutbound.ts:326-363 | A settled effect is identical in every later state of every run |
| `MailOutboundModel.IntervalsDoNotOverlap` | convex/mailOutbound.ts:214-363 | Over every run, once another effect of its lane key is undecided, an effect that was undecided before is decided for ever |
| `MailOutbound.MailOutbound.ReserveEffect` | convex/mailOutbound.ts:177-299 | The branches over lane, projection and highest-attempt probes decide exactly as the full history of the lane key does, and leave the tables alone unless a reservation is made; which answer that is, `MailOutcomes` says |
| `MailOutbound.MailOutbound.ReserveOnFreeLane` | convex/mailOutbound.ts:230-299 | With a free lane the content decides: replay of the last success, next attempt, 64-attempt limit, or identity conflict; exactly when, `MailOutcomes.ReplayExactly` and `ReservationExactly` say |
| `MailOutbound.MailOutbound.RetryEffect` | convex/mailOutbound.ts:582-605 | A retry keeps lane and content, takes the requested attempt number and derives its IDs from the digest of both; it is refused outside 2 to 64 |
| `MailOutbound.MailOutbound.InsertEffectAndLane` | convex/mailOutbound.ts:633-660 | Appends the effect and gives it the lane of its key; nothing else changes |
| `MailOutbound.MailOutbound.SettleEffect` | convex/mailOutbound.ts:301-363 | Settles an undecided effect by a receipt that fits it, answers the receipt it already has as a duplicate, and in every other case refuses without a change; exactly when, `MailOutcomes.SettlesExactly` says |
| `MailOutbound.MailOutbound.SettleHeldLane` | convex/mailOutbound.ts:333-363 | A settlement moves effect, lane, projection and message row together, or changes none of them; what is left, `MailOutcomes.SettlementEffect` says |
| `MailOutbound.MailOutbound.UpsertProjection` | convex/mailOutbound.ts:662-698 | Replaces a projection exactly when mailbox, provider thread and root are kept; otherwise refuses |
| `MailOutbound.MailOutbound.RecordProviderMessage` | convex/mailOutbound.ts:700-733 | Indexes a message ID exactly when it is free for its provider account |
| `MailOutbound.MailOutbound.GetEffectByProviderMessage` | convex/mailOutbound.ts:377-410 | The lookup never reaches an error outcome |
| `MailOutcomes.ReplayExactly` | convex/mailOutbound.ts:177-273 | A well-addressed request is answered with a replay if and only if its mailbox is that of its lane key, nothing there is undecided, and the content is that of the last delivered row, whatever attempts were delivered before; the answer is that row and no table changes |
| `MailOutcomes.ReservationExactly` | convex/mailOutbound.ts:177-299 | A reservation is granted if and only if thread and handle fit, every row of the lane key has the mailbox and is decided, the content was not the one delivered last, fewer than 64 rows carry it, and the ID of the next attempt is free |
| `MailOutcomes.ReservationEffect` | convex/mailOutbound.ts:268-298 | The effect reserved has the number of rows with its content plus one as attempt, and the lane key, content, mailbox and handle asked for; it is appended with its lane and nothing else changes |
| `MailOutcomes.ConflictOrBlocked` | convex/mailOutbound.ts:198-228 | A differing mailbox is a conflict and an undecided effect blocks, each naming the newest effect of the lane key |
| `MailOutcomes.SettlesExactly` | convex/mailOutbound.ts:301-363 | A receipt settles if and only if its effect is stored and undecided, receipt and projection are of it and new, a projection comes exactly with a success, and a success keeps the ancestry and has a free message ID; any other answer changes nothing |
| `MailOutcomes.SettlementEffect` | convex/mailOutbound.ts:344-363 | The row then has the result and the receipt, its key has a lane if and only if the result is ambiguous, and projection and message row are written exactly on success |
| `MailOutcomes.DuplicateExactly` | convex/mailOutbound.ts:326-332 | A receipt is a duplicate if and only if it is the one the row has |
| `MailOutcomes.HeldLaneCanBeFreed` | convex/mailOutbound.ts:301-363 | For every held lane a receipt of failure for its effect is accepted and frees it |
| `RefreshFamilyModel.RunKeepsInv` | convex/mcpOAuth.ts:191-526 | In every reachable state every refresh family is a chain in creation order in which all but the newest token are consumed and point to their successor, agrees on one deadline, and has a pending clean-up |
| `RefreshFamilyModel.RevokingNewestRevokesAll` | convex/mcpOAuth.ts:899-913 | Revoking only the newest row equals revoking every row that is not spent, and leaves none usable |
| `RefreshFamilyModel.ReplayIsFinal` | convex/mcpOAuth.ts:284-388 | After a rotation answers replayed, no later rotation of that family succeeds, whatever happens in between (RFC 9700, section 4.14.2) |
| `RefreshFamilyModel.RotatesOnce` | convex/mcpOAuth.ts:338-388 | A refresh token is exchanged for a successor at most once in any run |
| `RefreshFamilyModel.OnlyNewestUnspent` | convex/mcpOAuth.ts:899-913 | A token that is neither consumed nor revoked is the newest of its family |
| `RefreshFamilyModel.ProbesFindFamilyDeadline` | convex/mcpOAuth.ts:724-763 | Any non-empty set of probe rows of a family resolves to the deadline of all its rows |
| `RefreshFamilyModel.ResolveDeadline` | convex/mcpOAuth.ts:791-810 | Yields a deadline exactly when there are rows and all stand for the same one |
| `RefreshFamilyModel.RootIsOldest` | convex/mcpOAuth.ts:724-763 | A row named like its family is the oldest, so the coordinator is the oldest row whichever way it is found |
| `RefreshFamilyModel.StoredFamily` | convex/mcpOAuth.ts:316-329 | A presented token has a resolvable family deadline and a pending clean-up, so the fail-closed branch is unreachable |
| `RefreshFamilyModel.IssueKeepsInv` | convex/mcpOAuth.ts:241-279 | The code exchange starts a new sound family, with its clean-up scheduled |
| `RefreshFamilyModel.RotateKeepsInv` | convex/mcpOAuth.ts:284-388 | Every outcome of a rotation keeps all families sound |
| `RefreshFamilyModel.CleanupKeepsInv` | convex/mcpOAuth.ts:390-526 | Every firing of a clean-up job keeps the families that remain sound and served |
| `RefreshFamilyModel.FiringKeepsPending` | convex/mcpOAuth.ts:390-526 | After any firing every non-empty family still has a pending job that matches its coordinator, or a pending continuation |
| `RefreshFamilyModel.FiringsEmptyFamily` | convex/mcpOAuth.ts:487-526 | Firing the job of a family, then the continuations it leaves, removes the whole family in one firing per batch of 100 rows |
| `RefreshFamilyModel.DeletedOnlyAfterDeadline` | convex/mcpOAuth.ts:455-514 | A token row disappears only by a clean-up firing of its own family, at or after the family deadline and its own expiry |
| `RefreshFamilyModel.StepKeepsRows` | convex/mcpOAuth.ts:284-388 | A surviving row keeps its family and its grant, and stays spent once spent |
| `RefreshFamilies.RefreshFamilies.Exchange` | convex/mcpOAuth.ts:241-279 | Inserts the root token, stamps the schedule and enqueues the job at the family deadline |
| `RefreshFamilies.RefreshFamilies.RotateRefreshToken` | convex/mcpOAuth.ts:284-388 | Computes rotation, replay, rejection and the revocations they cause, as the whole-family specification says; to whom it is granted, `RefreshOutcomes.RotationExactly` says |
| `RefreshFamilies.RefreshFamilies.RotatePresented` | convex/mcpOAuth.ts:330-388 | Consumes the presented row, links it to one successor bounded by the family deadline, or revokes the family on replay |
| `RefreshFamilies.RefreshFamilies.ReadRefreshFamily` | convex/mcpOAuth.ts:724-763 | Three probe rows give the coordinator (the oldest row) and the deadline of all rows; it never fails on a stored family |
| `RefreshFamilies.RefreshFamilies.EnsureCleanupScheduled` | convex/mcpOAuth.ts:863-897 | Re-arms the coordinator exactly when no schedule for the deadline is stamped, and enqueues exactly one job then |
| `RefreshFamilies.RefreshFamilies.RevokeRefreshFamily` | convex/mcpOAuth.ts:899-913 | The one-row update leaves the family as a revocation of all rows would |
| `RefreshFamilies.RefreshFamilies.CleanupScheduled` | convex/mcpOAuth.ts:390-526 | A job that no longer matches its family deletes nothing; a matching or continuing one deletes a batch |
| `RefreshFamilies.RefreshFamilies.CleanupDue` | convex/mcpOAuth.ts:455-526 | A job that serves its family deletes at most 100 of the oldest rows |
| `RefreshFamilies.RefreshFamilies.DeleteBatch` | convex/mcpOAuth.ts:487-526 | Deletes exactly the oldest batch, and continues with a new job exactly when rows remain |
| `RefreshFamilies.RefreshFamilies.DeleteOldest` | convex/mcpOAuth.ts:511-512 | The loop of single deletions removes exactly the n oldest rows and their index entries |
| `RefreshOutcomes.RotationExactly` | convex/mcpOAuth.ts:284-388 | A rotation is granted if and only if a token is stored under that ID, workspace, secret and client, it is unspent and in time, its account may have its scopes, and the successor has a new ID and an admitted expiry; a token that is not stored so is invalid and nothing changes |
| `RefreshOutcomes.PresentedAnswer` | convex/mcpOAuth.ts:315-388 | A presented token is answered in order: replayed if spent, invalid if out of time or scope, an error if the successor does not fit, else rotated with its own scopes |
| `RefreshOutcomes.RotationEffect` | convex/mcpOAuth.ts:369-388 | A grant consumes the row, links it, and appends a row with the next ID and secret, the same account, client, resource and scopes, and the earlier of the expiry asked for and the deadline of the family; no other row changes |
| `RefreshOutcomes.RefusalRevokesFamily` | convex/mcpOAuth.ts:339-356 | A replayed or invalid presented token has every unspent row of its family revoked now, and nothing else of any row changes but the schedule |
| `RefreshOutcomes.ErrorChangesNothing` | convex/mcpOAuth.ts:357-368 | A rotation that throws leaves the tables as they were |
| `RefreshOutcomes.IssueExactly` | convex/mcpOAuth.ts:241-279 | A family is started if and only if the ID is new and the expiry within ninety days, and is then one row with that deadline and one pending clean-up |
| `RefreshOutcomes.CleanupExactly` | convex/mcpOAuth.ts:390-526 | A clean-up deletes the oldest hundred rows at most, if and only if its family exists and it continues an earlier one or carries the schedule of the oldest row |
| `RunnerTables.Scan` | convex/runnerRuns.ts:568-642 | An index range is read completely and in index order, insertion order among equals |
| `RunnerTables.ScanCounts` | convex/runnerRuns.ts:698-733 | A range has as many rows, in all and for each project, as the table has matching runs |
| `RunnerTables.SlotsAreTheStatusesTogether` | convex/runnerRuns.ts:704-733 | The six ranges of the capacity read cover every run that holds a slot exactly once |
| `RunnerModel.RunKeepsInv` | convex/runnerRuns.ts:92-566 | In every reachable state, with every writer of the run table admitted, an item has at most one live or retryable run and mirrors the lease and status of its newest run |
| `RunnerModel.OneOpenRunPerItem` | convex/lib/exactDispatch.ts:218-262 | Two live or retryable runs of one item are the same run, its newest |
| `RunnerModel.ReadyItemHasNoOpenRun` | convex/lib/exactDispatch.ts:218-262 | A ready item has no live or retryable run, so both status probes of a dispatch find nothing once the item check passed |
| `RunnerModel.RunsMoveForward` | convex/runnerRuns.ts:362-392 | Over every run of the system: generations never fall, one generation keeps one state up to the lease time, one lease generation keeps one owner, the item and the dispatch reference stay, closed runs never change |
| `RunnerModel.OneOwnerPerLease` | convex/runnerRuns.ts:180-198 | A lease generation of a run never has two owners |
| `RunnerModel.ClosedRunsAreFrozen` | convex/runnerRuns.ts:468-473 | A succeeded, cancelled or abandoned run, or a failed one without a planned retry, never changes |
| `RunnerModel.StepWrites` | convex/runnerRuns.ts:776-785 | Every write of a run by any module raises its generation, or is a heartbeat under the live lease that moves only the expiry |
| `RunnerModel.StepReferences` | convex/runnerRuns.ts:479-502 | The reference of a run changes exactly by an accepted transition that carries one; the reference of its dispatch and its item never change |
| `RunnerModel.FailuresStayInBudget` | convex/runnerRuns.ts:908-926 | The fail commands accepted over any history equal the growth of the retry counter, which never exceeds the maximum of attempts |
| `RunnerModel.ChoiceIsGloballyFirst` | convex/runnerRuns.ts:136-160 | With 100 rows read per pool, the chosen run precedes every other claimable run of the whole table; nobody means no run is claimable |
| `RunnerModel.FirstOfPool` | convex/runnerRuns.ts:644-696 | The first claimable row read of a pool precedes all claimable rows of that pool, also those beyond the scan |
| `RunnerModel.ClaimKeepsLimits` | convex/runnerRuns.ts:122-162 | After a granted claim the live runs are within the global and the project limit |
| `RunnerModel.ClaimHeldExactly` | convex/runnerRuns.ts:164-176 | A claim is refused over its item if and only if reconciliation and capacity pass and the chosen run is queued under a lease of neither the claiming actor nor the actor of the run |
| `RunnerModel.OnlyRetryTakesOver` | convex/runnerRuns.ts:928-947 | A queued run comes under a lease that is not that of its own actor only by a retry of another actor |
| `RunnerModel.RetryReservesRun` | convex/runnerRuns.ts:164-176 | After a retry by another actor than that of the run, over every history, no other actor is granted the run while it keeps the generation the retry gave it |
| `RunnerModel.ItemAgreesUnlessFinished` | convex/runnerRuns.ts:983-1062 | Over every history from tables without a finished run, an item shows what the status of its newest run stands for if and only if no step accepted a finish of that run |
| `RunnerModel.FinishedIffFinish` | convex/queuedRuns.ts:116-127 | Over every history, a run is ended with its lease still on it if and only if some step accepted a finish of it |
| `RunnerModel.FinishOnlyAsDispatched` | convex/queuedRuns.ts:88-111 | In every reachable state a finish is accepted if and only if the run has a dispatch reference, nothing has written it since its dispatch, and the fence names the dispatching actor and first generations |
| `RunnerModel.FinishLeavesItemHeld` | convex/queuedRuns.ts:116-127 | Every accepted finish leaves the item active and held by the finishing actor |
| `RunnerModel.FinishKeepsItem` | convex/queuedRuns.ts:116-127 | Writing a leased run without its item keeps the agreement the other writers rely on |
| `RunnerRuns.CandidateIsFirstClaimable` | convex/runnerRuns.ts:644-696 | Filtering by eligibility and picking the first with project room finds the first claimable row |
| `RunnerRuns.RunnerRuns.Claim` | convex/runnerRuns.ts:92-233 | A claim reconciles, counts, chooses and leases as specified over the full table, or changes nothing; what is granted and left, `RunnerOutcomes` says |
| `RunnerRuns.RunnerRuns.ReadWorkspaceCapacity` | convex/runnerRuns.ts:698-733 | Reading at most the limit of rows, says available exactly when the true count is below the limit, and then its project counts are exact |
| `RunnerRuns.RunnerRuns.IncrementAll` | convex/runnerRuns.ts:757-759 | The mutable map gains for every project exactly its rows among those read |
| `RunnerRuns.RunnerRuns.ReconcileExpiredRuns` | convex/runnerRuns.ts:735-755 | Abandons exactly the runs whose lease ran out and frees their items; with more than 100 in one status nothing is changed |
| `RunnerRuns.RunnerRuns.ReconcileStatus` | convex/runnerRuns.ts:740-754 | Settles all of one status or reports that there are too many |
| `RunnerRuns.RunnerRuns.ReconcileRows` | convex/runnerRuns.ts:748-753 | Settling row by row equals abandoning the set of rows at once |
| `RunnerRuns.RunnerRuns.ReconcileRunIfExpired` | convex/runnerRuns.ts:761-818 | Abandons the run and frees its item exactly when its lease ran out |
| `RunnerRuns.RunnerRuns.ReadClaimCandidates` | convex/runnerRuns.ts:568-642 | Returns the eligible ones of the first 100 rows of each pool, and says when a pool is longer |
| `RunnerRuns.RunnerRuns.ChooseRun` | convex/runnerRuns.ts:136-160 | Due retries before queued runs, each pool in index order |
| `RunnerRuns.RunnerRuns.Heartbeat` | convex/runnerRuns.ts:334-426 | Extends the lease of run and item under the live lease of the fence; nothing else moves |
| `RunnerRuns.RunnerRuns.Transition` | convex/runnerRuns.ts:428-566 | Applies a command under its fence to run and item together, stores the reference and the execution record it brings, or changes nothing; what is accepted and where it leads, `RunnerOutcomes` says |
| `RunnerRuns.RunnerRuns.ProjectItem` | convex/runnerRuns.ts:983-1062 | Writes the item of a run as its next state requires, and no other item; the conflict checks pass |
| `RunnerRuns.RunnerRuns.Finish` | convex/queuedRuns.ts:33-169 | Ends a live run under its fence, if its execution record is current, and leaves every item unchanged |
| `RunnerRuns.RunnerRuns.Dispatch` | convex/lib/exactDispatch.ts:65-135 | Inserts one leased queued run and activates its item exactly when the item accepts a dispatch |
| `RunnerOutcomes.GrantedRunFits` | convex/runnerRuns.ts:568-696 | The run granted was, before the claim, of the runner type and profile of the claim, of its project and the run asked for where given, and queued under a lease in time or failed with a retry due and budget left; its project had room |
| `RunnerOutcomes.GrantEffect` | convex/runnerRuns.ts:160-233 | The run granted is then starting, owned by the claiming actor for the lease time from now, one generation and one lease generation on, and its item is active under the same lease; of the other rows only leases that ran out are noticed |
| `RunnerOutcomes.IdleMeansNothingFits` | convex/runnerRuns.ts:125-160 | With capacity free, an idle answer means that no run meets the written-out conditions in a project with room |
| `RunnerOutcomes.GrantedIsFirst` | convex/runnerRuns.ts:644-696 | The run granted comes before every other that fits: due retries by their time, then queued runs by age |
| `RunnerOutcomes.ClaimRefusals` | convex/runnerRuns.ts:92-160 | A claim throws over leases that ran out if and only if there are more than a hundred of one status, and every throw leaves the tables as they were |
| `RunnerOutcomes.TruncationMeansMany` | convex/runnerRuns.ts:568-642 | A claim throws over its candidates only if more than a hundred are queued or due |
| `RunnerOutcomes.ClaimSucceeds` | convex/runnerRuns.ts:92-233 | Whoever asks for a run that fits, with capacity free, is granted one, but for those throws and a run taken over by a retry |
| `RunnerOutcomes.SlotsCountRows` | convex/runnerRuns.ts:698-733 | The slots held are as many as the active runs whose lease has not run out, in all and by project |
| `RunnerOutcomes.ReconciliationExactly` | convex/runnerRuns.ts:735-818 | Reconciling a workspace abandons all runs whose lease ran out and readies their items, or nothing when there are too many |
| `RunnerOutcomes.GetExactly` | convex/runnerRuns.ts:761-818 | Reading a run abandons it exactly if its lease ran out, readies its item, and changes nothing else |
| `RunnerOutcomes.TransitionExactly` | convex/runnerRuns.ts:428-566 | A command is accepted if and only if the fence names the run as it is, the command may start in its status (a table of 23 moves), the lease is the live one of the actor where the status has one and the command is no cancel, a failed run has a retry planned, and a retry is due and in budget |
| `RunnerOutcomes.TransitionEffect` | convex/runnerRuns.ts:832-1062 | An accepted command leaves the run in the status of the table, one generation on, with a new lease if it had none and needs one, a retry planned after a failure in budget by the backoff times the attempt, the record of an end, and its item showing the status |
| `RunnerOutcomes.HeartbeatExactly` | convex/runnerRuns.ts:334-426 | A heartbeat is accepted if and only if the fence is the live one of a run in use, and moves the expiry of run and item to the same time |
| `RunnerOutcomes.FinishEffect` | convex/queuedRuns.ts:102-169 | A finish leaves the run in the status sent, one generation on with its record, and changes no item |
| `RunnerOutcomes.DispatchExactly` | convex/lib/exactDispatch.ts:65-135 | A dispatch is accepted if and only if the item is ready, at the generation named and not held by another; it appends one queued run under a first lease and activates the item |
| `RunnerOutcomes.StatusIsLastWrite` | convex/runnerRuns.ts:832-961 | Over every history from tables without runs, the status of a run is the one its last accepted write leads to: Succeeded by succeed or a finish, Cancelled by cancel, Failed by fail, Blocked by block, Waiting by wait, Running by run or resume, Starting by start or a claim, Queued by dispatch or retry, Abandoned by reconciliation or a finish |
| `RunnerOutcomes.ItemIsLastWrite` | convex/runnerRuns.ts:983-1062 | Over every such history an item is done if and only if the last accepted write of its newest run was succeed, blocked if and only if block or fail, ready after cancel or reconciliation, and active otherwise |
| `RecoveryModel.RecoveredAuthorityNeverReturns` | convex/runnerAdapterCommandRecoveries.ts:83-143 | Once a recovery is granted, the authority that reserved the command (run, generation, lease generation, owner, live lease) is never live again in any continuation |
| `RecoveryModel.WriteKeepsGone` | convex/runnerRuns.ts:776-785 | No write of a run, by any module, gives back an authority that was lost |
| `RecoveryModel.RunKeepsInv` | convex/runnerAdapterCommandRecoveries.ts:83-143 | In every reachable state the recoveries of a command are numbered without gaps, own it in disjoint intervals, and none starts after its settlement |
| `RecoveryModel.LatestIsCount` | convex/runnerAdapterCommandRecoveries.ts:97-130 | The recovery found with the highest generation is the newest of its command, and its generation is their number |
| `RecoveryModel.DispatchAuthorisedOnce` | convex/runnerAdapterCommands.ts:90-172 | Only the first reservation under a key or ID authorises a dispatch, for ever |
| `RecoveryModel.SettlementIsFinal` | convex/runnerAdapterCommands.ts:175-245 | A settlement never changes and closes its command to recovery |
| `AdapterCommands.AdapterCommands.RequireAuthority` | convex/runnerAdapterCommands.ts:279-319 | Accepts exactly the run generation, lease generation, owner and unexpired lease the requester names |
| `AdapterCommands.AdapterCommands.Reserve` | convex/runnerAdapterCommands.ts:90-172 | Reserves a new command under live authority, replays an equal one, refuses a differing one |
| `AdapterCommands.AdapterCommands.Settle` | convex/runnerAdapterCommands.ts:175-230 | Settles a command once, replays the equal outcome, refuses another |
| `AdapterCommands.AdapterCommands.ClaimRecovery` | convex/runnerAdapterCommandRecoveries.ts:21-145 | Grants the next recovery generation exactly when the command is unsettled, the original authority is dead and no earlier recovery still owns it |
| `RecoveryOutcomes.ReserveExactly` | convex/runnerAdapterCommands.ts:90-172 | A command is reserved if and only if its key and ID are new and the run has the project, item, type, profile, generations and owner of the request under a live lease; it is stored as sent |
| `RecoveryOutcomes.ReservationRepeats` | convex/runnerAdapterCommands.ts:98-124 | A used key answers the equal request with its command and no other |
| `RecoveryOutcomes.SettleExactly` | convex/runnerAdapterCommands.ts:175-230 | A settlement is taken if and only if the command has that fingerprint and none yet; a repeated outcome is answered and a differing one refused |
| `RecoveryOutcomes.UnknownSettlesNothing` | convex/runnerAdapterCommands.ts:190-201 | An ID without a command settles nothing |
| `RecoveryOutcomes.RecoverExactly` | convex/runnerAdapterCommandRecoveries.ts:45-107 | A recovery is granted if and only if its key is new, the command exists unsettled with that fingerprint, a live lease of its run is of the recovering actor and not the authority that reserved it, and every earlier recovery ran out |
| `RecoveryOutcomes.RecoverEffect` | convex/runnerAdapterCommandRecoveries.ts:109-143 | A recovery is numbered by how many the command had, plus one, and owns it for the seconds asked for; nothing else changes |
| `RecoveryOutcomes.RecoveryRepeats` | convex/runnerAdapterCommandRecoveries.ts:46-62 | A used key answers the equal request with its recovery and no other |
| `ExclusiveLane.BehaviourIsExclusive` | convex/mailOutbound.ts:214-228 | In every state of every behaviour of the abstract lane a key is held exactly by its undecided owner |
| `ExclusiveLane.SettledForEver` | convex/gmailMailboxDisposition.ts:264-286 | A settled result stays, and its owner never holds a lane again |
| `ExclusiveLane.IntervalsDoNotOverlap` | convex/githubRepositoryWrites.ts:505-552 | An owner that lost a key to another owner never holds it again, unless it was withdrawn in between |
| `ExclusiveLane.NextMovesForward` | convex/gmailMailboxDisposition.ts:191-303 | A step keeps the key of an owner, never lowers its phase and keeps its result |
| `MailRefinesLane.StepRefines` | convex/mailOutbound.ts:177-363 | Every mail step is a step of the abstract lane, and its state is exclusive |
| `MailRefinesLane.RunRefines` | convex/mailOutbound.ts:177-363 | The lane states of every mail run are a behaviour of the abstract lane, so its laws of behaviours hold of them |
| `MailRefinesLane.OwnersStay` | convex/mailOutbound.ts:177-363 | No mail step withdraws an owner |
| `RepositoryWriteRefinesLane.StepRefines` | convex/githubRepositoryWrites.ts:58-251 | Every repository-write step is a step of the abstract lane, and its state is exclusive |
| `RepositoryWriteRefinesLane.RunRefines` | convex/githubRepositoryWrites.ts:58-251 | The lane states of every run of repository writes are a behaviour of the abstract lane |
| `RepositoryWriteRefinesLane.OwnersStay` | convex/githubRepositoryWrites.ts:58-251 | No repository write withdraws an owner |
| `GmailDispositionRefinesLane.StepRefines` | convex/gmailMailboxDisposition.ts:191-303 | Every disposition step is a step of the abstract lane; only the release of a precondition retry withdraws |
| `GmailDispositionRefinesLane.RunRefines` | convex/gmailMailboxDisposition.ts:191-303 | The lane states of every run of dispositions are a behaviour of the abstract lane |
| `RepositoryWriteModel.RunKeepsInv` | convex/githubRepositoryWrites.ts:58-251 | In every reachable state a lane exists for a (project, repository, ref) exactly while one receipt blocks it |
| `RepositoryWriteModel.LaneMeansOneBlocker` | convex/githubRepositoryWrites.ts:505-552 | A lane names the single blocking receipt of its ref, with equal parent and times, and that receipt is the newest of the ref |
| `RepositoryWriteModel.OwnerOwnsOneLane` | convex/githubRepositoryWrites.ts:505-546 | A receipt owns exactly its own lane while it blocks and none afterwards |
| `RepositoryWriteModel.TransitionMoves` | convex/githubRepositoryWrites.ts:381-399 | An accepted action starts from a blocking receipt, keeps identity and verification, and never lowers rank or dispatch count |
| `RepositoryWriteModel.ReceiptsMoveForward` | convex/githubRepositoryWrites.ts:286-399 | Over every run a receipt only moves forward, and never changes once rejected or succeeded |
| `RepositoryWriteModel.IntervalsDoNotOverlap` | convex/githubRepositoryWrites.ts:505-552 | Over every run, once another receipt of its ref blocks, a receipt that blocked before never blocks again |
| `RepositoryWriteModel.RejectedWasNeverDispatched` | convex/githubRepositoryWrites.ts:286-379 | A rejected receipt was never dispatched or verified; a succeeded one was dispatched once and is verified |
| `RepositoryWrites.RepositoryWrites.Reserve` | convex/githubRepositoryWrites.ts:58-172 | Reserves a free ref, replays an equal request, reports the blocker, and refuses reused keys and IDs |
| `RepositoryWrites.RepositoryWrites.Transition` | convex/githubRepositoryWrites.ts:174-251 | Moves receipt and lane together, releasing the lane exactly on rejection or verified success |
| `RepositoryWrites.RepositoryWrites.LaneCoherent` | convex/githubRepositoryWrites.ts:505-546 | The coherence check never throws on a state these steps build |
| `RepositoryWrites.RepositoryWrites.Get` | convex/githubRepositoryWrites.ts:253-284 | Finds the receipt of a key, or nothing, and never meets an incoherent lane |
| `RepositoryWriteOutcomes.ReserveExactly` | convex/githubRepositoryWrites.ts:58-172 | A write is reserved if and only if it is fresh, its key and ID are new and no undecided write is on its ref; a used key is a replay exactly for the same change by the same actor and client, and a held ref names its holder |
| `RepositoryWriteOutcomes.ReserveEffect` | convex/githubRepositoryWrites.ts:135-172 | A reservation appends the receipt and its lane, any other answer changes nothing |
| `RepositoryWriteOutcomes.TransitionExactly` | convex/githubRepositoryWrites.ts:174-251 | A transition is applied if and only if the receipt shown is stored, or is the stored reservation as dispatched, and the action leads from it to the one proposed, by a table of five actions |
| `RepositoryWriteOutcomes.TransitionEffect` | convex/githubRepositoryWrites.ts:225-251 | An applied transition stores the proposed receipt; its lane is deleted by a rejection and a release and moved to its time by the other actions |
| `RepositoryWriteOutcomes.HeldLaneCanBeFreed` | convex/githubRepositoryWrites.ts:286-399 | From every reachable state every held lane can be freed by at most two transitions |
| `GmailDispositionModel.RunKeepsInv` | convex/gmailMailboxDisposition.ts:191-303 | In every reachable state the lane of a message is held exactly by its one outstanding effect |
| `GmailDispositionModel.LaneIsOutstandingEffect` | convex/gmailMailboxDisposition.ts:169-189 | A lane names an effect if and only if that effect is the outstanding one of the message |
| `GmailDispositions.GmailDispositions.ReserveEffect` | convex/gmailMailboxDisposition.ts:191-241 | Takes a free lane, replays its own effect, and otherwise reports the effect that blocks |
| `GmailDispositions.GmailDispositions.MarkReconciliationRequired` | convex/gmailMailboxDisposition.ts:243-262 | Keeps the lane held and records the phase, on effect and lane alike |
| `GmailDispositions.GmailDispositions.MarkSettled` | convex/gmailMailboxDisposition.ts:264-286 | Settles the effect and frees its lane together; repeats only the equal outcome |
| `GmailDispositions.GmailDispositions.ReleasePreconditionRetry` | convex/gmailMailboxDisposition.ts:288-303 | Withdraws an effect held at its precondition read together with its lane, and refuses in every other state |
| `GmailDispositions.GmailDispositions.FindOutstanding` | convex/gmailMailboxDisposition.ts:169-189 | Finds the outstanding effect of a message, or proves there is none |
| `GmailDispositions.GmailDispositions.LaneByEffect` | convex/gmailMailboxDisposition.ts:427-434 | An effect has a lane exactly while it is not settled |
| `GmailDispositionOutcomes.ReserveExactly` | convex/gmailMailboxDisposition.ts:191-241 | An effect is reserved if and only if its ID is new and no unsettled effect is on its message; the others are existing, refused or blocked by that effect; the lanes stay those of the unsettled effects |
| `GmailDispositionOutcomes.ReportsExactly` | convex/gmailMailboxDisposition.ts:243-286 | Both reports are taken if and only if the effect is unsettled, and replace its state and nothing else; a repeated settlement is answered |
| `GmailDispositionOutcomes.ReleaseExactly` | convex/gmailMailboxDisposition.ts:288-303 | An effect is withdrawn if and only if it must be reconciled at the precondition read |
| `CallsignModel.RunKeepsInv` | convex/callsignLeases.ts:47-255 | Under any interleaving of both modules, generations are numbered per collision key, only the newest lease may be active, and enrolments and their leases are bound to each other with equal expiry |
| `CallsignModel.GenerationsAreGapFree` | convex/callsignLeases.ts:324-337 | The generations of a collision key are exactly 1 to n, held in that order, and the highest-generation read finds n |
| `CallsignModel.ActiveLeaseIsNewest` | convex/callsignLeases.ts:303-322 | The probe for active leases finds the newest one or nothing, so the collision invariant error is unreachable |
| `CallsignModel.ActiveEnrolmentIsNewest` | convex/workerEnrolments.ts:409-432 | The probe for active enrolments of a session finds the newest one or nothing |
| `CallsignModel.AttachedLeaseIsOutOfReach` | convex/callsignLeases.ts:355-366 | A lease attached to an enrolment can be neither renewed nor released through the lease commands |
| `CallsignModel.EnrolmentHoldsCallsign` | convex/workerEnrolments.ts:464-615 | An active enrolment with time left holds its callsign: the lease is active, has its expiry and generation, and is the only active one of its key |
| `CallsignModel.EnrolmentEndedKeepsInv` | convex/workerEnrolments.ts:464-475 | Ending an enrolment together with its lease keeps all of this |
| `CallsignModel.RowsMoveForward` | convex/callsignLeases.ts:339-366 | Over every run leases and enrolments keep identity and generation, ended ones never change, and stored results stay |
| `CallsignModel.CommandTakesEffectOnce` | convex/workerEnrolments.ts:353-390 | Repeating a command at any later time changes no row and returns the first result; its key serves no other request |
| `Callsigns.Callsigns.Reserve` | convex/callsignLeases.ts:47-113 | Grants the next generation of a free key or names the rejection, settling an expired holder on the way |
| `Callsigns.Callsigns.Renew` | convex/callsignLeases.ts:115-172 | Extends only the active lease of the same holder and generation |
| `Callsigns.Callsigns.Release` | convex/callsignLeases.ts:174-215 | Ends only the active lease of the same holder and generation |
| `Callsigns.Callsigns.CurrentLeaseForCollision` | convex/callsignLeases.ts:303-322 | Settles an expired lease of the key and returns the one still active, if any |
| `Callsigns.Callsigns.ReconcileLeaseIfExpired` | convex/callsignLeases.ts:339-353 | Expires exactly an active lease whose time is over |
| `Callsigns.Callsigns.ExpireLeaseScheduled` | convex/callsignLeases.ts:241-255 | A timer of an older generation or an early one changes nothing |
| `Callsigns.Callsigns.Enrol` | convex/workerEnrolments.ts:86-200 | One active enrolment per session; rejections and reconciliations as specified |
| `Callsigns.Callsigns.EnrolWithCallsign` | convex/workerEnrolments.ts:477-584 | Enrolment and callsign lease are inserted together with the next generation, or neither is |
| `Callsigns.Callsigns.SettleAttachedCallsign` | convex/workerEnrolments.ts:586-615 | Ends the attached lease with the enrolment; the binding error is unreachable |
| `Callsigns.Callsigns.Heartbeat` | convex/workerEnrolments.ts:202-245 | Changes only the active enrolment of its owner |
| `Callsigns.Callsigns.ReleaseWorker` | convex/workerEnrolments.ts:247-295 | Ends the enrolment and its lease together |
| `Callsigns.Callsigns.ReconcileIfExpired` | convex/workerEnrolments.ts:452-475 | Expires an enrolment and its lease together, exactly when its time is over |
| `Callsigns.Callsigns.ActiveEnrolmentForSession` | convex/workerEnrolments.ts:409-432 | Settles an expired enrolment of the session and returns the one still active, if any |
| `Callsigns.Callsigns.ExpireEnrolmentScheduled` | convex/workerEnrolments.ts:342-351 | A timer changes something only when the enrolment is active and over |
| `Callsigns.Callsigns.WithCommand` | convex/workerEnrolments.ts:353-390 | Executes a command once per key and replays its stored result |
| `CallsignOutcomes.ReserveExactly` | convex/callsignLeases.ts:47-113 | The answer to a reservation is the first reason that applies (inheritance, expired, beyond a week, held, stale generation), and else a lease numbered by how many the key had, plus one |
| `CallsignOutcomes.ReserveEffect` | convex/callsignLeases.ts:64-113 | A reservation notices the lease of its key that is over, appends the one granted, and changes no other row |
| `CallsignOutcomes.RefusedReservationReports` | convex/callsignLeases.ts:70-75 | A refusal reports the live lease in the way, if there is one, and the last generation |
| `CallsignOutcomes.RenewExactly` | convex/callsignLeases.ts:115-172 | A lease is renewed if and only if it lives, run and session hold it at that generation, and the new expiry is later than the old one and within a week; else the first reason that fails is reported |
| `CallsignOutcomes.ReleaseExactly` | convex/callsignLeases.ts:174-215 | A lease is released if and only if it lives and run and session hold it at that generation |
| `CallsignOutcomes.UnknownLeaseIsNotFound` | convex/callsignLeases.ts:115-215 | An ID without a lease is reported as not found, and nothing changes |
| `CallsignOutcomes.EnrolExactly` | convex/workerEnrolments.ts:86-200 | The answer to an enrolment is the first reason that applies (projects, expired, session taken, callsign malformed, beyond a week, held), and else the worker asked for |
| `CallsignOutcomes.EnrolEffect` | convex/workerEnrolments.ts:477-584 | An enrolment notices the worker of its session and the callsign that are over, appends the worker and its lease, and changes no other row |
| `CallsignOutcomes.HeartbeatExactly` | convex/workerEnrolments.ts:202-245 | A heartbeat is taken if and only if its owner names a worker that lives, and moves its time alone |
| `CallsignOutcomes.LeaveExactly` | convex/workerEnrolments.ts:247-295 | A worker leaves if and only if its owner says so while it lives, and its callsign is released with it |
| `CallsignOutcomes.TimersAndReads` | convex/callsignLeases.ts:217-255 | A lease timer acts if and only if the lease is due at the generation it was armed with; a read settles what is due |
| `CallsignOutcomes.WorkerTimersAndReads` | convex/workerEnrolments.ts:297-351 | An enrolment timer and a read of the owner settle what is due and nothing else |
| `CallsignOutcomes.CommandRuns` | convex/workerEnrolments.ts:353-390 | Under a new key a command does what its kind says, and its answer is stored with it |
| `OAuthClientModel.RunKeepsInv` | convex/mcpOAuthClientLifecycle.ts:99-379 | Under any interleaving of both modules every code and refresh token names an existing client of its workspace, no client is malformed, every unused client has its matching pending clean-up, and no workspace exceeds 1000 clients |
| `OAuthClientModel.OnlyExpiredUnreferencedClientsGo` | convex/mcpOAuthClientLifecycle.ts:284-379 | A client that is used, not yet expired, or referenced survives every step with its metadata |
| `OAuthClientModel.DeleteKeepsInv` | convex/mcpOAuthClientLifecycle.ts:381-400 | Deleting a client after the reference probes found nothing leaves no dangling name |
| `OAuthClientModel.StepKeepsNames` | convex/mcpOAuth.ts:284-388 | Rotation, replay and clean-up bring no token of an unknown client |
| `OAuthClients.OAuthClients.Register` | convex/mcpOAuthClientLifecycle.ts:99-177 | Answers registered, conflict, expired, retry or limit as specified, with the sweep it makes first |
| `OAuthClients.OAuthClients.RegisterNew` | convex/mcpOAuthClientLifecycle.ts:125-177 | A new client is stored unused with its clean-up job, unless the workspace is full after the sweep |
| `OAuthClients.OAuthClients.RegisterLegacy` | convex/mcpOAuth.ts:76-120 | The older registration refuses a taken ID and respects the same limit |
| `OAuthClients.OAuthClients.ReconcileLifecycle` | convex/mcpOAuthClientLifecycle.ts:200-225 | Marks a referenced client of the workspace as used, and says whether it had to |
| `OAuthClients.OAuthClients.CreateCode` | convex/mcpOAuthClientLifecycle.ts:227-282 | A code is stored only for a client of the workspace; the lifecycle module also demands an available client and marks it used; only expired codes are swept |
| `OAuthClients.OAuthClients.ExchangeAuthorizationCode` | convex/mcpOAuth.ts:191-282 | A presented code is consumed whatever comes of it; a refresh family of the same client starts exactly when offline access is granted |
| `OAuthClients.OAuthClients.CleanupUnusedScheduled` | convex/mcpOAuthClientLifecycle.ts:284-342 | A job that no longer matches its client changes nothing; a matching one deletes an unreferenced client and keeps a referenced one as used |
| `OAuthClients.OAuthClients.CleanupExpiredUnusedClients` | convex/mcpOAuthClientLifecycle.ts:344-379 | The counters account for every candidate of the batch, and the table shrinks by exactly the cleaned ones |
| `OAuthClients.OAuthClients.ClientHasReferences` | convex/mcpOAuthClientLifecycle.ts:381-400 | The index probes find a reference exactly when a code or token of the workspace names the client |
| `OAuthClients.OAuthClients.ReadExpiredUnused` | convex/mcpOAuthClientLifecycle.ts:349-356 | Finds one more than a batch of expired unused clients, or all there are |
| `OAuthClients.OAuthClients.DeleteExpiredCodes` | convex/mcpOAuthClientLifecycle.ts:712-718 | Deletes at most 100 codes, all of them expired |
| `OAuthClientOutcomes.RegisterAgain` | convex/mcpOAuthClientLifecycle.ts:117-140 | Registering a known client is a conflict if workspace or metadata differ; if its time is over it is in use when anything names it and expired otherwise; else nothing changes |
| `OAuthClientOutcomes.RegisterExactly` | convex/mcpOAuthClientLifecycle.ts:142-177 | A new client is registered if and only if fewer than a thousand remain after a sweep of a hundred at most; it is unused for a day with its clean-up pending, and the sweep deletes exactly the unreferenced of its clients |
| `OAuthClientOutcomes.RegisterLegacyExactly` | convex/mcpOAuth.ts:76-120 | The older module registers if and only if the ID is new and the workspace has fewer than a thousand |
| `OAuthClientOutcomes.ReconcileExactly` | convex/mcpOAuthClientLifecycle.ts:200-225 | A client is repaired if and only if it was not in use and a code or token names it |
| `OAuthClientOutcomes.CleanupExactly` | convex/mcpOAuthClientLifecycle.ts:284-342 | A scheduled clean-up acts if and only if the client is unused at the schedule it was armed with, and deletes it if and only if nothing names it |
| `OAuthClientOutcomes.CreateCodeExactly` | convex/mcpOAuthClientLifecycle.ts:227-282 | A code is created if and only if the client is of the workspace, registered the redirect and is not over, the account may have the scopes, offline access comes with the refresh grant, the ID is new and the expiry within ten minutes |
| `OAuthClientOutcomes.CreateCodeEffect` | convex/mcpOAuthClientLifecycle.ts:254-282 | The code is stored as asked for, the swept codes are gone, and the client is in use |
| `OAuthClientOutcomes.ExchangeAnswers` | convex/mcpOAuth.ts:191-282 | An exchange grants the scopes of the code if and only if it is in time and presented with its workspace, secret, client, redirect and challenge for an account that may have them; a refresh token that does not fit is an error |
| `OAuthClientOutcomes.ExchangeEffect` | convex/mcpOAuth.ts:204-282 | The code is consumed whatever the answer, unless it is of another workspace and in time or the exchange threw; a family is started if and only if offline access was granted |
| `ReservationModel.RunKeepsInv` | convex/reservations.ts:24-254 | In every reachable state the active rows of a resource are one exclusive row, or shared rows that agree on capacity and sum to at most it |
| `ReservationModel.EndedRowsAreFrozen` | convex/reservations.ts:217-254 | A released or expired row never changes again |
| `ReservationModel.StaleTimerDoesNothing` | convex/reservations.ts:217-236 | No timer, of any generation and at any time, changes a row that has ended |
| `ReservationModel.OneMoreFits` | convex/reservations.ts:67-116 | What may be added to the active rows of a resource, asked of those rows |
| `ReservationModel.LiveRowsDecide` | convex/reservations.ts:67-116 | What acquire asks of the unexpired rows is the resource rule for all rows after expiry plus the new one, for both modes |
| `Reservations.Reservations.ExpireAndListLive` | convex/reservations.ts:53-66 | The loop expires exactly the rows whose time is over and lists the others |
| `Reservations.Reservations.Acquire` | convex/reservations.ts:24-133 | Grants exactly when the request is well formed and the resource rule still holds once the due rows have expired and the new row is added; a denial changes nothing |
| `Reservations.Reservations.Release` | convex/reservations.ts:135-178 | Ends an active row for its holder, answers an ended one as it is, refuses everybody else |
| `Reservations.Reservations.ExpireScheduled` | convex/reservations.ts:217-236 | Expires a row only if it is active, over, and of the generation of the timer |
| `ReservationOutcomes.AcquireExactly` | convex/reservations.ts:24-133 | A reservation is acquired if and only if the request is within its bounds and the rows in time on its resource are none, or are shared at the same capacity with enough units left for a shared request; a denial changes nothing |
| `ReservationOutcomes.AcquireEffect` | convex/reservations.ts:53-104 | The rows of the resource whose time is over have expired and the new one is last, with the lease time asked for |
| `ReservationOutcomes.ReleaseExactly` | convex/reservations.ts:135-178 | A release ends an active row of its holder, answers an ended one, and refuses others |
| `ReservationOutcomes.TimerExactly` | convex/reservations.ts:217-236 | A timer ends a row if and only if it is active, due, and at the generation it was armed with |
| `MailboxIntakeModel.RunKeepsInv` | convex/mailboxIntake.ts:62-217 | In every reachable state the reconciliations of a binding form the revision chain 1 to its current revision, and its stored observations are as many as they inserted |
| `MailboxIntakeModel.CursorsNeverRegress` | convex/mailboxIntake.ts:320-353 | Over every history Gmail cursors never fall, nothing stored is lost, and no Gmail observation added lies behind the cursor at the start |
| `MailboxIntakeModel.ObservationsWithinCursors` | convex/mailboxIntake.ts:341-353 | From its initialisation on, every observation stored for a Gmail binding lies between the initial and the current cursor |
| `MailboxIntakeModel.RepeatingChangesNothing` | convex/mailboxIntake.ts:124-137 | A repeated reconciliation, at any later time, changes nothing and reports the first revision and count |
| `MailboxIntakeModel.MergedCounts` | convex/mailboxIntake.ts:165-193 | A batch adds to its binding exactly what it adds to the whole table, and nothing to other bindings |
| `MailboxIntakeModel.CommitKeepsPlaced` | convex/mailboxIntake.ts:341-353 | After a commit every Gmail observation of the binding is within its cursors |
| `MailboxIntake.MailboxIntake.Initialize` | convex/mailboxIntake.ts:19-60 | Creates a binding at revision 1, or answers an equal repetition, or refuses |
| `MailboxIntake.MailboxIntake.CommitReconciliation` | convex/mailboxIntake.ts:62-217 | Commits, repeats or refuses as specified; a refusal changes nothing |
| `MailboxIntake.MailboxIntake.CommitNew` | convex/mailboxIntake.ts:138-215 | A new reconciliation stores observations, its row and the next revision together |
| `MailboxIntake.MailboxIntake.Unique` | convex/mailboxIntake.ts:154-163 | Keeps one entry per observation ID, and fails exactly when an ID stands for two contents |
| `MailboxIntake.MailboxIntake.InsertObservations` | convex/mailboxIntake.ts:165-193 | Inserts exactly the unknown observations and counts them; fails exactly on a stored one that differs |
| `MailboxIntakeOutcomes.InitializeExactly` | convex/mailboxIntake.ts:19-60 | A binding is created at revision 1 if and only if there is none; an equal state is answered and a differing one refused |
| `MailboxIntakeOutcomes.CommitExactly` | convex/mailboxIntake.ts:62-217 | A reconciliation is committed if and only if it is new, its batch is of the binding and of 256 at most, revision and cursor are the expected ones, scope and provider stay, no Gmail cursor regresses, and every observation lies between the cursors and contradicts no other; a repeated one is answered |
| `MailboxIntakeOutcomes.CommitEffect` | convex/mailboxIntake.ts:138-215 | The binding is one revision on with its new state, exactly the new observations are added and none is changed, and a row reports their number |
| `ContinuationModel.ContinuationsMoveForward` | convex/continuations.ts:95-118 | Over every run generations never fall, a continuation changes only by raising its generation from a live status, and consumed continuations and the runs dispatched for them stay paired |
| `ContinuationModel.TerminalIsAbsorbing` | convex/continuations.ts:95-118 | A continuation in a terminal status never changes again |
| `ContinuationModel.AcceptedOncePerGeneration` | convex/continuations.ts:336-365 | Of all commands, edits, dispatches and policy dispatches at most one is accepted per generation, and none at or after the expiry |
| `ContinuationModel.ExpiredAcceptsNothing` | convex/continuations.ts:335-348 | A command on an expired continuation is refused, and the expiry it came upon is rolled back with it |
| `ContinuationModel.OneRunPerContinuation` | convex/continuationSupervisor.ts:351-409 | Exactly the run that a continuation consumed by the supervisor records was dispatched for it, and none for any other continuation |
| `ContinuationModel.PairedUnlessReplaced` | convex/runnerRuns.ts:479-502 | Over every history, references and recorded results stay paired if and only if no accepted transition carried a reference different from the stored one |
| `ContinuationModel.ClosedMismatchStays` | convex/runnerRuns.ts:468-502 | A run that closes with another reference than that of its dispatch leaves the tables unpaired in every later state |
| `ContinuationModel.SucceedingReplacesReference` | src/glaeda-owned-workstation-runner.ts:227-235 | A queued, started and running run that succeeds with a result reference is such a run: a concrete history from tables without runs |
| `ContinuationModel.QueueDispatches` | convex/continuationSupervisor.ts:207-375 | Once the checks of the supervisor have passed, the dispatch goes through, so no attempt stops after its first write |
| `ContinuationModel.PolicyDispatchesWithinLimit` | convex/continuationSupervisor.ts:64-165 | One policy pass attempts at most its limit, most urgent first; dispatches no continuation, item or run twice; and leaves what it skips as it was |
| `ContinuationModel.PolicyNeverReplays` | convex/continuationSupervisor.ts:103-163 | The command key a policy pass derives was never used for the generation it asks for |
| `ContinuationModel.ApplyLater` | convex/continuations.ts:336-365 | An accepted command names the current generation, raises it by one, needs time left, and brings a result only by consumption |
| `ContinuationModel.Candidates` | convex/continuationSupervisor.ts:82-120 | Exactly the undecided, unexpired continuations for supervisors that no human must approve, in policy order |
| `Continuations.SortByPolicy` | convex/continuationSupervisor.ts:696-702 | Sorting keeps the members and yields the policy order |
| `Continuations.OrderedListsAgree` | convex/continuationSupervisor.ts:696-702 | There is one list of given members in policy order, so sorting and specification agree |
| `Continuations.Continuations.Propose` | convex/continuations.ts:120-232 | Appends a proposal at generation 1 exactly when its source item exists |
| `Continuations.Continuations.Get` | convex/continuations.ts:234-248 | A read settles an expired continuation first |
| `Continuations.Continuations.Perform` | convex/continuations.ts:287-404 | Resolves or edits once per key: replays the equal command, refuses a differing one |
| `Continuations.Continuations.ResolveRow` | convex/continuations.ts:336-404 | Accepts exactly the transitions of the table at the expected generation |
| `Continuations.Continuations.EditRow` | convex/continuationEdits.ts:75-95 | Edits a proposed or deferred continuation in time at the expected generation, and raises it; otherwise refuses |
| `Continuations.Continuations.TargetIsDispatchable` | convex/continuationSupervisor.ts:463-504 | The item check decides alone: the probes for live and retryable runs find nothing after it |
| `Continuations.Continuations.MayQueue` | convex/continuationSupervisor.ts:207-241 | All checks made before the first write, as one condition |
| `Continuations.Continuations.QueueOne` | convex/continuationSupervisor.ts:167-461 | Dispatches with approval, item, run and consumption together, replays, or changes nothing |
| `Continuations.Continuations.QueueWrites` | convex/continuationSupervisor.ts:248-461 | The writes after the checks always complete |
| `Continuations.Continuations.ReadCandidates` | convex/continuationSupervisor.ts:82-120 | Collects and sorts the candidates of a pass |
| `Continuations.Continuations.RunPolicy` | convex/continuationSupervisor.ts:64-165 | The loop computes the specified pass and never dispatches more than its limit |
| `Continuations.Continuations.Consider` | convex/continuationSupervisor.ts:103-163 | One candidate is dispatched or skipped, and a caught failure changes nothing |
| `ContinuationOutcomes.ResolveExactly` | convex/continuations.ts:95-118 | A command is accepted if and only if the table of twelve moves lets it start in the status, at the generation named and before the expiry, with a result exactly when it consumes, one that shows what the action demands |
| `ContinuationOutcomes.ResolveEffect` | convex/continuations.ts:352-404 | An accepted command leaves the status of the table, one generation on, with the result sent |
| `ContinuationOutcomes.EditExactly` | convex/continuationEdits.ts:75-95 | An edit is accepted if and only if the continuation is proposed or deferred, at the generation named and in time; it replaces the instruction, one generation on |
| `ContinuationOutcomes.CommandRepeats` | convex/continuations.ts:316-332 | A used key answers the equal request with its result and no other |
| `ContinuationOutcomes.ExpireExactly` | convex/continuations.ts:234-248 | A read marks a continuation expired if and only if it is live and its time is over |
| `ContinuationOutcomes.ProposeExactly` | convex/continuations.ts:120-232 | A proposal is recorded if and only if its source item exists |
| `ContinuationOutcomes.QueueExactly` | convex/continuationSupervisor.ts:207-246 | A supervisor queues a run if and only if the continuation is live, in time, at the generation named and open to the approval mode, its source exists, and its item, unless it is to be created, is ready and not held by another |
| `ContinuationOutcomes.QueueEffect` | convex/continuationSupervisor.ts:248-461 | Queueing consumes the continuation by the run, one generation on or two if it had to be approved, appends the run for the supervisor under a first lease, and activates or creates the item |
| `ContinuationOutcomes.QueueRepeats` | convex/continuationSupervisor.ts:167-205 | A used key answers the equal request with its result and no other |
| `ContinuationOutcomes.ShortlistFound` | convex/continuationSupervisor.ts:82-127 | A pass takes up the proposed or deferred supervisor continuations with automatic or notify approval that are in time, the soonest to expire first and then the oldest, all of them or as many as its limit |
| `ContinuationOutcomes.PolicyIsGreedy` | convex/continuationSupervisor.ts:64-165 | A pass dispatches a continuation of its shortlist if and only if its action could be carried out when the pass began, its key is new, and no more urgent one that was dispatched has its item or key; it skips exactly the others |

## Left out

- Service secrets, workspace and project lookup, validation and normalisation of texts, timestamps and URLs, public views, events, activity and audits: single-branch facts that no decision of the protocols reads. Validated bounds that a proof needs are in each model's `Admissible` or `Admitted`.
- JSON admission, hashing and parsing in the `src/` modules: rows are their decoded records.
- Legacy rows that the modelled steps never write: refresh jobs with positive generations or without a workspace, families without a root, leases without rows, quarantined clients, legacy supervisor requests, the legacy run table.
- Checkpoints, outcomes, usage, start, end and heartbeat times of runs and external run IDs: descriptive, no decision reads them. Of execution envelopes and records only the generations of the latest are kept, which a finish reads; the bound of 100 records per run is out of reach, since a run gets one per failure, of which there are at most 20, and one at its end.
- The replay table of runner commands and the replay of a finish: it returns a stored result and changes nothing, as the stored commands of callsigns and continuations do, which are modelled.
- Mail threads are opened by one event that keeps IDs and handles unique; reserving and updating a thread in steps is not modelled.
- Listing and reading queries, mailbox current state and settled deliveries, OAuth client queries and audits: they change nothing.
- `claims`, `items`, `completionContinuations`, `workSelectionClaims`, `accountUsageReservations`, `operationWorkflows` and the provider tables: simple steps, or decided in files that are not part of this model.
- The clean-up of an unused client that fires before its time re-arms itself; jobs fire when due here, so this branch does not occur.
- The checkpoint lineage that a recovery claim carries: it is computed by a function that is not part of this model and decides nothing about ownership.
- `OAuthClients.OAuthClients.CleanupExpiredUnusedClients`: which expired clients a batch takes first is left open (its ghost result says which), because no law depends on the order.
- `OAuthClients.OAuthClients.CreateCode`: which expired codes are swept first is left open for the same reason.
- `ContinuationModel.PolicyDispatchesWithinLimit`: the project filter of a pass is a parameter, the set of continuations kept, and ties of the policy order fall to the row number instead of the text of the ID.
- `RunnerRuns.RunnerRuns.Dispatch`: the probe of the legacy run table is not modelled, no modelled step writes that table.
- `Continuations.Continuations.TargetIsDispatchable`: the probe of the legacy run table is not modelled, for the same reason.
- `Callsigns.Callsigns.Enrol`: whether all projects of a request exist is a parameter.
- `Reservations.Reservations.Acquire`: the existence of the project and item it names is not checked.
- `Continuations.Continuations.Propose`: its idempotency key, notes and evidence are not modelled.
- `GmailDispositionModel.RunKeepsInv`: the times of effects and lanes are not modelled, nothing reads them.
- `RefreshFamilyModel.StoredFamily`: the deadline that the fail-closed branch would compute is not modelled, only that the branch is never taken.
